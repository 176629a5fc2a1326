/** HDT dictionary strings for terms (crates/graphy-hdt/src/term.rs) over the
    validating constructors of crates/graphy-core/src/term.rs. */
module HdtTerm {
  import opened Seqs
  import opened Terms
  import opened Concise

  const COLON: Byte := 0x3A
  const AT: Byte := 0x40
  const CARET: Byte := 0x5E
  const LESS: Byte := 0x3C
  const GREATER: Byte := 0x3E
  const UNDERSCORE: Byte := 0x5F

  // ------------------------------------------------------- constructors

  /** `Term::literal_lang`: the tag is checked, then lowercased. */
  function MakeLang(lex: Bytes, tag: Bytes, dir: Option<Dir>): Option<Term> {
    if TagShape(tag, true) then Some(Lang(lex, Lower(tag), dir)) else None
  }

  /** `Term::literal_typed`: xsd:string folds, the tagged datatypes are refused. */
  function MakeTyped(c: Checks, lex: Bytes, dt: Bytes): Option<Term> {
    if dt == XSD_STRING then Some(Simple(lex))
    else if Dedicated(dt) || !c.iri(dt) then None
    else Some(Typed(lex, dt))
  }

  lemma {:induction false} LowerFind(s: Bytes)
    ensures Find(Lower(s), HYPHEN) == Find(s, HYPHEN)
  {
    if s != [] && s[0] != HYPHEN {
      LowerFind(s[1..]);
      assert Lower(s)[1..] == Lower(s[1..]);
    }
  }

  lemma {:induction false} LowerShape(tag: Bytes, primary: bool)
    requires TagShape(tag, primary)
    ensures TagShape(Lower(tag), primary)
    decreases |tag|
  {
    LowerFind(tag);
    var cut := Find(tag, HYPHEN);
    assert Lower(tag)[..cut] == Lower(tag[..cut]);
    if cut < |tag| {
      LowerShape(tag[cut + 1..], false);
      assert Lower(tag)[cut + 1..] == Lower(tag[cut + 1..]);
    }
  }

  lemma {:induction false} LowerFixed(s: Bytes)
    ensures Lower(s) == s <==> forall i :: 0 <= i < |s| ==> !IsUpper(s[i])
  {
    if forall i :: 0 <= i < |s| ==> !IsUpper(s[i]) {
      assert forall i :: 0 <= i < |s| ==> Lower(s)[i] == s[i];
    } else {
      var i :| 0 <= i < |s| && IsUpper(s[i]);
      assert Lower(s)[i] != s[i];
    }
  }

  /** Constructed literals satisfy the invariant of terms. */
  lemma {:induction false} ConstructedOk(c: Checks, lex: Bytes, tag: Bytes, dir: Option<Dir>, dt: Bytes, depth: nat)
    requires c.utf8(lex) && depth <= MAX_DEPTH
    ensures MakeLang(lex, tag, dir).Some? ==> TermOk(c, MakeLang(lex, tag, dir).value, depth)
    ensures MakeTyped(c, lex, dt).Some? ==> TermOk(c, MakeTyped(c, lex, dt).value, depth)
  {
    if TagShape(tag, true) { LowerShape(tag, true); }
  }

  // ------------------------------------------------------- strings

  /** Position of the last `b`, or -1. */
  function FindLast(s: Bytes, b: Byte): (i: int)
    ensures -1 <= i < |s| && (forall j :: i < j < |s| ==> s[j] != b) && (i >= 0 ==> s[i] == b)
    decreases |s|
  {
    if s == [] then -1
    else if s[|s| - 1] == b then |s| - 1
    else FindLast(s[..|s| - 1], b)
  }

  function TypedSuffix(dt: Bytes): Bytes { [CARET, CARET, LESS] + dt + [GREATER] }

  function LangSuffix(tag: Bytes, dir: Option<Dir>): Bytes { [AT] + tag + DirSuffix(dir) }

  /** `concise_to_hdt`; triple terms have no HDT string. */
  function ToHdt(t: Term): Option<Bytes> {
    match t
    case Iri(i) => Some(i)
    case Blank(n) => Some([UNDERSCORE, COLON] + n)
    case Simple(l) => Some([QUOTE] + l + [QUOTE])
    case Lang(l, tag, dir) => Some([QUOTE] + l + [QUOTE] + LangSuffix(tag, dir))
    case Typed(l, dt) => Some([QUOTE] + l + [QUOTE] + TypedSuffix(dt))
    case TripleTerm(_, _, _) => None
  }

  /** `rsplit_once("--")`, with an unknown direction left in the tag. */
  function SplitTag(tag: Bytes): (Bytes, Option<Dir>) {
    match SplitHead(tag)
    case Some((t, dir)) => (t, dir)
    case None => (tag, None)
  }

  function Literal(c: Checks, lex: Bytes, suffix: Bytes): Option<Term> {
    if suffix == [] then Some(Simple(lex))
    else if suffix[0] == AT then
      var (tag, dir) := SplitTag(suffix[1..]);
      MakeLang(lex, tag, dir)
    else if [CARET, CARET, LESS] <= suffix && suffix[|suffix| - 1] == GREATER && |suffix| >= 4 then
      MakeTyped(c, lex, suffix[3..|suffix| - 1])
    else None
  }

  /** `hdt_to_concise`: the lexical form runs to the last quote. */
  function FromHdt(c: Checks, s: Bytes): Option<Term> {
    if [QUOTE] <= s then
      var rest := s[1..];
      var close := FindLast(rest, QUOTE);
      if close < 0 then None else Literal(c, rest[..close], rest[close + 1..])
    else if [UNDERSCORE, COLON] <= s then
      if c.name(s[2..]) then Some(Blank(s[2..])) else None
    else if c.iri(s) then Some(Iri(s))
    else None
  }

  lemma {:induction false} LastQuote(lex: Bytes, suffix: Bytes)
    requires QUOTE !in suffix
    ensures FindLast(lex + [QUOTE] + suffix, QUOTE) == |lex|
    ensures (lex + [QUOTE] + suffix)[..|lex|] == lex && (lex + [QUOTE] + suffix)[|lex| + 1..] == suffix
  {
    var s := lex + [QUOTE] + suffix;
    LastQuoteAt(s, |lex|, suffix);
  }

  lemma {:induction false} LastQuoteAt(s: Bytes, k: nat, suffix: Bytes)
    requires k < |s| && s[k] == QUOTE && s[k + 1..] == suffix && QUOTE !in suffix
    ensures FindLast(s, QUOTE) == k
    decreases |s|
  {
    if k < |s| - 1 {
      var n := |s| - 1;
      assert s[n] == suffix[n - k - 1];
      LastQuoteAt(s[..n], k, suffix[..|suffix| - 1]);
    }
  }

  lemma {:induction false} LiteralRoundTrip(c: Checks, lex: Bytes, suffix: Bytes)
    requires QUOTE !in suffix
    ensures FromHdt(c, [QUOTE] + lex + [QUOTE] + suffix) == Literal(c, lex, suffix)
  {
    var s := [QUOTE] + lex + [QUOTE] + suffix;
    assert s[1..] == lex + [QUOTE] + suffix;
    LastQuote(lex, suffix);
  }

  // ------------------------------------------------------- what else decodes

  function Quoted(lex: Bytes, suffix: Bytes): Bytes { [QUOTE] + lex + [QUOTE] + suffix }

  /** The string stands for the term: as it is written, but with tags in any case and
      plain strings also with their datatype. */
  ghost predicate StandsFor(c: Checks, s: Bytes, t: Term) {
    match t
    case Iri(i) => s == i && c.iri(i) && !([QUOTE] <= s) && !([UNDERSCORE, COLON] <= s)
    case Blank(n) => s == [UNDERSCORE, COLON] + n && c.name(n)
    case Simple(l) => s == Quoted(l, []) || s == Quoted(l, TypedSuffix(XSD_STRING))
    case Lang(l, tag, dir) =>
      exists given :: TagShape(given, true) && Lower(given) == tag && s == Quoted(l, LangSuffix(given, dir))
    case Typed(l, dt) => c.iri(dt) && !Dedicated(dt) && s == Quoted(l, TypedSuffix(dt))
    case TripleTerm(_, _, _) => false
  }

  lemma {:induction false} StringIsPlain()
    ensures QUOTE !in TypedSuffix(XSD_STRING)
  {
    assert forall i :: 0 <= i < |XSD + "string"| ==> (XSD + "string")[i] != '"';
    assert QUOTE == '"' as int;
  }

  lemma {:induction false} GivenTagReads(c: Checks, lex: Bytes, given: Bytes, dir: Option<Dir>)
    requires TagShape(given, true)
    ensures QUOTE !in LangSuffix(given, dir)
    ensures Literal(c, lex, LangSuffix(given, dir)) == Some(Lang(lex, Lower(given), dir))
  {
    HeadRoundTrip(given, dir);
    assert LangSuffix(given, dir)[1..] == given + DirSuffix(dir);
  }

  lemma {:induction false} DatatypeReads(c: Checks, lex: Bytes, dt: Bytes)
    ensures Literal(c, lex, TypedSuffix(dt)) == MakeTyped(c, lex, dt)
  {
    var suffix := TypedSuffix(dt);
    assert suffix[3..|suffix| - 1] == dt;
  }

  lemma {:induction false} StandingDecodes(c: Checks, s: Bytes, t: Term)
    requires Sane(c) && StandsFor(c, s, t)
    ensures FromHdt(c, s) == Some(t)
  {
    match t
    case Iri(_) =>
    case Blank(n) => assert s[0] == UNDERSCORE && s[..2] == [UNDERSCORE, COLON] && s[2..] == n;
    case Simple(l) =>
      StringIsPlain();
      LiteralRoundTrip(c, l, []);
      LiteralRoundTrip(c, l, TypedSuffix(XSD_STRING));
      DatatypeReads(c, l, XSD_STRING);
    case Lang(l, tag, dir) =>
      var given :| TagShape(given, true) && Lower(given) == tag && s == Quoted(l, LangSuffix(given, dir));
      GivenTagReads(c, l, given, dir);
      LiteralRoundTrip(c, l, LangSuffix(given, dir));
    case Typed(l, dt) =>
      DatatypeReads(c, l, dt);
      LiteralRoundTrip(c, l, TypedSuffix(dt));
  }

  lemma {:induction false} WrittenStands(c: Checks, t: Term)
    requires Sane(c) && TermOk(c, t, 0) && !t.TripleTerm?
    ensures ToHdt(t).Some? && StandsFor(c, ToHdt(t).value, t)
  {
    match t
    case Iri(i) =>
    case Blank(_) =>
    case Simple(l) => assert Quoted(l, []) == [QUOTE] + l + [QUOTE];
    case Lang(l, tag, dir) => LowerFixed(tag);
    case Typed(_, _) =>
  }

  /** Every valid term but a triple term survives its HDT string. */
  lemma {:induction false} HdtRoundTrip(c: Checks, t: Term)
    requires Sane(c) && TermOk(c, t, 0) && !t.TripleTerm?
    ensures ToHdt(t).Some? && FromHdt(c, ToHdt(t).value) == Some(t)
  {
    WrittenStands(c, t);
    StandingDecodes(c, ToHdt(t).value, t);
  }

  /** So distinct terms have distinct dictionary strings. */
  lemma {:induction false} HdtInjective(c: Checks, t: Term, u: Term)
    requires Sane(c) && TermOk(c, t, 0) && TermOk(c, u, 0) && !t.TripleTerm? && !u.TripleTerm?
    requires ToHdt(t) == ToHdt(u)
    ensures t == u
  {
    HdtRoundTrip(c, t);
    HdtRoundTrip(c, u);
  }

  lemma {:induction false} TagSplits(head: Bytes)
    ensures var (tag, dir) := SplitTag(head); head == tag + DirSuffix(dir)
  {
    if SplitHead(head).Some? && SplitHead(head).value.1.Some? {
      HeadAccepted(head, LastDash(head).value, SplitHead(head).value.1.value);
    } else {
      assert head + DirSuffix(None) == head;
    }
  }

  lemma {:induction false} LangStands(c: Checks, lex: Bytes, given: Bytes, dir: Option<Dir>)
    requires TagShape(given, true)
    ensures StandsFor(c, Quoted(lex, LangSuffix(given, dir)), Lang(lex, Lower(given), dir))
  {
  }

  lemma {:induction false} TypedStands(c: Checks, lex: Bytes, dt: Bytes)
    requires MakeTyped(c, lex, dt).Some?
    ensures StandsFor(c, Quoted(lex, TypedSuffix(dt)), MakeTyped(c, lex, dt).value)
  {
  }

  lemma {:induction false} LiteralStands(c: Checks, lex: Bytes, suffix: Bytes)
    requires Literal(c, lex, suffix).Some?
    ensures StandsFor(c, Quoted(lex, suffix), Literal(c, lex, suffix).value)
  {
    if suffix == [] {
      assert StandsFor(c, Quoted(lex, []), Simple(lex));
    } else if suffix[0] == AT {
      var head := suffix[1..];
      var (tag, dir) := SplitTag(head);
      TagSplits(head);
      assert suffix == [AT] + tag + DirSuffix(dir);
      LangStands(c, lex, tag, dir);
    } else {
      var dt := suffix[3..|suffix| - 1];
      assert suffix == TypedSuffix(dt);
      TypedStands(c, lex, dt);
    }
  }

  /** Exactly which strings decode, and to what. */
  lemma {:induction false} FromHdtIff(c: Checks, s: Bytes, t: Term)
    requires Sane(c)
    ensures FromHdt(c, s) == Some(t) <==> StandsFor(c, s, t)
  {
    if FromHdt(c, s) == Some(t) {
      if [QUOTE] <= s {
        var rest := s[1..];
        var close := FindLast(rest, QUOTE);
        assert s == Quoted(rest[..close], rest[close + 1..]);
        LiteralStands(c, rest[..close], rest[close + 1..]);
      } else if [UNDERSCORE, COLON] <= s {
        assert s == [UNDERSCORE, COLON] + s[2..];
      }
    }
    if StandsFor(c, s, t) { StandingDecodes(c, s, t); }
  }
}

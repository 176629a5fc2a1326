/** The canonical byte encoding of terms (crates/graphy-core/src/concise.rs). */
module Concise {
  import opened Seqs
  import opened Terms
  import opened Varint

  const TRIPLE_TERM: Byte := 0x09
  const QUOTE: Byte := 0x22
  const HYPHEN: Byte := 0x2D
  const IRI_MARK: Byte := 0x3E
  const LANG_MARK: Byte := 0x40
  const DATATYPE_MARK: Byte := 0x5E
  const BLANK_MARK: Byte := 0x5F
  const MAX_DEPTH: nat := 32

  /** The character-level validators, which this model does not look inside. */
  datatype Checks = Checks(utf8: Bytes -> bool, iri: Bytes -> bool, name: Bytes -> bool)

  /** What the encoding relies on: absolute IRIs and labels are text, IRIs begin
      with a scheme letter and hold no quote, and ASCII is text. */
  ghost predicate Sane(c: Checks) {
    && (forall x {:trigger c.iri(x)} :: c.iri(x) ==> c.utf8(x) && x != [] && IsAlpha(x[0]) && QUOTE !in x)
    && (forall x {:trigger c.name(x)} :: c.name(x) ==> c.utf8(x))
    && (forall x {:trigger IsAscii(x)} :: IsAscii(x) ==> c.utf8(x))
  }

  predicate IsAlpha(b: Byte) { IsUpper(b) || 97 <= b <= 122 }
  predicate IsAlnum(b: Byte) { IsAlpha(b) || 48 <= b <= 57 }

  // ------------------------------------------------------- language tags

  predicate SubtagOk(sub: Bytes, primary: bool) {
    && 0 < |sub| <= 8
    && forall i :: 0 <= i < |sub| ==> if primary then IsAlpha(sub[i]) else IsAlnum(sub[i])
  }

  /** `alpha{1,8} ("-" alphanum{1,8})*`, split at the hyphens. */
  predicate TagShape(tag: Bytes, primary: bool)
    decreases |tag|
  {
    var cut := Find(tag, HYPHEN);
    SubtagOk(tag[..cut], primary) && (cut < |tag| ==> TagShape(tag[cut + 1..], false))
  }

  predicate TagOk(tag: Bytes) {
    TagShape(tag, true) && forall i :: 0 <= i < |tag| ==> !IsUpper(tag[i])
  }

  /** A well-shaped tag has only letters, digits and separated hyphens. */
  lemma {:induction false} TagBytes(tag: Bytes, primary: bool, i: nat)
    requires TagShape(tag, primary) && i < |tag|
    ensures IsAlnum(tag[i]) || (tag[i] == HYPHEN && i + 1 < |tag| && IsAlnum(tag[i + 1]))
    decreases |tag|
  {
    var cut := Find(tag, HYPHEN);
    FindIsFirst(tag, HYPHEN);
    if i < cut {
      assert tag[..cut][i] == tag[i];
    } else {
      var rest := tag[cut + 1..];
      var first := Find(rest, HYPHEN);
      assert SubtagOk(rest[..first], false);
      assert rest[..first][0] == rest[0];
      if i > cut { TagBytes(rest, false, i - cut - 1); }
    }
  }

  lemma {:induction false} TagIsPlain(tag: Bytes, primary: bool)
    requires TagShape(tag, primary)
    ensures IsAscii(tag) && QUOTE !in tag
    ensures forall i :: !DashAt(tag, i)
  {
    forall i | 0 <= i < |tag|
      ensures tag[i] < 128 && tag[i] != QUOTE && !DashAt(tag, i)
    {
      TagBytes(tag, primary, i);
    }
  }

  /** Subtags joined by hyphens. */
  function Hyphenated(subs: seq<Bytes>): Bytes
    requires subs != []
  {
    if |subs| == 1 then subs[0] else subs[0] + [HYPHEN] + Hyphenated(subs[1..])
  }

  /** One to eight letters, or letters and digits behind the first subtag. */
  ghost predicate Subtag(sub: Bytes, first: bool) {
    1 <= |sub| <= 8 &&
    forall b :: b in sub ==> 65 <= b <= 90 || 97 <= b <= 122 || (!first && 48 <= b <= 57)
  }

  ghost predicate Subtags(subs: seq<Bytes>, primary: bool) {
    subs != [] && forall i :: 0 <= i < |subs| ==> Subtag(subs[i], primary && i == 0)
  }

  lemma {:induction false} SubtagIs(sub: Bytes, primary: bool)
    ensures SubtagOk(sub, primary) <==> Subtag(sub, primary)
    ensures Subtag(sub, primary) ==> HYPHEN !in sub
  {
    forall i | 0 <= i < |sub| ensures sub[i] in sub { }
    if SubtagOk(sub, primary) { forall b | b in sub ensures b != HYPHEN { var i :| 0 <= i < |sub| && sub[i] == b; } }
  }

  lemma {:induction false} JoinedTag(subs: seq<Bytes>, primary: bool)
    requires Subtags(subs, primary)
    ensures TagShape(Hyphenated(subs), primary)
    decreases |subs|
  {
    SubtagIs(subs[0], primary);
    if |subs| == 1 {
      FindNone(subs[0], HYPHEN);
      TakeAll(subs[0]);
    } else {
      var rest := subs[1..];
      forall i | 0 <= i < |rest| ensures Subtag(rest[i], false) { assert rest[i] == subs[i + 1]; }
      JoinedTag(rest, false);
      FindFirst(subs[0], HYPHEN, Hyphenated(rest));
    }
  }

  lemma {:induction false} SplitTags(tag: Bytes, primary: bool) returns (subs: seq<Bytes>)
    requires TagShape(tag, primary)
    ensures Subtags(subs, primary) && tag == Hyphenated(subs)
    decreases |tag|
  {
    var cut := Find(tag, HYPHEN);
    FindIsFirst(tag, HYPHEN);
    SubtagIs(tag[..cut], primary);
    if cut == |tag| {
      TakeAll(tag);
      subs := [tag];
    } else {
      var rest := SplitTags(tag[cut + 1..], false);
      subs := [tag[..cut]] + rest;
      assert subs[1..] == rest;
      assert tag == tag[..cut] + [HYPHEN] + tag[cut + 1..];
    }
  }

  /** Which language tags are well formed, and which literals valid: text, and for a
      datatype an IRI that has no spelling of its own. */
  lemma {:induction false} LiteralsOk(c: Checks, lex: Bytes, tag: Bytes, dir: Option<Dir>, dt: Bytes)
    ensures TermOk(c, Lang(lex, tag, dir), 0) <==>
            c.utf8(lex) && (forall b :: b in tag ==> !(65 <= b <= 90)) &&
            exists subs :: Subtags(subs, true) && tag == Hyphenated(subs)
    ensures TermOk(c, Typed(lex, dt), 0) <==>
            c.utf8(lex) && c.iri(dt) && dt !in {XSD_STRING, RDF_LANG_STRING, RDF_DIR_LANG_STRING}
  {
    if TagShape(tag, true) { var subs := SplitTags(tag, true); }
    if subs :| Subtags(subs, true) && tag == Hyphenated(subs) { JoinedTag(subs, true); }
    forall i | 0 <= i < |tag| ensures tag[i] in tag { }
    assert (forall b :: b in tag ==> !(65 <= b <= 90)) <==> forall i :: 0 <= i < |tag| ==> !IsUpper(tag[i]);
  }

  /** `rfind("--")`. */
  function LastDash(s: Bytes): (r: Option<nat>)
    ensures r.Some? ==> DashAt(s, r.value)
    ensures forall i :: DashAt(s, i) ==> r.Some? && i <= r.value
    decreases |s|
  {
    if |s| < 2 then None
    else if DashAt(s, |s| - 2) then Some(|s| - 2)
    else
      var r := LastDash(s[..|s| - 1]);
      assert forall i :: DashAt(s, i) ==> DashAt(s[..|s| - 1], i);
      r
  }

  predicate DashAt(s: Bytes, i: int) { 0 <= i <= |s| - 2 && s[i] == HYPHEN && s[i + 1] == HYPHEN }

  const LTR: Bytes := [108, 116, 114]
  const RTL: Bytes := [114, 116, 108]

  function DirSuffix(dir: Option<Dir>): Bytes {
    match dir
    case None => []
    case Some(Ltr) => [HYPHEN, HYPHEN, 108, 116, 114]
    case Some(Rtl) => [HYPHEN, HYPHEN, 114, 116, 108]
  }

  // ------------------------------------------------------- encoding

  function Framed(part: Bytes): Bytes { Groups(|part|) + part }

  /** What follows the sigil of a language literal. */
  function LangBody(lex: Bytes, tag: Bytes, dir: Option<Dir>): Bytes { tag + DirSuffix(dir) + [QUOTE] + lex }

  function TypedBody(lex: Bytes, dt: Bytes): Bytes { [IRI_MARK] + dt + [QUOTE] + lex }

  function Encode(t: Term): (r: Bytes)
    ensures |r| > 0
  {
    match t
    case Iri(i) => [IRI_MARK] + i
    case Blank(n) => [BLANK_MARK] + n
    case Simple(l) => [QUOTE] + l
    case Lang(l, tag, dir) => [LANG_MARK] + LangBody(l, tag, dir)
    case Typed(l, dt) => [DATATYPE_MARK] + TypedBody(l, dt)
    case TripleTerm(s, p, o) => [TRIPLE_TERM] + (Framed(Encode(s)) + Framed(Encode(p)) + Framed(Encode(o)))
  }

  // ------------------------------------------------------- decoding

  /** Bounds of the length-prefixed part of `rest` that starts at `at`. */
  function Part(rest: Bytes, at: nat): (r: Option<(nat, nat)>)
    requires at <= |rest|
    ensures r.Some? ==> at < r.value.0 <= r.value.1 <= |rest|
  {
    match ReadAt(rest[at..], 0)
    case None => None
    case Some((len, n)) => if at + n + len <= |rest| then Some((at + n, at + n + len)) else None
  }

  /** Tag and base direction before the quote of a language literal. */
  function SplitHead(head: Bytes): Option<(Bytes, Option<Dir>)> {
    match LastDash(head)
    case Some(i) =>
      if head[i + 2..] == LTR then Some((head[..i], Some(Ltr)))
      else if head[i + 2..] == RTL then Some((head[..i], Some(Rtl)))
      else None
    case None => Some((head, None))
  }

  function DecodeLang(c: Checks, rest: Bytes): Option<Term> {
    var quote := Find(rest, QUOTE);
    if quote == |rest| then None else
    var head, lex := rest[..quote], rest[quote + 1..];
    if !c.utf8(head) then None else
    match SplitHead(head)
    case None => None
    case Some((tag, dir)) => if TagOk(tag) && c.utf8(lex) then Some(Lang(lex, tag, dir)) else None
  }

  predicate Dedicated(dt: Bytes) { dt == XSD_STRING || dt == RDF_LANG_STRING || dt == RDF_DIR_LANG_STRING }

  function DecodeTyped(c: Checks, rest: Bytes): Option<Term> {
    if rest == [] || rest[0] != IRI_MARK then None else DecodeTypedBody(c, rest[1..])
  }

  function DecodeTypedBody(c: Checks, body: Bytes): Option<Term> {
    var quote := Find(body, QUOTE);
    if quote == |body| then None else
    var dt, lex := body[..quote], body[quote + 1..];
    if c.utf8(dt) && c.iri(dt) && !Dedicated(dt) && c.utf8(lex) then Some(Typed(lex, dt)) else None
  }

  predicate SubjectKind(t: Term) { t.Iri? || t.Blank? }

  /** Every kind of term but triple terms. */
  function DecodeLeaf(c: Checks, sig: Byte, rest: Bytes): Option<Term> {
    if sig == IRI_MARK then if c.utf8(rest) && c.iri(rest) then Some(Iri(rest)) else None
    else if sig == BLANK_MARK then if c.utf8(rest) && c.name(rest) then Some(Blank(rest)) else None
    else if sig == QUOTE then if c.utf8(rest) then Some(Simple(rest)) else None
    else if sig == LANG_MARK then DecodeLang(c, rest)
    else if sig == DATATYPE_MARK then DecodeTyped(c, rest)
    else None
  }

  function DecodeAt(c: Checks, bytes: Bytes, depth: nat): Option<Term>
    decreases |bytes|, 0
  {
    if depth > MAX_DEPTH || bytes == [] then None
    else if bytes[0] == TRIPLE_TERM then DecodeTriple(c, bytes[1..], depth)
    else DecodeLeaf(c, bytes[0], bytes[1..])
  }

  /** Three framed components that fill `rest`, in their allowed positions. */
  function DecodeTriple(c: Checks, rest: Bytes, depth: nat): Option<Term>
    decreases |rest|, 2
  {
    var s := Component(c, rest, 0, depth);
    if s.None? || !SubjectKind(s.value.0) then None else
    var p := Component(c, rest, s.value.1, depth);
    if p.None? || !p.value.0.Iri? then None else
    var o := Component(c, rest, p.value.1, depth);
    if o.None? || o.value.1 != |rest| then None else
    Some(TripleTerm(s.value.0, p.value.0, o.value.0))
  }

  /** The component that starts at `at` and the position after it. */
  function Component(c: Checks, rest: Bytes, at: nat, depth: nat): (r: Option<(Term, nat)>)
    requires at <= |rest|
    ensures r.Some? ==> at < r.value.1 <= |rest|
    decreases |rest|, 1
  {
    match Part(rest, at)
    case None => None
    case Some((lo, hi)) =>
      match DecodeAt(c, rest[lo..hi], depth + 1)
      case None => None
      case Some(t) => Some((t, hi))
  }

  // ------------------------------------------------------- validity

  predicate TermOk(c: Checks, t: Term, depth: nat)
    decreases t
  {
    && depth <= MAX_DEPTH
    && match t
       case Iri(i) => c.iri(i)
       case Blank(n) => c.name(n)
       case Simple(l) => c.utf8(l)
       case Lang(l, tag, dir) => c.utf8(l) && TagOk(tag)
       case Typed(l, dt) => c.utf8(l) && c.iri(dt) && !Dedicated(dt)
       case TripleTerm(s, p, o) =>
         && SubjectKind(s) && p.Iri?
         && TermOk(c, s, depth + 1) && TermOk(c, p, depth + 1) && TermOk(c, o, depth + 1)
  }

  // ------------------------------------------------------- round trip

  /** The last double hyphen of a head, if any, is the one before the direction. */
  lemma {:induction false} HeadDash(tag: Bytes, dir: Option<Dir>)
    requires forall i :: !DashAt(tag, i)
    ensures LastDash(tag + DirSuffix(dir)) == if dir.None? then None else Some(|tag|)
  {
    var head := tag + DirSuffix(dir);
    if dir.None? {
      assert head == tag;
    } else {
      assert DashAt(head, |tag|);
      forall i | i > |tag| ensures !DashAt(head, i) {}
    }
  }

  lemma {:induction false} HeadRoundTrip(tag: Bytes, dir: Option<Dir>)
    requires TagShape(tag, true)
    ensures var head := tag + DirSuffix(dir);
            QUOTE !in head && IsAscii(head) && SplitHead(head) == Some((tag, dir))
  {
    TagIsPlain(tag, true);
    var head := tag + DirSuffix(dir);
    AsciiConcat(tag, DirSuffix(dir));
    HeadDash(tag, dir);
    if dir.None? {
      assert head == tag;
    } else {
      assert head[..|tag|] == tag && head[|tag| + 2..] == if dir.value.Ltr? then LTR else RTL;
    }
  }

  lemma {:induction false} LangRoundTrip(c: Checks, lex: Bytes, tag: Bytes, dir: Option<Dir>)
    requires Sane(c) && c.utf8(lex) && TagOk(tag)
    ensures DecodeLang(c, LangBody(lex, tag, dir)) == Some(Lang(lex, tag, dir))
  {
    HeadRoundTrip(tag, dir);
    FindFirst(tag + DirSuffix(dir), QUOTE, lex);
  }

  lemma {:induction false} TypedBodyRoundTrip(c: Checks, lex: Bytes, dt: Bytes)
    requires QUOTE !in dt && c.utf8(dt) && c.utf8(lex) && c.iri(dt) && !Dedicated(dt)
    ensures DecodeTypedBody(c, dt + [QUOTE] + lex) == Some(Typed(lex, dt))
  {
    FindFirst(dt, QUOTE, lex);
  }

  lemma {:induction false} TypedRoundTrip(c: Checks, lex: Bytes, dt: Bytes)
    requires Sane(c) && c.utf8(lex) && c.iri(dt) && !Dedicated(dt)
    ensures DecodeTyped(c, TypedBody(lex, dt)) == Some(Typed(lex, dt))
  {
    TypedBodyRoundTrip(c, lex, dt);
    assert TypedBody(lex, dt)[1..] == dt + [QUOTE] + lex;
  }

  lemma {:induction false} PartOfFramed(pre: Bytes, part: Bytes, post: Bytes)
    requires |part| < U64
    ensures var rest := pre + Framed(part) + post;
            var r := Part(rest, |pre|);
            r == Some((|pre| + |Groups(|part|)|, |pre| + |Framed(part)|)) && rest[r.value.0..r.value.1] == part
  {
    var rest := pre + Framed(part) + post;
    assert rest[|pre|..] == Groups(|part|) + (part + post);
    Varint.RoundTrip(|part|, part + post);
  }

  /** A framed part reads back as the term its bytes decode to one level down. */
  lemma {:induction false} ComponentOfFramed(c: Checks, pre: Bytes, part: Bytes, t: Term, post: Bytes, depth: nat)
    requires |part| < U64 && DecodeAt(c, part, depth + 1) == Some(t)
    ensures Component(c, pre + Framed(part) + post, |pre|, depth) == Some((t, |pre| + |Framed(part)|))
  {
    PartOfFramed(pre, part, post);
  }

  /** `frame` is one component, wherever it stands. */
  ghost predicate Reads(c: Checks, frame: Bytes, t: Term, depth: nat) {
    forall pre: Bytes, post: Bytes :: Component(c, pre + frame + post, |pre|, depth) == Some((t, |pre| + |frame|))
  }

  lemma {:induction false} FrameReads(c: Checks, part: Bytes, t: Term, depth: nat)
    requires |part| < U64 && DecodeAt(c, part, depth + 1) == Some(t)
    ensures Reads(c, Framed(part), t, depth)
  {
    forall pre: Bytes, post: Bytes
      ensures Component(c, pre + Framed(part) + post, |pre|, depth) == Some((t, |pre| + |Framed(part)|))
    {
      ComponentOfFramed(c, pre, part, t, post, depth);
    }
  }

  lemma {:induction false} ThreeFrames(c: Checks, x: Bytes, y: Bytes, z: Bytes, s: Term, p: Term, o: Term, depth: nat)
    requires SubjectKind(s) && p.Iri? && Reads(c, x, s, depth) && Reads(c, y, p, depth) && Reads(c, z, o, depth)
    ensures DecodeTriple(c, x + y + z, depth) == Some(TripleTerm(s, p, o))
  {
    var rest := x + y + z;
    assert rest == [] + x + (y + z) == (x + y) + z + [];
    assert Component(c, [] + x + (y + z), 0, depth) == Some((s, |x|));
    assert Component(c, x + y + z, |x|, depth) == Some((p, |x| + |y|));
    assert Component(c, (x + y) + z + [], |x + y|, depth) == Some((o, |rest|));
  }

  lemma {:induction false} TripleCons(c: Checks, rest: Bytes, depth: nat)
    requires depth <= MAX_DEPTH
    ensures DecodeAt(c, [TRIPLE_TERM] + rest, depth) == DecodeTriple(c, rest, depth)
  {
    assert ([TRIPLE_TERM] + rest)[1..] == rest;
  }

  lemma {:induction false} LeafRoundTrip(c: Checks, t: Term, depth: nat)
    requires Sane(c) && TermOk(c, t, depth) && !t.TripleTerm?
    ensures Encode(t)[0] != TRIPLE_TERM && DecodeLeaf(c, Encode(t)[0], Encode(t)[1..]) == Some(t)
  {
    match t
    case Iri(i) => assert Encode(t)[1..] == i;
    case Blank(n) => assert Encode(t)[1..] == n;
    case Simple(l) => assert Encode(t)[1..] == l;
    case Lang(l, tag, dir) =>
      assert Encode(t)[1..] == LangBody(l, tag, dir);
      LangRoundTrip(c, l, tag, dir);
    case Typed(l, dt) =>
      assert Encode(t)[1..] == TypedBody(l, dt);
      TypedRoundTrip(c, l, dt);
  }

  /** Decoding undoes encoding for every valid term, quotes and sigils in its
      texts notwithstanding. */
  lemma {:induction false} RoundTrip(c: Checks, t: Term, depth: nat)
    requires Sane(c) && TermOk(c, t, depth) && |Encode(t)| < U64
    ensures DecodeAt(c, Encode(t), depth) == Some(t)
    decreases t
  {
    if t.TripleTerm? {
      RoundTrip(c, t.s, depth + 1);
      RoundTrip(c, t.p, depth + 1);
      RoundTrip(c, t.o, depth + 1);
      FrameReads(c, Encode(t.s), t.s, depth);
      FrameReads(c, Encode(t.p), t.p, depth);
      FrameReads(c, Encode(t.o), t.o, depth);
      ThreeFrames(c, Framed(Encode(t.s)), Framed(Encode(t.p)), Framed(Encode(t.o)), t.s, t.p, t.o, depth);
      TripleCons(c, Framed(Encode(t.s)) + Framed(Encode(t.p)) + Framed(Encode(t.o)), depth);
    } else {
      LeafRoundTrip(c, t, depth);
    }
  }

  /** Distinct valid terms have distinct bytes. */
  lemma {:induction false} EncodeInjective(c: Checks, t: Term, u: Term, depth: nat)
    requires Sane(c) && TermOk(c, t, depth) && TermOk(c, u, depth)
    requires |Encode(t)| < U64 && Encode(t) == Encode(u)
    ensures t == u
  {
    RoundTrip(c, t, depth);
    RoundTrip(c, u, depth);
  }

  // ------------------------------------------------------- the other direction

  /** Every part length is written in its shortest form, at every level. */
  predicate Minimal(bytes: Bytes)
    decreases |bytes|, 0
  {
    bytes == [] || bytes[0] != TRIPLE_TERM ||
    var rest := bytes[1..];
    PartMinimal(rest, 0) && PartMinimal(rest, After(rest, 0)) && PartMinimal(rest, After(rest, After(rest, 0)))
  }

  predicate PartMinimal(rest: Bytes, at: nat)
    requires at <= |rest|
    decreases |rest|, 1
  {
    match Part(rest, at)
    case None => true
    case Some((lo, hi)) => (lo == at + 1 || rest[lo - 1] != 0) && Minimal(rest[lo..hi])
  }

  function After(rest: Bytes, at: nat): (r: nat)
    requires at <= |rest|
    ensures r <= |rest|
  {
    match Part(rest, at)
    case None => |rest|
    case Some((_, hi)) => hi
  }

  /** What acceptance of `bytes` says about its term. */
  ghost predicate Accepted(c: Checks, bytes: Bytes, t: Term, depth: nat) {
    && TermOk(c, t, depth)
    && |Encode(t)| <= |bytes|
    && (Encode(t) == bytes <==> Minimal(bytes))
  }

  lemma {:induction false} FindSplits(s: Bytes, b: Byte)
    requires Find(s, b) < |s|
    ensures s == s[..Find(s, b)] + [b] + s[Find(s, b) + 1..]
  {
    FindIsFirst(s, b);
  }

  lemma {:induction false} HeadAccepted(head: Bytes, i: nat, dir: Dir)
    requires DashAt(head, i)
    requires head[i + 2..] == if dir.Ltr? then LTR else RTL
    ensures head == head[..i] + DirSuffix(Some(dir))
  {
    assert head == head[..i] + [HYPHEN, HYPHEN] + head[i + 2..];
  }

  lemma {:induction false} LangAccepted(c: Checks, rest: Bytes)
    requires DecodeLang(c, rest).Some?
    ensures var t := DecodeLang(c, rest).value;
            t.Lang? && TagOk(t.tag) && c.utf8(t.lex) && rest == LangBody(t.lex, t.tag, t.dir)
  {
    var t := DecodeLang(c, rest).value;
    FindSplits(rest, QUOTE);
    var head := rest[..Find(rest, QUOTE)];
    var i := LastDash(head);
    if i.Some? {
      HeadAccepted(head, i.value, t.dir.value);
    } else {
      assert head + DirSuffix(None) == head;
    }
  }

  lemma {:induction false} TypedAccepted(c: Checks, rest: Bytes)
    requires DecodeTyped(c, rest).Some?
    ensures var t := DecodeTyped(c, rest).value;
            t.Typed? && c.utf8(t.lex) && c.iri(t.dt) && !Dedicated(t.dt) && rest == TypedBody(t.lex, t.dt)
  {
    assert rest == [IRI_MARK] + rest[1..];
    FindSplits(rest[1..], QUOTE);
  }

  /** One component: length prefix and bytes are at least as long as the frame of
      `e`, and equal to it exactly when both are minimal. */
  lemma {:induction false} PartAccepted(rest: Bytes, at: nat, lo: nat, hi: nat, e: Bytes, minimal: bool)
    requires at <= |rest| && Part(rest, at) == Some((lo, hi))
    requires |e| <= hi - lo && (e == rest[lo..hi] <==> minimal)
    ensures |Framed(e)| <= hi - at
    ensures rest[at..hi] == Framed(e) <==> (lo == at + 1 || rest[lo - 1] != 0) && minimal
  {
    var buf := rest[at..];
    var n := lo - at;
    MinimalIff(buf, 0);
    assert buf[0..n] == rest[at..lo];
    assert rest[at..hi] == rest[at..lo] + rest[lo..hi];
    GroupsShortest(buf, 0);
    GroupsMonotone(|e|, hi - lo);
    SameFrame(rest[at..lo], rest[lo..hi], Groups(|e|), e);
  }

  lemma {:induction false} SameFrame(x: Bytes, y: Bytes, a: Bytes, b: Bytes)
    requires |a| <= |x| && |b| <= |y|
    ensures x + y == a + b <==> x == a && y == b
  {
    if x + y == a + b {
      assert |x + y| == |a + b|;
      assert (x + y)[..|x|] == x && (a + b)[..|a|] == a;
      assert (x + y)[|x|..] == y && (a + b)[|a|..] == b;
    }
  }

  lemma {:induction false} GroupsShortest(buf: Bytes, i: nat)
    requires ReadAt(buf, i).Some?
    ensures |Groups(ReadAt(buf, i).value.0)| <= ReadAt(buf, i).value.1 - i
    decreases 10 - i
  {
    if buf[i] >= 128 { GroupsShortest(buf, i + 1); }
  }

  lemma {:induction false} GroupsMonotone(x: nat, y: nat)
    requires x <= y
    ensures |Groups(x)| <= |Groups(y)|
    decreases y
  {
    if x >= 128 { GroupsMonotone(x / 128, y / 128); }
  }

  /** Whatever decoding accepts is a valid term; its canonical bytes are the
      accepted ones exactly when every length in them is minimal. */
  lemma {:induction false} DecodeAccepted(c: Checks, bytes: Bytes, depth: nat)
    requires DecodeAt(c, bytes, depth).Some?
    ensures Accepted(c, bytes, DecodeAt(c, bytes, depth).value, depth)
    decreases |bytes|, 1
  {
    var rest := bytes[1..];
    assert bytes == [bytes[0]] + rest;
    if bytes[0] == LANG_MARK {
      LangAccepted(c, rest);
    } else if bytes[0] == DATATYPE_MARK {
      TypedAccepted(c, rest);
    } else if bytes[0] == TRIPLE_TERM {
      TripleAccepted(c, rest, depth);
      TripleMinimal(c, rest, depth);
    }
  }

  /** The components of an accepted triple term are accepted one level down. */
  lemma {:induction false} TripleAccepted(c: Checks, rest: Bytes, depth: nat)
    requires depth <= MAX_DEPTH && DecodeTriple(c, rest, depth).Some?
    ensures var t := DecodeTriple(c, rest, depth).value;
            && TermOk(c, t, depth)
            && ComponentAccepted(c, rest, 0, t.s, depth)
            && ComponentAccepted(c, rest, After(rest, 0), t.p, depth)
            && ComponentAccepted(c, rest, After(rest, After(rest, 0)), t.o, depth)
            && After(rest, After(rest, After(rest, 0))) == |rest|
    decreases |rest|, 2
  {
    var (s0, s1) := Part(rest, 0).value;
    var (p0, p1) := Part(rest, s1).value;
    var (o0, o1) := Part(rest, p1).value;
    DecodeAccepted(c, rest[s0..s1], depth + 1);
    DecodeAccepted(c, rest[p0..p1], depth + 1);
    DecodeAccepted(c, rest[o0..o1], depth + 1);
  }

  ghost predicate ComponentAccepted(c: Checks, rest: Bytes, at: nat, t: Term, depth: nat)
    requires at <= |rest|
  {
    match Part(rest, at)
    case None => false
    case Some((lo, hi)) => Accepted(c, rest[lo..hi], t, depth + 1)
  }

  lemma {:induction false} ComponentFrame(c: Checks, rest: Bytes, at: nat, t: Term, depth: nat)
    requires at <= |rest| && ComponentAccepted(c, rest, at, t, depth)
    ensures at <= After(rest, at) && |Framed(Encode(t))| <= After(rest, at) - at
    ensures Framed(Encode(t)) == rest[at..After(rest, at)] <==> PartMinimal(rest, at)
  {
    var (lo, hi) := Part(rest, at).value;
    PartAccepted(rest, at, lo, hi, Encode(t), Minimal(rest[lo..hi]));
  }

  lemma {:induction false} TripleMinimal(c: Checks, rest: Bytes, depth: nat)
    requires depth <= MAX_DEPTH && DecodeTriple(c, rest, depth).Some?
    requires var t := DecodeTriple(c, rest, depth).value;
             && ComponentAccepted(c, rest, 0, t.s, depth)
             && ComponentAccepted(c, rest, After(rest, 0), t.p, depth)
             && ComponentAccepted(c, rest, After(rest, After(rest, 0)), t.o, depth)
             && After(rest, After(rest, After(rest, 0))) == |rest|
    ensures var t := DecodeTriple(c, rest, depth).value;
            && |Encode(t)| <= |[TRIPLE_TERM] + rest|
            && (Encode(t) == [TRIPLE_TERM] + rest <==> Minimal([TRIPLE_TERM] + rest))
  {
    var t := DecodeTriple(c, rest, depth).value;
    var i, j := After(rest, 0), After(rest, After(rest, 0));
    ComponentFrame(c, rest, 0, t.s, depth);
    ComponentFrame(c, rest, i, t.p, depth);
    ComponentFrame(c, rest, j, t.o, depth);
    ConcatParts(rest, i, j, Framed(Encode(t.s)), Framed(Encode(t.p)), Framed(Encode(t.o)));
    assert ([TRIPLE_TERM] + rest)[1..] == rest;
    SameFrame([TRIPLE_TERM], rest, [TRIPLE_TERM], Framed(Encode(t.s)) + Framed(Encode(t.p)) + Framed(Encode(t.o)));
  }

  /** Concatenations of parts that are no longer agree exactly when all parts do. */
  lemma {:induction false} ConcatParts(rest: Bytes, i: nat, j: nat, a: Bytes, b: Bytes, d: Bytes)
    requires i <= j <= |rest| && |a| <= i && |b| <= j - i && |d| <= |rest| - j
    ensures a + b + d == rest <==> a == rest[0..i] && b == rest[i..j] && d == rest[j..|rest|]
    ensures |a + b + d| <= |rest|
  {
    assert rest == rest[0..i] + rest[i..j] + rest[j..|rest|];
    SameFrame(rest[0..i] + rest[i..j], rest[j..|rest|], a + b, d);
    SameFrame(rest[0..i], rest[i..j], a, b);
  }

  /** On minimal bytes, byte equality is term equality. */
  lemma {:induction false} BytesDecideTerms(c: Checks, x: Bytes, y: Bytes, depth: nat)
    requires DecodeAt(c, x, depth).Some? && DecodeAt(c, y, depth).Some?
    requires Minimal(x) && Minimal(y)
    ensures DecodeAt(c, x, depth) == DecodeAt(c, y, depth) <==> x == y
  {
    DecodeAccepted(c, x, depth);
    DecodeAccepted(c, y, depth);
  }

  /** A second spelling the decoder accepts: the subject's length in two groups. */
  lemma {:induction false} NonMinimalAccepted(c: Checks, iri: Bytes)
    requires Sane(c) && c.iri(iri) && |iri| < 100
    ensures var x := Iri(iri);
            var padded := PaddedTriple(Encode(x));
            DecodeAt(c, padded, 0) == Some(TripleTerm(x, x, x)) && padded != Encode(TripleTerm(x, x, x))
  {
    var x := Iri(iri);
    RoundTrip(c, x, 1);
    PaddedDecodes(c, Encode(x), x);
    assert PaddedTriple(Encode(x))[1] == |Encode(x)| + 128;
    assert Encode(TripleTerm(x, x, x))[1] == |Encode(x)|;
  }

  function PaddedTriple(e: Bytes): Bytes
    requires |e| < 128
  {
    [TRIPLE_TERM] + ([|e| + 128, 0] + e + Framed(e) + Framed(e))
  }

  lemma {:induction false} PaddedDecodes(c: Checks, e: Bytes, x: Term)
    requires |e| < 128 && x.Iri? && DecodeAt(c, e, 1) == Some(x)
    ensures DecodeAt(c, PaddedTriple(e), 0) == Some(TripleTerm(x, x, x))
  {
    var f := Framed(e);
    var pre: Bytes := [|e| + 128, 0] + e;
    assert pre + f + f == pre + (f + f);
    PaddedPart(pre + f + f, e);
    FramedAfter(c, pre, e, x);
    TripleCons(c, pre + f + f, 0);
  }

  lemma {:induction false} FramedAfter(c: Checks, pre: Bytes, e: Bytes, x: Term)
    requires |e| < 128 && x.Iri? && DecodeAt(c, e, 1) == Some(x)
    requires Component(c, pre + Framed(e) + Framed(e), 0, 0) == Some((x, |pre|))
    ensures DecodeTriple(c, pre + Framed(e) + Framed(e), 0) == Some(TripleTerm(x, x, x))
  {
    var f := Framed(e);
    ComponentOfFramed(c, pre, e, x, f, 0);
    assert pre + f + f == (pre + f) + f + [];
    ComponentOfFramed(c, pre + f, e, x, [], 0);
  }

  lemma {:induction false} PaddedPart(rest: Bytes, e: Bytes)
    requires |e| < 128 && [|e| + 128, 0] + e <= rest
    ensures Part(rest, 0) == Some((2, 2 + |e|)) && rest[2..2 + |e|] == e
  {
    var buf := rest[0..];
    assert buf[0] == ([|e| + 128, 0] + e)[0] && buf[1] == ([|e| + 128, 0] + e)[1];
    assert ReadAt(buf, 1) == Some((0, 2));
    assert rest[..2 + |e|][2..] == e;
  }

  // ------------------------------------------------------- lazy views

  /** What decodes deep inside a term decodes to the same term higher up. */
  lemma {:induction false} DepthMonotone(c: Checks, bytes: Bytes, d: nat, e: nat)
    requires e <= d && DecodeAt(c, bytes, d).Some?
    ensures DecodeAt(c, bytes, e) == DecodeAt(c, bytes, d)
    decreases |bytes|, 0
  {
    if bytes[0] == TRIPLE_TERM { TripleDepthMonotone(c, bytes[1..], d, e); }
  }

  lemma {:induction false} TripleDepthMonotone(c: Checks, rest: Bytes, d: nat, e: nat)
    requires e <= d && DecodeTriple(c, rest, d).Some?
    ensures DecodeTriple(c, rest, e) == DecodeTriple(c, rest, d)
    decreases |rest|, 1
  {
    var (s0, s1) := Part(rest, 0).value;
    var (p0, p1) := Part(rest, s1).value;
    var (o0, o1) := Part(rest, p1).value;
    DepthMonotone(c, rest[s0..s1], d + 1, e + 1);
    DepthMonotone(c, rest[p0..p1], d + 1, e + 1);
    DepthMonotone(c, rest[o0..o1], d + 1, e + 1);
  }

  /** `TripleTermRef::component`: skip `want` parts and decode the next one at
      depth 0. `None` stands for the panic of an unvalidated payload. */
  method ComponentAt(c: Checks, payload: Bytes, want: nat) returns (r: Option<Term>)
    requires want < 3
    ensures forall d: nat :: DecodeTriple(c, payload, d).Some? ==>
              var t := DecodeTriple(c, payload, d).value;
              r == Some(if want == 0 then t.s else if want == 1 then t.p else t.o)
  {
    var at: nat := 0;
    for i := 0 to want + 1
      invariant at <= |payload|
      invariant at == Skipped(payload, i)
      invariant i <= want
    {
      match Part(payload, at)
      case None => return None;
      case Some((lo, hi)) =>
        if i == want {
          r := DecodeAt(c, payload[lo..hi], 0);
          forall d: nat | DecodeTriple(c, payload, d).Some?
            ensures var t := DecodeTriple(c, payload, d).value;
                    r == Some(if want == 0 then t.s else if want == 1 then t.p else t.o)
          {
            SkippedParts(c, payload, d);
            DepthMonotone(c, payload[lo..hi], d + 1, 0);
          }
          return;
        }
        at := hi;
    }
  }

  /** Where part number `k` starts. */
  function Skipped(payload: Bytes, k: nat): (r: nat)
    ensures r <= |payload|
  {
    if k == 0 then 0 else After(payload, Skipped(payload, k - 1))
  }

  lemma {:induction false} SkippedParts(c: Checks, payload: Bytes, d: nat)
    requires DecodeTriple(c, payload, d).Some?
    ensures var t := DecodeTriple(c, payload, d).value;
            && Component(c, payload, Skipped(payload, 0), d) == Some((t.s, Skipped(payload, 1)))
            && Component(c, payload, Skipped(payload, 1), d) == Some((t.p, Skipped(payload, 2)))
            && Component(c, payload, Skipped(payload, 2), d) == Some((t.o, Skipped(payload, 3)))
  {
  }

  // ------------------------------------------------------- the loops

  /** `encode_triple_term`: three framed components behind the sigil. */
  method EncodeTriple(out: Bytes, s: Bytes, p: Bytes, o: Bytes) returns (r: Bytes)
    ensures r == out + [TRIPLE_TERM] + (Framed(s) + Framed(p) + Framed(o))
  {
    r := out + [TRIPLE_TERM];
    var parts := [s, p, o];
    for i := 0 to 3
      invariant r == out + [TRIPLE_TERM] + FlatMap(Framed, parts[..i])
    {
      FlatMapSnoc(Framed, parts[..i], parts[i]);
      TakeNext(parts, i);
      r := Varint.Write(r, |parts[i]|);
      r := r + parts[i];
    }
    TakeAll(parts);
    ThreeFramed(s, p, o);
  }

  lemma {:induction false} ThreeFramed(s: Bytes, p: Bytes, o: Bytes)
    ensures FlatMap(Framed, [s, p, o]) == Framed(s) + Framed(p) + Framed(o)
  {
    FlatMapSnoc(Framed, [s, p], o);
    FlatMapSnoc(Framed, [s], p);
    FlatMapOne(Framed, s);
    assert [s, p, o] == [s, p] + [o] && [s, p] == [s] + [p];
  }

  /** `decode_at_depth`, with the cursor loop over the components. */
  method Decode(c: Checks, bytes: Bytes, depth: nat) returns (r: Option<Term>)
    ensures r == DecodeAt(c, bytes, depth)
    decreases |bytes|
  {
    if depth > MAX_DEPTH || bytes == [] {
      return None;
    }
    var rest := bytes[1..];
    if bytes[0] != TRIPLE_TERM {
      return DecodeLeaf(c, bytes[0], rest);
    }
    var at: nat := 0;
    var parts: seq<Term> := [];
    for pos := 0 to 3
      invariant at == Skipped(rest, pos) && |parts| == pos
      invariant forall k :: 0 <= k < pos ==>
                Component(c, rest, Skipped(rest, k), depth) == Some((parts[k], Skipped(rest, k + 1)))
      invariant (pos > 0 ==> SubjectKind(parts[0])) && (pos > 1 ==> parts[1].Iri?)
    {
      var bounds := Part(rest, at);
      if bounds.None? {
        Refused(c, rest, depth, pos);
        return None;
      }
      var component := Decode(c, rest[bounds.value.0..bounds.value.1], depth + 1);
      if component.None? || (pos == 0 && !SubjectKind(component.value)) || (pos == 1 && !component.value.Iri?) {
        Refused(c, rest, depth, pos);
        return None;
      }
      parts := parts + [component.value];
      at := bounds.value.1;
    }
    assert Component(c, rest, Skipped(rest, 0), depth) == Some((parts[0], Skipped(rest, 1)));
    assert Component(c, rest, Skipped(rest, 1), depth) == Some((parts[1], Skipped(rest, 2)));
    assert Component(c, rest, Skipped(rest, 2), depth) == Some((parts[2], Skipped(rest, 3)));
    if at != |rest| {
      return None;
    }
    return Some(TripleTerm(parts[0], parts[1], parts[2]));
  }

  /** A component that does not decode or stands where it may not refuses the term. */
  lemma {:induction false} Refused(c: Checks, rest: Bytes, depth: nat, pos: nat)
    requires pos < 3
    requires var r := Component(c, rest, Skipped(rest, pos), depth);
             r.None? || (pos == 0 && !SubjectKind(r.value.0)) || (pos == 1 && !r.value.0.Iri?)
    ensures DecodeTriple(c, rest, depth).None?
  {
    if DecodeTriple(c, rest, depth).Some? { SkippedParts(c, rest, depth); }
  }
}

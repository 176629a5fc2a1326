/** IRI reference resolution (sections 5.2 and 5.3 of RFC 3986) as implemented in
    crates/graphy-core/src/iri.rs: splitting, `resolve`, `merge_paths`. */
module Resolve {
  import opened Seqs
  import opened Terms
  import opened DotSegments

  const COLON: Byte := 58
  const QUESTION: Byte := 63
  const HASH: Byte := 35

  datatype Parts = Parts(scheme: Option<Bytes>, authority: Option<Bytes>, path: Bytes, query: Option<Bytes>,
                         fragment: Option<Bytes>)

  // ------------------------------------------------------- splitting

  datatype Cut = Cut(head: Bytes, tail: Option<Bytes>)

  /** At the first `b`. */
  function CutAt(s: Bytes, b: Byte): Cut {
    var i := Find(s, b);
    if i < |s| then Cut(s[..i], Some(s[i + 1..])) else Cut(s, None)
  }

  predicate IsLetter(b: Byte) { 65 <= b <= 90 || 97 <= b <= 122 }

  predicate SchemeByte(b: Byte) { IsLetter(b) || 48 <= b <= 57 || b == 43 || b == 45 || b == 46 }

  predicate IsScheme(s: Bytes) { s != [] && IsLetter(s[0]) && forall b | b in s :: SchemeByte(b) }

  /** Section 3.1 of RFC 3986: a letter, then letters, digits, `+`, `-` and `.`. */
  lemma {:induction false} SchemeIff(s: Bytes)
    ensures IsScheme(s) <==>
            s != [] && ('a' <= s[0] as char <= 'z' || 'A' <= s[0] as char <= 'Z') &&
            forall i :: 0 <= i < |s| ==>
              var c := s[i] as char;
              'a' <= c <= 'z' || 'A' <= c <= 'Z' || '0' <= c <= '9' || c == '+' || c == '-' || c == '.'
  {
    forall i | 0 <= i < |s| ensures s[i] in s { }
    if !IsScheme(s) && s != [] && IsLetter(s[0]) {
      var b :| b in s && !SchemeByte(b);
      var i :| 0 <= i < |s| && s[i] == b;
    }
  }

  datatype Lead = Lead(part: Option<Bytes>, rest: Bytes)

  function CutScheme(s: Bytes): Lead {
    var c := CutAt(s, COLON);
    if c.tail.Some? && IsScheme(c.head) then Lead(Some(c.head), c.tail.value) else Lead(None, s)
  }

  function CutAuthority(s: Bytes): Lead {
    if Starts([SLASH, SLASH], s) then
      var end := Find(s[2..], SLASH);
      Lead(Some(s[2..][..end]), s[2..][end..])
    else Lead(None, s)
  }

  function FirstSegment(path: Bytes): Bytes { path[..Find(path, SLASH)] }

  /** `parse_reference` without its checks of single characters: fragment first,
      then query, scheme, authority. */
  function SplitIri(s: Bytes): Option<Parts> {
    var f := CutAt(s, HASH);
    if f.tail.Some? && HASH in f.tail.value then None
    else
      var q := CutAt(f.head, QUESTION);
      var scheme := CutScheme(q.head);
      var authority := CutAuthority(scheme.rest);
      if authority.part.None? && scheme.part.None? && COLON in FirstSegment(authority.rest) then None
      else Some(Parts(scheme.part, authority.part, authority.rest, q.tail, f.tail))
  }

  /** A part behind its delimiter, or nothing. */
  function Marked(mark: Bytes, part: Option<Bytes>): Bytes { if part.Some? then mark + part.value else [] }

  function SchemeText(scheme: Option<Bytes>): Bytes { if scheme.Some? then scheme.value + [COLON] else [] }

  function Hier(p: Parts): Bytes { SchemeText(p.scheme) + (Marked([SLASH, SLASH], p.authority) + p.path) }

  /** Section 5.3: the string of the parts. */
  function Recompose(p: Parts): Bytes {
    Hier(p) + Marked([QUESTION], p.query) + Marked([HASH], p.fragment)
  }

  // ------------------------------------------------------- resolution

  /** `merge_paths`. */
  function Merge(base: Parts, path: Bytes): Bytes {
    if base.authority.Some? && base.path == [] then [SLASH] + path
    else if SLASH in base.path then PopSegment(base.path) + [SLASH] + path
    else path
  }

  /** Section 5.2.2; the path of an empty-path reference is the base's, as it is. */
  function Transform(b: Parts, r: Parts): Parts {
    if r.scheme.Some? then Parts(r.scheme, r.authority, RemoveDotSegments(r.path), r.query, r.fragment)
    else if r.authority.Some? then Parts(b.scheme, r.authority, RemoveDotSegments(r.path), r.query, r.fragment)
    else if r.path == [] then Parts(b.scheme, b.authority, b.path, if r.query.Some? then r.query else b.query,
        r.fragment)
    else if r.path[0] == SLASH then Parts(b.scheme, b.authority, RemoveDotSegments(r.path), r.query, r.fragment)
    else Parts(b.scheme, b.authority, RemoveDotSegments(Merge(b, r.path)), r.query, r.fragment)
  }

  datatype Resolution = Resolved(iri: Bytes) | RelativeBase | InvalidIri

  function ResolveIri(base: Bytes, reference: Bytes): Resolution {
    match SplitIri(base)
    case None => InvalidIri
    case Some(b) =>
      if b.scheme.None? then RelativeBase
      else
        match SplitIri(reference)
        case None => InvalidIri
        case Some(r) => Resolved(Recompose(Transform(b, r)))
  }

  // ------------------------------------------------------- parts and strings correspond

  predicate Without(b: Byte, part: Option<Bytes>) { part.Some? ==> b !in part.value }

  /** Parts that a string can have. */
  predicate Shape(p: Parts) {
    && (p.scheme.Some? ==> IsScheme(p.scheme.value))
    && (p.authority.Some? ==> SLASH !in p.authority.value && (p.path == [] || p.path[0] == SLASH))
    && (p.authority.None? ==> !Starts([SLASH, SLASH], p.path))
    && (p.scheme.None? && p.authority.None? ==> COLON !in FirstSegment(p.path))
    && Without(QUESTION, p.authority) && QUESTION !in p.path
    && Without(HASH, p.authority) && HASH !in p.path && Without(HASH, p.query) && Without(HASH, p.fragment)
  }

  lemma {:induction false} CutJoins(s: Bytes, b: Byte)
    ensures s == CutAt(s, b).head + Marked([b], CutAt(s, b).tail) && b !in CutAt(s, b).head
    ensures forall x :: x in CutAt(s, b).head ==> x in s
    ensures forall x :: CutAt(s, b).tail.Some? && x in CutAt(s, b).tail.value ==> x in s
  {
    FindIsFirst(s, b);
    TakeAll(s);
  }

  lemma {:induction false} JoinCuts(head: Bytes, b: Byte, tail: Option<Bytes>)
    requires b !in head
    ensures CutAt(head + Marked([b], tail), b) == Cut(head, tail)
  {
    if tail.Some? {
      FindFirst(head, b, tail.value);
      assert head + [b] + tail.value == head + Marked([b], tail);
    } else {
      assert head + [] == head;
      FindNone(head, b);
    }
  }

  lemma {:induction false} SchemeBytes(s: Bytes)
    requires IsScheme(s)
    ensures COLON !in s && SLASH !in s && QUESTION !in s && HASH !in s
  {
  }

  lemma {:induction false} SchemeJoins(s: Bytes)
    ensures var l := CutScheme(s);
            && SchemeText(l.part) + l.rest == s && (l.part.Some? ==> IsScheme(l.part.value))
            && forall x :: x in l.rest ==> x in s
  {
    CutJoins(s, COLON);
    var c := CutAt(s, COLON);
    if c.tail.Some? { assert c.head + ([COLON] + c.tail.value) == c.head + [COLON] + c.tail.value; }
  }

  lemma {:induction false} AuthorityJoins(s: Bytes)
    ensures var l := CutAuthority(s);
            && Marked([SLASH, SLASH], l.part) + l.rest == s
            && (l.part.Some? ==> SLASH !in l.part.value && (l.rest == [] || l.rest[0] == SLASH))
            && (l.part.None? ==> !Starts([SLASH, SLASH], l.rest))
            && (forall x :: x in l.rest ==> x in s) && (forall x :: l.part.Some? && x in l.part.value ==> x in s)
  {
    if Starts([SLASH, SLASH], s) {
      var after := s[2..];
      var end := Find(after, SLASH);
      FindIsFirst(after, SLASH);
      assert after == after[..end] + after[end..];
      assert s == [SLASH, SLASH] + after;
      assert [SLASH, SLASH] + after[..end] + after[end..] == [SLASH, SLASH] + after;
      forall x | x in after[..end] || x in after[end..] ensures x in s { assert x in after; }
    }
  }

  /** Splitting loses nothing. */
  lemma {:induction false} SplitJoins(s: Bytes)
    requires SplitIri(s).Some?
    ensures Shape(SplitIri(s).value) && Recompose(SplitIri(s).value) == s
  {
    var f := CutAt(s, HASH);
    var q := CutAt(f.head, QUESTION);
    CutJoins(s, HASH);
    CutJoins(f.head, QUESTION);
    SchemeJoins(q.head);
    AuthorityJoins(CutScheme(q.head).rest);
  }

  lemma {:induction false} JoinAuthority(authority: Option<Bytes>, path: Bytes)
    requires authority.Some? ==> SLASH !in authority.value && (path == [] || path[0] == SLASH)
    requires authority.None? ==> !Starts([SLASH, SLASH], path)
    ensures CutAuthority(Marked([SLASH, SLASH], authority) + path) == Lead(authority, path)
  {
    var s := Marked([SLASH, SLASH], authority) + path;
    if authority.Some? {
      assert s[2..] == authority.value + path;
      if path == [] {
        FindNone(authority.value, SLASH);
        assert s[2..] == authority.value;
      } else {
        FindFirst(authority.value, SLASH, path[1..]);
        assert authority.value + [SLASH] + path[1..] == authority.value + path;
      }
    } else {
      assert s == path;
    }
  }

  lemma {:induction false} JoinScheme(p: Parts)
    requires Shape(p)
    ensures CutScheme(Hier(p)) == Lead(p.scheme, Marked([SLASH, SLASH], p.authority) + p.path)
  {
    var rest := Marked([SLASH, SLASH], p.authority) + p.path;
    if p.scheme.Some? {
      SchemeBytes(p.scheme.value);
      JoinCuts(p.scheme.value, COLON, Some(rest));
      assert p.scheme.value + Marked([COLON], Some(rest)) == Hier(p);
    } else {
      assert Hier(p) == rest;
      NoScheme(rest, p.authority, p.path);
    }
  }

  /** A colon can only stand behind a `/`. */
  lemma {:induction false} SlashFirst(rest: Bytes, authority: Option<Bytes>, path: Bytes)
    requires rest == Marked([SLASH, SLASH], authority) + path && CutAt(rest, COLON).tail.Some?
    requires authority.None? ==> COLON !in FirstSegment(path)
    ensures SLASH in CutAt(rest, COLON).head
  {
    var n, i := Find(rest, COLON), Find(path, SLASH);
    FindIsFirst(rest, COLON);
    FindIsFirst(path, SLASH);
    assert rest[n] == COLON;
    if authority.Some? {
      assert rest[0] == SLASH && n > 0 && rest[..n][0] == SLASH;
    } else {
      assert rest == path;
      forall k | 0 <= k < i ensures path[k] != COLON { assert path[..i][k] in path[..i]; }
      assert rest[..n][i] == SLASH;
    }
  }

  lemma {:induction false} NoScheme(rest: Bytes, authority: Option<Bytes>, path: Bytes)
    requires rest == Marked([SLASH, SLASH], authority) + path
    requires authority.None? ==> COLON !in FirstSegment(path)
    ensures CutScheme(rest) == Lead(None, rest)
  {
    if CutAt(rest, COLON).tail.Some? { SlashFirst(rest, authority, path); }
  }

  lemma {:induction false} HierBytes(p: Parts, x: Byte)
    requires Shape(p) && (x == QUESTION || x == HASH)
    ensures x !in Hier(p)
  {
    if p.scheme.Some? { SchemeBytes(p.scheme.value); }
  }

  /** Every possible combination of parts is found again. */
  lemma {:induction false} JoinSplits(p: Parts)
    requires Shape(p)
    ensures SplitIri(Recompose(p)) == Some(p)
  {
    HierBytes(p, HASH);
    HierBytes(p, QUESTION);
    var body := Hier(p) + Marked([QUESTION], p.query);
    JoinCuts(body, HASH, p.fragment);
    JoinCuts(Hier(p), QUESTION, p.query);
    JoinScheme(p);
    JoinAuthority(p.authority, p.path);
  }

  /** Splitting is exactly the inverse of recomposition. */
  lemma {:induction false} SplitExact(s: Bytes, p: Parts)
    ensures SplitIri(s) == Some(p) <==> Shape(p) && Recompose(p) == s
  {
    if SplitIri(s) == Some(p) { SplitJoins(s); }
    if Shape(p) && Recompose(p) == s { JoinSplits(p); }
  }

  // ------------------------------------------------------- what resolution yields

  lemma {:induction false} PopBytes(output: Bytes, x: Byte)
    requires x in PopSegment(output)
    ensures x in output
  {
    if output[|output| - 1] != SLASH { PopBytes(output[..|output| - 1], x); }
  }

  /** Removal invents no byte. */
  lemma {:induction false} RemoveBytes(input: Bytes, output: Bytes, x: Byte)
    requires x in Remove(input, output)
    ensures x in input || x in output || x == SLASH
    decreases |input|
  {
    if input == [] {
    } else if Starts([DOT, DOT, SLASH], input) {
      RemoveBytes(input[3..], output, x);
    } else if Starts([DOT, SLASH], input) {
      RemoveBytes(input[2..], output, x);
    } else if Starts([SLASH, DOT, SLASH], input) {
      RemoveBytes(input[2..], output, x);
    } else if input == [SLASH, DOT] {
      RemoveBytes([SLASH], output, x);
    } else if Starts([SLASH, DOT, DOT, SLASH], input) {
      RemoveBytes(input[3..], PopSegment(output), x);
      if x in PopSegment(output) { PopBytes(output, x); }
    } else if input == [SLASH, DOT, DOT] {
      RemoveBytes([SLASH], PopSegment(output), x);
      if x in PopSegment(output) { PopBytes(output, x); }
    } else if input != [DOT] && input != [DOT, DOT] {
      RemoveBytes(input[SegmentEnd(input)..], output + input[..SegmentEnd(input)], x);
    }
  }

  lemma {:induction false} RemoveWithout(path: Bytes, x: Byte)
    requires x !in path && x != SLASH
    ensures x !in RemoveDotSegments(path)
  {
    if x in RemoveDotSegments(path) { RemoveBytes(path, [], x); }
  }

  predicate Absolute(path: Bytes) { path == [] || path[0] == SLASH }

  lemma {:induction false} RemoveAbsolute(path: Bytes)
    requires Absolute(path)
    ensures Absolute(RemoveDotSegments(path))
  {
    if path != [] {
      AbsoluteIsFold(path);
      var p := Walk(Split(path[1..]), Path([], []));
      if p.stack != [] { RootedFirst(p.stack); }
    }
  }

  lemma {:induction false} MergeParts(b: Parts, path: Bytes)
    requires Shape(b)
    ensures b.authority.Some? ==> Absolute(Merge(b, path)) || b.path == []
    ensures QUESTION !in path ==> QUESTION !in Merge(b, path)
    ensures HASH !in path ==> HASH !in Merge(b, path)
  {
    if b.path != [] && SLASH in b.path {
      forall x | x in PopSegment(b.path) ensures x in b.path { PopBytes(b.path, x); }
      if b.path[0] == SLASH { PopKeepsLead(b.path); }
    }
  }

  lemma {:induction false} PopKeepsLead(path: Bytes)
    requires path != [] && path[0] == SLASH
    ensures Absolute(PopSegment(path))
  {
    if path[|path| - 1] != SLASH { PopKeepsLead(path[..|path| - 1]); }
  }

  /** A path that would read as an authority. */
  predicate Ambiguous(p: Parts) { p.authority.None? && Starts([SLASH, SLASH], p.path) }

  lemma {:induction false} TransformShape(b: Parts, r: Parts)
    requires Shape(b) && Shape(r) && b.scheme.Some?
    ensures Shape(Transform(b, r)) <==> !Ambiguous(Transform(b, r))
  {
    RemoveWithout(r.path, QUESTION);
    RemoveWithout(r.path, HASH);
    MergeParts(b, r.path);
    RemoveWithout(Merge(b, r.path), QUESTION);
    RemoveWithout(Merge(b, r.path), HASH);
    if Absolute(r.path) { RemoveAbsolute(r.path); }
    if Absolute(Merge(b, r.path)) { RemoveAbsolute(Merge(b, r.path)); }
  }

  // ------------------------------------------------------- reading the result back

  /** Whether the reference carries nothing that replaces the base's path. */
  predicate SameDocument(r: Parts) { r.scheme.None? && r.authority.None? && r.path == [] }

  function ChosenAuthority(b: Parts, r: Parts): Option<Bytes> {
    if r.scheme.Some? || r.authority.Some? then r.authority else b.authority
  }

  /** The path whose dot segments are removed. */
  function ChosenPath(b: Parts, r: Parts): Bytes {
    if r.scheme.Some? || r.authority.Some? || Absolute(r.path) then r.path else Merge(b, r.path)
  }

  /** The segments of the base's path but its last one; an authority without a path
      counts as the root. */
  function BaseSegments(b: Parts): seq<Bytes> {
    if b.authority.Some? && b.path == [] then [[]] else Split(b.path)[..|Split(b.path)| - 1]
  }

  /** The segments that are folded: a relative path's follow the base's. */
  function ChosenSegments(b: Parts, r: Parts): (segs: seq<Bytes>)
    ensures segs != []
  {
    if r.scheme.Some? || r.authority.Some? || Absolute(r.path) then Split(r.path) else BaseSegments(b) + Split(r.path)
  }

  lemma {:induction false} MergedSegments(b: Parts, path: Bytes)
    ensures Split(Merge(b, path)) == BaseSegments(b) + Split(path)
  {
    if b.authority.Some? && b.path == [] {
      SplitAt([], path);
      assert [] + [SLASH] + path == [SLASH] + path;
    } else if SLASH in b.path {
      SplitConcat(PopSegment(b.path), path);
      PopSplits(b.path);
    } else {
      SplitAt(b.path, []);
      var one: seq<Bytes> := [b.path];
      assert one[..0] == [] && [] + Split(path) == Split(path);
    }
  }

  lemma {:induction false} ChosenPathSplits(b: Parts, r: Parts)
    ensures Split(ChosenPath(b, r)) == ChosenSegments(b, r)
  {
    MergedSegments(b, r.path);
  }

  /** No authority is chosen, and the chosen segments fold to an empty one with
      another behind it. */
  predicate Misread(b: Parts, r: Parts) {
    && !SameDocument(r) && ChosenAuthority(b, r).None?
    && var p := FoldSegments(ChosenSegments(b, r)); p.head == [] && |p.stack| >= 2 && p.stack[0] == []
  }

  /** What the parts of a resolved reference are, part by part (section 5.2.2 of RFC
      3986): a path with a scheme, an authority or a leading `/` of its own is folded
      alone, a relative one behind the base's segments without the last. */
  predicate Transforms(b: Parts, r: Parts, t: Parts) {
    && t.fragment == r.fragment
    && t.scheme == (if r.scheme.Some? then r.scheme else b.scheme)
    && t.authority == (if r.scheme.Some? || r.authority.Some? then r.authority else b.authority)
    && t.query == (if SameDocument(r) && r.query.None? then b.query else r.query)
    && t.path == if SameDocument(r) then b.path else Text(FoldSegments(ChosenSegments(b, r)))
  }

  lemma {:induction false} TransformIs(b: Parts, r: Parts)
    ensures Transforms(b, r, Transform(b, r))
  {
    ChosenPathSplits(b, r);
    RemoveIsFold(ChosenPath(b, r));
  }

  /** Resolution fails exactly on strings that do not split and on a base without a
      scheme, and otherwise gives the string of the transformed parts. */
  lemma {:induction false} ResolvesTo(base: Bytes, reference: Bytes)
    ensures ResolveIri(base, reference) == InvalidIri <==>
            SplitIri(base) == None || (SplitIri(base).value.scheme.Some? && SplitIri(reference) == None)
    ensures ResolveIri(base, reference) == RelativeBase <==>
            SplitIri(base).Some? && SplitIri(base).value.scheme == None
    ensures forall b, r, t ::
              SplitIri(base) == Some(b) && b.scheme.Some? && SplitIri(reference) == Some(r) && Transforms(b, r, t) ==>
              ResolveIri(base, reference) == Resolved(Recompose(t))
  {
    if SplitIri(base).Some? && SplitIri(reference).Some? {
      TransformIs(SplitIri(base).value, SplitIri(reference).value);
    }
  }

  /** A relative path against an absolute base path: the stack fold of the base's
      segments without the last, then the reference's. */
  lemma {:induction false} RelativePath(b: Parts, r: Parts, t: Parts, segs: seq<Bytes>)
    requires Transforms(b, r, t) && r.scheme.None? && r.authority.None? && !Absolute(r.path)
    requires b.path != [] && b.path[0] == SLASH && segs == Split(b.path[1..])
    ensures t.path == Rooted(Walk(segs[..|segs| - 1] + Split(r.path), Path([], [])).stack)
  {
    var rest := segs[..|segs| - 1] + Split(r.path);
    RootedSegments(b, segs);
    SegmentsAssoc([[]], segs[..|segs| - 1], Split(r.path));
    FoldRooted(rest);
  }

  lemma {:induction false} SegmentsAssoc(x: seq<Bytes>, y: seq<Bytes>, z: seq<Bytes>)
    ensures (x + y) + z == x + (y + z)
  {
  }

  lemma {:induction false} RootedSegments(b: Parts, segs: seq<Bytes>)
    requires b.path != [] && b.path[0] == SLASH && segs == Split(b.path[1..])
    ensures BaseSegments(b) == [[]] + segs[..|segs| - 1]
  {
    SplitAt([], b.path[1..]);
    assert [] + [SLASH] + b.path[1..] == b.path;
    var all := [[]] + segs;
    assert Split(b.path) == all && all[..|all| - 1] == [[]] + segs[..|segs| - 1];
  }

  lemma {:induction false} FoldRooted(segs: seq<Bytes>)
    requires segs != []
    ensures Text(FoldSegments([[]] + segs)) == Rooted(Walk(segs, Path([], [])).stack)
  {
    var none := Path([], []);
    assert ([[]] + segs)[1..] == segs;
    WalkHead(segs, none);
    assert [] + Rooted(Walk(segs, none).stack) == Rooted(Walk(segs, none).stack);
  }

  /** A relative path without base segments: against an authority alone it is rooted,
      against a base path without `/` it stands for itself. */
  lemma {:induction false} RelativeAlone(b: Parts, r: Parts, t: Parts)
    requires Transforms(b, r, t) && r.scheme.None? && r.authority.None? && !Absolute(r.path)
    ensures b.authority.Some? && b.path == [] ==> t.path == Rooted(Walk(Split(r.path), Path([], [])).stack)
    ensures SLASH !in b.path && !(b.authority.Some? && b.path == []) ==> t.path == Text(FoldSegments(Split(r.path)))
  {
    var segs := Split(r.path);
    if b.authority.Some? && b.path == [] {
      FoldRooted(segs);
    } else if SLASH !in b.path {
      SplitAt(b.path, []);
      var one: seq<Bytes> := [b.path];
      assert one[..0] == [] && [] + segs == segs;
    }
  }

  /** The text of a clean path begins with `//` exactly when it has no head and an
      empty first segment with another behind it. */
  lemma {:induction false} DoubleSlashIff(p: Path)
    requires Clean(p)
    ensures Starts([SLASH, SLASH], Text(p)) <==> p.head == [] && |p.stack| >= 2 && p.stack[0] == []
  {
    if p.stack == [] {
      assert Text(p) == p.head;
      if |p.head| > 0 { assert p.head[0] in p.head; }
    } else {
      RootedFirst(p.stack);
      var inner := p.stack[0] + Rooted(p.stack[1..]);
      if p.head != [] {
        assert Text(p)[0] == p.head[0] && p.head[0] in p.head;
      } else {
        SlashAhead(p.stack[0], p.stack[1..]);
        assert Text(p) == [SLASH] + inner;
        SecondByte(inner);
      }
    }
  }

  lemma {:induction false} SecondByte(inner: Bytes)
    ensures Starts([SLASH, SLASH], [SLASH] + inner) <==> inner != [] && inner[0] == SLASH
  {
    if inner != [] && inner[0] == SLASH { assert [SLASH] + inner == [SLASH, SLASH] + inner[1..]; }
    if Starts([SLASH, SLASH], [SLASH] + inner) { assert ([SLASH] + inner)[1] == SLASH; }
  }

  lemma {:induction false} SlashAhead(seg: Bytes, rest: seq<Bytes>)
    requires Plain(seg)
    ensures var s := seg + Rooted(rest); s != [] && s[0] == SLASH <==> seg == [] && rest != []
  {
    if seg != [] {
      assert (seg + Rooted(rest))[0] == seg[0] && seg[0] in seg;
    } else if rest != [] {
      RootedFirst(rest);
    }
  }

  lemma {:induction false} AmbiguousIff(b: Parts, r: Parts)
    requires Shape(b)
    ensures Ambiguous(Transform(b, r)) <==> Misread(b, r)
  {
    var path := ChosenPath(b, r);
    ChosenPathSplits(b, r);
    RemoveIsFold(path);
    FoldIsClean(path);
    DoubleSlashIff(Fold(path));
    if !SameDocument(r) { assert Transform(b, r).path == RemoveDotSegments(path); }
  }

  /** The resolved string has the parts section 5.2.2 computes, exactly unless no
      authority is chosen and the chosen path folds to one that begins with `//`. */
  lemma {:induction false} ResolvedParts(base: Bytes, reference: Bytes, b: Parts, r: Parts, t: Parts)
    requires SplitIri(base) == Some(b) && b.scheme.Some? && SplitIri(reference) == Some(r)
    requires Transforms(b, r, t)
    ensures ResolveIri(base, reference).Resolved?
    ensures SplitIri(ResolveIri(base, reference).iri) == Some(t) <==> !Misread(b, r)
  {
    TransformIs(b, r);
    SplitJoins(base);
    SplitJoins(reference);
    TransformShape(b, r);
    AmbiguousIff(b, r);
    SplitExact(ResolveIri(base, reference).iri, Transform(b, r));
  }

  lemma {:induction false} PathSettled(b: Parts, r: Parts)
    ensures var path := Transform(b, r).path;
            RemoveDotSegments(path) == path <==> (SameDocument(r) ==> RemoveDotSegments(b.path) == b.path)
  {
    RemoveIdempotent(r.path);
    RemoveIdempotent(Merge(b, r.path));
  }

  /** What a misread result is read as: its second segment is the authority. */
  function Reread(t: Parts, authority: Bytes, rest: Bytes): Parts { t.(authority := Some(authority), path := rest) }

  lemma {:induction false} MisreadText(p: Path)
    requires p.head == [] && |p.stack| >= 2 && p.stack[0] == []
    ensures Text(p) == [SLASH, SLASH] + p.stack[1] + Rooted(p.stack[2..])
  {
    RootedFirst(p.stack);
    RootedFirst(p.stack[1..]);
    assert p.stack[1..][1..] == p.stack[2..];
  }

  lemma {:induction false} RereadSplits(t: Parts, authority: Bytes, rest: Bytes)
    requires t.scheme.Some? && IsScheme(t.scheme.value) && t.authority.None?
    requires t.path == [SLASH, SLASH] + authority + rest && SLASH !in authority && Absolute(rest)
    requires QUESTION !in t.path && HASH !in t.path && Without(HASH, t.query) && Without(HASH, t.fragment)
    ensures SplitIri(Recompose(t)) == Some(Reread(t, authority, rest))
    ensures Recompose(Reread(t, authority, rest)) == Recompose(t)
  {
    var u := Reread(t, authority, rest);
    forall x | x in authority || x in rest ensures x in t.path { }
    assert ([SLASH, SLASH] + authority) + rest == [] + t.path;
    JoinSplits(u);
  }

  lemma {:induction false} RereadSettles(t: Parts, p: Path, other: Bytes, o: Parts)
    requires t.scheme.Some? && IsScheme(t.scheme.value) && t.authority.None? && t.path == Text(p) && Clean(p)
    requires p.head == [] && |p.stack| >= 2 && p.stack[0] == []
    requires QUESTION !in t.path && HASH !in t.path && Without(HASH, t.query) && Without(HASH, t.fragment)
    requires SplitIri(other) == Some(o) && o.scheme.Some?
    ensures ResolveIri(other, Recompose(t)) == Resolved(Recompose(t))
  {
    MisreadText(p);
    if |p.stack| > 2 { RootedFirst(p.stack[2..]); }
    var rest := Path([], p.stack[2..]);
    assert Text(rest) == Rooted(p.stack[2..]);
    RereadSplits(t, p.stack[1], Text(rest));
    CleanIsFixed(rest);
    AgainTransforms(o, Reread(t, p.stack[1], Text(rest)), Reread(t, p.stack[1], Text(rest)));
  }

  /** A resolved IRI resolves to itself against every base, exactly unless a
      same-document reference copied a base path that still had dot segments. */
  lemma {:induction false} ResolveSettles(base: Bytes, reference: Bytes, other: Bytes, b: Parts, r: Parts, o: Parts)
    requires SplitIri(base) == Some(b) && b.scheme.Some? && SplitIri(reference) == Some(r)
    requires SplitIri(other) == Some(o) && o.scheme.Some?
    ensures ResolveIri(base, reference).Resolved?
    ensures ResolveIri(other, ResolveIri(base, reference).iri) == ResolveIri(base, reference)
            <==> (SameDocument(r) ==> RemoveDotSegments(b.path) == b.path)
  {
    var t := Transform(b, r);
    TransformIs(b, r);
    ResolvedParts(base, reference, b, r, t);
    if Misread(b, r) {
      MisreadSettles(base, reference, other, b, r, o);
    } else {
      PathSettled(b, r);
      var again := t.(path := RemoveDotSegments(t.path));
      AgainTransforms(o, t, again);
      PathDecides(t, again);
    }
  }

  lemma {:induction false} MisreadSettles(base: Bytes, reference: Bytes, other: Bytes, b: Parts, r: Parts, o: Parts)
    requires SplitIri(base) == Some(b) && b.scheme.Some? && SplitIri(reference) == Some(r) && Misread(b, r)
    requires SplitIri(other) == Some(o) && o.scheme.Some?
    ensures ResolveIri(other, ResolveIri(base, reference).iri) == ResolveIri(base, reference)
  {
    var t, path := Transform(b, r), ChosenPath(b, r);
    SplitJoins(base);
    SplitJoins(reference);
    MergeParts(b, r.path);
    RemoveWithout(path, QUESTION);
    RemoveWithout(path, HASH);
    ChosenPathSplits(b, r);
    RemoveIsFold(path);
    FoldIsClean(path);
    assert t.path == RemoveDotSegments(path) && t.authority == ChosenAuthority(b, r);
    RereadSettles(t, Fold(path), other, o);
  }

  /** Resolving the empty reference against `a:/./b` copies its path; resolving
      the result removes the dot segment. */
  lemma {:induction false} CopiedPathUnsettled()
    ensures var base: Bytes := [97, COLON, SLASH, DOT, SLASH, 98];
            && ResolveIri(base, []) == Resolved(base)
            && ResolveIri(base, base) == Resolved([97, COLON, SLASH, 98])
  {
    var path: Bytes := [SLASH, DOT, SLASH, 98];
    var b, none := Parts(Some([97]), None, path, None, None), Parts(None, None, [], None, None);
    DottedShape(b, path);
    JoinSplits(b);
    assert Shape(none) && Recompose(none) == [];
    JoinSplits(none);
    DottedFold(path);
    assert Transform(b, none) == b;
    assert Transform(b, b) == b.(path := [SLASH, 98]);
    assert Recompose(b.(path := [SLASH, 98])) == [97, COLON, SLASH, 98];
  }

  lemma {:induction false} DottedShape(b: Parts, path: Bytes)
    requires path == [SLASH, DOT, SLASH, 98] && b == Parts(Some([97]), None, path, None, None)
    ensures Shape(b) && Recompose(b) == [97, COLON, SLASH, DOT, SLASH, 98]
  {
    assert path[1] == DOT;
  }

  lemma {:induction false} DottedFold(path: Bytes)
    requires path == [SLASH, DOT, SLASH, 98]
    ensures RemoveDotSegments(path) == [SLASH, 98]
  {
    var none, segs := Path([], []), [[DOT], [98]];
    assert path[1..] == [DOT] + [SLASH] + [98];
    SplitAt([DOT], [98]);
    SplitAt([98], []);
    AbsoluteIsFold(path);
    assert Split(path[1..]) == segs;
    TwoSegments(none);
  }

  lemma {:induction false} TwoSegments(p: Path)
    requires p == Path([], [])
    ensures Rooted(Walk([[DOT], [98]], p).stack) == [SLASH, 98]
  {
    var segs: seq<Bytes>, last: seq<Bytes> := [[DOT], [98]], [[98]];
    assert segs[1..] == last && last[1..] == [] && last[..0] == [];
    assert Walk(segs, p) == Walk(last, p);
    assert Walk(last, p) == Walk([], Push(p, [98]));
    assert Walk(segs, p).stack == last;
    assert Rooted(last) == Rooted([]) + [SLASH] + [98];
  }

  /** A reference with a scheme only has its path cleaned. */
  lemma {:induction false} AgainTransforms(o: Parts, t: Parts, again: Parts)
    requires t.scheme.Some? && again == t.(path := RemoveDotSegments(t.path))
    ensures Transform(o, t) == again
  {
  }

  lemma {:induction false} Sandwich(pre: Bytes, x: Bytes, y: Bytes, post: Bytes)
    requires pre + (x + post) == pre + (y + post)
    ensures x == y
  {
    var s := pre + (x + post);
    assert |x| == |y|;
    assert s[|pre|..][..|x|] == x && s[|pre|..][..|x|] == y;
  }

  lemma {:induction false} PathInside(p: Parts, pre: Bytes, post: Bytes)
    requires pre == SchemeText(p.scheme) + Marked([SLASH, SLASH], p.authority)
    requires post == Marked([QUESTION], p.query) + Marked([HASH], p.fragment)
    ensures Recompose(p) == pre + (p.path + post)
  {
    Regroup(SchemeText(p.scheme), Marked([SLASH, SLASH], p.authority), p.path, Marked([QUESTION], p.query),
        Marked([HASH], p.fragment));
  }

  lemma {:induction false} Regroup(s: Bytes, a: Bytes, x: Bytes, q: Bytes, f: Bytes)
    ensures ((s + (a + x)) + q) + f == (s + a) + (x + (q + f))
  {
    assert s + (a + x) == (s + a) + x;
    var pre := s + a;
    assert ((pre + x) + q) + f == pre + (x + (q + f));
  }

  /** Parts that differ in the path alone have different strings. */
  lemma {:induction false} PathDecides(p: Parts, q: Parts)
    requires q == p.(path := q.path)
    ensures Recompose(p) == Recompose(q) <==> p == q
  {
    var pre := SchemeText(p.scheme) + Marked([SLASH, SLASH], p.authority);
    var post := Marked([QUESTION], p.query) + Marked([HASH], p.fragment);
    PathInside(p, pre, post);
    PathInside(q, pre, post);
    if Recompose(p) == Recompose(q) { Sandwich(pre, p.path, q.path, post); }
  }

  /** Such a path does occur: the base `a:b` and the reference `/.//c` give
      `a://c`, which names an authority `c`. */
  lemma {:induction false} AmbiguityOccurs()
    ensures var base: Bytes, reference: Bytes := [97, COLON, 98], [SLASH, DOT, SLASH, SLASH, 99];
            && ResolveIri(base, reference) == Resolved([97, COLON, SLASH, SLASH, 99])
            && SplitIri([97, COLON, SLASH, SLASH, 99]) == Some(Parts(Some([97]), Some([99]), [], None, None))
  {
    var path: Bytes := [SLASH, DOT, SLASH, SLASH, 99];
    var b := Parts(Some([97]), None, [98], None, None);
    var r := Parts(None, None, path, None, None);
    var t := Parts(Some([97]), Some([99]), [], None, None);
    BaseShape(b);
    PathShape(r, path);
    AuthorityShape(t);
    JoinSplits(b);
    JoinSplits(r);
    JoinSplits(t);
    AmbiguousPath(b, r);
  }

  lemma {:induction false} AmbiguousPath(b: Parts, r: Parts)
    requires b == Parts(Some([97]), None, [98], None, None)
    requires r == Parts(None, None, [SLASH, DOT, SLASH, SLASH, 99], None, None)
    ensures Recompose(Transform(b, r)) == [97, COLON, SLASH, SLASH, 99]
  {
    DoubleSlash(r.path);
    assert Transform(b, r) == Parts(Some([97]), None, [SLASH, SLASH, 99], None, None);
    assert [97, COLON] + ([] + [SLASH, SLASH, 99]) + [] + [] == [97, COLON, SLASH, SLASH, 99];
  }

  lemma {:induction false} BaseShape(b: Parts)
    requires b == Parts(Some([97]), None, [98], None, None)
    ensures Shape(b) && Recompose(b) == [97, COLON, 98]
  {
  }

  lemma {:induction false} PathShape(r: Parts, path: Bytes)
    requires r == Parts(None, None, path, None, None) && path == [SLASH, DOT, SLASH, SLASH, 99]
    ensures Shape(r) && Recompose(r) == path
  {
    assert Find(path, SLASH) == 0;
    assert FirstSegment(path) == [];
    assert path[1] == DOT;
  }

  lemma {:induction false} AuthorityShape(t: Parts)
    requires t == Parts(Some([97]), Some([99]), [], None, None)
    ensures Shape(t) && Recompose(t) == [97, COLON, SLASH, SLASH, 99]
  {
  }

  lemma {:induction false} DoubleSlash(path: Bytes)
    requires path == [SLASH, DOT, SLASH, SLASH, 99]
    ensures RemoveDotSegments(path) == [SLASH, SLASH, 99]
  {
    var none := Path([], []);
    assert path[1..] == [DOT] + [SLASH] + [SLASH, 99];
    FindFirst([DOT], SLASH, [SLASH, 99]);
    FindFirst([], SLASH, [99]);
    assert [] + [SLASH] + [99] == [SLASH, 99];
    FindNone([99], SLASH);
    assert Split([SLASH, 99]) == [[]] + Split([99]);
    assert Split(path[1..]) == [[DOT]] + Split([SLASH, 99]);
    AbsoluteIsFold(path);
    assert Split(path[1..]) == [[DOT], [], [99]];
    ThreeSegments(none);
  }

  lemma {:induction false} ThreeSegments(p: Path)
    requires p == Path([], [])
    ensures Rooted(Walk([[DOT], [], [99]], p).stack) == [SLASH, SLASH, 99]
  {
    var segs: seq<Bytes> := [[DOT], [], [99]];
    assert segs[1..] == [[], [99]] && segs[1..][1..] == [[99]] && [[99]][1..] == [];
    assert Walk(segs, p) == Walk([[], [99]], p);
    assert Walk([[], [99]], p) == Walk([[99]], Push(p, []));
    assert Walk([[99]], Push(p, [])) == Walk([], Push(Push(p, []), [99]));
    assert Walk(segs, p).stack == [[], [99]];
    RootedPair([], [99]);
  }

  lemma {:induction false} RootedPair(x: Bytes, y: Bytes)
    ensures Rooted([x, y]) == [SLASH] + x + [SLASH] + y
  {
    assert [x, y][..1] == [x] && [x][..0] == [];
    assert Rooted([x]) == Rooted([]) + [SLASH] + x == [SLASH] + x;
  }
}

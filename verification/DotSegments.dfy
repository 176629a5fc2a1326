/** Dot-segment removal (section 5.2.4 of RFC 3986) as implemented in
    crates/graphy-core/src/iri.rs. */
module DotSegments {
  import opened Seqs
  import opened Terms

  const SLASH: Byte := 47
  const DOT: Byte := 46

  // ------------------------------------------------------- the code

  predicate Starts(prefix: Bytes, s: Bytes) { prefix <= s }

  /** Up to the last `/`, or nothing. */
  function PopSegment(output: Bytes): (r: Bytes)
    ensures |r| <= |output|
  {
    if output == [] then []
    else if output[|output| - 1] == SLASH then output[..|output| - 1]
    else PopSegment(output[..|output| - 1])
  }

  /** End of the first segment, a leading `/` included. */
  function SegmentEnd(input: Bytes): (end: nat)
    requires input != []
    ensures 1 <= end <= |input|
  {
    var start := if input[0] == SLASH then 1 else 0;
    start + Find(input[start..], SLASH)
  }

  function Remove(input: Bytes, output: Bytes): Bytes
    decreases |input|
  {
    if input == [] then output
    else if Starts([DOT, DOT, SLASH], input) then Remove(input[3..], output)
    else if Starts([DOT, SLASH], input) then Remove(input[2..], output)
    else if Starts([SLASH, DOT, SLASH], input) then Remove(input[2..], output)
    else if input == [SLASH, DOT] then Remove([SLASH], output)
    else if Starts([SLASH, DOT, DOT, SLASH], input) then Remove(input[3..], PopSegment(output))
    else if input == [SLASH, DOT, DOT] then Remove([SLASH], PopSegment(output))
    else if input == [DOT] || input == [DOT, DOT] then Remove([], output)
    else Remove(input[SegmentEnd(input)..], output + input[..SegmentEnd(input)])
  }

  function RemoveDotSegments(path: Bytes): Bytes { Remove(path, []) }

  method PopLoop(output: Bytes) returns (r: Bytes)
    ensures r == PopSegment(output)
  {
    r := output;
    while r != [] && r[|r| - 1] != SLASH
      invariant PopSegment(r) == PopSegment(output)
    {
      r := r[..|r| - 1];
    }
    if r != [] {
      r := r[..|r| - 1];
    }
  }

  method RemoveLoop(path: Bytes) returns (output: Bytes)
    ensures output == RemoveDotSegments(path)
  {
    var input := path;
    output := [];
    while input != []
      invariant Remove(input, output) == RemoveDotSegments(path)
      decreases |input|
    {
      if [DOT, DOT, SLASH] <= input {
        input := input[3..];
      } else if [DOT, SLASH] <= input {
        input := input[2..];
      } else if [SLASH, DOT, SLASH] <= input {
        input := input[2..];
      } else if input == [SLASH, DOT] {
        input := [SLASH];
      } else if [SLASH, DOT, DOT, SLASH] <= input {
        input := input[3..];
        output := PopLoop(output);
      } else if input == [SLASH, DOT, DOT] {
        input := [SLASH];
        output := PopLoop(output);
      } else if input == [DOT] || input == [DOT, DOT] {
        input := [];
      } else {
        var end := SegmentEnd(input);
        output := output + input[..end];
        input := input[end..];
      }
    }
  }

  // ------------------------------------------------------- the meaning

  /** The `/`-separated parts of a path. */
  function Split(s: Bytes): (r: seq<Bytes>)
    ensures |r| > 0
    decreases |s|
  {
    var i := Find(s, SLASH);
    if i == |s| then [s] else [s[..i]] + Split(s[i + 1..])
  }

  /** A relative first segment and the segments behind it. */
  datatype Path = Path(head: Bytes, stack: seq<Bytes>)

  function Rooted(stack: seq<Bytes>): Bytes {
    if stack == [] then [] else Rooted(stack[..|stack| - 1]) + [SLASH] + stack[|stack| - 1]
  }

  function Text(p: Path): Bytes { p.head + Rooted(p.stack) }

  /** `..` drops the last segment, or else the relative first one. */
  function Up(p: Path): Path {
    if p.stack == [] then Path([], []) else p.(stack := p.stack[..|p.stack| - 1])
  }

  function Push(p: Path, seg: Bytes): Path { p.(stack := p.stack + [seg]) }

  predicate IsDot(seg: Bytes) { seg == [DOT] || seg == [DOT, DOT] }

  /** The fold of the segments over the stack; a trailing dot segment leaves an
      empty last segment, that is a trailing `/`. */
  function Walk(segs: seq<Bytes>, p: Path): Path
    decreases |segs|
  {
    if segs == [] then p
    else if IsDot(segs[0]) then
      var q := if segs[0] == [DOT] then p else Up(p);
      if |segs| == 1 then Push(q, []) else Walk(segs[1..], q)
    else Walk(segs[1..], Push(p, segs[0]))
  }

  // ------------------------------------------------------- the code is the fold

  predicate Plain(seg: Bytes) { SLASH !in seg }

  lemma {:induction false} PopPlain(prefix: Bytes, seg: Bytes)
    requires Plain(seg)
    ensures PopSegment(prefix + [SLASH] + seg) == prefix
    decreases |seg|
  {
    var s := prefix + [SLASH] + seg;
    if seg == [] {
      assert s[..|s| - 1] == prefix;
    } else {
      assert s[..|s| - 1] == prefix + [SLASH] + seg[..|seg| - 1];
      PopPlain(prefix, seg[..|seg| - 1]);
    }
  }

  lemma {:induction false} PopAll(seg: Bytes)
    requires Plain(seg)
    ensures PopSegment(seg) == []
    decreases |seg|
  {
    if seg != [] { PopAll(seg[..|seg| - 1]); }
  }

  ghost predicate PlainPath(p: Path) { Plain(p.head) && forall i :: 0 <= i < |p.stack| ==> Plain(p.stack[i]) }

  lemma {:induction false} PopIsUp(p: Path)
    requires PlainPath(p)
    ensures PopSegment(Text(p)) == Text(Up(p)) && PlainPath(Up(p))
  {
    if p.stack == [] {
      assert Text(p) == p.head;
      PopAll(p.head);
    } else {
      var n := |p.stack| - 1;
      var prefix := p.head + Rooted(p.stack[..n]);
      assert Text(p) == prefix + [SLASH] + p.stack[n];
      PopPlain(prefix, p.stack[n]);
    }
  }

  lemma {:induction false} PushText(p: Path, seg: Bytes)
    requires PlainPath(p) && Plain(seg)
    ensures Text(Push(p, seg)) == Text(p) + ([SLASH] + seg) && PlainPath(Push(p, seg))
  {
    assert (p.stack + [seg])[..|p.stack|] == p.stack;
  }

  /** A rooted input is `/`, its first segment and the rest. */
  lemma {:induction false} RootedInput(input: Bytes)
    requires input != [] && input[0] == SLASH
    ensures var end := SegmentEnd(input);
            && Plain(input[1..end]) && input == [SLASH] + input[1..end] + input[end..]
            && (end < |input| ==> input[end] == SLASH)
            && Split(input[1..]) == [input[1..end]] + if end == |input| then [] else Split(input[end + 1..])
  {
    var rest := input[1..];
    FindIsFirst(rest, SLASH);
    var i := Find(rest, SLASH);
    assert rest[..i] == input[1..i + 1] && rest[i..] == input[i + 1..];
    if i < |rest| {
      assert rest[i + 1..] == input[i + 2..];
    } else {
      assert rest[..i] == rest && [rest] + [] == [rest];
    }
  }

  /** Which branch takes a rooted input, by its first segment. */
  lemma {:induction false} RootedStep(seg: Bytes, rest: Bytes, output: Bytes)
    requires Plain(seg) && (rest == [] || rest[0] == SLASH)
    ensures Remove([SLASH] + seg + rest, output)
            == if seg == [DOT] then Remove(if rest == [] then [SLASH] else rest, output)
               else if seg == [DOT, DOT] then Remove(if rest == [] then [SLASH] else rest, PopSegment(output))
               else Remove(rest, output + ([SLASH] + seg))
  {
    var input := [SLASH] + seg + rest;
    if seg == [DOT] {
      assert input == [SLASH, DOT] + rest;
      if rest == [] { assert input == [SLASH, DOT]; } else { assert input[2] == SLASH && input[2..] == rest; }
    } else if seg == [DOT, DOT] {
      assert input == [SLASH, DOT, DOT] + rest;
      assert input[0] == SLASH && input[1] == DOT && input[2] == DOT;
      if rest == [] { assert input == [SLASH, DOT, DOT]; } else { assert input[3] == SLASH && input[3..] == rest; }
    } else {
      OtherSegment(seg, rest);
    }
  }

  lemma {:induction false} OtherSegment(seg: Bytes, rest: Bytes)
    requires Plain(seg) && !IsDot(seg) && (rest == [] || rest[0] == SLASH)
    ensures var input := [SLASH] + seg + rest;
            && !Starts([SLASH, DOT, SLASH], input) && input != [SLASH, DOT]
            && !Starts([SLASH, DOT, DOT, SLASH], input) && input != [SLASH, DOT, DOT]
            && SegmentEnd(input) == 1 + |seg| && input[..1 + |seg|] == [SLASH] + seg && input[1 + |seg|..] == rest
  {
    var input := [SLASH] + seg + rest;
    assert forall i :: 0 <= i < |seg| ==> input[i + 1] == seg[i];
    if |seg| == 1 { assert seg == [seg[0]]; }
    if |seg| == 2 { assert seg == [seg[0], seg[1]]; }
    if rest != [] { assert input[1 + |seg|] == SLASH; }
    if |seg| > 0 { assert seg[0] in seg && seg[0] != SLASH; }
    if |seg| > 1 { assert seg[1] in seg && seg[1] != SLASH; }
    if |seg| > 2 { assert seg[2] in seg && seg[2] != SLASH; }
    assert input[1..] == seg + rest;
    if rest != [] {
      FindFirst(seg, SLASH, rest[1..]);
      assert rest == [SLASH] + rest[1..];
      assert seg + rest == seg + [SLASH] + rest[1..];
    } else {
      FindNone(seg, SLASH);
      assert seg + rest == seg;
    }
  }

  /** On a rooted (or used up) input the loop is the fold of its segments. */
  lemma {:induction false} LoopIsFold(input: Bytes, p: Path)
    requires PlainPath(p) && (input == [] || input[0] == SLASH)
    ensures Remove(input, Text(p)) == Text(Walk(if input == [] then [] else Split(input[1..]), p))
    decreases |input|
  {
    if input != [] {
      RootedInput(input);
      var end := SegmentEnd(input);
      var seg, rest := input[1..end], input[end..];
      RootedStep(seg, rest, Text(p));
      var segs := Split(input[1..]);
      if rest != [] {
        assert rest[1..] == input[end + 1..];
        assert segs[1..] == Split(rest[1..]);
      }
      if IsDot(seg) {
        if seg == [DOT, DOT] { PopIsUp(p); }
        var q := if seg == [DOT] then p else Up(p);
        if rest == [] {
          TrailingSlash(q);
        } else {
          LoopIsFold(rest, q);
        }
      } else {
        PushText(p, seg);
        LoopIsFold(rest, Push(p, seg));
        if rest == [] { assert segs[1..] == []; }
      }
    }
  }

  lemma {:induction false} TrailingSlash(p: Path)
    requires PlainPath(p)
    ensures Remove([SLASH], Text(p)) == Text(Push(p, []))
  {
    PushText(p, []);
    assert [SLASH] == [SLASH] + [] + [];
    RootedStep([], [], Text(p));
  }

  // ------------------------------------------------------- results

  /** On absolute paths the result is the stack fold of the segments. */
  lemma {:induction false} AbsoluteIsFold(path: Bytes)
    requires path != [] && path[0] == SLASH
    ensures RemoveDotSegments(path) == Rooted(Walk(Split(path[1..]), Path([], [])).stack)
  {
    var p := Path([], []);
    assert Text(p) == [];
    LoopIsFold(path, p);
    WalkHead(Split(path[1..]), p);
    var q := Walk(Split(path[1..]), p);
    assert [] + Rooted(q.stack) == Rooted(q.stack);
  }

  lemma {:induction false} WalkHead(segs: seq<Bytes>, p: Path)
    requires p.head == []
    ensures Walk(segs, p).head == []
    decreases |segs|
  {
    if segs != [] && !(IsDot(segs[0]) && |segs| == 1) {
      WalkHead(segs[1..], if segs[0] == [DOT] then p else if segs[0] == [DOT, DOT] then Up(p) else Push(p, segs[0]));
    }
  }

  /** The result is never longer than the path. */
  lemma {:induction false} NeverLonger(input: Bytes, output: Bytes)
    ensures |Remove(input, output)| <= |input| + |output|
    decreases |input|
  {
    if input == [] {
    } else if Starts([DOT, DOT, SLASH], input) {
      NeverLonger(input[3..], output);
    } else if Starts([DOT, SLASH], input) || Starts([SLASH, DOT, SLASH], input) {
      NeverLonger(input[2..], output);
    } else if input == [SLASH, DOT] {
      NeverLonger([SLASH], output);
    } else if Starts([SLASH, DOT, DOT, SLASH], input) {
      NeverLonger(input[3..], PopSegment(output));
    } else if input == [SLASH, DOT, DOT] {
      NeverLonger([SLASH], PopSegment(output));
    } else if input != [DOT] && input != [DOT, DOT] {
      NeverLonger(input[SegmentEnd(input)..], output + input[..SegmentEnd(input)]);
    }
  }

  predicate CleanSegment(seg: Bytes) { Plain(seg) && !IsDot(seg) }

  /** No segment is a dot segment. */
  ghost predicate Clean(p: Path) { CleanSegment(p.head) && forall i :: 0 <= i < |p.stack| ==> CleanSegment(p.stack[i]) }

  lemma {:induction false} WalkClean(segs: seq<Bytes>, p: Path)
    requires Clean(p) && forall i :: 0 <= i < |segs| ==> Plain(segs[i])
    ensures Clean(Walk(segs, p))
    decreases |segs|
  {
    if segs != [] {
      if IsDot(segs[0]) {
        var q := if segs[0] == [DOT] then p else Up(p);
        if |segs| > 1 { WalkClean(segs[1..], q); }
      } else {
        WalkClean(segs[1..], Push(p, segs[0]));
      }
    }
  }

  lemma {:induction false} SplitPlain(s: Bytes, i: nat)
    requires i < |Split(s)|
    ensures Plain(Split(s)[i])
    decreases |s|
  {
    FindIsFirst(s, SLASH);
    var k := Find(s, SLASH);
    if k == |s| {
      TakeAll(s);
    } else if i > 0 {
      SplitPlain(s[k + 1..], i - 1);
    }
  }

  /** Dot segments in front of a relative path, except a last one, fall away. */
  function DropDots(segs: seq<Bytes>): (r: seq<Bytes>)
    requires segs != []
    ensures r != [] && (|r| > 1 ==> !IsDot(r[0]))
    ensures forall i :: 0 <= i < |r| ==> r[i] in segs
    decreases |segs|
  {
    if |segs| > 1 && IsDot(segs[0]) then DropDots(segs[1..]) else segs
  }

  /** The fold of any segments: the first remaining one is the relative head, which
      an absolute path has empty. */
  function FoldSegments(segs: seq<Bytes>): Path
    requires segs != []
  {
    var rest := DropDots(segs);
    if IsDot(rest[0]) then Path([], []) else Walk(rest[1..], Path(rest[0], []))
  }

  function Fold(path: Bytes): Path { FoldSegments(Split(path)) }

  /** The segments of two paths joined by a `/` are theirs. */
  lemma {:induction false} SplitConcat(x: Bytes, y: Bytes)
    ensures Split(x + [SLASH] + y) == Split(x) + Split(y)
    decreases |x|
  {
    FindIsFirst(x, SLASH);
    var i := Find(x, SLASH);
    if i == |x| {
      TakeAll(x);
      SplitAt(x, y);
    } else {
      var head, rest := x[..i], x[i + 1..];
      assert x == head + [SLASH] + rest;
      assert x + [SLASH] + y == head + [SLASH] + (rest + [SLASH] + y);
      SplitAt(head, rest);
      SplitAt(head, rest + [SLASH] + y);
      SplitConcat(rest, y);
    }
  }

  lemma {:induction false} PopLast(path: Bytes) returns (last: Bytes)
    requires SLASH in path
    ensures path == PopSegment(path) + [SLASH] + last && Plain(last)
  {
    var init, b := path[..|path| - 1], path[|path| - 1];
    assert path == init + [b];
    if b == SLASH {
      last := [];
    } else {
      var before := PopLast(init);
      last := before + [b];
    }
  }

  /** Dropping the text behind the last `/` drops the last segment. */
  lemma {:induction false} PopSplits(path: Bytes)
    requires SLASH in path
    ensures Split(PopSegment(path)) == Split(path)[..|Split(path)| - 1]
  {
    var last := PopLast(path);
    SplitConcat(PopSegment(path), last);
    SplitAt(last, []);
  }

  lemma {:induction false} SplitAt(head: Bytes, rest: Bytes)
    requires Plain(head)
    ensures Split(head + [SLASH] + rest) == [head] + Split(rest)
    ensures Split(head) == [head]
  {
    FindFirst(head, SLASH, rest);
    FindNone(head, SLASH);
  }

  lemma {:induction false} FoldDrops(head: Bytes, rest: Bytes)
    requires IsDot(head)
    ensures Fold(head + [SLASH] + rest) == Fold(rest)
  {
    SplitAt(head, rest);
    assert ([head] + Split(rest))[1..] == Split(rest);
  }

  /** A path whose first segment is no dot segment. */
  lemma {:induction false} FoldWalks(path: Bytes, end: nat)
    requires end <= |path| && Plain(path[..end]) && !IsDot(path[..end]) && (end < |path| ==> path[end] == SLASH)
    ensures Fold(path) == Walk(if end == |path| then [] else Split(path[end + 1..]), Path(path[..end], []))
  {
    var head := path[..end];
    if end == |path| {
      SplitAt(head, []);
      var one: seq<Bytes> := [head];
      assert path == head && one[1..] == [];
    } else {
      var rest := path[end + 1..];
      SplitAt(head, rest);
      assert path == head + [SLASH] + rest;
      assert ([head] + Split(rest))[1..] == Split(rest);
    }
  }

  lemma {:induction false} FoldOfDot(path: Bytes)
    requires IsDot(path)
    ensures Fold(path) == Path([], []) && RemoveDotSegments(path) == []
  {
    SplitAt(path, []);
    assert Remove([], []) == [];
  }

  lemma {:induction false} PrefixDrops(head: Bytes, path: Bytes, n: nat)
    requires IsDot(head) && n == |head| + 1 && head + [SLASH] <= path
    ensures Fold(path) == Fold(path[n..]) && Remove(path, []) == Remove(path[n..], [])
  {
    FoldDrops(head, path[n..]);
    assert path == head + [SLASH] + path[n..];
    assert head + [SLASH] == if |head| == 1 then [DOT, SLASH] else [DOT, DOT, SLASH];
    assert path[1] == if |head| == 1 then SLASH else DOT;
  }

  /** On every path the result is the text of the fold. */
  lemma {:induction false} RemoveIsFold(path: Bytes)
    ensures RemoveDotSegments(path) == Text(Fold(path))
    decreases |path|
  {
    var none := Path([], []);
    assert Text(none) == [];
    if path == [] {
      SplitAt([], []);
    } else if Starts([DOT, DOT, SLASH], path) {
      PrefixDrops([DOT, DOT], path, 3);
      RemoveIsFold(path[3..]);
    } else if Starts([DOT, SLASH], path) {
      PrefixDrops([DOT], path, 2);
      RemoveIsFold(path[2..]);
    } else if path[0] == SLASH {
      FoldWalks(path, 0);
      LoopIsFold(path, none);
    } else if IsDot(path) {
      FoldOfDot(path);
    } else {
      RelativeFold(path);
    }
  }

  lemma {:induction false} RelativeFold(path: Bytes)
    requires path != [] && path[0] != SLASH && !IsDot(path)
    requires !Starts([DOT, DOT, SLASH], path) && !Starts([DOT, SLASH], path)
    ensures RemoveDotSegments(path) == Text(Fold(path))
  {
    var end := SegmentEnd(path);
    RelativeHead(path);
    var head := Path(path[..end], []);
    FoldWalks(path, end);
    assert [] + path[..end] == path[..end] == Text(head);
    assert Remove(path, []) == Remove(path[end..], [] + path[..end]);
    LoopIsFold(path[end..], head);
    if end < |path| { assert path[end..][1..] == path[end + 1..]; }
  }

  /** The fold leaves no dot segment anywhere. */
  lemma {:induction false} FoldIsClean(path: Bytes)
    ensures Clean(Fold(path))
  {
    var segs := DropDots(Split(path));
    forall s | s in Split(path) ensures Plain(s) {
      var i :| 0 <= i < |Split(path)| && Split(path)[i] == s;
      SplitPlain(path, i);
    }
    if !IsDot(segs[0]) { WalkClean(segs[1..], Path(segs[0], [])); }
  }

  lemma {:induction false} RelativeHead(input: Bytes)
    requires input != [] && input[0] != SLASH && input != [DOT] && input != [DOT, DOT]
    requires !Starts([DOT, DOT, SLASH], input) && !Starts([DOT, SLASH], input)
    ensures var end := SegmentEnd(input); CleanSegment(input[..end]) && (end < |input| ==> input[end] == SLASH)
  {
    assert input[0..] == input;
    FindIsFirst(input, SLASH);
    var end := SegmentEnd(input);
    if end < |input| {
      var seg := input[..end];
      assert input[end] == SLASH && input == seg + [SLASH] + input[end + 1..];
      if |seg| == 1 { assert seg == [input[0]] && input == [input[0], SLASH] + input[end + 1..]; }
      if |seg| == 2 { assert seg == [input[0], input[1]] && input == [input[0], input[1], SLASH] + input[end + 1..]; }
    } else {
      TakeAll(input);
    }
  }

  /** The segments of a clean path's text are its own. */
  lemma {:induction false} SplitRooted(head: Bytes, stack: seq<Bytes>)
    requires Plain(head) && forall i :: 0 <= i < |stack| ==> Plain(stack[i])
    ensures Split(head + Rooted(stack)) == [head] + stack
    decreases |stack|
  {
    if stack == [] {
      assert head + Rooted(stack) == head;
      FindNone(head, SLASH);
    } else {
      RootedFirst(stack);
      assert head + Rooted(stack) == head + [SLASH] + (stack[0] + Rooted(stack[1..]));
      FindFirst(head, SLASH, stack[0] + Rooted(stack[1..]));
      SplitRooted(stack[0], stack[1..]);
    }
  }

  lemma {:induction false} Assoc(x: Bytes, i: Bytes, y: Bytes)
    ensures [SLASH] + (x + i) + [SLASH] + y == [SLASH] + (x + (i + [SLASH] + y))
  {
  }

  lemma {:induction false} RootedFirst(stack: seq<Bytes>)
    requires stack != []
    ensures Rooted(stack) == [SLASH] + (stack[0] + Rooted(stack[1..]))
    decreases |stack|
  {
    var n := |stack| - 1;
    var rest := stack[1..];
    if n == 0 {
      assert Rooted(stack) == [] + [SLASH] + stack[0];
      assert rest == [] && stack[0] + [] == stack[0];
    } else {
      var init := stack[..n];
      RootedFirst(init);
      assert init[1..] == rest[..n - 1] && rest[n - 1] == stack[n] && init[0] == stack[0];
      var inner := Rooted(rest[..n - 1]);
      assert Rooted(rest) == inner + [SLASH] + stack[n];
      assert Rooted(stack) == [SLASH] + (stack[0] + inner) + [SLASH] + stack[n];
      Assoc(stack[0], inner, stack[n]);
    }
  }

  /** No `.` or `..` is left among the result's segments. */
  lemma {:induction false} NoDotSegments(path: Bytes, i: nat)
    requires i < |Split(RemoveDotSegments(path))|
    ensures !IsDot(Split(RemoveDotSegments(path))[i])
  {
    var p := Fold(path);
    RemoveIsFold(path);
    FoldIsClean(path);
    SplitRooted(p.head, p.stack);
  }

  lemma {:induction false} WalkKeeps(segs: seq<Bytes>, p: Path)
    requires forall i :: 0 <= i < |segs| ==> !IsDot(segs[i])
    ensures Walk(segs, p) == p.(stack := p.stack + segs)
    decreases |segs|
  {
    if segs == [] {
      assert p.stack + segs == p.stack;
    } else {
      WalkKeeps(segs[1..], Push(p, segs[0]));
      assert p.stack + [segs[0]] + segs[1..] == p.stack + segs;
    }
  }

  /** The text of a clean path comes back unchanged. */
  lemma {:induction false} CleanIsFixed(p: Path)
    requires Clean(p)
    ensures RemoveDotSegments(Text(p)) == Text(p)
  {
    var none := Path([], []);
    assert Text(none) == [];
    if p.head == [] {
      assert Text(p) == Rooted(p.stack);
      RootedFixed(p.stack, none);
      assert [] + p.stack == p.stack;
    } else {
      HeadMoves(p);
      var q := Path(p.head, []);
      assert Text(q) == p.head == [] + p.head;
      RootedFixed(p.stack, q);
      assert [] + p.stack == p.stack;
    }
  }

  lemma {:induction false} RootedFixed(stack: seq<Bytes>, p: Path)
    requires PlainPath(p) && forall i :: 0 <= i < |stack| ==> CleanSegment(stack[i])
    ensures Remove(Rooted(stack), Text(p)) == Text(p.(stack := p.stack + stack))
  {
    if stack == [] {
      assert p.stack + stack == p.stack;
    } else {
      RootedFirst(stack);
      var input := Rooted(stack);
      LoopIsFold(input, p);
      assert input[1..] == stack[0] + Rooted(stack[1..]);
      SplitRooted(stack[0], stack[1..]);
      assert [stack[0]] + stack[1..] == stack;
      WalkKeeps(stack, p);
    }
  }

  /** A relative first segment that is no dot segment moves to the output. */
  lemma {:induction false} HeadMoves(p: Path)
    requires Clean(p) && p.head != []
    ensures Remove(Text(p), []) == Remove(Rooted(p.stack), [] + p.head)
  {
    var input, n := Text(p), |p.head|;
    assert input[..n] == p.head && input[n..] == Rooted(p.stack);
    assert input[0] == p.head[0] && p.head[0] in p.head;
    if p.stack != [] {
      RootedFirst(p.stack);
      assert input[n] == SLASH;
      var post := p.stack[0] + Rooted(p.stack[1..]);
      assert input == p.head + [SLASH] + post;
      FindFirst(p.head, SLASH, post);
    } else {
      assert input == p.head;
      FindNone(p.head, SLASH);
    }
    assert input[0..] == input;
    assert SegmentEnd(input) == n;
    NotDotted(p.head, input);
  }

  lemma {:induction false} NotDotted(head: Bytes, input: Bytes)
    requires CleanSegment(head) && head != [] && head <= input && (|head| < |input| ==> input[|head|] == SLASH)
    ensures input[0] != SLASH && !Starts([DOT, DOT, SLASH], input) && !Starts([DOT, SLASH], input) && input != [DOT]
            && input != [DOT, DOT]
  {
    assert head == input[..|head|];
    assert input[0] in head;
    if |head| > 1 { assert head[1] in head && input[1] == head[1]; }
    if |head| > 2 { assert head[2] in head && input[2] == head[2]; }
  }

  /** Removing dot segments twice is removing them once, on every input. */
  lemma {:induction false} RemoveIdempotent(path: Bytes)
    ensures RemoveDotSegments(RemoveDotSegments(path)) == RemoveDotSegments(path)
  {
    RemoveIsFold(path);
    FoldIsClean(path);
    CleanIsFixed(Fold(path));
  }
}

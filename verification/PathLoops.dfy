/** The loops of the path evaluator, each proved to build the sequence its
    function gives (crates/graphy-engine/src/eval.rs). */
module PathLoops {
  import opened Seqs
  import opened Terms
  import opened Store
  import opened Rows
  import opened Paths
  import opened PathModes

  /** The inner loop every operator shares. */
  method AppendNew(out: seq<Term>, xs: seq<Term>) returns (r: seq<Term>)
    ensures r == Absorb(out, xs)
  {
    r := out;
    for i := 0 to |xs|
      invariant r == Absorb(out, xs[..i])
    {
      TakeNext(xs, i);
      AbsorbConcat(out, xs[..i], [xs[i]]);
      if xs[i] !in r { r := r + [xs[i]]; }
    }
    TakeAll(xs);
  }

  method NeighborsLoop(g: Graph, from: Term, link: Option<Term>, reverse: bool, exclude: seq<Term>)
    returns (out: seq<Term>)
    ensures out == Neighbors(g, from, link, reverse, exclude)
  {
    var f := (t: Triple) => if t.p in exclude then [] else [Far(t, reverse)];
    var ts := g.scan(EdgePattern(from, link, reverse));
    var seen: set<Term> := {};
    out := [];
    for i := 0 to |ts|
      invariant out == Absorb([], FlatMap(f, ts[..i]))
      invariant forall y :: y in seen <==> y in out
    {
      TakeNext(ts, i);
      FlatMapSnoc(f, ts[..i], ts[i]);
      AbsorbConcat([], FlatMap(f, ts[..i]), f(ts[i]));
      if ts[i].p !in exclude {
        var id := Far(ts[i], reverse);
        if id !in seen {
          seen := seen + {id};
          out := out + [id];
        }
      }
    }
    TakeAll(ts);
  }

  method AllNodesLoop(g: Graph) returns (out: seq<Term>)
    ensures out == AllNodes(g)
  {
    var f := (t: Triple) => [t.s, t.o];
    var ts := g.scan(Pattern(None, None, None));
    out := [];
    for i := 0 to |ts|
      invariant out == Absorb([], FlatMap(f, ts[..i]))
    {
      TakeNext(ts, i);
      FlatMapSnoc(f, ts[..i], ts[i]);
      AbsorbConcat([], FlatMap(f, ts[..i]), f(ts[i]));
      out := AppendNew(out, [ts[i].s, ts[i].o]);
    }
    TakeAll(ts);
  }

  method ReachLoop(g: Graph, p: PathExpr, from: Term) returns (out: seq<Term>)
    ensures out == Reach(g, p, from)
    decreases Weight(p), if Closes(p) then 0 else 1
  {
    match p
    case ZeroOrMore(q) => out := ClosureLoop(g, q, from, true);
    case OneOrMore(q) => out := ClosureLoop(g, q, from, false);
    case ZeroOrOne(q) =>
      var ids := StepLoop(g, q, from);
      out := AppendNew([from], ids);
    case _ => out := StepLoop(g, p, from);
  }

  method ClosureLoop(g: Graph, q: PathExpr, from: Term, includeStart: bool) returns (out: seq<Term>)
    ensures out == Closure(g, q, from, includeStart)
    decreases Weight(q), 3
  {
    ghost var f := StepFn(g, q);
    var visited := if includeStart then {from} else {};
    var frontier := [from];
    out := if includeStart then [from] else [];
    assert CloseLoop(g, f, from, frontier, out) == Closure(g, q, from, includeStart);
    while frontier != []
      invariant WorkState(g, from, frontier, out) && visited == Elems(out)
      invariant CloseLoop(g, f, from, frontier, out) == Closure(g, q, from, includeStart)
      decreases |(Nodes(g) + {from}) - Elems(out)|, |frontier|
    {
      frontier, out, visited := ExpandLast(g, q, from, frontier, out, visited);
    }
  }

  ghost predicate WorkState(g: Graph, from: Term, frontier: seq<Term>, out: seq<Term>) {
    Within(g, from, frontier) && Within(g, from, out) && NoDup(out)
  }

  /** The body of the `while let Some(cur) = frontier.pop()` loop. */
  method ExpandLast(g: Graph, q: PathExpr, from: Term, frontier0: seq<Term>, out0: seq<Term>, visited0: set<Term>)
    returns (frontier: seq<Term>, out: seq<Term>, visited: set<Term>)
    requires frontier0 != [] && WorkState(g, from, frontier0, out0) && visited0 == Elems(out0)
    ensures WorkState(g, from, frontier, out) && visited == Elems(out)
    ensures CloseLoop(g, StepFn(g, q), from, frontier, out) == CloseLoop(g, StepFn(g, q), from, frontier0, out0)
    ensures |(Nodes(g) + {from}) - Elems(out)| <= |(Nodes(g) + {from}) - Elems(out0)|
    ensures |(Nodes(g) + {from}) - Elems(out)| < |(Nodes(g) + {from}) - Elems(out0)| || |frontier| < |frontier0|
    decreases Weight(q), 2
  {
    var cur, kept := frontier0[|frontier0| - 1], frontier0[..|frontier0| - 1];
    var succ := StepLoop(g, q, cur);
    assert succ == StepFn(g, q)(cur) && Within(g, cur, succ);
    out, frontier, visited := PushUnvisited(succ, out0, kept, visited0);
    AbsorbMembers(out0, succ);
    SplitFrontier(frontier0);
    KeepsWithin(g, from, cur, kept, out0, out, succ);
    FrontierShrinks(g, from, out0, out);
  }

  lemma {:induction false} SplitFrontier(s: seq<Term>)
    requires s != []
    ensures s == s[..|s| - 1] + [s[|s| - 1]]
  {
  }

  lemma {:induction false} KeepsWithin(g: Graph, from: Term, cur: Term, kept: seq<Term>, before: seq<Term>,
                                       out: seq<Term>, succ: seq<Term>)
    requires Within(g, from, kept + [cur]) && Within(g, from, before) && Within(g, cur, succ)
    requires out == Absorb(before, succ) && |before| <= |out|
    ensures Within(g, from, kept + out[|before|..]) && Within(g, from, out)
  {
    AbsorbMembers(before, succ);
    assert cur in kept + [cur];
    assert forall y :: y in kept ==> y in kept + [cur];
    assert forall y :: y in out[|before|..] ==> y in out;
  }

  lemma {:induction false} ElemsSnoc(out: seq<Term>, x: Term)
    ensures Elems(out + [x]) == Elems(out) + {x}
    ensures x in Elems(out) <==> x in out
  {
  }

  /** The `for next in ..` loop of `closure`. */
  method PushUnvisited(succ: seq<Term>, out0: seq<Term>, kept: seq<Term>, visited0: set<Term>)
    returns (out: seq<Term>, frontier: seq<Term>, visited: set<Term>)
    requires visited0 == Elems(out0)
    ensures out == Absorb(out0, succ) && |out0| <= |out|
    ensures frontier == kept + out[|out0|..]
    ensures visited == Elems(out)
  {
    out, frontier, visited := out0, kept, visited0;
    ghost var added := [];
    for j := 0 to |succ|
      invariant out == out0 + added && frontier == kept + added
      invariant out == Absorb(out0, succ[..j])
      invariant visited == Elems(out)
    {
      AbsorbSnoc(out0, succ, j);
      ElemsSnoc(out, succ[j]);
      if succ[j] !in visited {
        visited := visited + {succ[j]};
        out := out + [succ[j]];
        frontier := frontier + [succ[j]];
        added := added + [succ[j]];
      }
    }
    TakeAll(succ);
  }

  method StepLoop(g: Graph, p: PathExpr, from: Term) returns (out: seq<Term>)
    ensures out == Step(g, p, from)
    decreases Weight(p), if Closes(p) then 1 else 0
  {
    match p
    case Link(iri) => out := NeighborsLoop(g, from, Some(iri), false, []);
    case Inverse(inner) => out := InverseStepLoop(g, inner, from);
    case Seq(a, b) =>
      ghost var f := (mid: Term) => Reach(g, b, mid);
      var mids := ReachLoop(g, a, from);
      out := [];
      for i := 0 to |mids|
        invariant out == Absorb([], FlatMap(f, mids[..i]))
      {
        TakeNext(mids, i);
        FlatMapSnoc(f, mids[..i], mids[i]);
        AbsorbConcat([], FlatMap(f, mids[..i]), f(mids[i]));
        var ids := ReachLoop(g, b, mids[i]);
        out := AppendNew(out, ids);
      }
      TakeAll(mids);
    case Alt(a, b) =>
      out := ReachLoop(g, a, from);
      var ids := ReachLoop(g, b, from);
      out := AppendNew(out, ids);
    case Nps(items) =>
      var fwd, rev := Side(items, false), Side(items, true);
      out := [];
      if fwd != [] || rev == [] {
        out := NeighborsLoop(g, from, None, false, fwd);
      }
      if rev != [] {
        var ids := NeighborsLoop(g, from, None, true, rev);
        out := AppendNew(out, ids);
      }
    case _ => out := ReachLoop(g, p, from);
  }

  method InverseStepLoop(g: Graph, inner: PathExpr, from: Term) returns (out: seq<Term>)
    ensures out == Step(g, Inverse(inner), from)
    decreases 2 * Weight(inner), 0, 0
  {
    match inner
    case Link(iri) => out := NeighborsLoop(g, from, Some(iri), true, []);
    case Inverse(x) => out := StepLoop(g, x, from);
    case Seq(a, b) =>
      InvertedWeight(a, b);
      out := StepLoop(g, Seq(Inverse(b), Inverse(a)), from);
    case Alt(a, b) =>
      InvertedWeight(a, b);
      out := StepLoop(g, Alt(Inverse(a), Inverse(b)), from);
    case ZeroOrMore(x) => out := ClosureLoop(g, Inverse(x), from, true);
    case OneOrMore(x) => out := ClosureLoop(g, Inverse(x), from, false);
    case ZeroOrOne(x) =>
      var ids := StepLoop(g, Inverse(x), from);
      out := AppendNew([from], ids);
    case Nps(items) => out := StepLoop(g, Nps(Flip(items)), from);
  }

  method ReachableLoop(g: Graph, stored: set<Term>, p: PathExpr, from: Term, retain: bool) returns (out: seq<Term>)
    ensures out == Reachable(g, stored, p, from, retain)
  {
    if from in stored {
      if !retain && Nullable(p) {
        var nodes := AllNodesLoop(g);
        if from !in nodes { return []; }
      }
      out := ReachLoop(g, p, from);
    } else {
      out := if retain && Nullable(p) then [from] else [];
    }
  }

  /** `eval_path`: rows for one input row, pushed to `out` in loop order. */
  method EvalPathLoop(g: Graph, stored: set<Term>, s: Pos, p: PathExpr, o: Pos, row: Row) returns (out: seq<Row>)
    ensures out == EvalPath(g, stored, s, p, o, row)
  {
    match (Lookup(s, row), Lookup(o, row))
    case (Some(from), Some(to)) =>
      var ts := ReachableLoop(g, stored, p, from, s.Const?);
      out := if to in ts then [row] else [];
    case (Some(from), None) =>
      var ts := ReachableLoop(g, stored, p, from, s.Const?);
      out := BindLoop(o, ts, row);
    case (None, Some(to)) =>
      var ts := ReachableLoop(g, stored, Inverse(p), to, o.Const?);
      out := BindLoop(s, ts, row);
    case (None, None) =>
      ghost var f := PairsFrom(g, s, p, o, row);
      var nodes := AllNodesLoop(g);
      out := [];
      for i := 0 to |nodes|
        invariant out == FlatMap(f, nodes[..i])
      {
        TakeNext(nodes, i);
        FlatMapSnoc(f, nodes[..i], nodes[i]);
        var targets := ReachLoop(g, p, nodes[i]);
        var pairs := PairsLoop(s, nodes[i], o, row, targets);
        out := out + pairs;
      }
      TakeAll(nodes);
  }

  method PairsLoop(s: Pos, x: Term, o: Pos, row: Row, targets: seq<Term>) returns (out: seq<Row>)
    ensures out == FlatMap(BindBoth(s, x, o, row), targets)
  {
    ghost var h := BindBoth(s, x, o, row);
    out := [];
    for j := 0 to |targets|
      invariant out == FlatMap(h, targets[..j])
    {
      TakeNext(targets, j);
      FlatMapSnoc(h, targets[..j], targets[j]);
      var half := BindEnd(s, x, row);
      if half != [] {
        assert half == [half[0]];
        FlatMapOne((r: Row) => BindEnd(o, targets[j], r), half[0]);
        out := out + BindEnd(o, targets[j], half[0]);
      }
    }
    TakeAll(targets);
  }

  method BindLoop(p: Pos, ts: seq<Term>, row: Row) returns (out: seq<Row>)
    ensures out == FlatMap((t: Term) => BindEnd(p, t, row), ts)
  {
    ghost var f := (t: Term) => BindEnd(p, t, row);
    out := [];
    for i := 0 to |ts|
      invariant out == FlatMap(f, ts[..i])
    {
      TakeNext(ts, i);
      FlatMapSnoc(f, ts[..i], ts[i]);
      out := out + BindEnd(p, ts[i], row);
    }
    TakeAll(ts);
  }
}

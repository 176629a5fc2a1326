/** The path evaluator computes exactly the denoted relation. */
module PathExact {
  import opened Seqs
  import opened Terms
  import opened Store
  import opened Paths

  // ---------------------------------------------------- relation algebra

  ghost predicate Same(r: Relation, s: Relation) { forall x, y :: r(x, y) <==> s(x, y) }

  ghost predicate Converse(r: Relation, s: Relation) { forall x, y :: r(x, y) <==> s(y, x) }

  lemma {:induction false} PowerSnoc(r: Relation, n: nat, x: Term, m: Term, y: Term)
    requires Power(r, n, x, m) && r(m, y)
    ensures Power(r, n + 1, x, y)
  {
    if n == 0 {
      assert Power(r, 0, y, y);
    } else {
      var k :| r(x, k) && Power(r, n - 1, k, m);
      PowerSnoc(r, n - 1, k, m, y);
    }
  }

  lemma {:induction false} PowerConverse(r: Relation, s: Relation, n: nat, x: Term, y: Term)
    requires Converse(r, s) && Power(r, n, x, y)
    ensures Power(s, n, y, x)
  {
    if n > 0 {
      var m :| r(x, m) && Power(r, n - 1, m, y);
      PowerConverse(r, s, n - 1, m, y);
      PowerSnoc(s, n - 1, y, m, x);
    }
  }

  lemma {:induction false} PowerMono(r: Relation, s: Relation, n: nat, x: Term, y: Term)
    requires Same(r, s) && Power(r, n, x, y)
    ensures Power(s, n, x, y)
  {
    if n > 0 {
      var m :| r(x, m) && Power(r, n - 1, m, y);
      PowerMono(r, s, n - 1, m, y);
    }
  }

  lemma {:induction false} StepsConverse(r: Relation, s: Relation, least: nat)
    requires Converse(r, s)
    ensures Converse(Steps(r, least), Steps(s, least))
  {
    forall x, y ensures Steps(r, least)(x, y) <==> Steps(s, least)(y, x) {
      if Steps(r, least)(x, y) {
        var n: nat :| n >= least && Power(r, n, x, y);
        PowerConverse(r, s, n, x, y);
      }
      if Steps(s, least)(y, x) {
        var n: nat :| n >= least && Power(s, n, y, x);
        PowerConverse(s, r, n, y, x);
      }
    }
  }

  lemma {:induction false} StepsSame(r: Relation, s: Relation, least: nat)
    requires Same(r, s)
    ensures Same(Steps(r, least), Steps(s, least))
  {
    forall x, y ensures Steps(r, least)(x, y) <==> Steps(s, least)(x, y) {
      if Steps(r, least)(x, y) {
        var n: nat :| n >= least && Power(r, n, x, y);
        PowerMono(r, s, n, x, y);
      }
      if Steps(s, least)(x, y) {
        var n: nat :| n >= least && Power(s, n, x, y);
        PowerMono(s, r, n, x, y);
      }
    }
  }

  lemma {:induction false} ComposeConverse(a: Relation, b: Relation, a': Relation, b': Relation, x: Term, y: Term)
    requires Converse(a, a') && Converse(b, b')
    ensures Compose(b', a')(x, y) <==> Compose(a, b)(y, x)
  {
  }

  // ------------------------------------------------------- the worklist

  ghost function Succ(f: Term -> seq<Term>): Relation { (x: Term, y: Term) => y in f(x) }

  function Least(includeStart: bool): nat { if includeStart then 0 else 1 }

  /** Soundness half of the worklist invariant: nothing unreachable is listed. */
  ghost predicate Sound(r: Relation, from: Term, includeStart: bool, out: seq<Term>) {
    forall y :: y in out ==> Steps(r, Least(includeStart))(from, y)
  }

  /** Completeness half: a vertex whose successors may be missing is still queued. */
  ghost predicate Queued(f: Term -> seq<Term>, from: Term, frontier: seq<Term>, out: seq<Term>) {
    forall v, w :: (v == from || v in out) && v !in frontier && w in f(v) ==> w in out
  }

  lemma {:induction false} NextSound(f: Term -> seq<Term>, from: Term, includeStart: bool, cur: Term, out: seq<Term>)
    requires Sound(Succ(f), from, includeStart, out)
    requires cur == from || cur in out
    ensures Sound(Succ(f), from, includeStart, Absorb(out, f(cur)))
  {
    var r := Succ(f);
    if cur == from { assert Power(r, 0, from, cur); }
    var n: nat :| Power(r, n, from, cur);
    AbsorbMembers(out, f(cur));
    forall y | y in f(cur) ensures Steps(r, Least(includeStart))(from, y) {
      assert r(cur, y);
      PowerSnoc(r, n, from, cur, y);
    }
  }

  lemma {:induction false} SplitLast<T>(s: seq<T>)
    requires s != []
    ensures s == s[..|s| - 1] + [s[|s| - 1]]
  {
  }

  lemma {:induction false} SplitAbsorb(out: seq<Term>, xs: seq<Term>)
    ensures |out| <= |Absorb(out, xs)| && Absorb(out, xs) == out + Absorb(out, xs)[|out|..]
  {
    AbsorbMembers(out, xs);
  }

  lemma {:induction false} NextInside(g: Graph, from: Term, kept: seq<Term>, cur: Term, out: seq<Term>,
                                      succ: seq<Term>, added: seq<Term>)
    requires Absorb(out, succ) == out + added
    requires Within(g, from, kept + [cur]) && Within(g, from, out) && NoDup(out)
    requires Within(g, cur, succ) && forall v :: v in kept + [cur] ==> v == from || v in out
    ensures Within(g, from, out + added) && NoDup(out + added) && Within(g, from, kept + added)
    ensures forall v :: v in kept + added ==> v == from || v in out + added
  {
    AbsorbMembers(out, succ);
    assert cur in kept + [cur];
    assert forall v :: v in kept ==> v in kept + [cur];
  }

  lemma {:induction false} NextQueued(f: Term -> seq<Term>, from: Term, kept: seq<Term>, cur: Term, out: seq<Term>,
                                      added: seq<Term>)
    requires Queued(f, from, kept + [cur], out)
    requires forall w :: w in f(cur) ==> w in out + added
    ensures Queued(f, from, kept + added, out + added)
  {
  }

  lemma {:induction false} CloseLoopSound(g: Graph, f: Term -> seq<Term>, from: Term, includeStart: bool,
                                          frontier: seq<Term>, out: seq<Term>)
    requires forall v :: Within(g, v, f(v))
    requires Within(g, from, frontier) && Within(g, from, out) && NoDup(out)
    requires Sound(Succ(f), from, includeStart, out)
    requires forall v :: v in frontier ==> v == from || v in out
    ensures Sound(Succ(f), from, includeStart, CloseLoop(g, f, from, frontier, out))
    decreases |(Nodes(g) + {from}) - Elems(out)|, |frontier|
  {
    if frontier != [] {
      var cur := frontier[|frontier| - 1];
      var next := Absorb(out, f(cur));
      SplitLast(frontier);
      AbsorbMembers(out, f(cur));
      NextSound(f, from, includeStart, cur, out);
      FrontierShrinks(g, from, out, next);
      SplitAbsorb(out, f(cur));
      NextInside(g, from, frontier[..|frontier| - 1], cur, out, f(cur), next[|out|..]);
      CloseLoopSound(g, f, from, includeStart, frontier[..|frontier| - 1] + next[|out|..], next);
    }
  }

  lemma {:induction false} CloseLoopComplete(g: Graph, f: Term -> seq<Term>, from: Term, frontier: seq<Term>,
                                             out: seq<Term>, n: nat, y: Term)
    requires forall v :: Within(g, v, f(v))
    requires Within(g, from, frontier) && Within(g, from, out) && NoDup(out)
    requires Queued(f, from, frontier, out)
    requires Power(Succ(f), n, from, y)
    ensures n > 0 || y in out ==> y in CloseLoop(g, f, from, frontier, out)
    decreases |(Nodes(g) + {from}) - Elems(out)|, |frontier|
  {
    if frontier == [] {
      ClosedReaches(f, from, out, n, from, y);
    } else {
      var cur := frontier[|frontier| - 1];
      var next := Absorb(out, f(cur));
      AbsorbMembers(out, f(cur));
      assert Within(g, cur, f(cur));
      SplitLast(frontier);
      SplitAbsorb(out, f(cur));
      NextQueued(f, from, frontier[..|frontier| - 1], cur, out, next[|out|..]);
      FrontierShrinks(g, from, out, next);
      CloseLoopComplete(g, f, from, frontier[..|frontier| - 1] + next[|out|..], next, n, y);
    }
  }

  lemma {:induction false} ClosedReaches(f: Term -> seq<Term>, from: Term, out: seq<Term>, n: nat, v: Term, y: Term)
    requires forall v, w :: (v == from || v in out) && w in f(v) ==> w in out
    requires v == from || v in out
    requires Power(Succ(f), n, v, y)
    ensures if n > 0 then y in out else y == v
  {
    if n > 0 {
      var m :| Succ(f)(v, m) && Power(Succ(f), n - 1, m, y);
      ClosedReaches(f, from, out, n - 1, m, y);
    }
  }

  /** `closure` lists exactly what some number of steps reaches. */
  lemma {:induction false} ClosureIsSteps(g: Graph, q: PathExpr, r: Relation, from: Term, includeStart: bool, y: Term)
    requires Same(Succ(StepFn(g, q)), r)
    ensures y in Closure(g, q, from, includeStart) <==> Steps(r, Least(includeStart))(from, y)
  {
    var f := StepFn(g, q);
    var start := if includeStart then [from] else [];
    assert Power(Succ(f), 0, from, from);
    CloseLoopSound(g, f, from, includeStart, [from], start);
    if Steps(Succ(f), Least(includeStart))(from, y) {
      var n: nat :| n >= Least(includeStart) && Power(Succ(f), n, from, y);
      CloseLoopComplete(g, f, from, [from], start, n, y);
    }
    StepsSame(Succ(f), r, Least(includeStart));
  }

  // --------------------------------------------------------- exactness

  /** No empty negated set stands under an odd number of inversions (`inv`
      is the parity so far): the evaluator reads an empty set forward there. */
  predicate NpsOk(p: PathExpr, inv: bool) {
    match p
    case Link(_) => true
    case Inverse(q) => NpsOk(q, !inv)
    case Seq(a, b) => NpsOk(a, inv) && NpsOk(b, inv)
    case Alt(a, b) => NpsOk(a, inv) && NpsOk(b, inv)
    case ZeroOrMore(q) => NpsOk(q, inv)
    case OneOrMore(q) => NpsOk(q, inv)
    case ZeroOrOne(q) => NpsOk(q, inv)
    case Nps(items) => inv ==> items != []
  }

  lemma {:induction false} SideFlip(items: seq<(Term, bool)>, inverted: bool)
    ensures Side(Flip(items), inverted) == Side(items, !inverted)
  {
    if items != [] {
      SideFlip(items[1..], inverted);
      assert Flip(items)[1..] == Flip(items[1..]);
    }
  }

  /** Inverting a non-empty negated set is swapping its two sides. */
  lemma {:induction false} NpsInverse(g: Graph, items: seq<(Term, bool)>)
    requires items != []
    ensures Converse(Denote(g, Nps(Flip(items))), Denote(g, Nps(items)))
  {
    SideFlip(items, false);
    SideFlip(items, true);
    assert Side(items, false) != [] || Side(items, true) != [];
  }

  lemma {:induction false} NpsStep(g: Graph, items: seq<(Term, bool)>, x: Term, y: Term)
    ensures y in Step(g, Nps(items), x) <==> NpsRel(g, items, x, y)
  {
    var fwd, rev := Side(items, false), Side(items, true);
    NpsBySides(g, items, x, y);
    NeighborsExact(g, x, None, false, fwd, y);
    NeighborsExact(g, x, None, true, rev, y);
    if rev != [] {
      AbsorbMembers(if fwd != [] then Neighbors(g, x, None, false, fwd) else [], Neighbors(g, x, None, true, rev));
    }
  }

  /** `reach(p, x)` lists y iff (x, y) is in the relation of `p`. */
  lemma {:induction false} ReachExact(g: Graph, p: PathExpr, x: Term, y: Term)
    requires NpsOk(p, false)
    ensures y in Reach(g, p, x) <==> Denote(g, p)(x, y)
    decreases Weight(p), if Closes(p) then 0 else 1, 0
  {
    match p
    case ZeroOrMore(q) =>
      StepFnExact(g, q);
      ClosureIsSteps(g, q, Denote(g, q), x, true, y);
    case OneOrMore(q) =>
      StepFnExact(g, q);
      ClosureIsSteps(g, q, Denote(g, q), x, false, y);
    case ZeroOrOne(q) =>
      StepExact(g, q, x, y);
      AbsorbMembers([x], Step(g, q, x));
    case _ => StepExact(g, p, x, y);
  }

  lemma {:induction false} StepFnExact(g: Graph, q: PathExpr)
    requires NpsOk(q, false)
    ensures Same(Succ(StepFn(g, q)), Denote(g, q))
    decreases Weight(q), 2, 0
  {
    forall v, w ensures w in Step(g, q, v) <==> Denote(g, q)(v, w) { StepExact(g, q, v, w); }
  }

  lemma {:induction false} StepExact(g: Graph, p: PathExpr, x: Term, y: Term)
    requires NpsOk(p, false)
    ensures y in Step(g, p, x) <==> Denote(g, p)(x, y)
    decreases Weight(p), if Closes(p) then 1 else 0, 1
  {
    match p
    case Link(iri) => NeighborsExact(g, x, Some(iri), false, [], y);
    case Inverse(inner) => InverseStepExact(g, inner, x, y);
    case Seq(a, b) =>
      var f := (mid: Term) => Reach(g, b, mid);
      FlatMapMember(f, Reach(g, a, x), y);
      AbsorbMembers([], FlatMap(f, Reach(g, a, x)));
      forall m ensures m in Reach(g, a, x) <==> Denote(g, a)(x, m)
               ensures y in f(m) <==> Denote(g, b)(m, y)
      {
        ReachExact(g, a, x, m);
        ReachExact(g, b, m, y);
      }
    case Alt(a, b) =>
      ReachExact(g, a, x, y);
      ReachExact(g, b, x, y);
      AbsorbMembers(Reach(g, a, x), Reach(g, b, x));
    case Nps(items) => NpsStep(g, items, x, y);
    case _ => ReachExact(g, p, x, y);
  }

  lemma {:induction false} ClosedWeight(p: PathExpr, q: PathExpr)
    requires p == ZeroOrMore(q) || p == OneOrMore(q) || p == ZeroOrOne(q)
    ensures Weight(Inverse(q)) == 2 * Weight(q) && Weight(p) == 1 + Weight(q) && Weight(Inverse(p)) == 2 + 2 * Weight(q)
  {
  }

  lemma {:induction false} InverseStepExact(g: Graph, inner: PathExpr, x: Term, y: Term)
    requires NpsOk(inner, true)
    ensures y in Step(g, Inverse(inner), x) <==> Denote(g, inner)(y, x)
    decreases Weight(Inverse(inner)), 0, 0
  {
    match inner
    case Link(iri) => NeighborsExact(g, x, Some(iri), true, [], y);
    case Inverse(z) =>
      assert Weight(inner) == 2 * Weight(z);
      StepExact(g, z, x, y);
    case Seq(a, b) =>
      InvertedWeight(a, b);
      assert Weight(inner) == 1 + Weight(a) + Weight(b);
      StepExact(g, Seq(Inverse(b), Inverse(a)), x, y);
      ComposeConverse(Denote(g, a), Denote(g, b), Denote(g, Inverse(a)), Denote(g, Inverse(b)), x, y);
    case Alt(a, b) =>
      InvertedWeight(a, b);
      assert Weight(inner) == 1 + Weight(a) + Weight(b);
      StepExact(g, Alt(Inverse(a), Inverse(b)), x, y);
    case ZeroOrMore(q) =>
      ClosedWeight(inner, q);
      InverseClosureExact(g, q, x, true, y);
    case OneOrMore(q) =>
      ClosedWeight(inner, q);
      InverseClosureExact(g, q, x, false, y);
    case ZeroOrOne(q) =>
      ClosedWeight(inner, q);
      StepExact(g, Inverse(q), x, y);
      AbsorbMembers([x], Step(g, Inverse(q), x));
    case Nps(items) =>
      NpsStep(g, Flip(items), x, y);
      NpsInverse(g, items);
  }

  lemma {:induction false} InverseClosureExact(g: Graph, q: PathExpr, x: Term, includeStart: bool, y: Term)
    requires NpsOk(q, true)
    ensures y in Closure(g, Inverse(q), x, includeStart) <==> Steps(Denote(g, q), Least(includeStart))(y, x)
    decreases Weight(Inverse(q)), 3, 0
  {
    StepFnExact(g, Inverse(q));
    ClosureIsSteps(g, Inverse(q), Denote(g, Inverse(q)), x, includeStart, y);
    StepsConverse(Denote(g, Inverse(q)), Denote(g, q), Least(includeStart));
  }
}

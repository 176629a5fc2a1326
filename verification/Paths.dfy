/** The property-path evaluator (crates/graphy-engine/src/eval.rs, `reach`,
    `step`, `closure`, `neighbors`, `all_nodes`): functions giving the exact
    sequence each loop builds, the loops themselves, and the relation of
    section 18.4 of SPARQL 1.1 Query they compute. */
module Paths {
  import opened Seqs
  import opened Terms
  import opened Store

  /** Irreducible property paths; `Nps` members are (predicate, inverted). */
  datatype PathExpr =
    | Link(iri: Term)
    | Inverse(inner: PathExpr)
    | Seq(a: PathExpr, b: PathExpr)
    | Alt(a: PathExpr, b: PathExpr)
    | ZeroOrMore(inner: PathExpr)
    | OneOrMore(inner: PathExpr)
    | ZeroOrOne(inner: PathExpr)
    | Nps(items: seq<(Term, bool)>)

  // ------------------------------------------------------------ meaning

  /** Predicates of one direction of a negated set. */
  function Side(items: seq<(Term, bool)>, inverted: bool): seq<Term> {
    FlatMap((i: (Term, bool)) => if i.1 == inverted then [i.0] else [], items)
  }

  ghost predicate EdgeBut(g: Graph, x: Term, y: Term, but: seq<Term>) {
    exists q :: Triple(x, q, y) in g.triples && q !in but
  }

  /** A binary relation on terms. */
  type Relation = (Term, Term) -> bool

  ghost function Compose(a: Relation, b: Relation): Relation {
    (x: Term, y: Term) => exists m :: a(x, m) && b(m, y)
  }

  /** `n` steps of `r` lead from `x` to `y`. */
  ghost predicate Power(r: Relation, n: nat, x: Term, y: Term) {
    if n == 0 then x == y else exists m :: r(x, m) && Power(r, n - 1, m, y)
  }

  /** At least `least` steps. */
  ghost function Steps(r: Relation, least: nat): Relation {
    (x: Term, y: Term) => exists n: nat :: n >= least && Power(r, n, x, y)
  }

  /** The relation a path denotes (section 18.4 of SPARQL 1.1 Query). */
  ghost function Denote(g: Graph, p: PathExpr): Relation {
    match p
    case Link(iri) => (x: Term, y: Term) => Triple(x, iri, y) in g.triples
    case Inverse(q) => var r := Denote(g, q); (x: Term, y: Term) => r(y, x)
    case Seq(a, b) => Compose(Denote(g, a), Denote(g, b))
    case Alt(a, b) => var r, s := Denote(g, a), Denote(g, b); (x: Term, y: Term) => r(x, y) || s(x, y)
    case ZeroOrMore(q) => Steps(Denote(g, q), 0)
    case OneOrMore(q) => Steps(Denote(g, q), 1)
    case ZeroOrOne(q) => var r := Denote(g, q); (x: Term, y: Term) => x == y || r(x, y)
    case Nps(items) => (x: Term, y: Term) => NpsRel(g, items, x, y)
  }

  ghost predicate HasSide(items: seq<(Term, bool)>, inverted: bool) { exists i :: i in items && i.1 == inverted }

  /** An edge by a predicate the set does not list for that direction. */
  ghost predicate OtherEdge(g: Graph, items: seq<(Term, bool)>, inverted: bool, x: Term, y: Term) {
    exists q :: Triple(x, q, y) in g.triples && (q, inverted) !in items
  }

  /** A negated set relates along edges it does not list, forward if it lists a
      forward predicate or no inverted one, backward if it lists an inverted one. */
  ghost predicate NpsRel(g: Graph, items: seq<(Term, bool)>, x: Term, y: Term) {
    || ((HasSide(items, false) || !HasSide(items, true)) && OtherEdge(g, items, false, x, y))
    || (HasSide(items, true) && OtherEdge(g, items, true, y, x))
  }

  lemma {:induction false} SideMembers(items: seq<(Term, bool)>, inverted: bool)
    ensures forall q :: q in Side(items, inverted) <==> (q, inverted) in items
    ensures Side(items, inverted) != [] <==> HasSide(items, inverted)
  {
    var f := (i: (Term, bool)) => if i.1 == inverted then [i.0] else [];
    forall q ensures q in Side(items, inverted) <==> (q, inverted) in items {
      FlatMapMember(f, items, q);
      if (q, inverted) in items { assert q in f((q, inverted)); }
    }
    if i :| i in items && i.1 == inverted { assert i == (i.0, inverted) && i.0 in Side(items, inverted); }
    if Side(items, inverted) != [] { assert Side(items, inverted)[0] in Side(items, inverted); }
  }

  lemma {:induction false} OtherEdgeIs(g: Graph, items: seq<(Term, bool)>, inverted: bool, x: Term, y: Term)
    ensures OtherEdge(g, items, inverted, x, y) <==> EdgeBut(g, x, y, Side(items, inverted))
  {
    SideMembers(items, inverted);
    if q :| Triple(x, q, y) in g.triples && (q, inverted) !in items { assert q !in Side(items, inverted); }
    if q :| Triple(x, q, y) in g.triples && q !in Side(items, inverted) { assert (q, inverted) !in items; }
  }

  /** The relation in terms of the two lists the evaluator makes. */
  lemma {:induction false} NpsBySides(g: Graph, items: seq<(Term, bool)>, x: Term, y: Term)
    ensures NpsRel(g, items, x, y) <==>
            ((Side(items, false) != [] || Side(items, true) == []) && EdgeBut(g, x, y, Side(items, false)))
            || (Side(items, true) != [] && EdgeBut(g, y, x, Side(items, true)))
  {
    SideMembers(items, false);
    SideMembers(items, true);
    OtherEdgeIs(g, items, false, x, y);
    OtherEdgeIs(g, items, true, y, x);
  }

  // --------------------------------------------------------- evaluation

  /** Append the members of `xs` not yet in `out`: the source's
      `if !out.contains(&id) { out.push(id) }` loop. */
  function Absorb<T(==)>(out: seq<T>, xs: seq<T>): (r: seq<T>)
    decreases |xs|
  {
    if xs == [] then out else Absorb(if xs[0] in out then out else out + [xs[0]], xs[1..])
  }

  lemma {:induction false} AbsorbMembers<T>(out: seq<T>, xs: seq<T>)
    ensures |out| <= |Absorb(out, xs)| && Absorb(out, xs)[..|out|] == out
    ensures forall y :: y in Absorb(out, xs) <==> y in out || y in xs
    ensures NoDup(out) ==> NoDup(Absorb(out, xs))
    decreases |xs|
  {
    if xs != [] {
      var next := if xs[0] in out then out else out + [xs[0]];
      AbsorbMembers(next, xs[1..]);
      assert xs == [xs[0]] + xs[1..];
      assert next[..|out|] == out && Absorb(next, xs[1..])[..|next|][..|out|] == Absorb(next, xs[1..])[..|out|];
    }
  }

  lemma {:induction false} AbsorbConcat<T>(out: seq<T>, xs: seq<T>, ys: seq<T>)
    ensures Absorb(Absorb(out, xs), ys) == Absorb(out, xs + ys)
    decreases |xs|
  {
    if xs == [] {
      assert xs + ys == ys;
    } else {
      assert (xs + ys)[0] == xs[0] && (xs + ys)[1..] == xs[1..] + ys;
      AbsorbConcat(if xs[0] in out then out else out + [xs[0]], xs[1..], ys);
    }
  }

  lemma {:induction false} AbsorbSnoc<T>(out: seq<T>, xs: seq<T>, j: nat)
    requires j < |xs|
    ensures Absorb(out, xs[..j + 1]) ==
            (if xs[j] in Absorb(out, xs[..j]) then Absorb(out, xs[..j]) else Absorb(out, xs[..j]) + [xs[j]])
  {
    TakeNext(xs, j);
    AbsorbConcat(out, xs[..j], [xs[j]]);
  }

  function Far(t: Triple, reverse: bool): Term { if reverse then t.s else t.o }

  function EdgePattern(from: Term, link: Option<Term>, reverse: bool): Pattern {
    if reverse then Pattern(None, link, Some(from)) else Pattern(Some(from), link, None)
  }

  function Neighbors(g: Graph, from: Term, link: Option<Term>, reverse: bool, exclude: seq<Term>): seq<Term> {
    Absorb([], FlatMap((t: Triple) => if t.p in exclude then [] else [Far(t, reverse)],
                       g.scan(EdgePattern(from, link, reverse))))
  }

  lemma {:induction false} NeighborsExact(g: Graph, from: Term, link: Option<Term>, reverse: bool, exclude: seq<Term>,
                                          y: Term)
    ensures y in Neighbors(g, from, link, reverse, exclude) <==>
            exists q :: q !in exclude && Fixes(link, q) &&
                        (if reverse then Triple(y, q, from) else Triple(from, q, y)) in g.triples
    ensures NoDup(Neighbors(g, from, link, reverse, exclude))
  {
    var f := (t: Triple) => if t.p in exclude then [] else [Far(t, reverse)];
    var pat := EdgePattern(from, link, reverse);
    AbsorbMembers([], FlatMap(f, g.scan(pat)));
    FlatMapMember(f, g.scan(pat), y);
    if q :| q !in exclude && Fixes(link, q)
            && (if reverse then Triple(y, q, from) else Triple(from, q, y)) in g.triples {
      var t := if reverse then Triple(y, q, from) else Triple(from, q, y);
      assert t in g.scan(pat) && y in f(t);
    }
    if y in FlatMap(f, g.scan(pat)) {
      var t :| t in g.scan(pat) && y in f(t);
      assert t == if reverse then Triple(y, t.p, from) else Triple(from, t.p, y);
    }
  }

  lemma {:induction false} NeighborsAreNodes(g: Graph, from: Term, link: Option<Term>, reverse: bool,
                                             exclude: seq<Term>)
    ensures forall y :: y in Neighbors(g, from, link, reverse, exclude) ==> y in Nodes(g)
    ensures NoDup(Neighbors(g, from, link, reverse, exclude))
  {
    NeighborsExact(g, from, link, reverse, exclude, from);
    forall y | y in Neighbors(g, from, link, reverse, exclude) ensures y in Nodes(g) {
      NeighborsExact(g, from, link, reverse, exclude, y);
      var q :| (if reverse then Triple(y, q, from) else Triple(from, q, y)) in g.triples;
    }
  }

  /** Pushing `Inverse` inward makes the path larger, so termination needs a
      weight that an inversion doubles. */
  ghost function Weight(p: PathExpr): (w: nat)
    ensures w > 0
  {
    match p
    case Link(_) => 1
    case Nps(_) => 1
    case Inverse(q) => 2 * Weight(q)
    case Seq(a, b) => 1 + Weight(a) + Weight(b)
    case Alt(a, b) => 1 + Weight(a) + Weight(b)
    case ZeroOrMore(q) => 1 + Weight(q)
    case OneOrMore(q) => 1 + Weight(q)
    case ZeroOrOne(q) => 1 + Weight(q)
  }

  lemma {:induction false} InvertedWeight(a: PathExpr, b: PathExpr)
    ensures Weight(Seq(Inverse(b), Inverse(a))) == 1 + 2 * Weight(a) + 2 * Weight(b)
    ensures Weight(Alt(Inverse(a), Inverse(b))) == 1 + 2 * Weight(a) + 2 * Weight(b)
  {
    assert Weight(Inverse(a)) == 2 * Weight(a) && Weight(Inverse(b)) == 2 * Weight(b);
  }

  predicate Closes(p: PathExpr) { p.ZeroOrMore? || p.OneOrMore? || p.ZeroOrOne? }

  /** Every result is the start itself or a node of the graph. */
  ghost predicate Within(g: Graph, from: Term, ys: seq<Term>) {
    forall y :: y in ys ==> y == from || y in Nodes(g)
  }

  /** The worklist loop of `closure` over successor lists `f`; the visited set
      is the set of `out`. */
  function CloseLoop(g: Graph, f: Term -> seq<Term>, from: Term, frontier: seq<Term>, out: seq<Term>): (r: seq<Term>)
    requires forall v :: Within(g, v, f(v))
    requires Within(g, from, frontier) && Within(g, from, out) && NoDup(out)
    ensures Within(g, from, r) && NoDup(r)
    decreases |(Nodes(g) + {from}) - Elems(out)|, |frontier|
  {
    if frontier == [] then out
    else
      var cur := frontier[|frontier| - 1];
      var next := Absorb(out, f(cur));
      AbsorbMembers(out, f(cur));
      assert Within(g, cur, f(cur));
      FrontierShrinks(g, from, out, next);
      CloseLoop(g, f, from, frontier[..|frontier| - 1] + next[|out|..], next)
  }

  lemma {:induction false} FrontierShrinks(g: Graph, from: Term, out: seq<Term>, next: seq<Term>)
    requires |out| <= |next| && next[..|out|] == out && NoDup(next) && Within(g, from, next)
    ensures |(Nodes(g) + {from}) - Elems(next)| <= |(Nodes(g) + {from}) - Elems(out)|
    ensures |next| > |out| ==> |(Nodes(g) + {from}) - Elems(next)| < |(Nodes(g) + {from}) - Elems(out)|
  {
    var all := Nodes(g) + {from};
    assert forall y :: y in out ==> y in next by {
      forall y | y in out ensures y in next { var i :| 0 <= i < |out| && out[i] == y; assert next[i] == out[i]; }
    }
    Shrinks(all - Elems(next), all - Elems(out));
    if |next| > |out| {
      var z := next[|out|];
      assert z !in out by { assert forall i :: 0 <= i < |out| ==> out[i] == next[i]; }
      assert z in all - Elems(out) && z !in all - Elems(next);
    }
  }

  function Reach(g: Graph, p: PathExpr, from: Term): (r: seq<Term>)
    ensures Within(g, from, r) && NoDup(r)
    decreases Weight(p), if Closes(p) then 0 else 1
  {
    match p
    case ZeroOrMore(q) => Closure(g, q, from, true)
    case OneOrMore(q) => Closure(g, q, from, false)
    case ZeroOrOne(q) => AbsorbMembers([from], Step(g, q, from)); Absorb([from], Step(g, q, from))
    case _ => Step(g, p, from)
  }

  function Closure(g: Graph, q: PathExpr, from: Term, includeStart: bool): (r: seq<Term>)
    ensures Within(g, from, r) && NoDup(r)
    decreases Weight(q), 3
  {
    CloseLoop(g, StepFn(g, q), from, [from], if includeStart then [from] else [])
  }

  /** One step of `q` as a function of the vertex it starts from. */
  function StepFn(g: Graph, q: PathExpr): (f: Term -> seq<Term>)
    ensures forall v :: f(v) == Step(g, q, v)
    ensures forall v :: Within(g, v, f(v))
    decreases Weight(q), 2
  {
    v => Step(g, q, v)
  }

  function Step(g: Graph, p: PathExpr, from: Term): (r: seq<Term>)
    ensures Within(g, from, r) && NoDup(r)
    decreases Weight(p), if Closes(p) then 1 else 0
  {
    match p
    case Link(iri) => NeighborsAreNodes(g, from, Some(iri), false, []); Neighbors(g, from, Some(iri), false, [])
    case Inverse(inner) =>
      assert Weight(p) == 2 * Weight(inner);
      (match inner
      case Link(iri) => NeighborsAreNodes(g, from, Some(iri), true, []); Neighbors(g, from, Some(iri), true, [])
      case Inverse(x) => assert Weight(inner) == 2 * Weight(x); Step(g, x, from)
      case Seq(a, b) =>
        assert Weight(inner) == 1 + Weight(a) + Weight(b);
        InvertedWeight(a, b);
        Step(g, Seq(Inverse(b), Inverse(a)), from)
      case Alt(a, b) =>
        assert Weight(inner) == 1 + Weight(a) + Weight(b);
        InvertedWeight(a, b);
        Step(g, Alt(Inverse(a), Inverse(b)), from)
      case ZeroOrMore(x) => assert Weight(inner) == 1 + Weight(x); Closure(g, Inverse(x), from, true)
      case OneOrMore(x) => assert Weight(inner) == 1 + Weight(x); Closure(g, Inverse(x), from, false)
      case ZeroOrOne(x) =>
        assert Weight(inner) == 1 + Weight(x);
        AbsorbMembers([from], Step(g, Inverse(x), from));
        Absorb([from], Step(g, Inverse(x), from))
      case Nps(items) => Step(g, Nps(Flip(items)), from)
    )
    case Seq(a, b) =>
      var f := (mid: Term) => Reach(g, b, mid);
      SeqWithin(g, from, f, Reach(g, a, from));
      AbsorbMembers([], FlatMap(f, Reach(g, a, from)));
      Absorb([], FlatMap(f, Reach(g, a, from)))
    case Alt(a, b) =>
      AbsorbMembers(Reach(g, a, from), Reach(g, b, from));
      Absorb(Reach(g, a, from), Reach(g, b, from))
    case Nps(items) =>
      NeighborsAreNodes(g, from, None, false, Side(items, false));
      NeighborsAreNodes(g, from, None, true, Side(items, true));
      var fwd := if Side(items, false) != [] || Side(items, true) == [] then
                   Neighbors(g, from, None, false, Side(items, false))
                 else [];
      if Side(items, true) == [] then fwd
      else
        AbsorbMembers(fwd, Neighbors(g, from, None, true, Side(items, true)));
        Absorb(fwd, Neighbors(g, from, None, true, Side(items, true)))
    case _ => Reach(g, p, from)
  }

  function Flip(items: seq<(Term, bool)>): seq<(Term, bool)> {
    Map((i: (Term, bool)) => (i.0, !i.1), items)
  }

  ghost function Elems<T>(s: seq<T>): set<T> { set x | x in s }

  lemma {:induction false} Shrinks<T>(a: set<T>, b: set<T>)
    requires a <= b
    ensures |a| <= |b|
    ensures forall x :: x in b && x !in a ==> |a| < |b|
  {
    var c := b - a;
    assert b == a + c && |b| == |a| + |c|;
  }

  lemma {:induction false} SeqWithin(g: Graph, from: Term, f: Term -> seq<Term>, mids: seq<Term>)
    requires Within(g, from, mids)
    requires forall m :: Within(g, m, f(m))
    ensures Within(g, from, FlatMap(f, mids))
  {
    forall y | y in FlatMap(f, mids) ensures y == from || y in Nodes(g) {
      FlatMapMember(f, mids, y);
      var m :| m in mids && y in f(m);
      assert Within(g, m, f(m));
    }
  }
}

/** `eval_path`: the four binding modes of a path pattern and why they agree
    (crates/graphy-engine/src/eval.rs). */
module PathModes {
  import opened Seqs
  import opened Terms
  import opened Store
  import opened Rows
  import opened RowOps
  import opened Paths
  import opened PathExact

  // ------------------------------------------------ facts about `reach`

  /** Both parities: the path and its inverse are evaluated exactly. */
  predicate Exact(p: PathExpr) { NpsOk(p, false) && NpsOk(p, true) }

  /** Evaluating the inverted path is evaluating the path backwards. */
  lemma {:induction false} ReachConverse(g: Graph, p: PathExpr, x: Term, y: Term)
    requires Exact(p)
    ensures y in Reach(g, Inverse(p), x) <==> x in Reach(g, p, y)
  {
    ReachExact(g, Inverse(p), x, y);
    ReachExact(g, p, y, x);
  }

  /** A negated set is inverted correctly on every graph iff it is not empty. */
  lemma {:induction false} InverseNpsExactIff(items: seq<(Term, bool)>)
    ensures (forall g: Graph, x, y :: y in Step(g, Inverse(Nps(items)), x) <==> Denote(g, Nps(items))(y, x))
            <==> items != []
  {
    if items != [] {
      forall g: Graph, x, y ensures y in Step(g, Inverse(Nps(items)), x) <==> Denote(g, Nps(items))(y, x) {
        InverseStepExact(g, Nps(items), x, y);
      }
    } else {
      var a, p, b := Simple([0]), Simple([1]), Simple([2]);
      var t := Triple(a, p, b);
      var raw := RawGraph({t}, pat => if Matches(pat, t) then [t] else [], _ => 0);
      assert ValidGraph(raw);
      var g: Graph := raw;
      NpsStep(g, Flip(items), a, b);
      assert EdgeBut(g, a, b, []);
      assert b in Step(g, Inverse(Nps(items)), a);
      assert !EdgeBut(g, b, a, []);
      assert !Denote(g, Nps(items))(b, a);
    }
  }

  ghost predicate Inside(g: Graph, r: Relation) {
    forall x, y :: r(x, y) ==> x == y || (x in Nodes(g) && y in Nodes(g))
  }

  lemma {:induction false} PowerInside(g: Graph, r: Relation, n: nat, x: Term, y: Term)
    requires Inside(g, r) && Power(r, n, x, y)
    ensures x == y || (x in Nodes(g) && y in Nodes(g))
  {
    if n > 0 {
      var m :| r(x, m) && Power(r, n - 1, m, y);
      PowerInside(g, r, n - 1, m, y);
    }
  }

  lemma {:induction false} StepsInside(g: Graph, r: Relation, least: nat)
    requires Inside(g, r)
    ensures Inside(g, Steps(r, least))
  {
    forall x, y | Steps(r, least)(x, y) ensures x == y || (x in Nodes(g) && y in Nodes(g)) {
      var n: nat :| n >= least && Power(r, n, x, y);
      PowerInside(g, r, n, x, y);
    }
  }

  /** Apart from zero-length pairs a path relates only nodes of the graph. */
  lemma {:induction false} DenoteInside(g: Graph, p: PathExpr)
    ensures Inside(g, Denote(g, p))
  {
    match p
    case Link(_) => EdgesInside(g);
    case Nps(_) => EdgesInside(g);
    case Inverse(q) => DenoteInside(g, q);
    case Seq(a, b) => DenoteInside(g, a); DenoteInside(g, b);
    case Alt(a, b) => DenoteInside(g, a); DenoteInside(g, b);
    case ZeroOrMore(q) => DenoteInside(g, q); StepsInside(g, Denote(g, q), 0);
    case OneOrMore(q) => DenoteInside(g, q); StepsInside(g, Denote(g, q), 1);
    case ZeroOrOne(q) => DenoteInside(g, q);
  }

  lemma {:induction false} EdgesInside(g: Graph)
    ensures forall x, q, y :: Triple(x, q, y) in g.triples ==> x in Nodes(g) && y in Nodes(g)
  {
    forall x, q, y | Triple(x, q, y) in g.triples ensures x in Nodes(g) && y in Nodes(g) {
      assert Triple(x, q, y).s == x && Triple(x, q, y).o == y;
    }
  }

  /** `path_nullable`. */
  predicate Nullable(p: PathExpr) {
    match p
    case ZeroOrMore(_) => true
    case ZeroOrOne(_) => true
    case OneOrMore(q) => Nullable(q)
    case Inverse(q) => Nullable(q)
    case Alt(a, b) => Nullable(a) || Nullable(b)
    case Seq(a, b) => Nullable(a) && Nullable(b)
    case Link(_) => false
    case Nps(_) => false
  }

  /** `path_nullable` decides exactly when a term without edges reaches itself,
      and a nullable path relates every term to itself. */
  lemma {:induction false} NullableExact(g: Graph, p: PathExpr, x: Term)
    ensures Nullable(p) ==> Denote(g, p)(x, x)
    ensures x !in Nodes(g) && Denote(g, p)(x, x) ==> Nullable(p)
  {
    match p
    case Link(_) => EdgesInside(g);
    case Nps(_) => EdgesInside(g);
    case Inverse(q) => NullableExact(g, q, x);
    case Seq(a, b) =>
      NullableExact(g, a, x);
      NullableExact(g, b, x);
      DenoteInside(g, a);
      DenoteInside(g, b);
    case Alt(a, b) => NullableExact(g, a, x); NullableExact(g, b, x);
    case ZeroOrMore(q) => assert Power(Denote(g, q), 0, x, x);
    case OneOrMore(q) =>
      NullableExact(g, q, x);
      var r := Denote(g, q);
      if r(x, x) { assert Power(r, 0, x, x); assert Power(r, 1, x, x); }
      if x !in Nodes(g) && Steps(r, 1)(x, x) {
        var n: nat :| n >= 1 && Power(r, n, x, x);
        var m :| r(x, m) && Power(r, n - 1, m, x);
        DenoteInside(g, q);
      }
    case ZeroOrOne(q) =>
  }

  // ------------------------------------------------------ binding modes

  /** Every subject or object in scope, each once, in scan order. */
  function AllNodes(g: Graph): (r: seq<Term>)
    ensures NoDup(r)
  {
    AbsorbMembers([], FlatMap((t: Triple) => [t.s, t.o], g.scan(Pattern(None, None, None))));
    Absorb([], FlatMap((t: Triple) => [t.s, t.o], g.scan(Pattern(None, None, None))))
  }

  lemma {:induction false} AllNodesExact(g: Graph, x: Term)
    ensures x in AllNodes(g) <==> x in Nodes(g)
  {
    var f := (t: Triple) => [t.s, t.o];
    var ts := g.scan(Pattern(None, None, None));
    FlatMapMember(f, ts, x);
    AbsorbMembers([], FlatMap(f, ts));
    if x in Nodes(g) {
      var t :| t in g.triples && x in f(t);
      assert t in ts;
    }
    if x in FlatMap(f, ts) {
      var t :| t in ts && x in f(t);
      assert t in g.triples;
    }
  }

  /** Terms the snapshot resolves in some position; evaluator-local terms are
      outside it. */
  ghost predicate StoredOk(g: Graph, stored: set<Term>) { Nodes(g) <= stored }

  function Reachable(g: Graph, stored: set<Term>, p: PathExpr, from: Term, retain: bool): seq<Term> {
    if from in stored then
      if !retain && Nullable(p) && from !in AllNodes(g) then [] else Reach(g, p, from)
    else if retain && Nullable(p) then [from] else []
  }

  /** `bind_endpoint`, in the monadic form of the loops that call it. */
  function BindEnd(p: Pos, t: Term, row: Row): seq<Row> {
    match p
    case Const(_) => [row]
    case Var(v) => if v in row then (if row[v] == t then [row] else []) else [row[v := t]]
  }

  function EvalPath(g: Graph, stored: set<Term>, s: Pos, p: PathExpr, o: Pos, row: Row): seq<Row> {
    match (Lookup(s, row), Lookup(o, row))
    case (Some(from), Some(to)) =>
      if to in Reachable(g, stored, p, from, s.Const?) then [row] else []
    case (Some(from), None) =>
      FlatMap((t: Term) => BindEnd(o, t, row), Reachable(g, stored, p, from, s.Const?))
    case (None, Some(to)) =>
      FlatMap((t: Term) => BindEnd(s, t, row), Reachable(g, stored, Inverse(p), to, o.Const?))
    case (None, None) =>
      FlatMap(PairsFrom(g, s, p, o, row), AllNodes(g))
  }

  /** Both endpoints bound one after the other. */
  function BindBoth(s: Pos, x: Term, o: Pos, row: Row): Term -> seq<Row> {
    (y: Term) => FlatMap((r: Row) => BindEnd(o, y, r), BindEnd(s, x, row))
  }

  function PairsFrom(g: Graph, s: Pos, p: PathExpr, o: Pos, row: Row): Term -> seq<Row> {
    (x: Term) => FlatMap(BindBoth(s, x, o, row), Reach(g, p, x))
  }

  // ---------------------------------------------------------- coherence

  /** `m` extends `row` by one pair of the path starting at a node, both ends
      variables (possibly the same one). */
  ghost predicate Solves(g: Graph, p: PathExpr, v: VarId, w: VarId, row: Row, m: Row) {
    && v in m && w in m
    && m[v] in Nodes(g) && Denote(g, p)(m[v], m[w])
    && (v in row ==> row[v] == m[v]) && (w in row ==> row[w] == m[w])
    && m == row[v := m[v]][w := m[w]]
  }

  /** Enumerating targets from a bound variable gives exactly the related nodes. */
  lemma {:induction false} ReachableExact(g: Graph, stored: set<Term>, p: PathExpr, from: Term, y: Term)
    requires StoredOk(g, stored) && NpsOk(p, false)
    ensures NoDup(Reachable(g, stored, p, from, false))
    ensures y in Reachable(g, stored, p, from, false) <==> from in Nodes(g) && Denote(g, p)(from, y)
  {
    AllNodesExact(g, from);
    ReachExact(g, p, from, y);
    NullableExact(g, p, from);
    DenoteInside(g, p);
  }

  /** The rows of every mode: which rows, and each once. */
  lemma {:induction false} PathRows(g: Graph, stored: set<Term>, p: PathExpr, v: VarId, w: VarId, row: Row, m: Row)
    requires StoredOk(g, stored) && Exact(p)
    ensures m in EvalPath(g, stored, Var(v), p, Var(w), row) <==> Solves(g, p, v, w, row, m)
    ensures NoDup(EvalPath(g, stored, Var(v), p, Var(w), row))
  {
    if v in row && w in row {
      ReachableExact(g, stored, p, row[v], row[w]);
      assert row[v := row[v]][w := row[w]] == row;
    } else if v in row {
      forall t { ReachableExact(g, stored, p, row[v], t); }
      BindAll(w, row, Reachable(g, stored, p, row[v], false), m);
      if w in m { assert row[v := row[v]][w := m[w]] == row[w := m[w]]; }
    } else if w in row {
      forall t { ReachableExact(g, stored, Inverse(p), row[w], t); }
      BindAll(v, row, Reachable(g, stored, Inverse(p), row[w], false), m);
      DenoteInside(g, p);
      if v in m { assert row[v := m[v]][w := row[w]] == row[v := m[v]]; }
    } else {
      FreeRows(g, p, v, w, row, m);
    }
  }

  /** The value a row gives a variable (an arbitrary term when it gives none). */
  function BoundTo(u: VarId): Row -> Term { (k: Row) => if u in k then k[u] else Simple([]) }

  lemma {:induction false} BindAll(u: VarId, row: Row, ts: seq<Term>, m: Row)
    requires u !in row && NoDup(ts)
    ensures m in FlatMap((t: Term) => BindEnd(Var(u), t, row), ts) <==> u in m && m[u] in ts && m == row[u := m[u]]
    ensures NoDup(FlatMap((t: Term) => BindEnd(Var(u), t, row), ts))
  {
    var f := (t: Term) => BindEnd(Var(u), t, row);
    FlatMapMember(f, ts, m);
    forall t, k | k in f(t) ensures BoundTo(u)(k) == t { assert k == row[u := t]; }
    FlatMapNoDupBy(f, BoundTo(u), ts);
  }

  lemma {:induction false} BindBothIs(v: VarId, x: Term, w: VarId, row: Row, y: Term)
    requires v !in row && w !in row
    ensures BindBoth(Var(v), x, Var(w), row)(y) == if v == w && x != y then [] else [row[v := x][w := y]]
  {
    var r := row[v := x];
    assert BindEnd(Var(v), x, row) == [r];
    FlatMapOne((r: Row) => BindEnd(Var(w), y, r), r);
    if v == w && x == y { assert r[w := y] == r; }
  }

  lemma {:induction false} BindAllPairs(v: VarId, w: VarId, row: Row, x: Term, ys: seq<Term>, k: Row)
    requires v !in row && w !in row && NoDup(ys)
    ensures k in FlatMap(BindBoth(Var(v), x, Var(w), row), ys) <==>
            v in k && w in k && k[v] == x && k[w] in ys && k == row[v := x][w := k[w]]
    ensures NoDup(FlatMap(BindBoth(Var(v), x, Var(w), row), ys))
  {
    var f := BindBoth(Var(v), x, Var(w), row);
    forall y ensures f(y) == if v == w && x != y then [] else [row[v := x][w := y]] {
      BindBothIs(v, x, w, row, y);
    }
    FlatMapMember(f, ys, k);
    forall y, k | k in f(y) ensures BoundTo(w)(k) == y { assert k == row[v := x][w := y]; }
    FlatMapNoDupBy(f, BoundTo(w), ys);
  }

  lemma {:induction false} FreeRows(g: Graph, p: PathExpr, v: VarId, w: VarId, row: Row, m: Row)
    requires Exact(p) && v !in row && w !in row
    ensures m in FlatMap(PairsFrom(g, Var(v), p, Var(w), row), AllNodes(g)) <==> Solves(g, p, v, w, row, m)
    ensures NoDup(FlatMap(PairsFrom(g, Var(v), p, Var(w), row), AllNodes(g)))
  {
    var outer := PairsFrom(g, Var(v), p, Var(w), row);
    forall x, k | x in AllNodes(g) && k in outer(x) ensures BoundTo(v)(k) == x {
      BindAllPairs(v, w, row, x, Reach(g, p, x), k);
    }
    forall x | x in AllNodes(g) ensures NoDup(outer(x)) {
      BindAllPairs(v, w, row, x, Reach(g, p, x), row);
    }
    FlatMapNoDupBy(outer, BoundTo(v), AllNodes(g));
    FreeRowsAre(g, p, v, w, row, m);
  }

  lemma {:induction false} FreeRowsAre(g: Graph, p: PathExpr, v: VarId, w: VarId, row: Row, m: Row)
    requires Exact(p) && v !in row && w !in row
    ensures m in FlatMap(PairsFrom(g, Var(v), p, Var(w), row), AllNodes(g)) <==> Solves(g, p, v, w, row, m)
  {
    var outer := PairsFrom(g, Var(v), p, Var(w), row);
    FlatMapMember(outer, AllNodes(g), m);
    if v in m && w in m {
      AllNodesExact(g, m[v]);
      ReachExact(g, p, m[v], m[w]);
      BindAllPairs(v, w, row, m[v], Reach(g, p, m[v]), m);
    }
    if x :| x in AllNodes(g) && m in outer(x) {
      BindAllPairs(v, w, row, x, Reach(g, p, x), m);
    }
  }

  /** The modes cohere: evaluating a path pattern under any row gives exactly the
      rows of the unbound enumeration that are compatible with it, as multisets. */
  lemma {:induction false} ModesCohere(g: Graph, stored: set<Term>, p: PathExpr, v: VarId, w: VarId, row: Row)
    requires StoredOk(g, stored) && Exact(p)
    ensures multiset(EvalPath(g, stored, Var(v), p, Var(w), row)) ==
            multiset(FlatMap(MergeInto(row), EvalPath(g, stored, Var(v), p, Var(w), map[])))
  {
    var all := EvalPath(g, stored, Var(v), p, Var(w), map[]);
    var here := EvalPath(g, stored, Var(v), p, Var(w), row);
    PathRows(g, stored, p, v, w, row, row);
    PathRows(g, stored, p, v, w, map[], row);
    forall e | e in all ensures e.Keys == {v, w} {
      PathRows(g, stored, p, v, w, map[], e);
    }
    MergeNoDup(row, all, {v, w});
    forall m ensures m in here <==> m in FlatMap(MergeInto(row), all) {
      SameRows(g, stored, p, v, w, row, m);
    }
    NoDupPermutation(here, FlatMap(MergeInto(row), all));
  }

  lemma {:induction false} MergeNoDup(row: Row, all: seq<Row>, vars: set<VarId>)
    requires NoDup(all) && forall e :: e in all ==> e.Keys == vars
    ensures NoDup(FlatMap(MergeInto(row), all))
  {
    var f := MergeInto(row);
    forall e, e', k | e in all && e' in all && k in f(e) && k in f(e') ensures e == e' {
      assert k == row + e && k == row + e';
      assert forall u :: u in vars ==> k[u] == e[u] && k[u] == e'[u];
    }
    FlatMapNoDup(f, all);
  }

  lemma {:induction false} SameRows(g: Graph, stored: set<Term>, p: PathExpr, v: VarId, w: VarId, row: Row, m: Row)
    requires StoredOk(g, stored) && Exact(p)
    ensures m in EvalPath(g, stored, Var(v), p, Var(w), row) <==>
            m in FlatMap(MergeInto(row), EvalPath(g, stored, Var(v), p, Var(w), map[]))
  {
    var all := EvalPath(g, stored, Var(v), p, Var(w), map[]);
    PathRows(g, stored, p, v, w, row, m);
    FlatMapMember(MergeInto(row), all, m);
    if Solves(g, p, v, w, row, m) {
      var e := Ends(v, w, m);
      FreeSolution(g, p, v, w, row, m);
      PathRows(g, stored, p, v, w, map[], e);
      assert m in MergeInto(row)(e);
    }
    if e :| e in all && m in MergeInto(row)(e) {
      PathRows(g, stored, p, v, w, map[], e);
      BoundSolution(g, p, v, w, row, e);
    }
  }

  function Ends(v: VarId, w: VarId, m: Row): Row
    requires v in m && w in m
  {
    map[v := m[v], w := m[w]]
  }

  lemma {:induction false} FreeSolution(g: Graph, p: PathExpr, v: VarId, w: VarId, row: Row, m: Row)
    requires Solves(g, p, v, w, row, m)
    ensures Solves(g, p, v, w, map[], Ends(v, w, m))
    ensures Compatible(row, Ends(v, w, m)) && row + Ends(v, w, m) == m
  {
    Rejoins(row, v, w, m[v], m[w], Ends(v, w, m));
    Rejoins(map[], v, w, m[v], m[w], Ends(v, w, m));
  }

  lemma {:induction false} BoundSolution(g: Graph, p: PathExpr, v: VarId, w: VarId, row: Row, e: Row)
    requires Solves(g, p, v, w, map[], e) && Compatible(row, e)
    ensures Solves(g, p, v, w, row, row + e)
  {
    Rejoins(row, v, w, e[v], e[w], e);
  }

  lemma {:induction false} Rejoins(row: Row, v: VarId, w: VarId, x: Term, y: Term, e: Row)
    requires e == map[][v := x][w := y] && (v == w ==> x == y)
    ensures Compatible(row, e) <==> (v in row ==> row[v] == x) && (w in row ==> row[w] == y)
    ensures row + e == row[v := x][w := y]
  {
    assert e.Keys == {v, w} && e[v] == x && e[w] == y;
  }
}

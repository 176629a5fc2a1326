/** Basic graph patterns: the bind-join loop lists each mapping of the patterns
    into the graph exactly once, whatever the order of the patterns
    (crates/graphy-engine/src/eval.rs, `eval_bgp`, `scan_rows_in`). */
module BgpOrder {
  import opened Seqs
  import opened Terms
  import opened Store
  import opened Rows
  import opened AlgebraTree
  import opened Bindings
  import opened Perms

  function Subst(p: Pos, m: Row): Term {
    match p
    case Const(t) => t
    case Var(v) => if v in m then m[v] else Simple([])
  }

  function Instance(t: TriplePat, m: Row): Triple { Triple(Subst(t.s, m), Subst(t.p, m), Subst(t.o, m)) }

  ghost predicate Extends(m: Row, row: Row) { row.Keys <= m.Keys && forall v :: v in row ==> m[v] == row[v] }

  /** `m` maps the patterns into the graph and binds nothing else. */
  ghost predicate Solution(g: Graph, ts: seq<TriplePat>, m: Row) {
    m.Keys == PatternVars(ts) && forall t :: t in ts ==> Instance(t, m) in g.triples
  }

  lemma {:induction false} SameRow(a: Row, b: Row)
    requires a.Keys == b.Keys && forall v :: v in a ==> a[v] == b[v]
    ensures a == b
  {
  }

  /** Binding the three positions of a matching triple. */
  lemma {:induction false} BindTripleKeys(t: TriplePat, tr: Triple, row: Row)
    ensures BindTriple(t, tr, row).Keys == row.Keys + PatVars(t)
    ensures Extends(BindTriple(t, tr, row), row)
  {
    var r1 := BindPos(t.s, tr.s, row);
    var r2 := BindPos(t.p, tr.p, r1);
    assert r1.Keys == row.Keys + PosVars(t.s);
    assert r2.Keys == r1.Keys + PosVars(t.p);
    assert BindPos(t.o, tr.o, r2).Keys == r2.Keys + PosVars(t.o);
  }

  lemma {:induction false} BindTripleInstance(t: TriplePat, tr: Triple, row: Row)
    requires Matches(PatternOf(t, row), tr)
    ensures !Repeated(t) || Consistent(t, BindTriple(t, tr, row), tr) <==> Instance(t, BindTriple(t, tr, row)) == tr
  {
    BindTripleKeys(t, tr, row);
  }

  /** The only row that extends `row` to an instance of the triple. */
  lemma {:induction false} InstanceIsBind(t: TriplePat, tr: Triple, row: Row, m: Row)
    requires m.Keys == row.Keys + PatVars(t) && Extends(m, row) && Instance(t, m) == tr
    ensures m == BindTriple(t, tr, row)
    ensures Matches(PatternOf(t, row), tr)
  {
    var r := BindTriple(t, tr, row);
    BindTripleKeys(t, tr, row);
    forall v | v in m ensures m[v] == r[v] {
      if v !in row { assert v in PatVars(t); }
    }
    SameRow(m, r);
  }

  lemma {:induction false} ScanRowExact(g: Graph, t: TriplePat, row: Row, m: Row)
    ensures m in ScanRow(g, t)(row)
            <==> m.Keys == row.Keys + PatVars(t) && Extends(m, row) && Instance(t, m) in g.triples
  {
    var trs := g.scan(PatternOf(t, row));
    FlatMapMember(ScanOne(t, row), trs, m);
    if tr :| tr in trs && m in ScanOne(t, row)(tr) {
      BindTripleKeys(t, tr, row);
      BindTripleInstance(t, tr, row);
    }
    if m.Keys == row.Keys + PatVars(t) && Extends(m, row) && Instance(t, m) in g.triples {
      var tr := Instance(t, m);
      InstanceIsBind(t, tr, row, m);
      BindTripleInstance(t, tr, row);
      assert tr in trs && m in ScanOne(t, row)(tr);
    }
  }

  lemma {:induction false} ScanRowOnce(g: Graph, t: TriplePat, row: Row)
    ensures NoDup(ScanRow(g, t)(row))
  {
    var trs := g.scan(PatternOf(t, row));
    forall tr, m | tr in trs && m in ScanOne(t, row)(tr) ensures Instance(t, m) == tr {
      BindTripleInstance(t, tr, row);
    }
    FlatMapNoDupBy(ScanOne(t, row), m => Instance(t, m), trs);
  }

  function Restrict(m: Row, vars: set<VarId>): Row { map v | v in m && v in vars :: m[v] }

  lemma {:induction false} RestrictExtends(m: Row, row: Row)
    requires Extends(m, row)
    ensures Restrict(m, row.Keys) == row
  {
  }

  /** One round of the bind join keeps the rows duplicate-free. */
  lemma {:induction false} RoundOnce(g: Graph, t: TriplePat, rows: seq<Row>, vars: set<VarId>)
    requires NoDup(rows) && Between(rows, vars, vars)
    ensures NoDup(FlatMap(ScanRow(g, t), rows))
  {
    forall r | r in rows ensures NoDup(ScanRow(g, t)(r)) { ScanRowOnce(g, t, r); }
    forall r, m | r in rows && m in ScanRow(g, t)(r) ensures Restrict(m, vars) == r {
      ScanRowExact(g, t, r, m);
      RestrictExtends(m, r);
    }
    FlatMapNoDupBy(ScanRow(g, t), m => Restrict(m, vars), rows);
  }

  lemma {:induction false} RoundMembers(g: Graph, t: TriplePat, rows: seq<Row>, vars: set<VarId>, m: Row)
    requires Between(rows, vars, vars)
    ensures m in FlatMap(ScanRow(g, t), rows) <==>
            m.Keys == vars + PatVars(t) && Restrict(m, vars) in rows && Instance(t, m) in g.triples
  {
    FlatMapMember(ScanRow(g, t), rows, m);
    if r :| r in rows && m in ScanRow(g, t)(r) {
      assert r.Keys == vars;
      ScanRowExact(g, t, r, m);
      RestrictExtends(m, r);
    } else if m.Keys == vars + PatVars(t) && Restrict(m, vars) in rows && Instance(t, m) in g.triples {
      RestrictionScans(g, t, vars, m);
      assert false;
    }
  }

  lemma {:induction false} RestrictionScans(g: Graph, t: TriplePat, vars: set<VarId>, m: Row)
    requires m.Keys == vars + PatVars(t) && Instance(t, m) in g.triples
    ensures m in ScanRow(g, t)(Restrict(m, vars))
  {
    var r := Restrict(m, vars);
    assert r.Keys == vars;
    ScanRowExact(g, t, r, m);
  }

  lemma {:induction false} PatternVarsMember(ts: seq<TriplePat>, v: VarId)
    ensures v in PatternVars(ts) <==> exists t :: t in ts && v in PatVars(t)
  {
    if ts != [] {
      PatternVarsMember(ts[1..], v);
      assert ts == [ts[0]] + ts[1..];
    }
  }

  lemma {:induction false} InstanceOfRestriction(t: TriplePat, m: Row, vars: set<VarId>)
    requires PatVars(t) <= vars
    ensures Instance(t, Restrict(m, vars)) == Instance(t, m)
  {
  }

  /** The rows of the remaining patterns over rows that solve the earlier ones. */
  lemma {:induction false} BgpRowsExact(g: Graph, done: seq<TriplePat>, ts: seq<TriplePat>, rows: seq<Row>, m: Row)
    requires NoDup(rows) && Between(rows, PatternVars(done), PatternVars(done))
    requires forall r :: r in rows <==> Solution(g, done, r)
    ensures NoDup(BgpRows(g, ts, rows))
    ensures m in BgpRows(g, ts, rows) <==> Solution(g, done + ts, m)
    decreases |ts|
  {
    if ts == [] {
      assert done + ts == done;
    } else {
      var t, more := ts[0], done + [ts[0]];
      var next := FlatMap(ScanRow(g, t), rows);
      RoundOnce(g, t, rows, PatternVars(done));
      forall r ensures r in next <==> Solution(g, more, r) { RoundSolves(g, done, t, rows, r); }
      assert Between(next, PatternVars(more), PatternVars(more));
      assert more + ts[1..] == done + ts;
      BgpRowsExact(g, more, ts[1..], next, m);
    }
  }

  lemma {:induction false} PatternVarsSnoc(done: seq<TriplePat>, t: TriplePat)
    ensures PatternVars(done + [t]) == PatternVars(done) + PatVars(t)
  {
    if done == [] {
      assert done + [t] == [t] && [t][1..] == [];
    } else {
      PatternVarsSnoc(done[1..], t);
      assert (done + [t])[1..] == done[1..] + [t];
    }
  }

  lemma {:induction false} RoundSolves(g: Graph, done: seq<TriplePat>, t: TriplePat, rows: seq<Row>, r: Row)
    requires Between(rows, PatternVars(done), PatternVars(done))
    requires forall r :: r in rows <==> Solution(g, done, r)
    ensures r in FlatMap(ScanRow(g, t), rows) <==> Solution(g, done + [t], r)
  {
    var vars := PatternVars(done);
    RoundMembers(g, t, rows, vars, r);
    PatternVarsSnoc(done, t);
    assert forall u :: u in done + [t] <==> u in done || u == t;
    if r.Keys == vars + PatVars(t) {
      assert Restrict(r, vars).Keys == vars;
      forall u | u in done ensures Instance(u, Restrict(r, vars)) == Instance(u, r) {
        forall v | v in PatVars(u) ensures v in vars { PatternVarsMember(done, v); }
        InstanceOfRestriction(u, r, vars);
      }
    }
  }

  lemma {:induction false} InsertPerm(g: Graph, t: TriplePat, ts: seq<TriplePat>)
    ensures Perm(InsertByCost(g, t, ts), [t] + ts)
    decreases |ts|
  {
    if ts != [] && Cost(g, t) > Cost(g, ts[0]) {
      InsertPerm(g, t, ts[1..]);
      assert [t] + ts == [t] + ([ts[0]] + ts[1..]);
    }
  }

  lemma {:induction false} SortPerm(g: Graph, ts: seq<TriplePat>)
    ensures Perm(SortByCost(g, ts), ts)
    decreases |ts|
  {
    if ts != [] {
      SortPerm(g, ts[1..]);
      InsertPerm(g, ts[0], SortByCost(g, ts[1..]));
      assert ts == [ts[0]] + ts[1..];
    }
  }

  function Fixed(p: Pos): Option<Term> { if p.Const? then Some(p.t) else None }

  /** What the store estimates for the pattern's constants. */
  function Estimate(g: Graph, t: TriplePat): nat { g.estimate(Pattern(Fixed(t.s), Fixed(t.p), Fixed(t.o))) }

  /** Patterns of one estimate. */
  function OfCost(g: Graph, k: nat): TriplePat -> seq<TriplePat> {
    (t: TriplePat) => if Estimate(g, t) == k then [t] else []
  }

  ghost predicate Cheapest(g: Graph, ts: seq<TriplePat>) {
    forall i, j :: 0 <= i < j < |ts| ==> Estimate(g, ts[i]) <= Estimate(g, ts[j])
  }

  lemma {:induction false} CostIs(g: Graph, t: TriplePat)
    ensures Cost(g, t) == Estimate(g, t)
  {
    assert PatternOf(t, map[]) == Pattern(Fixed(t.s), Fixed(t.p), Fixed(t.o));
  }

  lemma {:induction false} InsertCheapest(g: Graph, t: TriplePat, ts: seq<TriplePat>)
    requires Cheapest(g, ts)
    ensures Cheapest(g, InsertByCost(g, t, ts))
    decreases |ts|
  {
    CostIs(g, t);
    if ts != [] { CostIs(g, ts[0]); }
    if ts != [] && Cost(g, t) > Cost(g, ts[0]) {
      var rest := InsertByCost(g, t, ts[1..]);
      InsertCheapest(g, t, ts[1..]);
      InsertPerm(g, t, ts[1..]);
      PermMembers(rest, [t] + ts[1..]);
      forall j | 0 <= j < |rest| ensures Estimate(g, ts[0]) <= Estimate(g, rest[j]) { assert rest[j] in rest; }
      CheapestFirst(g, ts[0], rest);
    } else {
      forall j | 0 <= j < |ts| ensures Estimate(g, t) <= Estimate(g, ts[j]) { }
      CheapestFirst(g, t, ts);
    }
  }

  lemma {:induction false} CheapestFirst(g: Graph, t: TriplePat, ts: seq<TriplePat>)
    requires Cheapest(g, ts) && forall j :: 0 <= j < |ts| ==> Estimate(g, t) <= Estimate(g, ts[j])
    ensures Cheapest(g, [t] + ts)
  {
    var all := [t] + ts;
    forall i, j | 0 <= i < j < |all| ensures Estimate(g, all[i]) <= Estimate(g, all[j]) {
      assert all[j] == ts[j - 1] && (i > 0 ==> all[i] == ts[i - 1]);
    }
  }

  lemma {:induction false} InsertStable(g: Graph, t: TriplePat, ts: seq<TriplePat>, k: nat)
    ensures FlatMap(OfCost(g, k), InsertByCost(g, t, ts)) == OfCost(g, k)(t) + FlatMap(OfCost(g, k), ts)
    decreases |ts|
  {
    CostIs(g, t);
    if ts != [] { CostIs(g, ts[0]); }
    if ts == [] || Cost(g, t) <= Cost(g, ts[0]) {
      assert ([t] + ts)[1..] == ts;
    } else {
      var rest := InsertByCost(g, t, ts[1..]);
      InsertStable(g, t, ts[1..], k);
      assert ([ts[0]] + rest)[1..] == rest;
    }
  }

  /** The bind join takes the patterns by ascending estimate, those of one estimate in
      the order they stand in. */
  lemma {:induction false} SortCheapest(g: Graph, ts: seq<TriplePat>, k: nat)
    ensures Cheapest(g, SortByCost(g, ts)) && Perm(SortByCost(g, ts), ts)
    ensures FlatMap(OfCost(g, k), SortByCost(g, ts)) == FlatMap(OfCost(g, k), ts)
    decreases |ts|
  {
    SortPerm(g, ts);
    if ts != [] {
      SortCheapest(g, ts[1..], k);
      InsertCheapest(g, ts[0], SortByCost(g, ts[1..]));
      InsertStable(g, ts[0], SortByCost(g, ts[1..]), k);
    }
  }

  /** A basic graph pattern yields each of its solutions exactly once. */
  lemma {:induction false} BgpSolutions(g: Graph, ts: seq<TriplePat>, m: Row)
    ensures NoDup(EvalBgp(g, ts))
    ensures m in EvalBgp(g, ts) <==> Solution(g, ts, m)
  {
    var order := SortByCost(g, ts);
    assert [] + order == order;
    BgpRowsExact(g, [], order, [map[]], m);
    SortPerm(g, ts);
    PermMembers(order, ts);
    SortVars(g, ts);
  }

  /** Order of the patterns, repetition and cost estimates do not matter. */
  lemma {:induction false} BgpOrderIndependent(g: Graph, ts: seq<TriplePat>, ts': seq<TriplePat>)
    requires forall t :: t in ts <==> t in ts'
    ensures Perm(EvalBgp(g, ts), EvalBgp(g, ts'))
  {
    forall v ensures v in PatternVars(ts) <==> v in PatternVars(ts') {
      PatternVarsMember(ts, v);
      PatternVarsMember(ts', v);
    }
    assert PatternVars(ts) == PatternVars(ts');
    forall m ensures m in EvalBgp(g, ts) <==> m in EvalBgp(g, ts') {
      BgpSolutions(g, ts, m);
      BgpSolutions(g, ts', m);
    }
    BgpSolutions(g, ts, map[]);
    BgpSolutions(g, ts', map[]);
    NoDupPermutation(EvalBgp(g, ts), EvalBgp(g, ts'));
  }
}

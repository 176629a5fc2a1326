/** What the rows of a tree bind: never more than its visible variables, never
    less than its certain ones (crates/graphy-algebra/src/translate.rs,
    `visible_vars`). */
module Bindings {
  import opened Seqs
  import opened Terms
  import opened Store
  import opened Rows
  import opened RowOps
  import opened Expressions
  import opened Paths
  import opened PathModes
  import opened AlgebraTree

  /** Variables bound in every row, whatever the data. */
  function Certain(a: Algebra): set<VarId> {
    match a
    case Bgp(ts) => PatternVars(ts)
    case Path(s, _, o) => PosVars(s) + PosVars(o)
    case Join(l, r) => Certain(l) + Certain(r)
    case LeftJoin(l, _, _) => Certain(l)
    case Filter(_, x) => Certain(x)
    case Union(l, r) => Certain(l) * Certain(r)
    case GraphNode(g, x) => PosVars(g) + Certain(x)
    case Extend(x, _, _) => Certain(x)
    case Minus(l, _) => Certain(l)
    case Table(vars, rows) => set v | v in vars && forall cells | cells in rows :: Given(vars, cells, v)
    case ToMultiSet(x) => Certain(x)
    case Group(_, _, _) => {}
    case OrderBy(x, _) => Certain(x)
    case Project(x, vars) => set v | v in vars && v in Certain(x)
    case Distinct(x) => Certain(x)
    case Reduced(x) => Certain(x)
    case Slice(x, _, _) => Certain(x)
  }

  /** Some column of the variable holds a term in this row of inline data. */
  predicate Given(vars: seq<VarId>, cells: seq<Option<Term>>, v: VarId) {
    exists i | 0 <= i < |vars| && i < |cells| :: vars[i] == v && cells[i].Some?
  }

  /** Every row binds at least `lo` and at most `hi`. */
  ghost predicate Between(rows: seq<Row>, lo: set<VarId>, hi: set<VarId>) {
    forall r :: r in rows ==> lo <= r.Keys <= hi
  }

  lemma {:induction false} FlatMapBetween<A>(f: A -> seq<Row>, xs: seq<A>, lo: set<VarId>, hi: set<VarId>)
    requires forall x :: x in xs ==> Between(f(x), lo, hi)
    ensures Between(FlatMap(f, xs), lo, hi)
  {
    forall r | r in FlatMap(f, xs) ensures lo <= r.Keys <= hi {
      FlatMapMember(f, xs, r);
    }
  }

  // ------------------------------------------------------- operators

  lemma {:induction false} ScanBetween(g: Graph, t: TriplePat, row: Row)
    ensures Between(ScanRow(g, t)(row), row.Keys + PatVars(t), row.Keys + PatVars(t))
  {
    forall tr: Triple ensures BindTriple(t, tr, row).Keys == row.Keys + PatVars(t) {
      var r1 := BindPos(t.s, tr.s, row);
      var r2 := BindPos(t.p, tr.p, r1);
      assert r1.Keys == row.Keys + PosVars(t.s);
      assert r2.Keys == r1.Keys + PosVars(t.p);
      assert BindPos(t.o, tr.o, r2).Keys == r2.Keys + PosVars(t.o);
    }
    FlatMapBetween(ScanOne(t, row), g.scan(PatternOf(t, row)), row.Keys + PatVars(t), row.Keys + PatVars(t));
  }

  lemma {:induction false} BgpBetween(g: Graph, ts: seq<TriplePat>, rows: seq<Row>, vars: set<VarId>)
    requires Between(rows, vars, vars)
    ensures Between(BgpRows(g, ts, rows), vars + PatternVars(ts), vars + PatternVars(ts))
    decreases |ts|
  {
    if ts != [] {
      var more := vars + PatVars(ts[0]);
      forall r | r in rows ensures Between(ScanRow(g, ts[0])(r), more, more) {
        ScanBetween(g, ts[0], r);
        assert r.Keys == vars;
      }
      FlatMapBetween(ScanRow(g, ts[0]), rows, more, more);
      BgpBetween(g, ts[1..], FlatMap(ScanRow(g, ts[0]), rows), more);
      assert more + PatternVars(ts[1..]) == vars + PatternVars(ts);
    } else {
      assert vars + PatternVars(ts) == vars;
    }
  }

  lemma {:induction false} InsertVars(g: Graph, t: TriplePat, ts: seq<TriplePat>)
    ensures PatternVars(InsertByCost(g, t, ts)) == PatVars(t) + PatternVars(ts)
    decreases |ts|
  {
    var r := InsertByCost(g, t, ts);
    if ts == [] || Cost(g, t) <= Cost(g, ts[0]) {
      assert r[0] == t && r[1..] == ts;
    } else {
      InsertVars(g, t, ts[1..]);
      assert r[0] == ts[0] && r[1..] == InsertByCost(g, t, ts[1..]);
    }
  }

  lemma {:induction false} SortVars(g: Graph, ts: seq<TriplePat>)
    ensures PatternVars(SortByCost(g, ts)) == PatternVars(ts)
    decreases |ts|
  {
    if ts != [] {
      SortVars(g, ts[1..]);
      InsertVars(g, ts[0], SortByCost(g, ts[1..]));
    }
  }

  lemma {:induction false} PathBetween(g: Graph, stored: set<Term>, s: Pos, p: PathExpr, o: Pos)
    ensures Between(EvalPath(g, stored, s, p, o, map[]), PosVars(s) + PosVars(o), PosVars(s) + PosVars(o))
  {
    var vars := PosVars(s) + PosVars(o);
    forall e: Pos, t: Term, row: Row, r | r in BindEnd(e, t, row) ensures r.Keys == row.Keys + PosVars(e) {
    }
    match (Lookup(s, map[]), Lookup(o, map[]))
    case (Some(_), Some(_)) =>
    case (Some(from), None) =>
      FlatMapBetween((t: Term) => BindEnd(o, t, map[]), Reachable(g, stored, p, from, s.Const?), vars, vars);
    case (None, Some(to)) =>
      FlatMapBetween((t: Term) => BindEnd(s, t, map[]), Reachable(g, stored, Inverse(p), to, o.Const?), vars, vars);
    case (None, None) =>
      forall x, y ensures Between(BindBoth(s, x, o, map[])(y), vars, vars) {
        FlatMapBetween((r: Row) => BindEnd(o, y, r), BindEnd(s, x, map[]), vars, vars);
      }
      forall x ensures Between(PairsFrom(g, s, p, o, map[])(x), vars, vars) {
        FlatMapBetween(BindBoth(s, x, o, map[]), Reach(g, p, x), vars, vars);
      }
      FlatMapBetween(PairsFrom(g, s, p, o, map[]), AllNodes(g), vars, vars);
  }

  lemma {:induction false} JoinBetween(left: seq<Row>, right: seq<Row>, ll: set<VarId>, lh: set<VarId>, rl: set<VarId>,
                                       rh: set<VarId>)
    requires Between(left, ll, lh) && Between(right, rl, rh)
    ensures Between(FlatMap(JoinOne(right), left), ll + rl, lh + rh)
  {
    forall a | a in left ensures Between(JoinOne(right)(a), ll + rl, lh + rh) {
      FlatMapBetween(MergeInto(a), right, ll + rl, lh + rh);
    }
    FlatMapBetween(JoinOne(right), left, ll + rl, lh + rh);
  }

  lemma {:induction false} LeftBetween(pass: Row -> bool, left: seq<Row>, right: seq<Row>, ll: set<VarId>,
                                       lh: set<VarId>, rh: set<VarId>)
    requires Between(left, ll, lh) && Between(right, {}, rh)
    ensures Between(FlatMap(LeftOne(pass, right), left), ll, lh + rh)
  {
    forall a | a in left ensures Between(LeftOne(pass, right)(a), ll, lh + rh) {
      forall m | m in LeftOne(pass, right)(a) ensures ll <= m.Keys <= lh + rh {
        var b := LeftOneMember(pass, right, a, m);
      }
    }
    FlatMapBetween(LeftOne(pass, right), left, ll, lh + rh);
  }

  lemma {:induction false} TableBetween(vars: seq<VarId>, cells: seq<Option<Term>>, row: Row)
    ensures forall r :: r in TableRow(vars, cells, row) ==>
              row.Keys <= r.Keys && r.Keys <= row.Keys + (set v | v in vars) &&
              forall v :: v in vars && Given(vars, cells, v) ==> v in r
    decreases |vars|
  {
    if vars != [] && cells != [] {
      var row' := if cells[0].None? then row else row[vars[0] := cells[0].value];
      TableBetween(vars[1..], cells[1..], row');
      forall v | v in vars && Given(vars, cells, v) && !(vars[0] == v && cells[0].Some?)
        ensures v in vars[1..] && Given(vars[1..], cells[1..], v)
      {
        var i :| 0 <= i < |vars| && i < |cells| && vars[i] == v && cells[i].Some?;
        assert vars[1..][i - 1] == v && cells[1..][i - 1].Some?;
      }
      assert forall v :: v in vars[1..] ==> v in vars;
    }
  }

  lemma {:induction false} BindKeysBetween(keys: seq<(VarId, Option<Expression>)>, cells: seq<Option<Term>>, row: Row)
    requires |keys| == |cells|
    ensures BindKeys(keys, cells, row).Keys <= row.Keys + (set k | k in keys :: k.0)
  {
    if keys != [] {
      var row' := if cells[0].Some? then row[keys[0].0 := cells[0].value] else row - {keys[0].0};
      BindKeysBetween(keys[1..], cells[1..], row');
      assert keys[0] in keys && forall k :: k in keys[1..] ==> k in keys;
    }
  }

  lemma {:induction false} BindAggsBetween(en: Engine, sc: Scope, aggs: seq<(VarId, Aggregate)>, members: seq<Row>,
                                           row: Row)
    ensures BindAggs(en, sc, aggs, members, row).Keys <= row.Keys + (set g | g in aggs :: g.0)
  {
    if aggs != [] {
      var t := EvalAggregate(en, sc, aggs[0].1, members);
      BindAggsBetween(en, sc, aggs[1..], members, if t.Some? then row[aggs[0].0 := t.value] else row);
      assert aggs[0] in aggs && forall g :: g in aggs[1..] ==> g in aggs;
    }
  }

  lemma {:induction false} GroupBetween(en: Engine, sc: Scope, keys: seq<(VarId, Option<Expression>)>,
                                        aggs: seq<(VarId, Aggregate)>, rows: seq<Row>)
    ensures Between(GroupRows(en, sc, keys, aggs, rows), {}, (set k | k in keys :: k.0) + (set g | g in aggs :: g.0))
  {
    var hi := (set k | k in keys :: k.0) + (set g | g in aggs :: g.0);
    var found := Absorb([], Map(KeyOf(en, sc, keys), rows));
    var ks := if keys == [] && found == [] then [[]] else found;
    forall k ensures Between(GroupRow(en, sc, keys, aggs, rows)(k), {}, hi) {
      if |k| == |keys| {
        var members := FlatMap(WithKey(KeyOf(en, sc, keys), k), rows);
        BindKeysBetween(keys, k, map[]);
        BindAggsBetween(en, sc, aggs, members, BindKeys(keys, k, map[]));
      }
    }
    FlatMapBetween(GroupRow(en, sc, keys, aggs, rows), ks, {}, hi);
  }

  lemma {:induction false} SortBetween(en: Engine, sc: Scope, conds: seq<(Expression, bool)>, rows: seq<Row>,
                                       lo: set<VarId>, hi: set<VarId>)
    requires Between(rows, lo, hi)
    ensures Between(SortRows(en, sc, conds, rows), lo, hi)
  {
  }

  lemma {:induction false} MemberBetween(rows: seq<Row>, some: seq<Row>, lo: set<VarId>, hi: set<VarId>)
    requires Between(rows, lo, hi) && forall r :: r in some ==> r in rows
    ensures Between(some, lo, hi)
  {
  }

  /** Rows bind at least the certain and at most the visible variables. */
  lemma {:induction false} RowsBetween(en: Engine, sc: Scope, a: Algebra)
    ensures Between(Eval(en, sc, a), Certain(a), Visible(a))
    decreases a, 2
  {
    match a
    case Bgp(ts) =>
      var g := GraphAt(en, sc);
      BgpBetween(g, SortByCost(g, ts), [map[]], {});
      SortVars(g, ts);
    case Path(s, p, o) => PathBetween(GraphAt(en, sc), en.stored, s, p, o);
    case Join(l, r) =>
      RowsBetween(en, sc, l);
      RowsBetween(en, sc, r);
      JoinBetween(Eval(en, sc, l), Eval(en, sc, r), Certain(l), Visible(l), Certain(r), Visible(r));
    case LeftJoin(l, r, on) =>
      RowsBetween(en, sc, l);
      RowsBetween(en, sc, r);
      LeftBetween(Pass(en, sc, on), Eval(en, sc, l), Eval(en, sc, r), Certain(l), Visible(l), Visible(r));
    case Union(l, r) =>
      RowsBetween(en, sc, l);
      RowsBetween(en, sc, r);
    case Minus(l, r) =>
      RowsBetween(en, sc, l);
      FlatMapBetween(MinusOne(Eval(en, sc, r)), Eval(en, sc, l), Certain(l), Visible(l));
    case Table(vars, rows) =>
      forall cells | cells in rows ensures Between(TableOne(vars)(cells), Certain(a), Visible(a)) {
        TableBetween(vars, cells, map[]);
      }
      FlatMapBetween(TableOne(vars), rows, Certain(a), Visible(a));
    case Filter(_, _) => UnaryBetween(en, sc, a);
    case GraphNode(_, _) => UnaryBetween(en, sc, a);
    case Extend(_, _, _) => UnaryBetween(en, sc, a);
    case ToMultiSet(_) => UnaryBetween(en, sc, a);
    case Group(_, _, _) => WholeBetween(en, sc, a);
    case OrderBy(_, _) => WholeBetween(en, sc, a);
    case _ => KeepingBetween(en, sc, a);
  }

  lemma {:induction false} UnaryBetween(en: Engine, sc: Scope, a: Algebra)
    requires a.Filter? || a.GraphNode? || a.Extend? || a.ToMultiSet?
    ensures Between(Eval(en, sc, a), Certain(a), Visible(a))
    decreases a, 1
  {
    match a
    case Filter(e, x) =>
      RowsBetween(en, sc, x);
      FlatMapBetween(Keep(Test(en, sc, e)), Eval(en, sc, x), Certain(x), Visible(x));
    case GraphNode(g, x) =>
      forall s { RowsBetween(en, s, x); }
      if g.Var? { NamedBetween(en, g.v, x); }
    case Extend(x, v, e) =>
      RowsBetween(en, sc, x);
      FlatMapBetween(ExtendOne(v, ValueFn(en, sc, e)), Eval(en, sc, x), Certain(x), Visible(x) + {v});
    case ToMultiSet(x) => RowsBetween(en, sc, x);
  }

  lemma {:induction false} WholeBetween(en: Engine, sc: Scope, a: Algebra)
    requires a.Group? || a.OrderBy?
    ensures Between(Eval(en, sc, a), Certain(a), Visible(a))
    decreases a, 0
  {
    match a
    case Group(keys, aggs, x) => GroupBetween(en, sc, keys, aggs, Eval(en, sc, x));
    case OrderBy(x, conds) =>
      RowsBetween(en, sc, x);
      SortBetween(en, sc, conds, Eval(en, sc, x), Certain(x), Visible(x));
  }

  lemma {:induction false} KeepingBetween(en: Engine, sc: Scope, a: Algebra)
    requires a.Project? || a.Distinct? || a.Reduced? || a.Slice?
    ensures Between(Eval(en, sc, a), Certain(a), Visible(a))
    decreases a, 0
  {
    match a
    case Project(x, vars) => RowsBetween(en, sc, x);
    case Distinct(x) =>
      RowsBetween(en, sc, x);
      AbsorbMembers([], Eval(en, sc, x));
    case Reduced(x) => RowsBetween(en, sc, x);
    case Slice(x, offset, limit) =>
      RowsBetween(en, sc, x);
      MemberBetween(Eval(en, sc, x), SliceRows(Eval(en, sc, x), offset, limit), Certain(x), Visible(x));
  }

  lemma {:induction false} NamedBetween(en: Engine, v: VarId, x: Algebra)
    requires forall s :: Between(Eval(en, s, x), Certain(x), Visible(x))
    ensures Between(FlatMap(NamedRows(en, v, x), en.names), {v} + Certain(x), {v} + Visible(x))
  {
    forall name ensures Between(NamedRows(en, v, x)(name), {v} + Certain(x), {v} + Visible(x)) {
      assert Between(Eval(en, Named(name), x), Certain(x), Visible(x));
      FlatMapBetween(NameOne(v, name), Eval(en, Named(name), x), {v} + Certain(x), {v} + Visible(x));
    }
    FlatMapBetween(NamedRows(en, v, x), en.names, {v} + Certain(x), {v} + Visible(x));
  }
}

/** Exactly when a filter may sink through a join or OPTIONAL, on each side the
    code sinks it into, and queries whose answers change because the code asks
    only whether the variables are visible there. */
module PushExact {
  import opened Seqs
  import opened Terms
  import opened Rows
  import opened RowOps
  import opened Values
  import opened Expressions
  import opened AlgebraTree
  import opened Pushdown

  // ------------------------------------------------------- rows

  /** Filtering before and after the join give the same rows. */
  ghost predicate JoinSinks(left: seq<Row>, right: seq<Row>, test: Row -> bool) {
    FlatMap(Keep(test), FlatMap(JoinOne(right), left)) == FlatMap(JoinOne(right), FlatMap(Keep(test), left))
  }

  ghost predicate RightSinks(left: seq<Row>, right: seq<Row>, test: Row -> bool) {
    FlatMap(Keep(test), FlatMap(JoinOne(right), left)) == FlatMap(JoinOne(FlatMap(Keep(test), right)), left)
  }

  ghost predicate LeftJoinSinks(pass: Row -> bool, left: seq<Row>, right: seq<Row>, test: Row -> bool) {
    FlatMap(Keep(test), FlatMap(LeftOne(pass, right), left)) == FlatMap(LeftOne(pass, right), FlatMap(Keep(test), left))
  }

  lemma {:induction false} KeptMember(test: Row -> bool, rows: seq<Row>, r: Row)
    requires r in rows && test(r)
    ensures r in FlatMap(Keep(test), rows)
  {
    FlatMapMember(Keep(test), rows, r);
    assert r in Keep(test)(r);
  }

  lemma {:induction false} JoinMember(left: seq<Row>, right: seq<Row>, a: Row, b: Row)
    requires a in left && b in right && Compatible(a, b)
    ensures a + b in FlatMap(JoinOne(right), left)
  {
    FlatMapMember(MergeInto(a), right, a + b);
    assert a + b in MergeInto(a)(b);
    FlatMapMember(JoinOne(right), left, a + b);
    assert a + b in JoinOne(right)(a);
  }

  lemma {:induction false} LeftMember(pass: Row -> bool, left: seq<Row>, right: seq<Row>, a: Row, b: Row)
    requires a in left && b in right && Compatible(a, b) && pass(a + b)
    ensures a + b in FlatMap(LeftOne(pass, right), left)
  {
    FlatMapMember(MergeIf(pass, a), right, a + b);
    assert a + b in MergeIf(pass, a)(b);
    FlatMapMember(LeftOne(pass, right), left, a + b);
    assert a + b in LeftOne(pass, right)(a);
  }

  /** Filtering keeps only rows that pass. */
  lemma {:induction false} KeptPasses(test: Row -> bool, rows: seq<Row>, r: Row)
    requires r in FlatMap(Keep(test), rows)
    ensures test(r)
  {
    FlatMapMember(Keep(test), rows, r);
  }

  /** A left row leaves `v` unbound, a compatible right row binds it: the test
      "`v` is unbound" must not sink. */
  lemma {:induction false} UnsettledJoin(left: seq<Row>, right: seq<Row>, a: Row, b: Row, v: VarId, test: Row -> bool)
    requires a in left && b in right && Compatible(a, b) && v in b && v !in a
    requires forall r :: test(r) <==> v !in r
    ensures !JoinSinks(left, right, test)
  {
    KeptMember(test, left, a);
    JoinMember(FlatMap(Keep(test), left), right, a, b);
    if JoinSinks(left, right, test) { KeptPasses(test, FlatMap(JoinOne(right), left), a + b); }
  }

  /** The mirror image: the right row leaves `v` unbound. */
  lemma {:induction false} UnsettledRight(left: seq<Row>, right: seq<Row>, a: Row, b: Row, v: VarId, test: Row -> bool)
    requires a in left && b in right && Compatible(a, b) && v in a && v !in b
    requires forall r :: test(r) <==> v !in r
    ensures !RightSinks(left, right, test)
  {
    KeptMember(test, right, b);
    JoinMember(left, FlatMap(Keep(test), right), a, b);
    if RightSinks(left, right, test) { KeptPasses(test, FlatMap(JoinOne(right), left), a + b); }
  }

  lemma {:induction false} UnsettledLeftJoin(pass: Row -> bool, left: seq<Row>, right: seq<Row>, a: Row, b: Row,
                                             v: VarId, test: Row -> bool)
    requires a in left && b in right && Compatible(a, b) && pass(a + b) && v in b && v !in a
    requires forall r :: test(r) <==> v !in r
    ensures !LeftJoinSinks(pass, left, right, test)
  {
    KeptMember(test, left, a);
    LeftMember(pass, FlatMap(Keep(test), left), right, a, b);
    if LeftJoinSinks(pass, left, right, test) { KeptPasses(test, FlatMap(LeftOne(pass, right), left), a + b); }
  }

  // ------------------------------------------------------- conditions

  /** `!BOUND(?v)`. */
  function Unbound(v: VarId): Expression { Not(Bound(Ref(v))) }

  lemma {:induction false} UnboundTruth(en: Engine, sc: Scope, v: VarId, r: Row)
    ensures Truthy(en, sc, Unbound(v), r) <==> v !in r
    ensures PushableVars(Unbound(v)) == Some({v})
  {
    ComputedBool(true);
    ComputedBool(false);
    assert PushableVars(Ref(v)) == Some({v}) && PushableVars(Bound(Ref(v))) == Some({v});
    assert EvalExpr(en, sc, Bound(Ref(v)), r) == Some(BoolTerm(v in r));
    assert EvalEbv(en, sc, Bound(Ref(v)), r) == Some(v in r);
    assert EvalExpr(en, sc, Unbound(v), r) == Some(BoolTerm(v !in r));
  }

  ghost predicate Over(c: Expression, vars: set<VarId>) { PushableVars(c).Some? && PushableVars(c).value <= vars }

  lemma {:induction false} OverTest(en: Engine, sc: Scope, c: Expression, vars: set<VarId>)
    requires Over(c, vars)
    ensures DependsOn(Test(en, sc, c), vars)
  {
    MovableTest(en, sc, sc, c);
    forall r, s | Agree(vars, r, s) ensures Test(en, sc, c)(r) == Test(en, sc, c)(s) {
      assert Agree(PushableVars(c).value, r, s);
    }
  }

  /** A filter may sink into the left side of a join for every condition over
      `vars` exactly when the rows are settled; the visibility test of
      `try_push` does not imply it. */
  lemma {:induction false} JoinSinkExactIff(en: Engine, sc: Scope, vars: set<VarId>, left: seq<Row>, right: seq<Row>)
    ensures (forall c :: Over(c, vars) ==> JoinSinks(left, right, Test(en, sc, c))) <==> Settled(vars, left, right)
  {
    if Settled(vars, left, right) {
      forall c | Over(c, vars) ensures JoinSinks(left, right, Test(en, sc, c)) {
        OverTest(en, sc, c, vars);
        SinkJoinLeft(Test(en, sc, c), vars, left, right);
      }
    } else {
      var a, b, v :| a in left && b in right && Compatible(a, b) && v in vars && v in b && v !in a;
      forall r { UnboundTruth(en, sc, v, r); }
      UnsettledJoin(left, right, a, b, v, Test(en, sc, Unbound(v)));
      assert Over(Unbound(v), vars);
    }
  }

  /** A filter may sink into the right side of a join for every condition over
      `vars` exactly when the rows are settled the other way round. */
  lemma {:induction false} RightSinkExactIff(en: Engine, sc: Scope, vars: set<VarId>, left: seq<Row>, right: seq<Row>)
    ensures (forall c :: Over(c, vars) ==> RightSinks(left, right, Test(en, sc, c))) <==> Settled(vars, right, left)
  {
    if Settled(vars, right, left) {
      forall c | Over(c, vars) ensures RightSinks(left, right, Test(en, sc, c)) {
        OverTest(en, sc, c, vars);
        SinkJoinRight(Test(en, sc, c), vars, left, right);
      }
    } else {
      var b, a, v :| b in right && a in left && Compatible(b, a) && v in vars && v in a && v !in b;
      forall r { UnboundTruth(en, sc, v, r); }
      UnsettledRight(left, right, a, b, v, Test(en, sc, Unbound(v)));
      assert Over(Unbound(v), vars);
    }
  }

  /** The same for the left side of OPTIONAL. */
  lemma {:induction false} LeftJoinSinkExactIff(en: Engine, sc: Scope, on: Option<Expression>, vars: set<VarId>,
                                                left: seq<Row>, right: seq<Row>)
    ensures (forall c :: Over(c, vars) ==> LeftJoinSinks(Pass(en, sc, on), left, right, Test(en, sc, c)))
            <==> SettledLeft(Pass(en, sc, on), vars, left, right)
  {
    var pass := Pass(en, sc, on);
    if SettledLeft(pass, vars, left, right) {
      forall c | Over(c, vars) ensures LeftJoinSinks(pass, left, right, Test(en, sc, c)) {
        OverTest(en, sc, c, vars);
        SinkLeftJoin(Test(en, sc, c), pass, vars, left, right);
      }
    } else {
      var a, b, v :| a in left && b in right && Compatible(a, b) && pass(a + b) && v in vars && v in b && v !in a;
      forall r { UnboundTruth(en, sc, v, r); }
      UnsettledLeftJoin(pass, left, right, a, b, v, Test(en, sc, Unbound(v)));
      assert Over(Unbound(v), vars);
    }
  }

  // ------------------------------------------------------- queries

  lemma {:induction false} TableSingle(en: Engine, sc: Scope, cell: Option<Term>)
    ensures Eval(en, sc, Table([0], [[cell]])) == (if cell.Some? then [map[0 := cell.value]] else [map[]])
  {
    FlatMapOne(TableOne([0]), [cell]);
    assert TableRow([0], [cell], map[]) == TableRow([], [], if cell.Some? then map[][0 := cell.value] else map[]);
  }

  /** `VALUES (?0 ?1) { (UNDEF t) }`. */
  lemma {:induction false} TablePair(en: Engine, sc: Scope, t: Term)
    ensures Eval(en, sc, Table([0, 1], [[None, Some(t)]])) == [map[1 := t]]
  {
    var vars, cells := [0, 1], [None, Some(t)];
    FlatMapOne(TableOne(vars), cells);
    assert vars[1..] == [1] && cells[1..] == [Some(t)] && vars[1..][1..] == [];
    assert TableRow(vars, cells, map[]) == TableRow([1], [Some(t)], map[]);
    assert TableRow([1], [Some(t)], map[]) == TableRow([], [], map[][1 := t]);
  }

  /** One filter above one operator over tables: where it ends up. */
  lemma {:induction false} PushedShape(c: Expression, x: Algebra)
    requires SplitAnd(c) == [c] && !x.Filter? && PushFilters(x) == x && TryPush(c, x).left.None?
    ensures PushFilters(Filter(c, x)) == TryPush(c, x).tree
  {
    var a, p := Filter(c, x), TryPush(c, x);
    assert Conjuncts(x) == [] && Below(x) == x;
    assert Conjuncts(a) == [c] + [] && Below(a) == x;
    assert [c][1..] == [];
    assert PushAll([c], x) == Kept([] + PushAll([], p.tree).conds, PushAll([], p.tree).tree);
  }

  /** A filter over a tree that yields one row. */
  lemma {:induction false} FilterOne(en: Engine, sc: Scope, c: Expression, x: Algebra, row: Row)
    requires Eval(en, sc, x) == [row]
    ensures Eval(en, sc, Filter(c, x)) == if Truthy(en, sc, c, row) then [row] else []
  {
    FilterMeaning(en, sc, c, x);
    KeepSingle(Test(en, sc, c), row);
  }

  lemma {:induction false} JoinOnes(en: Engine, sc: Scope, l: Algebra, r: Algebra, a: Row, b: Row)
    requires Eval(en, sc, l) == [a] && Eval(en, sc, r) == [b] && Compatible(a, b)
    ensures Eval(en, sc, Join(l, r)) == [a + b] && Eval(en, sc, LeftJoin(l, r, None)) == [a + b]
  {
    JoinMeaning(en, sc, l, r);
    JoinSingle(a, b);
    LeftJoinMeaning(en, sc, l, r, None);
    var pass := Pass(en, sc, None);
    FlatMapOne(LeftOne(pass, [b]), a);
    FlatMapOne(MergeIf(pass, a), b);
  }

  /** Filtering out bound ?0 after an operator that binds it, and before. */
  lemma {:induction false} AboveAndBelow(en: Engine, sc: Scope, c: Expression, l: Algebra, r: Algebra, t: Term)
    requires c == Unbound(0) && Eval(en, sc, l) == [map[]] && Eval(en, sc, r) == [map[0 := t]]
    ensures Eval(en, sc, Filter(c, Join(l, r))) == [] && Eval(en, sc, Join(Filter(c, l), r)) == [map[0 := t]]
    ensures Eval(en, sc, Filter(c, LeftJoin(l, r, None))) == []
            && Eval(en, sc, LeftJoin(Filter(c, l), r, None)) == [map[0 := t]]
  {
    var none: Row, row: Row := map[], map[0 := t];
    UnboundTruth(en, sc, 0, none);
    UnboundTruth(en, sc, 0, row);
    assert none + row == row;
    JoinOnes(en, sc, l, r, none, row);
    FilterOne(en, sc, c, Join(l, r), row);
    FilterOne(en, sc, c, LeftJoin(l, r, None), row);
    FilterOne(en, sc, c, l, none);
    JoinOnes(en, sc, Filter(c, l), r, none, row);
  }

  lemma {:induction false} LeftShape(c: Expression, l: Algebra, r: Algebra)
    requires l.Table? && r.Table? && SplitAnd(c) == [c] && PushableVars(c).Some? && PushableVars(c).value <= Visible(l)
    ensures PushFilters(Filter(c, Join(l, r))) == Join(Filter(c, l), r)
    ensures PushFilters(Filter(c, LeftJoin(l, r, None))) == LeftJoin(Filter(c, l), r, None)
  {
    assert TryPush(c, l) == Pushed(Some(c), l);
    PushedShape(c, Join(l, r));
    PushedShape(c, LeftJoin(l, r, None));
  }

  lemma {:induction false} UnboundShape(l: Algebra, r: Algebra)
    requires l.Table? && r.Table? && l.vars == [0]
    ensures PushFilters(Filter(Unbound(0), Join(l, r))) == Join(Filter(Unbound(0), l), r)
    ensures PushFilters(Filter(Unbound(0), LeftJoin(l, r, None))) == LeftJoin(Filter(Unbound(0), l), r, None)
  {
    assert PushableVars(Ref(0)) == Some({0}) && PushableVars(Bound(Ref(0))) == Some({0});
    LeftShape(Unbound(0), l, r);
  }

  /** `FILTER(!BOUND(?0))` over a join of VALUES ?0 { UNDEF } and VALUES ?0 { 1 }:
      the code sinks it (?0 is visible on the left) and a row appears. With
      OPTIONAL in place of the join the same happens. */
  lemma {:induction false} VisibilityIsNotEnough(en: Engine, sc: Scope)
    ensures var one := IntTerm(1);
            var l, r := Table([0], [[None]]), Table([0], [[Some(one)]]);
            var a, b := Filter(Unbound(0), Join(l, r)), Filter(Unbound(0), LeftJoin(l, r, None));
            && Eval(en, sc, a) == [] && Eval(en, sc, PushFilters(a)) == [map[0 := one]]
            && Eval(en, sc, b) == [] && Eval(en, sc, PushFilters(b)) == [map[0 := one]]
  {
    var l, r := Table([0], [[None]]), Table([0], [[Some(IntTerm(1))]]);
    TableSingle(en, sc, None);
    TableSingle(en, sc, Some(IntTerm(1)));
    UnboundShape(l, r);
    AboveAndBelow(en, sc, Unbound(0), l, r, IntTerm(1));
  }

  function Same(v: VarId, w: VarId): Expression { Cmp(Eq, Ref(v), Ref(w)) }

  lemma {:induction false} SameTruth(en: Engine, sc: Scope, t: Term)
    requires ValueOf(t).VInt?
    ensures Truthy(en, sc, Same(0, 1), map[0 := t, 1 := t]) && !Truthy(en, sc, Same(0, 1), map[1 := t])
    ensures PushableVars(Same(0, 1)) == Some({0, 1})
  {
    ComputedBool(true);
    var both: Row, half: Row := map[0 := t, 1 := t], map[1 := t];
    assert EvalExpr(en, sc, Ref(0), both) == Some(t) && EvalExpr(en, sc, Ref(1), both) == Some(t);
    assert EvalExpr(en, sc, Same(0, 1), both) == Some(BoolTerm(true));
    assert EvalExpr(en, sc, Ref(0), half) == None;
    assert EvalExpr(en, sc, Same(0, 1), half) == None;
    assert PushableVars(Ref(0)) == Some({0}) && PushableVars(Ref(1)) == Some({1});
    assert {0} + {1} == {0, 1};
  }

  /** `FILTER(?0 = ?1)` over VALUES ?0 { 1 } joined with VALUES (?0 ?1) { (UNDEF 1) }:
      both variables are visible only on the right, the filter sinks there, errors
      on the unbound ?0, and the answer is lost. */
  lemma {:induction false} VisibilityIsNotEnoughOnTheRight(en: Engine, sc: Scope)
    ensures var one := IntTerm(1);
            var a := Filter(Same(0, 1), Join(Table([0], [[Some(one)]]), Table([0, 1], [[None, Some(one)]])));
            Eval(en, sc, a) == [map[0 := one, 1 := one]] && Eval(en, sc, PushFilters(a)) == []
  {
    var c, one := Same(0, 1), IntTerm(1);
    var l, r := Table([0], [[Some(one)]]), Table([0, 1], [[None, Some(one)]]);
    var x: Row, y: Row, both: Row := map[0 := one], map[1 := one], map[0 := one, 1 := one];
    ComputedInt(1);
    SameTruth(en, sc, one);
    TableSingle(en, sc, Some(one));
    TablePair(en, sc, one);
    assert x + y == both;
    JoinOnes(en, sc, l, r, x, y);
    FilterOne(en, sc, c, Join(l, r), both);
    FilterOne(en, sc, c, r, y);
    NothingJoins(en, sc, l, Filter(c, r));
    RightShape(c, l, r);
  }

  lemma {:induction false} NothingJoins(en: Engine, sc: Scope, l: Algebra, r: Algebra)
    requires Eval(en, sc, r) == []
    ensures Eval(en, sc, Join(l, r)) == []
  {
    JoinMeaning(en, sc, l, r);
    FlatMapEmpty(JoinOne([]), Eval(en, sc, l));
  }

  lemma {:induction false} RightShape(c: Expression, l: Algebra, r: Algebra)
    requires l.Table? && r.Table? && l.vars == [0] && r.vars == [0, 1]
    requires SplitAnd(c) == [c] && PushableVars(c) == Some({0, 1})
    ensures PushFilters(Filter(c, Join(l, r))) == Join(l, Filter(c, r))
  {
    assert 1 !in Visible(l) && 1 in {0, 1};
    assert Visible(r) == {0, 1};
    assert TryPush(c, r) == Pushed(Some(c), r);
    PushedShape(c, Join(l, r));
  }
}

/** The whole rewrite pipeline (crates/graphy-algebra/src/rewrite.rs, `rewrite`):
    reordering patterns keeps the multiset of rows, and so does the composition
    with simplification and filter pushdown. */
module Rewrite {
  import opened Seqs
  import opened Terms
  import opened Rows
  import opened RowOps
  import opened Values
  import opened Expressions
  import opened Paths
  import opened AlgebraTree
  import opened Simplify
  import opened Pushdown
  import PushProof
  import opened StaticPush
  import opened Perms
  import opened BgpOrder
  import opened Canonicalize

  /** The tree looks at no row order: it takes no slice and samples no group. */
  predicate OrderFree(a: Algebra) {
    match a
    case Bgp(_) => true
    case Path(_, _, _) => true
    case Table(_, _) => true
    case Join(l, r) => OrderFree(l) && OrderFree(r)
    case LeftJoin(l, r, _) => OrderFree(l) && OrderFree(r)
    case Union(l, r) => OrderFree(l) && OrderFree(r)
    case Minus(l, r) => OrderFree(l) && OrderFree(r)
    case Filter(_, x) => OrderFree(x)
    case GraphNode(_, x) => OrderFree(x)
    case Extend(x, _, _) => OrderFree(x)
    case ToMultiSet(x) => OrderFree(x)
    case Group(_, aggs, x) => Counting(aggs) && OrderFree(x)
    case OrderBy(x, _) => OrderFree(x)
    case Project(x, _) => OrderFree(x)
    case Distinct(x) => OrderFree(x)
    case Reduced(x) => OrderFree(x)
    case Slice(_, _, _) => false
  }

  predicate Counting(aggs: seq<(VarId, Aggregate)>) { forall i :: 0 <= i < |aggs| ==> !aggs[i].1.Sample? }

  // ------------------------------------------------------- operators up to order

  lemma {:induction false} JoinPerm(left: seq<Row>, right: seq<Row>, left': seq<Row>, right': seq<Row>)
    requires Perm(left, left') && Perm(right, right')
    ensures Perm(FlatMap(JoinOne(right), left), FlatMap(JoinOne(right'), left'))
  {
    forall a | a in left ensures Perm(JoinOne(right)(a), JoinOne(right')(a)) {
      FlatMapPerm(MergeInto(a), right, right');
    }
    FlatMapBoth(JoinOne(right), JoinOne(right'), left, left');
  }

  lemma {:induction false} LeftJoinPerm(pass: Row -> bool, left: seq<Row>, right: seq<Row>, left': seq<Row>,
                                        right': seq<Row>)
    requires Perm(left, left') && Perm(right, right')
    ensures Perm(FlatMap(LeftOne(pass, right), left), FlatMap(LeftOne(pass, right'), left'))
  {
    forall a | a in left ensures Perm(LeftOne(pass, right)(a), LeftOne(pass, right')(a)) {
      FlatMapPerm(MergeIf(pass, a), right, right');
      PermMembers(FlatMap(MergeIf(pass, a), right), FlatMap(MergeIf(pass, a), right'));
    }
    FlatMapBoth(LeftOne(pass, right), LeftOne(pass, right'), left, left');
  }

  lemma {:induction false} MinusPerm(left: seq<Row>, right: seq<Row>, left': seq<Row>, right': seq<Row>)
    requires Perm(left, left') && Perm(right, right')
    ensures Perm(FlatMap(MinusOne(right), left), FlatMap(MinusOne(right'), left'))
  {
    PermMembers(right, right');
    forall a | a in left ensures Perm(MinusOne(right)(a), MinusOne(right')(a)) {
      assert Excluded(a, right) <==> Excluded(a, right');
    }
    FlatMapBoth(MinusOne(right), MinusOne(right'), left, left');
  }

  lemma {:induction false} NamedPerm(en: Engine, v: VarId, x: Algebra, y: Algebra)
    requires forall name :: Perm(Eval(en, Named(name), x), Eval(en, Named(name), y))
    ensures Perm(FlatMap(NamedRows(en, v, x), en.names), FlatMap(NamedRows(en, v, y), en.names))
  {
    forall name ensures Perm(NamedRows(en, v, x)(name), NamedRows(en, v, y)(name)) {
      FlatMapPerm(NameOne(v, name), Eval(en, Named(name), x), Eval(en, Named(name), y));
    }
    FlatMapEach(NamedRows(en, v, x), NamedRows(en, v, y), en.names);
  }

  // ------------------------------------------------------- sorting

  function UpTo(n: nat): seq<nat> { seq(n, i requires 0 <= i < n => i) }

  lemma {:induction false} NoDupSize<T>(s: seq<T>)
    requires NoDup(s)
    ensures |Elems(s)| == |s|
  {
    if s != [] {
      var rest := s[1..];
      assert forall i :: 0 <= i < |rest| ==> rest[i] == s[i + 1];
      NoDupSize(rest);
      assert s == [s[0]] + rest;
      assert s[0] !in rest;
      assert Elems(s) == {s[0]} + Elems(rest);
    }
  }

  /** A list of n distinct numbers below n lists them all. */
  lemma {:induction false} PermutationPerm(order: seq<nat>, n: nat)
    requires IsPermutation(order, n)
    ensures Perm(order, UpTo(n))
  {
    NoDupSize(order);
    NoDupSize(UpTo(n));
    assert Elems(order) <= Elems(UpTo(n)) by {
      forall x | x in order ensures x in UpTo(n) { assert UpTo(n)[x] == x; }
    }
    Shrinks(Elems(order), Elems(UpTo(n)));
    forall x ensures x in order <==> x in UpTo(n) { assert x in Elems(order) <==> x in Elems(UpTo(n)); }
    NoDupPermutation(order, UpTo(n));
  }

  function Nth(rows: seq<Row>): nat -> Row { (i: nat) => if i < |rows| then rows[i] else map[] }

  lemma {:induction false} SortRowsPerm(en: Engine, sc: Scope, conds: seq<(Expression, bool)>, rows: seq<Row>)
    ensures Perm(SortRows(en, sc, conds, rows), rows)
  {
    var order := en.sort(Map(SortKey(en, sc, conds), rows), Map((c: (Expression, bool)) => c.1, conds));
    if IsPermutation(order, |rows|) {
      PermutationPerm(order, |rows|);
      MapPerm(Nth(rows), order, UpTo(|rows|));
      assert Map(Nth(rows), UpTo(|rows|)) == rows;
      assert Map(Nth(rows), order) == SortRows(en, sc, conds, rows);
    }
  }

  // ------------------------------------------------------- grouping

  lemma {:induction false} ArgsPerm(en: Engine, sc: Scope, distinct: bool, e: Expression, rows: seq<Row>,
                                    rows': seq<Row>)
    requires Perm(rows, rows')
    ensures Perm(Args(en, sc, distinct, e, rows), Args(en, sc, distinct, e, rows'))
  {
    FlatMapPerm(ArgOne(en, sc, e), rows, rows');
    AbsorbPerm(FlatMap(ArgOne(en, sc, e), rows), FlatMap(ArgOne(en, sc, e), rows'));
  }

  lemma {:induction false} AggregatePerm(en: Engine, sc: Scope, agg: Aggregate, rows: seq<Row>, rows': seq<Row>)
    requires !agg.Sample? && Perm(rows, rows')
    ensures EvalAggregate(en, sc, agg, rows) == EvalAggregate(en, sc, agg, rows')
  {
    PermMembers(rows, rows');
    if agg.Count? {
      ArgsPerm(en, sc, agg.distinct, agg.arg, rows, rows');
      PermMembers(Args(en, sc, agg.distinct, agg.arg, rows), Args(en, sc, agg.distinct, agg.arg, rows'));
    }
  }

  lemma {:induction false} BindAggsPerm(en: Engine, sc: Scope, aggs: seq<(VarId, Aggregate)>, rows: seq<Row>,
                                        rows': seq<Row>, row: Row)
    requires Counting(aggs) && Perm(rows, rows')
    ensures BindAggs(en, sc, aggs, rows, row) == BindAggs(en, sc, aggs, rows', row)
    decreases |aggs|
  {
    if aggs != [] {
      AggregatePerm(en, sc, aggs[0].1, rows, rows');
      var t := EvalAggregate(en, sc, aggs[0].1, rows);
      BindAggsPerm(en, sc, aggs[1..], rows, rows', if t.Some? then row[aggs[0].0 := t.value] else row);
    }
  }

  lemma {:induction false} GroupRowPerm(en: Engine, sc: Scope, keys: seq<(VarId, Option<Expression>)>,
                                        aggs: seq<(VarId, Aggregate)>, rows: seq<Row>, rows': seq<Row>,
                                        k: seq<Option<Term>>)
    requires Counting(aggs) && Perm(rows, rows')
    ensures GroupRow(en, sc, keys, aggs, rows)(k) == GroupRow(en, sc, keys, aggs, rows')(k)
  {
    if |k| == |keys| {
      var pick := WithKey(KeyOf(en, sc, keys), k);
      FlatMapPerm(pick, rows, rows');
      BindAggsPerm(en, sc, aggs, FlatMap(pick, rows), FlatMap(pick, rows'), BindKeys(keys, k, map[]));
    }
  }

  lemma {:induction false} GroupPerm(en: Engine, sc: Scope, keys: seq<(VarId, Option<Expression>)>,
                                     aggs: seq<(VarId, Aggregate)>, rows: seq<Row>, rows': seq<Row>)
    requires Counting(aggs) && Perm(rows, rows')
    ensures Perm(GroupRows(en, sc, keys, aggs, rows), GroupRows(en, sc, keys, aggs, rows'))
  {
    var key := KeyOf(en, sc, keys);
    MapPerm(key, rows, rows');
    AbsorbPerm(Map(key, rows), Map(key, rows'));
    var found, found' := Absorb([], Map(key, rows)), Absorb([], Map(key, rows'));
    PermMembers(found, found');
    var whole := keys == [] && found == [];
    var ks, ks' := if whole then [[]] else found, if whole then [[]] else found';
    forall k | k in ks ensures Perm(GroupRow(en, sc, keys, aggs, rows)(k), GroupRow(en, sc, keys, aggs, rows')(k)) {
      GroupRowPerm(en, sc, keys, aggs, rows, rows', k);
    }
    FlatMapBoth(GroupRow(en, sc, keys, aggs, rows), GroupRow(en, sc, keys, aggs, rows'), ks, ks');
  }

  // ------------------------------------------------------- trees up to order

  ghost predicate SameRows(en: Engine, sc: Scope, a: Algebra, b: Algebra) { Perm(Eval(en, sc, a), Eval(en, sc, b)) }

  /** Reordering the patterns of basic graph patterns keeps the multiset of rows. */
  lemma {:induction false} ReorderPreserves(en: Engine, sc: Scope, a: Algebra, b: Algebra)
    requires OrderFree(a) && Reordered(a, b)
    ensures SameRows(en, sc, a, b)
    decreases a, 1
  {
    match a
    case Bgp(ts) =>
      PermMembers(ts, b.patterns);
      BgpOrderIndependent(GraphAt(en, sc), ts, b.patterns);
    case Path(_, _, _) =>
    case Table(_, _) =>
    case Join(l, r) =>
      ReorderPreserves(en, sc, l, b.l);
      ReorderPreserves(en, sc, r, b.r);
      JoinPerm(Eval(en, sc, l), Eval(en, sc, r), Eval(en, sc, b.l), Eval(en, sc, b.r));
    case LeftJoin(l, r, on) =>
      ReorderPreserves(en, sc, l, b.l);
      ReorderPreserves(en, sc, r, b.r);
      LeftJoinPerm(Pass(en, sc, on), Eval(en, sc, l), Eval(en, sc, r), Eval(en, sc, b.l), Eval(en, sc, b.r));
    case Union(l, r) =>
      ReorderPreserves(en, sc, l, b.l);
      ReorderPreserves(en, sc, r, b.r);
      PermConcat(Eval(en, sc, l), Eval(en, sc, r), Eval(en, sc, b.l), Eval(en, sc, b.r));
    case Minus(l, r) =>
      ReorderPreserves(en, sc, l, b.l);
      ReorderPreserves(en, sc, r, b.r);
      MinusPerm(Eval(en, sc, l), Eval(en, sc, r), Eval(en, sc, b.l), Eval(en, sc, b.r));
    case _ => ReorderUnary(en, sc, a, b);
  }

  lemma {:induction false} ReorderUnary(en: Engine, sc: Scope, a: Algebra, b: Algebra)
    requires OrderFree(a) && Reordered(a, b)
    requires !a.Bgp? && !a.Path? && !a.Table? && !a.Join? && !a.LeftJoin? && !a.Union? && !a.Minus?
    ensures SameRows(en, sc, a, b)
    decreases a, 0
  {
    var x, y := a.input, b.input;
    forall s ensures SameRows(en, s, x, y) { ReorderPreserves(en, s, x, y); }
    var rows, rows' := Eval(en, sc, x), Eval(en, sc, y);
    assert SameRows(en, sc, x, y);
    match a
    case Filter(e, _) => FlatMapPerm(Keep(Test(en, sc, e)), rows, rows');
    case GraphNode(g, _) => GraphPerm(en, sc, g, x, y);
    case Extend(_, v, e) => FlatMapPerm(ExtendOne(v, ValueFn(en, sc, e)), rows, rows');
    case ToMultiSet(_) =>
    case Group(keys, aggs, _) => GroupPerm(en, sc, keys, aggs, rows, rows');
    case OrderBy(_, conds) =>
      SortRowsPerm(en, sc, conds, rows);
      SortRowsPerm(en, sc, conds, rows');
    case Project(_, vars) => MapPerm(ProjectRow(vars), rows, rows');
    case Distinct(_) => AbsorbPerm(rows, rows');
    case Reduced(_) =>
  }

  lemma {:induction false} GraphPerm(en: Engine, sc: Scope, g: Pos, x: Algebra, y: Algebra)
    requires forall s :: SameRows(en, s, x, y)
    ensures SameRows(en, sc, GraphNode(g, x), GraphNode(g, y))
  {
    GraphMeaning(en, sc, g, x);
    GraphMeaning(en, sc, g, y);
    forall name ensures Perm(Eval(en, Named(name), x), Eval(en, Named(name), y)) {
      assert SameRows(en, Named(name), x, y);
    }
    if g.Var? { NamedPerm(en, g.v, x, y); }
  }

  // ------------------------------------------------------- the pipeline

  lemma {:induction false} SimplifyOrderFree(ops: Ops, a: Algebra)
    requires OrderFree(a)
    ensures OrderFree(Simplified(ops, a))
  {
    match a
    case Bgp(_) =>
    case Path(_, _, _) =>
    case Table(_, _) =>
    case Join(l, r) => SimplifyOrderFree(ops, l); SimplifyOrderFree(ops, r);
    case LeftJoin(l, r, _) => SimplifyOrderFree(ops, l); SimplifyOrderFree(ops, r);
    case Union(l, r) => SimplifyOrderFree(ops, l); SimplifyOrderFree(ops, r);
    case Minus(l, r) => SimplifyOrderFree(ops, l); SimplifyOrderFree(ops, r);
    case Slice(_, _, _) =>
    case _ => SimplifyOrderFree(ops, a.input);
  }

  lemma {:induction false} TryPushOrderFree(c: Expression, x: Algebra)
    requires OrderFree(x)
    ensures OrderFree(TryPush(c, x).tree) && OrderFree(Wrap(TryPush(c, x)))
    decreases x
  {
    if TryPush(c, x).left.None? {
      match x
      case Join(l, r) => TryPushOrderFree(c, l); TryPushOrderFree(c, r);
      case Union(l, r) => TryPushOrderFree(c, l); TryPushOrderFree(c, r);
      case GraphNode(_, y) => TryPushOrderFree(c, y);
      case LeftJoin(l, _, _) => TryPushOrderFree(c, l);
      case Extend(y, _, _) => TryPushOrderFree(c, y);
      case Minus(l, _) => TryPushOrderFree(c, l);
    } else {
      PushProof.TryPushStays(c, x);
    }
  }

  lemma {:induction false} PushAllOrderFree(cs: seq<Expression>, acc: Algebra)
    requires OrderFree(acc)
    ensures OrderFree(PushAll(cs, acc).tree)
    decreases |cs|
  {
    if cs != [] {
      TryPushOrderFree(cs[0], acc);
      PushAllOrderFree(cs[1..], TryPush(cs[0], acc).tree);
    }
  }

  lemma {:induction false} WrapAllOrderFree(cs: seq<Expression>, x: Algebra)
    requires OrderFree(x)
    ensures OrderFree(WrapAll(cs, x))
    decreases |cs|
  {
    if cs != [] { WrapAllOrderFree(cs[1..], x); }
  }

  lemma {:induction false} BelowOrderFree(a: Algebra)
    requires OrderFree(a)
    ensures OrderFree(Below(a))
  {
    if a.Filter? { BelowOrderFree(a.input); }
  }

  lemma {:induction false} PushOrderFree(a: Algebra)
    requires OrderFree(a)
    ensures OrderFree(PushFilters(a))
    decreases a
  {
    match a
    case Bgp(_) =>
    case Path(_, _, _) =>
    case Table(_, _) =>
    case Join(l, r) => PushOrderFree(l); PushOrderFree(r);
    case LeftJoin(l, r, _) => PushOrderFree(l); PushOrderFree(r);
    case Union(l, r) => PushOrderFree(l); PushOrderFree(r);
    case Minus(l, r) => PushOrderFree(l); PushOrderFree(r);
    case Filter(_, _) =>
      BelowOrderFree(a);
      PushOrderFree(Below(a));
      PushAllOrderFree(Conjuncts(a), PushFilters(Below(a)));
      var k := PushAll(Conjuncts(a), PushFilters(Below(a)));
      WrapAllOrderFree(k.conds, k.tree);
    case Slice(_, _, _) =>
    case _ => PushOrderFree(a.input);
  }

  /** `rewrite`: simplify, push filters, put patterns in canonical order. */
  function Rewritten(ops: Ops, a: Algebra): Algebra { Canonical(PushFilters(Simplified(ops, a))) }

  /** Rewriting keeps the multiset of rows in every dataset. */
  lemma {:induction false} RewritePreserves(en: Engine, sc: Scope, a: Algebra)
    requires FoldSafe(en.ops, a) && OrderFree(a) && StaticPushSafe(Simplified(en.ops, a))
    ensures Perm(Eval(en, sc, Rewritten(en.ops, a)), Eval(en, sc, a))
  {
    var s := Simplified(en.ops, a);
    SimplifyPreserves(en, sc, a);
    StaticPushPreserves(en, sc, s);
    SimplifyOrderFree(en.ops, a);
    PushOrderFree(s);
    CanonicalReorders(PushFilters(s));
    ReorderPreserves(en, sc, PushFilters(s), Canonical(PushFilters(s)));
  }
}

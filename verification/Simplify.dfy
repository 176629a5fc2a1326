/** Bottom-up simplification (crates/graphy-algebra/src/rewrite.rs, `simplify`):
    it keeps the row sequence and is idempotent. */
module Simplify {
  import opened Seqs
  import opened Terms
  import opened Rows
  import opened RowOps
  import opened Values
  import opened Expressions
  import opened Folding
  import opened Paths
  import opened AlgebraTree

  const EMPTY: Algebra := Table([], [])

  predicate IsEmpty(a: Algebra) { a.Table? && a.rows == [] }

  predicate IsUnit(a: Algebra) { a.Bgp? && a.patterns == [] }

  /** An operand a join keeps. */
  predicate Solid(a: Algebra) { !IsEmpty(a) && !IsUnit(a) }

  function FoldKeys(ops: Ops, keys: seq<(VarId, Option<Expression>)>): seq<(VarId, Option<Expression>)> {
    Map((k: (VarId, Option<Expression>)) => (k.0, if k.1.Some? then Some(Fold(ops, k.1.value)) else None), keys)
  }

  function FoldConds(ops: Ops, conds: seq<(Expression, bool)>): seq<(Expression, bool)> {
    Map((c: (Expression, bool)) => (Fold(ops, c.0), c.1), conds)
  }

  function JoinNode(l: Algebra, r: Algebra): Algebra {
    if IsEmpty(l) || IsEmpty(r) then EMPTY
    else if IsUnit(l) then r
    else if IsUnit(r) then l
    else Join(l, r)
  }

  function UnionNode(l: Algebra, r: Algebra): Algebra {
    if IsEmpty(l) then r else if IsEmpty(r) then l else Union(l, r)
  }

  function MinusNode(l: Algebra, r: Algebra): Algebra {
    if IsEmpty(l) then EMPTY else if IsEmpty(r) then l else Minus(l, r)
  }

  function LeftJoinNode(ops: Ops, l: Algebra, r: Algebra, on: Option<Expression>): Algebra {
    if IsEmpty(l) then EMPTY
    else if IsEmpty(r) then l
    else if on.None? then LeftJoin(l, r, None)
    else
      var e := Fold(ops, on.value);
      if ConstEbv(ops, e) == Some(false) then l
      else if ConstEbv(ops, e) == Some(true) then LeftJoin(l, r, None)
      else LeftJoin(l, r, Some(e))
  }

  function FilterNode(ops: Ops, cond: Expression, x: Algebra): Algebra {
    if IsEmpty(x) then EMPTY
    else
      var e := Fold(ops, cond);
      if ConstEbv(ops, e) == Some(true) then x
      else if ConstEbv(ops, e) == Some(false) then EMPTY
      else Filter(e, x)
  }

  function Simplified(ops: Ops, a: Algebra): Algebra {
    match a
    case Bgp(_) => a
    case Path(_, _, _) => a
    case Table(_, _) => a
    case Join(l, r) => JoinNode(Simplified(ops, l), Simplified(ops, r))
    case LeftJoin(l, r, on) => LeftJoinNode(ops, Simplified(ops, l), Simplified(ops, r), on)
    case Filter(e, x) => FilterNode(ops, e, Simplified(ops, x))
    case Union(l, r) => UnionNode(Simplified(ops, l), Simplified(ops, r))
    case GraphNode(g, x) =>
      var x' := Simplified(ops, x);
      if IsEmpty(x') then EMPTY else GraphNode(g, x')
    case Extend(x, v, e) =>
      var x' := Simplified(ops, x);
      if IsEmpty(x') then EMPTY else Extend(x', v, Fold(ops, e))
    case Minus(l, r) => MinusNode(Simplified(ops, l), Simplified(ops, r))
    case ToMultiSet(x) => ToMultiSet(Simplified(ops, x))
    case Group(keys, aggs, x) => Group(FoldKeys(ops, keys), aggs, Simplified(ops, x))
    case OrderBy(x, conds) =>
      var x' := Simplified(ops, x);
      if IsEmpty(x') then EMPTY else OrderBy(x', FoldConds(ops, conds))
    case Project(x, vars) => Project(Simplified(ops, x), vars)
    case Distinct(x) =>
      var x' := Simplified(ops, x);
      if IsEmpty(x') then EMPTY else Distinct(x')
    case Reduced(x) =>
      var x' := Simplified(ops, x);
      if IsEmpty(x') then EMPTY else Reduced(x')
    case Slice(x, offset, limit) =>
      var x' := Simplified(ops, x);
      if IsEmpty(x') && limit != Some(0) then EMPTY else Slice(x', offset, limit)
  }

  /** Every expression of the tree folds safely where it stands: conditions keep
      their truth value, bound, grouped and ordered expressions their term. */
  predicate FoldSafe(ops: Ops, a: Algebra) {
    match a
    case Bgp(_) => true
    case Path(_, _, _) => true
    case Table(_, _) => true
    case Join(l, r) => FoldSafe(ops, l) && FoldSafe(ops, r)
    case Union(l, r) => FoldSafe(ops, l) && FoldSafe(ops, r)
    case Minus(l, r) => FoldSafe(ops, l) && FoldSafe(ops, r)
    case LeftJoin(l, r, on) => FoldSafe(ops, l) && FoldSafe(ops, r) && (on.Some? ==> EbvSafe(ops, on.value))
    case Filter(e, x) => EbvSafe(ops, e) && FoldSafe(ops, x)
    case Extend(x, _, e) => ValueSafe(ops, e) && FoldSafe(ops, x)
    case Group(keys, _, x) =>
      FoldSafe(ops, x) && forall i :: 0 <= i < |keys| && keys[i].1.Some? ==> ValueSafe(ops, keys[i].1.value)
    case OrderBy(x, conds) => FoldSafe(ops, x) && forall i :: 0 <= i < |conds| ==> ValueSafe(ops, conds[i].0)
    case GraphNode(_, x) => FoldSafe(ops, x)
    case ToMultiSet(x) => FoldSafe(ops, x)
    case Project(x, _) => FoldSafe(ops, x)
    case Distinct(x) => FoldSafe(ops, x)
    case Reduced(x) => FoldSafe(ops, x)
    case Slice(x, _, _) => FoldSafe(ops, x)
  }

  // ------------------------------------------------------- node lemmas

  lemma {:induction false} EmptyEval(en: Engine, sc: Scope, a: Algebra)
    ensures IsEmpty(a) ==> Eval(en, sc, a) == []
    ensures IsUnit(a) ==> Eval(en, sc, a) == [map[]]
  {
  }

  lemma {:induction false} JoinNodeEval(en: Engine, sc: Scope, l: Algebra, r: Algebra)
    ensures Eval(en, sc, JoinNode(l, r)) == Eval(en, sc, Join(l, r))
  {
    EmptyEval(en, sc, l);
    EmptyEval(en, sc, r);
    EmptyEval(en, sc, EMPTY);
    if IsEmpty(r) {
      FlatMapEmpty(JoinOne([]), Eval(en, sc, l));
    } else if IsUnit(l) {
      JoinUnit(Eval(en, sc, r));
    } else if IsUnit(r) {
      JoinUnit(Eval(en, sc, l));
    }
  }

  lemma {:induction false} UnionNodeEval(en: Engine, sc: Scope, l: Algebra, r: Algebra)
    ensures Eval(en, sc, UnionNode(l, r)) == Eval(en, sc, Union(l, r))
  {
    EmptyEval(en, sc, l);
    EmptyEval(en, sc, r);
  }

  lemma {:induction false} MinusNodeEval(en: Engine, sc: Scope, l: Algebra, r: Algebra)
    ensures Eval(en, sc, MinusNode(l, r)) == Eval(en, sc, Minus(l, r))
  {
    EmptyEval(en, sc, l);
    EmptyEval(en, sc, r);
    EmptyEval(en, sc, EMPTY);
    if IsEmpty(r) { FlatMapUnit(MinusOne([]), Eval(en, sc, l)); }
  }

  lemma {:induction false} LeftJoinNodeEval(en: Engine, sc: Scope, l: Algebra, r: Algebra, on: Option<Expression>)
    requires (on.Some? ==> EbvSafe(en.ops, on.value))
    ensures Eval(en, sc, LeftJoinNode(en.ops, l, r, on)) == Eval(en, sc, LeftJoin(l, r, on))
  {
    EmptyEval(en, sc, l);
    EmptyEval(en, sc, r);
    LeftJoinMeaning(en, sc, l, r, on);
    if IsEmpty(l) {
      EmptyEval(en, sc, EMPTY);
    } else if IsEmpty(r) {
      FlatMapUnit(LeftOne(Pass(en, sc, on), []), Eval(en, sc, l));
    } else if on.Some? {
      FoldedCondition(en, sc, on.value);
      LeftJoinFolded(en, sc, l, r, on.value);
    }
  }

  lemma {:induction false} LeftJoinFolded(en: Engine, sc: Scope, l: Algebra, r: Algebra, cond: Expression)
    requires !IsEmpty(l) && !IsEmpty(r)
    requires forall m :: Truthy(en, sc, Fold(en.ops, cond), m) <==> Truthy(en, sc, cond, m)
    requires ConstEbv(en.ops, Fold(en.ops, cond)).Some? ==>
               forall m :: Truthy(en, sc, cond, m) <==> ConstEbv(en.ops, Fold(en.ops, cond)) == Some(true)
    ensures Eval(en, sc, LeftJoinNode(en.ops, l, r, Some(cond))) == Eval(en, sc, LeftJoin(l, r, Some(cond)))
  {
    var e := Fold(en.ops, cond);
    LeftJoinMeaning(en, sc, l, r, Some(cond));
    if ConstEbv(en.ops, e) == Some(false) {
      NeverExtended(Pass(en, sc, Some(cond)), Eval(en, sc, l), Eval(en, sc, r));
    } else {
      var on' := if ConstEbv(en.ops, e) == Some(true) then None else Some(e);
      LeftJoinMeaning(en, sc, l, r, on');
      LeftRowsSame(Pass(en, sc, Some(cond)), Pass(en, sc, on'), Eval(en, sc, l), Eval(en, sc, r));
    }
  }

  /** A folded condition passes the same rows; a constant one passes all or none. */
  lemma {:induction false} FoldedCondition(en: Engine, sc: Scope, e: Expression)
    requires EbvSafe(en.ops, e)
    ensures forall m :: Truthy(en, sc, Fold(en.ops, e), m) <==> Truthy(en, sc, e, m)
    ensures ConstEbv(en.ops, Fold(en.ops, e)).Some? ==>
              forall m :: Truthy(en, sc, e, m) <==> ConstEbv(en.ops, Fold(en.ops, e)) == Some(true)
  {
    forall m ensures Truthy(en, sc, Fold(en.ops, e), m) <==> Truthy(en, sc, e, m)
             ensures ConstEbv(en.ops, Fold(en.ops, e)).Some? ==>
                       (Truthy(en, sc, e, m) <==> ConstEbv(en.ops, Fold(en.ops, e)) == Some(true))
    {
      FoldKeepsEbv(en, sc, e, m);
      ConstDecides(en, sc, Fold(en.ops, e), m);
    }
  }

  lemma {:induction false} FilteredRows(en: Engine, sc: Scope, cond: Expression, e: Expression, rows: seq<Row>)
    requires e == Fold(en.ops, cond) && EbvSafe(en.ops, cond)
    ensures FlatMap(Keep(Test(en, sc, e)), rows) == FlatMap(Keep(Test(en, sc, cond)), rows)
    ensures ConstEbv(en.ops, e) == Some(true) ==> FlatMap(Keep(Test(en, sc, cond)), rows) == rows
    ensures ConstEbv(en.ops, e) == Some(false) ==> FlatMap(Keep(Test(en, sc, cond)), rows) == []
  {
    FoldedCondition(en, sc, cond);
    KeepSame(Test(en, sc, cond), Test(en, sc, e), rows);
    if ConstEbv(en.ops, e) == Some(true) {
      FlatMapUnit(Keep(Test(en, sc, cond)), rows);
    } else if ConstEbv(en.ops, e) == Some(false) {
      FlatMapEmpty(Keep(Test(en, sc, cond)), rows);
    }
  }

  lemma {:induction false} FilterNodeEval(en: Engine, sc: Scope, cond: Expression, x: Algebra)
    requires EbvSafe(en.ops, cond)
    ensures Eval(en, sc, FilterNode(en.ops, cond, x)) == Eval(en, sc, Filter(cond, x))
  {
    EmptyEval(en, sc, x);
    EmptyEval(en, sc, EMPTY);
    var e := Fold(en.ops, cond);
    FilterMeaning(en, sc, cond, x);
    FilterMeaning(en, sc, e, x);
    FilteredRows(en, sc, cond, e, Eval(en, sc, x));
  }

  lemma {:induction false} GraphEval(en: Engine, sc: Scope, g: Pos, x: Algebra, y: Algebra)
    requires forall s :: Eval(en, s, x) == Eval(en, s, y)
    ensures Eval(en, sc, GraphNode(g, x)) == Eval(en, sc, GraphNode(g, y))
  {
    if g.Var? {
      forall name ensures NamedRows(en, g.v, x)(name) == NamedRows(en, g.v, y)(name) {
        assert Eval(en, Named(name), x) == Eval(en, Named(name), y);
      }
      FlatMapCong(NamedRows(en, g.v, x), NamedRows(en, g.v, y), en.names);
    }
  }

  lemma {:induction false} GraphEmpty(en: Engine, sc: Scope, g: Pos, x: Algebra)
    requires forall s :: Eval(en, s, x) == []
    ensures Eval(en, sc, GraphNode(g, x)) == []
  {
    if g.Var? {
      forall name ensures NamedRows(en, g.v, x)(name) == [] { assert Eval(en, Named(name), x) == []; }
      FlatMapEmpty(NamedRows(en, g.v, x), en.names);
    }
  }

  lemma {:induction false} ExtendEval(en: Engine, sc: Scope, v: VarId, e: Expression, rows: seq<Row>)
    requires ValueSafe(en.ops, e)
    ensures FlatMap(ExtendOne(v, ValueFn(en, sc, Fold(en.ops, e))), rows)
            == FlatMap(ExtendOne(v, ValueFn(en, sc, e)), rows)
  {
    forall r { FoldKeepsValue(en, sc, e, r); }
    FlatMapCong(ExtendOne(v, ValueFn(en, sc, Fold(en.ops, e))), ExtendOne(v, ValueFn(en, sc, e)), rows);
  }

  lemma {:induction false} KeyOfFold(en: Engine, sc: Scope, keys: seq<(VarId, Option<Expression>)>, r: Row)
    requires forall i :: 0 <= i < |keys| && keys[i].1.Some? ==> ValueSafe(en.ops, keys[i].1.value)
    ensures KeyOf(en, sc, FoldKeys(en.ops, keys))(r) == KeyOf(en, sc, keys)(r)
  {
    forall i | 0 <= i < |keys| ensures KeyCell(en, sc, FoldKeys(en.ops, keys)[i], r) == KeyCell(en, sc, keys[i], r) {
      if keys[i].1.Some? { FoldKeepsValue(en, sc, keys[i].1.value, r); }
    }
  }

  lemma {:induction false} BindKeysNames(keys: seq<(VarId, Option<Expression>)>,
                                         keys': seq<(VarId, Option<Expression>)>, cells: seq<Option<Term>>, row: Row)
    requires |keys| == |keys'| == |cells| && forall i :: 0 <= i < |keys| ==> keys[i].0 == keys'[i].0
    ensures BindKeys(keys, cells, row) == BindKeys(keys', cells, row)
  {
    if keys != [] {
      BindKeysNames(keys[1..], keys'[1..], cells[1..],
                    if cells[0].Some? then row[keys[0].0 := cells[0].value] else row - {keys[0].0});
    }
  }

  lemma {:induction false} GroupEval(en: Engine, sc: Scope, keys: seq<(VarId, Option<Expression>)>,
                                     aggs: seq<(VarId, Aggregate)>, rows: seq<Row>)
    requires forall i :: 0 <= i < |keys| && keys[i].1.Some? ==> ValueSafe(en.ops, keys[i].1.value)
    ensures GroupRows(en, sc, FoldKeys(en.ops, keys), aggs, rows) == GroupRows(en, sc, keys, aggs, rows)
  {
    var keys' := FoldKeys(en.ops, keys);
    forall r ensures KeyOf(en, sc, keys')(r) == KeyOf(en, sc, keys)(r) { KeyOfFold(en, sc, keys, r); }
    assert Map(KeyOf(en, sc, keys'), rows) == Map(KeyOf(en, sc, keys), rows);
    var found := Absorb([], Map(KeyOf(en, sc, keys), rows));
    forall k ensures GroupRow(en, sc, keys', aggs, rows)(k) == GroupRow(en, sc, keys, aggs, rows)(k) {
      FlatMapCong(WithKey(KeyOf(en, sc, keys'), k), WithKey(KeyOf(en, sc, keys), k), rows);
      if |k| == |keys| { BindKeysNames(keys', keys, k, map[]); }
    }
    FlatMapCong(GroupRow(en, sc, keys', aggs, rows), GroupRow(en, sc, keys, aggs, rows),
                if keys == [] && found == [] then [[]] else found);
  }

  lemma {:induction false} OrderEval(en: Engine, sc: Scope, conds: seq<(Expression, bool)>, rows: seq<Row>)
    requires forall i :: 0 <= i < |conds| ==> ValueSafe(en.ops, conds[i].0)
    ensures SortRows(en, sc, FoldConds(en.ops, conds), rows) == SortRows(en, sc, conds, rows)
  {
    var conds' := FoldConds(en.ops, conds);
    forall r ensures SortKey(en, sc, conds')(r) == SortKey(en, sc, conds)(r) {
      forall i | 0 <= i < |conds|
        ensures EvalExpr(en, sc, conds'[i].0, r) == EvalExpr(en, sc, conds[i].0, r)
      {
        FoldKeepsValue(en, sc, conds[i].0, r);
      }
    }
    assert Map(SortKey(en, sc, conds'), rows) == Map(SortKey(en, sc, conds), rows);
    assert Map((c: (Expression, bool)) => c.1, conds') == Map((c: (Expression, bool)) => c.1, conds);
  }

  lemma {:induction false} SortNothing(en: Engine, sc: Scope, conds: seq<(Expression, bool)>)
    ensures SortRows(en, sc, conds, []) == []
  {
  }

  // ------------------------------------------------------ main theorems

  /** Simplification keeps the exact row sequence in every scope. */
  lemma {:induction false} SimplifyPreserves(en: Engine, sc: Scope, a: Algebra)
    requires FoldSafe(en.ops, a)
    ensures Eval(en, sc, Simplified(en.ops, a)) == Eval(en, sc, a)
    decreases a, 2
  {
    var ops := en.ops;
    match a
    case Join(l, r) =>
      SimplifyPreserves(en, sc, l);
      SimplifyPreserves(en, sc, r);
      JoinNodeEval(en, sc, Simplified(ops, l), Simplified(ops, r));
    case LeftJoin(l, r, on) =>
      SimplifyPreserves(en, sc, l);
      SimplifyPreserves(en, sc, r);
      LeftJoinNodeEval(en, sc, Simplified(ops, l), Simplified(ops, r), on);
    case Filter(e, x) =>
      SimplifyPreserves(en, sc, x);
      FilterNodeEval(en, sc, e, Simplified(ops, x));
    case Union(l, r) =>
      SimplifyPreserves(en, sc, l);
      SimplifyPreserves(en, sc, r);
      UnionNodeEval(en, sc, Simplified(ops, l), Simplified(ops, r));
    case Minus(l, r) =>
      SimplifyPreserves(en, sc, l);
      SimplifyPreserves(en, sc, r);
      MinusNodeEval(en, sc, Simplified(ops, l), Simplified(ops, r));
    case Bgp(_) =>
    case Path(_, _, _) =>
    case Table(_, _) =>
    case GraphNode(_, _) => SimplifyUnaryPreserves(en, sc, a);
    case Extend(_, _, _) => SimplifyUnaryPreserves(en, sc, a);
    case ToMultiSet(_) => SimplifyUnaryPreserves(en, sc, a);
    case Group(_, _, _) => SimplifyKeyedPreserves(en, sc, a);
    case OrderBy(_, _) => SimplifyKeyedPreserves(en, sc, a);
    case _ => SimplifyWholePreserves(en, sc, a);
  }

  /** The operators that work row by row. */
  lemma {:induction false} SimplifyUnaryPreserves(en: Engine, sc: Scope, a: Algebra)
    requires FoldSafe(en.ops, a)
    requires a.GraphNode? || a.Extend? || a.ToMultiSet?
    ensures Eval(en, sc, Simplified(en.ops, a)) == Eval(en, sc, a)
    decreases a, 1
  {
    var ops := en.ops;
    match a
    case GraphNode(g, x) =>
      var x' := Simplified(ops, x);
      forall s ensures Eval(en, s, x') == Eval(en, s, x) && (IsEmpty(x') ==> Eval(en, s, x') == []) {
        SimplifyPreserves(en, s, x);
        EmptyEval(en, s, x');
      }
      GraphEval(en, sc, g, x', x);
      if IsEmpty(x') { GraphEmpty(en, sc, g, x); }
    case Extend(x, v, e) =>
      SimplifyPreserves(en, sc, x);
      EmptyEval(en, sc, Simplified(ops, x));
      ExtendEval(en, sc, v, e, Eval(en, sc, x));
    case ToMultiSet(x) => SimplifyPreserves(en, sc, x);
  }

  /** The operators that drop or cut rows, and those that keep them. */
  lemma {:induction false} SimplifyWholePreserves(en: Engine, sc: Scope, a: Algebra)
    requires FoldSafe(en.ops, a)
    requires a.Project? || a.Distinct? || a.Reduced? || a.Slice?
    ensures Eval(en, sc, Simplified(en.ops, a)) == Eval(en, sc, a)
    decreases a, 0
  {
    var ops := en.ops;
    match a
    case Project(x, _) => SimplifyPreserves(en, sc, x);
    case Distinct(x) => SimplifyPreserves(en, sc, x); EmptyEval(en, sc, Simplified(ops, x));
    case Reduced(x) => SimplifyPreserves(en, sc, x); EmptyEval(en, sc, Simplified(ops, x));
    case Slice(x, _, _) => SimplifyPreserves(en, sc, x); EmptyEval(en, sc, Simplified(ops, x));
  }

  lemma {:induction false} SimplifyKeyedPreserves(en: Engine, sc: Scope, a: Algebra)
    requires FoldSafe(en.ops, a) && (a.Group? || a.OrderBy?)
    ensures Eval(en, sc, Simplified(en.ops, a)) == Eval(en, sc, a)
    decreases a, 0
  {
    var ops := en.ops;
    match a
    case Group(keys, aggs, x) =>
      SimplifyPreserves(en, sc, x);
      GroupEval(en, sc, keys, aggs, Eval(en, sc, x));
    case OrderBy(x, conds) =>
      SimplifyPreserves(en, sc, x);
      EmptyEval(en, sc, Simplified(ops, x));
      OrderEval(en, sc, conds, Eval(en, sc, x));
      SortNothing(en, sc, conds);
  }

  // ------------------------------------------------------- twice is once

  predicate FoldedKeys(ops: Ops, keys: seq<(VarId, Option<Expression>)>) {
    forall i :: 0 <= i < |keys| && keys[i].1.Some? ==> Folded(ops, keys[i].1.value)
  }

  predicate FoldedConds(ops: Ops, conds: seq<(Expression, bool)>) {
    forall i :: 0 <= i < |conds| ==> Folded(ops, conds[i].0)
  }

  /** A folded condition that is no decided constant. */
  predicate Open(ops: Ops, e: Expression) { Folded(ops, e) && ConstEbv(ops, e).None? }

  /** No node of the tree is one that simplification changes. */
  predicate Minimal(ops: Ops, a: Algebra) {
    match a
    case Bgp(_) => true
    case Path(_, _, _) => true
    case Table(_, _) => true
    case Join(l, r) => Minimal(ops, l) && Minimal(ops, r) && Solid(l) && Solid(r)
    case LeftJoin(l, r, on) =>
      Minimal(ops, l) && Minimal(ops, r) && !IsEmpty(l) && !IsEmpty(r) && (on.Some? ==> Open(ops, on.value))
    case Filter(e, x) => Minimal(ops, x) && !IsEmpty(x) && Open(ops, e)
    case Union(l, r) => Minimal(ops, l) && Minimal(ops, r) && !IsEmpty(l) && !IsEmpty(r)
    case GraphNode(_, x) => Minimal(ops, x) && !IsEmpty(x)
    case Extend(x, _, e) => Minimal(ops, x) && !IsEmpty(x) && Folded(ops, e)
    case Minus(l, r) => Minimal(ops, l) && Minimal(ops, r) && !IsEmpty(l) && !IsEmpty(r)
    case ToMultiSet(x) => Minimal(ops, x)
    case Group(keys, _, x) => Minimal(ops, x) && FoldedKeys(ops, keys)
    case OrderBy(x, conds) => Minimal(ops, x) && !IsEmpty(x) && FoldedConds(ops, conds)
    case Project(x, _) => Minimal(ops, x)
    case Distinct(x) => Minimal(ops, x) && !IsEmpty(x)
    case Reduced(x) => Minimal(ops, x) && !IsEmpty(x)
    case Slice(x, _, limit) => Minimal(ops, x) && (IsEmpty(x) ==> limit == Some(0))
  }

  lemma {:induction false} JoinNodeMinimal(ops: Ops, l: Algebra, r: Algebra)
    requires Minimal(ops, l) && Minimal(ops, r)
    ensures Minimal(ops, JoinNode(l, r))
  {
    if IsEmpty(l) || IsEmpty(r) { assert JoinNode(l, r) == EMPTY; } else { NonEmptyMinimal(ops, l, r); }
  }

  lemma {:induction false} SetNodesMinimal(ops: Ops, l: Algebra, r: Algebra)
    requires Minimal(ops, l) && Minimal(ops, r)
    ensures Minimal(ops, UnionNode(l, r)) && Minimal(ops, MinusNode(l, r))
  {
    if IsEmpty(l) || IsEmpty(r) { assert Minimal(ops, EMPTY); } else { NonEmptyMinimal(ops, l, r); }
  }

  lemma {:induction false} NonEmptyMinimal(ops: Ops, l: Algebra, r: Algebra)
    requires Minimal(ops, l) && Minimal(ops, r) && !IsEmpty(l) && !IsEmpty(r)
    ensures Minimal(ops, Union(l, r)) && Minimal(ops, Minus(l, r))
    ensures Solid(l) && Solid(r) ==> Minimal(ops, Join(l, r))
  {
  }

  lemma {:induction false} LeftJoinNodeMinimal(ops: Ops, l: Algebra, r: Algebra, on: Option<Expression>)
    requires Minimal(ops, l) && Minimal(ops, r)
    ensures Minimal(ops, LeftJoinNode(ops, l, r, on))
  {
    if on.Some? && !IsEmpty(l) && !IsEmpty(r) {
      var e := Fold(ops, on.value);
      FoldFolds(ops, on.value);
      TruthValue(ConstEbv(ops, e));
      LeftJoinMinimal(ops, l, r, e);
    }
  }

  lemma {:induction false} LeftJoinMinimal(ops: Ops, l: Algebra, r: Algebra, e: Expression)
    requires Minimal(ops, l) && Minimal(ops, r) && !IsEmpty(l) && !IsEmpty(r) && Folded(ops, e)
    ensures Minimal(ops, LeftJoin(l, r, None))
    ensures ConstEbv(ops, e).None? ==> Minimal(ops, LeftJoin(l, r, Some(e)))
  {
  }

  lemma {:induction false} FilterNodeMinimal(ops: Ops, cond: Expression, x: Algebra)
    requires Minimal(ops, x)
    ensures Minimal(ops, FilterNode(ops, cond, x))
  {
    FoldFolds(ops, cond);
    TruthValue(ConstEbv(ops, Fold(ops, cond)));
  }

  /** A simplified tree is such a one. */
  lemma {:induction false} SimplifiedIsMinimal(ops: Ops, a: Algebra)
    ensures Minimal(ops, Simplified(ops, a))
    decreases a
  {
    match a
    case Bgp(_) =>
    case Path(_, _, _) =>
    case Table(_, _) =>
    case Join(l, r) =>
      SimplifiedIsMinimal(ops, l);
      SimplifiedIsMinimal(ops, r);
      JoinNodeMinimal(ops, Simplified(ops, l), Simplified(ops, r));
    case LeftJoin(l, r, on) =>
      SimplifiedIsMinimal(ops, l);
      SimplifiedIsMinimal(ops, r);
      LeftJoinNodeMinimal(ops, Simplified(ops, l), Simplified(ops, r), on);
    case Filter(e, x) =>
      SimplifiedIsMinimal(ops, x);
      FilterNodeMinimal(ops, e, Simplified(ops, x));
    case Union(l, r) =>
      SimplifiedIsMinimal(ops, l);
      SimplifiedIsMinimal(ops, r);
      SetNodesMinimal(ops, Simplified(ops, l), Simplified(ops, r));
    case Minus(l, r) =>
      SimplifiedIsMinimal(ops, l);
      SimplifiedIsMinimal(ops, r);
      SetNodesMinimal(ops, Simplified(ops, l), Simplified(ops, r));
    case GraphNode(_, x) => SimplifiedIsMinimal(ops, x);
    case Extend(x, _, e) => SimplifiedIsMinimal(ops, x); FoldFolds(ops, e);
    case Group(keys, _, x) =>
      SimplifiedIsMinimal(ops, x);
      forall i | 0 <= i < |keys| && keys[i].1.Some? { FoldFolds(ops, keys[i].1.value); }
    case OrderBy(x, conds) =>
      SimplifiedIsMinimal(ops, x);
      forall i | 0 <= i < |conds| { FoldFolds(ops, conds[i].0); }
    case ToMultiSet(x) => SimplifiedIsMinimal(ops, x);
    case Project(x, _) => SimplifiedIsMinimal(ops, x);
    case Distinct(x) => SimplifiedIsMinimal(ops, x);
    case Reduced(x) => SimplifiedIsMinimal(ops, x);
    case Slice(x, _, _) => SimplifiedIsMinimal(ops, x);
  }

  lemma {:induction false} KeysStay(ops: Ops, keys: seq<(VarId, Option<Expression>)>)
    requires FoldedKeys(ops, keys)
    ensures FoldKeys(ops, keys) == keys
  {
    forall i | 0 <= i < |keys| && keys[i].1.Some? { FoldedStays(ops, keys[i].1.value); }
  }

  lemma {:induction false} CondsStay(ops: Ops, conds: seq<(Expression, bool)>)
    requires FoldedConds(ops, conds)
    ensures FoldConds(ops, conds) == conds
  {
    forall i | 0 <= i < |conds| { FoldedStays(ops, conds[i].0); }
  }

  /** Simplification leaves such a tree alone. */
  lemma {:induction false} MinimalStays(ops: Ops, a: Algebra)
    requires Minimal(ops, a)
    ensures Simplified(ops, a) == a
    decreases a
  {
    match a
    case Bgp(_) =>
    case Path(_, _, _) =>
    case Table(_, _) =>
    case Join(l, r) => MinimalStays(ops, l); MinimalStays(ops, r);
    case LeftJoin(l, r, on) =>
      MinimalStays(ops, l);
      MinimalStays(ops, r);
      if on.Some? { FoldedStays(ops, on.value); }
    case Filter(e, x) => MinimalStays(ops, x); FoldedStays(ops, e);
    case Union(l, r) => MinimalStays(ops, l); MinimalStays(ops, r);
    case Minus(l, r) => MinimalStays(ops, l); MinimalStays(ops, r);
    case GraphNode(_, x) => MinimalStays(ops, x);
    case Extend(x, _, e) => MinimalStays(ops, x); FoldedStays(ops, e);
    case Group(keys, _, x) => MinimalStays(ops, x); KeysStay(ops, keys);
    case OrderBy(x, conds) => MinimalStays(ops, x); CondsStay(ops, conds);
    case ToMultiSet(x) => MinimalStays(ops, x);
    case Project(x, _) => MinimalStays(ops, x);
    case Distinct(x) => MinimalStays(ops, x);
    case Reduced(x) => MinimalStays(ops, x);
    case Slice(x, _, _) => MinimalStays(ops, x);
  }

  /** Simplifying twice is simplifying once. */
  lemma {:induction false} SimplifyIdempotent(ops: Ops, a: Algebra)
    ensures Simplified(ops, Simplified(ops, a)) == Simplified(ops, a)
  {
    SimplifiedIsMinimal(ops, a);
    MinimalStays(ops, Simplified(ops, a));
  }
}

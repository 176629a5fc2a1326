/** Filter pushdown preserves the exact row sequence where every filter sinks
    safely; the code's visibility test alone does not make it so. */
module PushProof {
  import opened Seqs
  import opened Rows
  import opened RowOps
  import opened Expressions
  import opened Folding
  import opened AlgebraTree
  import opened Pushdown

  /** A conjunct that stays leaves the tree alone. */
  lemma {:induction false} TryPushStays(c: Expression, x: Algebra)
    ensures TryPush(c, x).left.Some? ==> TryPush(c, x) == Pushed(Some(c), x)
  {
  }

  /** A join whose landing side is filtered is the join filtered. */
  lemma {:induction false} PushJoin(en: Engine, sc: Scope, c: Expression, cv: set<VarId>, l: Algebra, r: Algebra)
    requires PushableVars(c) == Some(cv) && TryPush(c, Join(l, r)).left.None? && SinkSafe(en, sc, c, Join(l, r))
    requires var side := if cv <= Visible(l) then l else r;
             Eval(en, sc, Wrap(TryPush(c, side))) == FlatMap(Keep(Test(en, sc, c)), Eval(en, sc, side))
    ensures Eval(en, sc, TryPush(c, Join(l, r)).tree) == FlatMap(Keep(Test(en, sc, c)), Eval(en, sc, Join(l, r)))
  {
    MovableTest(en, sc, sc, c);
    JoinMeaning(en, sc, l, r);
    if cv <= Visible(l) {
      SinkJoinLeft(Test(en, sc, c), cv, Eval(en, sc, l), Eval(en, sc, r));
      JoinMeaning(en, sc, Wrap(TryPush(c, l)), r);
    } else {
      SinkJoinRight(Test(en, sc, c), cv, Eval(en, sc, l), Eval(en, sc, r));
      JoinMeaning(en, sc, l, Wrap(TryPush(c, r)));
    }
  }

  /** Sinking one conjunct is filtering the tree. */
  lemma {:induction false} TryPushPreserves(en: Engine, sc: Scope, c: Expression, x: Algebra)
    requires SinkSafe(en, sc, c, x)
    ensures Eval(en, sc, Wrap(TryPush(c, x))) == FlatMap(Keep(Test(en, sc, c)), Eval(en, sc, x))
    decreases x, 1
  {
    if TryPush(c, x).left.None? {
      var cv := PushableVars(c).value;
      match x
      case Join(l, r) =>
        if cv <= Visible(l) { TryPushPreserves(en, sc, c, l); } else { TryPushPreserves(en, sc, c, r); }
        PushJoin(en, sc, c, cv, l, r);
      case Union(l, r) =>
        TryPushPreserves(en, sc, c, l);
        TryPushPreserves(en, sc, c, r);
        FlatMapConcat(Keep(Test(en, sc, c)), Eval(en, sc, l), Eval(en, sc, r));
      case GraphNode(_, _) => TryPushUnder(en, sc, c, cv, x);
      case LeftJoin(_, _, _) => TryPushUnder(en, sc, c, cv, x);
      case Extend(_, _, _) => TryPushUnder(en, sc, c, cv, x);
      case Minus(_, _) => TryPushUnder(en, sc, c, cv, x);
    } else {
      TryPushStays(c, x);
    }
  }

  /** Operators that one operand's rows pass through. */
  lemma {:induction false} TryPushUnder(en: Engine, sc: Scope, c: Expression, cv: set<VarId>, x: Algebra)
    requires SinkSafe(en, sc, c, x) && TryPush(c, x).left.None? && PushableVars(c) == Some(cv)
    requires x.GraphNode? || x.LeftJoin? || x.Extend? || x.Minus?
    ensures Eval(en, sc, TryPush(c, x).tree) == FlatMap(Keep(Test(en, sc, c)), Eval(en, sc, x))
    decreases x, 0
  {
    var test := Test(en, sc, c);
    MovableTest(en, sc, sc, c);
    match x
    case GraphNode(g, y) =>
      forall name
        ensures Eval(en, Named(name), Wrap(TryPush(c, y)))
                == FlatMap(Keep(Test(en, Named(name), c)), Eval(en, Named(name), y))
      {
        TryPushPreserves(en, Named(name), c, y);
      }
      SinkGraph(en, sc, c, g, y, Wrap(TryPush(c, y)));
    case LeftJoin(l, r, on) =>
      TryPushPreserves(en, sc, c, l);
      SinkLeftJoin(test, Pass(en, sc, on), cv, Eval(en, sc, l), Eval(en, sc, r));
    case Extend(y, v, e) =>
      TryPushPreserves(en, sc, c, y);
      SinkExtend(test, cv, v, ValueFn(en, sc, e), Eval(en, sc, y));
    case Minus(l, r) =>
      TryPushPreserves(en, sc, c, l);
      SinkMinus(test, Eval(en, sc, l), Eval(en, sc, r));
  }

  /** `z` is `y` filtered in every named graph. */
  ghost predicate FilteredIn(en: Engine, c: Expression, y: Algebra, z: Algebra) {
    forall name :: Eval(en, Named(name), z) == FlatMap(Keep(Test(en, Named(name), c)), Eval(en, Named(name), y))
  }

  lemma {:induction false} SinkGraph(en: Engine, sc: Scope, c: Expression, g: Pos, y: Algebra, z: Algebra)
    requires PushableVars(c).Some? && !(g.Var? && g.v in PushableVars(c).value)
    requires FilteredIn(en, c, y, z)
    ensures Eval(en, sc, GraphNode(g, z)) == FlatMap(Keep(Test(en, sc, c)), Eval(en, sc, GraphNode(g, y)))
  {
    GraphMeaning(en, sc, g, y);
    GraphMeaning(en, sc, g, z);
    match g
    case Const(name) =>
      if name in en.named { KeepAnyScope(en, sc, Named(name), c, Eval(en, Named(name), y)); }
    case Var(v) => SinkNamedRows(en, sc, c, v, y, z);
  }

  lemma {:induction false} KeepAnyScope(en: Engine, sc: Scope, sc': Scope, c: Expression, rows: seq<Row>)
    requires PushableVars(c).Some?
    ensures FlatMap(Keep(Test(en, sc, c)), rows) == FlatMap(Keep(Test(en, sc', c)), rows)
  {
    MovableTest(en, sc, sc', c);
    KeepSame(Test(en, sc, c), Test(en, sc', c), rows);
  }

  lemma {:induction false} SinkNamedRows(en: Engine, sc: Scope, c: Expression, v: VarId, y: Algebra, z: Algebra)
    requires PushableVars(c).Some? && v !in PushableVars(c).value
    requires FilteredIn(en, c, y, z)
    ensures FlatMap(NamedRows(en, v, z), en.names)
            == FlatMap(Keep(Test(en, sc, c)), FlatMap(NamedRows(en, v, y), en.names))
  {
    forall name ensures NamedRows(en, v, z)(name) == FlatMap(Keep(Test(en, sc, c)), NamedRows(en, v, y)(name)) {
      MovableTest(en, sc, Named(name), c);
      SinkNamed(Test(en, sc, c), Test(en, Named(name), c), PushableVars(c).value, v, name, Eval(en, Named(name), y));
    }
    FlatMapAssoc(Keep(Test(en, sc, c)), NamedRows(en, v, y), NamedRows(en, v, z), en.names);
  }

  // ------------------------------------------------ conjunct lists

  predicate PassAll(en: Engine, sc: Scope, cs: seq<Expression>, r: Row) {
    forall c | c in cs :: Truthy(en, sc, c, r)
  }

  function AllTest(en: Engine, sc: Scope, cs: seq<Expression>): Row -> bool { (r: Row) => PassAll(en, sc, cs, r) }

  lemma {:induction false} SplitAndTruth(en: Engine, sc: Scope, e: Expression, r: Row)
    ensures PassAll(en, sc, SplitAnd(e), r) <==> Truthy(en, sc, e, r)
  {
    match e
    case And(a, b) =>
      SplitAndTruth(en, sc, a, r);
      SplitAndTruth(en, sc, b, r);
      ConnectiveEbv(en, sc, a, b, r);
      PassConcat(en, sc, SplitAnd(a), SplitAnd(b), r);
    case _ =>
  }

  lemma {:induction false} PassConcat(en: Engine, sc: Scope, cs: seq<Expression>, ds: seq<Expression>, r: Row)
    ensures PassAll(en, sc, cs + ds, r) <==> PassAll(en, sc, cs, r) && PassAll(en, sc, ds, r)
  {
    assert forall c :: c in cs + ds <==> c in cs || c in ds;
  }

  lemma {:induction false} KeepTwice(en: Engine, sc: Scope, cs: seq<Expression>, ds: seq<Expression>, rows: seq<Row>)
    ensures FlatMap(Keep(AllTest(en, sc, cs)), FlatMap(Keep(AllTest(en, sc, ds)), rows))
            == FlatMap(Keep(AllTest(en, sc, cs + ds)), rows)
  {
    forall r { PassConcat(en, sc, cs, ds, r); }
    KeepBoth(AllTest(en, sc, cs), AllTest(en, sc, ds), AllTest(en, sc, cs + ds), rows);
  }

  lemma {:induction false} KeepFirst(en: Engine, sc: Scope, c: Expression, rows: seq<Row>)
    ensures FlatMap(Keep(AllTest(en, sc, [c])), rows) == FlatMap(Keep(Test(en, sc, c)), rows)
  {
    KeepSame(AllTest(en, sc, [c]), Test(en, sc, c), rows);
  }

  lemma {:induction false} KeepNone(en: Engine, sc: Scope, rows: seq<Row>)
    ensures FlatMap(Keep(AllTest(en, sc, [])), rows) == rows
  {
    FlatMapUnit(Keep(AllTest(en, sc, [])), rows);
  }

  /** A stack of filters keeps the rows passing every conjunct. */
  lemma {:induction false} StackMeaning(en: Engine, sc: Scope, a: Algebra)
    ensures Eval(en, sc, a) == FlatMap(Keep(AllTest(en, sc, Conjuncts(a))), Eval(en, sc, Below(a)))
  {
    match a
    case Filter(e, y) =>
      StackMeaning(en, sc, y);
      forall r { SplitAndTruth(en, sc, e, r); }
      KeepSame(Test(en, sc, e), AllTest(en, sc, SplitAnd(e)), Eval(en, sc, y));
      KeepTwice(en, sc, SplitAnd(e), Conjuncts(y), Eval(en, sc, Below(y)));
    case _ => KeepNone(en, sc, Eval(en, sc, a));
  }

  lemma {:induction false} WrapMeaning(en: Engine, sc: Scope, cs: seq<Expression>, x: Algebra)
    ensures Eval(en, sc, WrapAll(cs, x)) == FlatMap(Keep(AllTest(en, sc, cs)), Eval(en, sc, x))
    decreases |cs|
  {
    if cs == [] {
      KeepNone(en, sc, Eval(en, sc, x));
    } else {
      WrapMeaning(en, sc, cs[1..], x);
      KeepFirst(en, sc, cs[0], Eval(en, sc, WrapAll(cs[1..], x)));
      KeepTwice(en, sc, [cs[0]], cs[1..], Eval(en, sc, x));
      assert cs == [cs[0]] + cs[1..];
    }
  }

  /** The conjunct loop: what is kept above plus what has sunk filters the tree. */
  lemma {:induction false} PushAllPreserves(en: Engine, sc: Scope, cs: seq<Expression>, acc: Algebra)
    requires AllSinkSafe(en, sc, cs, acc)
    ensures FlatMap(Keep(AllTest(en, sc, PushAll(cs, acc).conds)), Eval(en, sc, PushAll(cs, acc).tree)) ==
            FlatMap(Keep(AllTest(en, sc, cs)), Eval(en, sc, acc))
    decreases |cs|
  {
    if cs != [] {
      var c, p := cs[0], TryPush(cs[0], acc);
      var rest := PushAll(cs[1..], p.tree);
      PushAllPreserves(en, sc, cs[1..], p.tree);
      TryPushPreserves(en, sc, c, acc);
      TryPushStays(c, acc);
      assert cs == [c] + cs[1..];
      if p.left.Some? {
        KeepTwice(en, sc, [c], rest.conds, Eval(en, sc, rest.tree));
        KeepTwice(en, sc, [c], cs[1..], Eval(en, sc, acc));
      } else {
        KeepSwap(en, sc, c, cs[1..], Eval(en, sc, acc));
        assert [] + rest.conds == rest.conds;
      }
    }
  }

  lemma {:induction false} KeepSwap(en: Engine, sc: Scope, c: Expression, cs: seq<Expression>, rows: seq<Row>)
    ensures FlatMap(Keep(AllTest(en, sc, cs)), FlatMap(Keep(Test(en, sc, c)), rows))
            == FlatMap(Keep(AllTest(en, sc, [c] + cs)), rows)
  {
    KeepFirst(en, sc, c, rows);
    KeepTwice(en, sc, cs, [c], rows);
    forall r ensures PassAll(en, sc, cs + [c], r) <==> PassAll(en, sc, [c] + cs, r) {
      PassConcat(en, sc, cs, [c], r);
      PassConcat(en, sc, [c], cs, r);
    }
    KeepSame(AllTest(en, sc, cs + [c]), AllTest(en, sc, [c] + cs), rows);
  }

  lemma {:induction false} NamedSame(en: Engine, v: VarId, x: Algebra, y: Algebra)
    requires forall name :: Eval(en, Named(name), x) == Eval(en, Named(name), y)
    ensures FlatMap(NamedRows(en, v, x), en.names) == FlatMap(NamedRows(en, v, y), en.names)
  {
    forall name ensures NamedRows(en, v, x)(name) == NamedRows(en, v, y)(name) {
      assert Eval(en, Named(name), x) == Eval(en, Named(name), y);
    }
    FlatMapCong(NamedRows(en, v, x), NamedRows(en, v, y), en.names);
  }

  /** Pushing filters keeps the exact row sequence. */
  lemma {:induction false} PushPreserves(en: Engine, sc: Scope, a: Algebra)
    requires PushSafe(en, sc, a)
    ensures Eval(en, sc, PushFilters(a)) == Eval(en, sc, a)
    decreases a, 1
  {
    match a
    case Filter(_, _) =>
      var cs, inner := Conjuncts(a), Below(a);
      PushPreserves(en, sc, inner);
      StackMeaning(en, sc, a);
      PushAllPreserves(en, sc, cs, PushFilters(inner));
      var k := PushAll(cs, PushFilters(inner));
      WrapMeaning(en, sc, k.conds, k.tree);
    case Join(l, r) => PushPreserves(en, sc, l); PushPreserves(en, sc, r);
    case LeftJoin(l, r, _) => PushPreserves(en, sc, l); PushPreserves(en, sc, r);
    case Union(l, r) => PushPreserves(en, sc, l); PushPreserves(en, sc, r);
    case Minus(l, r) => PushPreserves(en, sc, l); PushPreserves(en, sc, r);
    case Bgp(_) =>
    case Path(_, _, _) =>
    case Table(_, _) =>
    case _ => PushUnaryPreserves(en, sc, a);
  }

  lemma {:induction false} PushUnaryPreserves(en: Engine, sc: Scope, a: Algebra)
    requires !a.Filter? && !a.Join? && !a.LeftJoin? && !a.Union? && !a.Minus?
    requires PushSafe(en, sc, a)
    ensures Eval(en, sc, PushFilters(a)) == Eval(en, sc, a)
    decreases a, 0
  {
    match a
    case GraphNode(g, x) =>
      forall name
        ensures Eval(en, Named(name), PushFilters(x)) == Eval(en, Named(name), x)
      {
        PushPreserves(en, Named(name), x);
      }
      if g.Var? { NamedSame(en, g.v, PushFilters(x), x); }
    case Extend(x, _, _) => PushPreserves(en, sc, x);
    case ToMultiSet(x) => PushPreserves(en, sc, x);
    case Group(_, _, x) => PushPreserves(en, sc, x);
    case OrderBy(x, _) => PushPreserves(en, sc, x);
    case Project(x, _) => PushPreserves(en, sc, x);
    case Distinct(x) => PushPreserves(en, sc, x);
    case Reduced(x) => PushPreserves(en, sc, x);
    case Slice(x, _, _) => PushPreserves(en, sc, x);
    case _ =>
  }
}

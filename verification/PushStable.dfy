/** Filter pushdown a second time: the pass returns its own output unchanged
    exactly when no conjunct lands on top of a filter it could have gone below. */
module PushStable {
  import opened Expressions
  import opened AlgebraTree
  import opened Pushdown
  import opened PushProof
  import opened StaticPush

  /** `try_push` hands the conjunct back. */
  predicate Stays(c: Expression, x: Algebra) { TryPush(c, x).left.Some? }

  /** On its way down the conjunct stops at a filter, though it could sink into
      what that filter stands on. */
  predicate Meets(c: Expression, x: Algebra)
    decreases x
  {
    if x.Filter? then !Stays(c, Below(x))
    else if Stays(c, x) then false
    else
      match x
      case Join(l, r) => if PushableVars(c).value <= Visible(l) then Meets(c, l) else Meets(c, r)
      case Union(l, r) => Meets(c, l) || Meets(c, r)
      case GraphNode(_, y) => Meets(c, y)
      case LeftJoin(l, _, _) => Meets(c, l)
      case Extend(y, _, _) => Meets(c, y)
      case Minus(l, _) => Meets(c, l)
      case _ => false
  }

  /** None of the conjuncts, sunk one after the other, meets a filter that way. */
  predicate AllFree(cs: seq<Expression>, acc: Algebra)
    decreases |cs|
  {
    cs != [] ==> !Meets(cs[0], acc) && AllFree(cs[1..], TryPush(cs[0], acc).tree)
  }

  /** Every stack of filters in the query sinks that freely. */
  predicate SinksFreely(a: Algebra)
    decreases a
  {
    match a
    case Filter(_, _) => SinksFreely(Below(a)) && AllFree(Conjuncts(a), PushFilters(Below(a)))
    case Join(l, r) => SinksFreely(l) && SinksFreely(r)
    case LeftJoin(l, r, _) => SinksFreely(l) && SinksFreely(r)
    case Union(l, r) => SinksFreely(l) && SinksFreely(r)
    case Minus(l, r) => SinksFreely(l) && SinksFreely(r)
    case GraphNode(_, x) => SinksFreely(x)
    case Extend(x, _, _) => SinksFreely(x)
    case ToMultiSet(x) => SinksFreely(x)
    case Group(_, _, x) => SinksFreely(x)
    case OrderBy(x, _) => SinksFreely(x)
    case Project(x, _) => SinksFreely(x)
    case Distinct(x) => SinksFreely(x)
    case Reduced(x) => SinksFreely(x)
    case Slice(x, _, _) => SinksFreely(x)
    case _ => true
  }

  /** Every filter holds one conjunct, which stays above what its stack stands on. */
  predicate Stable(a: Algebra) {
    match a
    case Filter(e, x) => !e.And? && Stays(e, Below(x)) && Stable(x)
    case Join(l, r) => Stable(l) && Stable(r)
    case LeftJoin(l, r, _) => Stable(l) && Stable(r)
    case Union(l, r) => Stable(l) && Stable(r)
    case Minus(l, r) => Stable(l) && Stable(r)
    case GraphNode(_, x) => Stable(x)
    case Extend(x, _, _) => Stable(x)
    case ToMultiSet(x) => Stable(x)
    case Group(_, _, x) => Stable(x)
    case OrderBy(x, _) => Stable(x)
    case Project(x, _) => Stable(x)
    case Distinct(x) => Stable(x)
    case Reduced(x) => Stable(x)
    case Slice(x, _, _) => Stable(x)
    case _ => true
  }

  // ------------------------------------------------------- conjuncts and stacks

  predicate Atomic(cs: seq<Expression>) { forall i :: 0 <= i < |cs| ==> !cs[i].And? }

  predicate AllStay(cs: seq<Expression>, x: Algebra) { forall i :: 0 <= i < |cs| ==> Stays(cs[i], x) }

  lemma {:induction false} SplitAtomic(e: Expression)
    ensures Atomic(SplitAnd(e)) && SplitAnd(e) != []
  {
    if e.And? { SplitAtomic(e.a); SplitAtomic(e.b); }
  }

  lemma {:induction false} ConjunctsAtomic(a: Algebra)
    ensures Atomic(Conjuncts(a))
  {
    if a.Filter? { SplitAtomic(a.cond); ConjunctsAtomic(a.input); }
  }

  lemma {:induction false} WrapConjuncts(cs: seq<Expression>, x: Algebra)
    requires Atomic(cs) && !x.Filter?
    ensures Conjuncts(WrapAll(cs, x)) == cs && Below(WrapAll(cs, x)) == x
    decreases |cs|
  {
    if cs != [] {
      WrapConjuncts(cs[1..], x);
      assert cs == [cs[0]] + cs[1..];
    }
  }

  /** A stack is stable when it is its conjuncts, all of which stay above a stable base. */
  lemma {:induction false} StackStable(a: Algebra)
    ensures Stable(a) <==>
              Stable(Below(a)) && a == WrapAll(Conjuncts(a), Below(a)) && AllStay(Conjuncts(a), Below(a))
  {
    if a.Filter? {
      StackStable(a.input);
      SplitAtomic(a.cond);
      var cs := Conjuncts(a);
      if a.cond.And? {
        assert !cs[0].And?;
      } else {
        assert cs[0] == a.cond && cs[1..] == Conjuncts(a.input);
        assert AllStay(cs, Below(a)) <==> Stays(cs[0], Below(a)) && AllStay(cs[1..], Below(a));
      }
    }
  }

  // ------------------------------------------------------- sinking

  /** A conjunct stays by what the node is and what its operands bind. */
  lemma {:induction false} StaysMeaning(c: Expression, x: Algebra)
    ensures Stays(c, x) <==>
              PushableVars(c).None? ||
              match x
              case Join(l, r) => !(PushableVars(c).value <= Visible(l)) && !(PushableVars(c).value <= Visible(r))
              case LeftJoin(l, _, _) => !(PushableVars(c).value <= Visible(l))
              case GraphNode(g, _) => g.Var? && g.v in PushableVars(c).value
              case Extend(_, v, _) => v in PushableVars(c).value
              case _ => !x.Union? && !x.Minus?
  {
  }

  /** Whether one conjunct stays does not change when others sink. */
  lemma {:induction false} SinkKeepsStays(c: Expression, d: Expression, x: Algebra)
    requires !x.Filter?
    ensures Stays(c, TryPush(d, x).tree) <==> Stays(c, x)
    ensures !TryPush(d, x).tree.Filter?
  {
    var y := TryPush(d, x).tree;
    StaysMeaning(c, x);
    StaysMeaning(c, y);
    if Stays(d, x) {
      TryPushStays(d, x);
    } else {
      match x
      case Join(l, r) =>
        TryPushAlike(d, l);
        TryPushAlike(d, r);
        assert y.Join? && Visible(y.l) == Visible(l) && Visible(y.r) == Visible(r);
      case LeftJoin(l, _, _) => TryPushAlike(d, l);
      case Union(_, _) =>
      case GraphNode(_, _) =>
      case Extend(_, _, _) =>
      case Minus(_, _) =>
    }
  }

  /** A sunk conjunct leaves a stable tree exactly when it meets no filter. */
  lemma {:induction false} SinkStable(c: Expression, x: Algebra)
    requires !c.And?
    ensures Stable(Wrap(TryPush(c, x))) <==> Stable(x) && !Meets(c, x)
    decreases x
  {
    if Stays(c, x) {
      TryPushStays(c, x);
    } else {
      match x
      case Join(l, r) => if PushableVars(c).value <= Visible(l) { SinkStable(c, l); } else { SinkStable(c, r); }
      case Union(l, r) => SinkStable(c, l); SinkStable(c, r);
      case GraphNode(_, y) => SinkStable(c, y);
      case LeftJoin(l, _, _) => SinkStable(c, l);
      case Extend(y, _, _) => SinkStable(c, y);
      case Minus(l, _) => SinkStable(c, l);
    }
  }

  /** The conjuncts that stay, stay above the tree the others sank into, and that
      tree is stable exactly when those met no filter. */
  lemma {:induction false} PushAllStable(cs: seq<Expression>, acc: Algebra)
    requires Atomic(cs) && !acc.Filter?
    ensures var k := PushAll(cs, acc);
            !k.tree.Filter? && Atomic(k.conds) && AllStay(k.conds, k.tree) &&
            (Stable(k.tree) <==> Stable(acc) && AllFree(cs, acc)) &&
            (forall c :: Stays(c, k.tree) <==> Stays(c, acc))
    decreases |cs|
  {
    if cs != [] {
      var p := TryPush(cs[0], acc);
      forall c ensures Stays(c, p.tree) <==> Stays(c, acc) { SinkKeepsStays(c, cs[0], acc); }
      SinkKeepsStays(cs[0], cs[0], acc);
      PushAllStable(cs[1..], p.tree);
      SinkStable(cs[0], acc);
      if p.left.Some? { TryPushStays(cs[0], acc); }
    }
  }

  lemma {:induction false} AllStayHead(cs: seq<Expression>, x: Algebra)
    requires cs != []
    ensures AllStay(cs, x) <==> Stays(cs[0], x) && AllStay(cs[1..], x)
  {
    assert cs == [cs[0]] + cs[1..];
  }

  /** Where all conjuncts stay the pass keeps them in order above the same tree. */
  lemma {:induction false} PushAllKeeps(cs: seq<Expression>, acc: Algebra)
    requires AllStay(cs, acc)
    ensures PushAll(cs, acc) == Pushdown.Kept(cs, acc)
    decreases |cs|
  {
    if cs != [] {
      AllStayHead(cs, acc);
      TryPushStays(cs[0], acc);
      PushAllKeeps(cs[1..], acc);
      assert cs == [cs[0]] + cs[1..];
    }
  }

  lemma {:induction false} PushAllCounts(cs: seq<Expression>, acc: Algebra)
    ensures |PushAll(cs, acc).conds| <= |cs|
    ensures |PushAll(cs, acc).conds| == |cs| ==> AllStay(cs, acc)
    decreases |cs|
  {
    if cs != [] {
      var p := TryPush(cs[0], acc);
      PushAllCounts(cs[1..], p.tree);
      AllStayHead(cs, acc);
      if p.left.Some? { TryPushStays(cs[0], acc); }
    }
  }

  // ------------------------------------------------------- the pass

  /** The trees the pass returns unchanged. */
  lemma {:induction false} FixIff(a: Algebra)
    ensures PushFilters(a) == a <==> Stable(a)
    decreases a
  {
    match a
    case Filter(_, _) => StackFixIff(a);
    case Join(l, r) => FixIff(l); FixIff(r);
    case LeftJoin(l, r, _) => FixIff(l); FixIff(r);
    case Union(l, r) => FixIff(l); FixIff(r);
    case Minus(l, r) => FixIff(l); FixIff(r);
    case Bgp(_) =>
    case Path(_, _, _) =>
    case Table(_, _) =>
    case _ => FixIff(a.input);
  }

  lemma {:induction false} StackFixIff(a: Algebra)
    requires a.Filter?
    ensures PushFilters(a) == a <==> Stable(a)
    decreases a, 0
  {
    var x, cs := Below(a), Conjuncts(a);
    var k := PushAll(cs, PushFilters(x));
    FixIff(x);
    StackStable(a);
    ConjunctsAtomic(a);
    PushAllCounts(cs, PushFilters(x));
    if AllStay(cs, PushFilters(x)) { PushAllKeeps(cs, PushFilters(x)); }
    PushAllStable(cs, PushFilters(x));
    WrapConjuncts(k.conds, k.tree);
    if PushFilters(a) == a {
      assert k.conds == cs && k.tree == x;
      assert k == Pushdown.Kept(cs, PushFilters(x));
    }
  }

  /** One pass ends in a stable tree exactly for the queries that sink freely. */
  lemma {:induction false} StableIff(a: Algebra)
    ensures Stable(PushFilters(a)) <==> SinksFreely(a)
    decreases a
  {
    match a
    case Filter(_, _) =>
      var x, cs := Below(a), Conjuncts(a);
      var k := PushAll(cs, PushFilters(x));
      StableIff(x);
      ConjunctsAtomic(a);
      PushAllStable(cs, PushFilters(x));
      WrapConjuncts(k.conds, k.tree);
      StackStable(PushFilters(a));
    case Join(l, r) => StableIff(l); StableIff(r);
    case LeftJoin(l, r, _) => StableIff(l); StableIff(r);
    case Union(l, r) => StableIff(l); StableIff(r);
    case Minus(l, r) => StableIff(l); StableIff(r);
    case Bgp(_) =>
    case Path(_, _, _) =>
    case Table(_, _) =>
    case _ => StableIff(a.input);
  }

  /** Pushing twice is pushing once exactly for the queries that sink freely. */
  lemma {:induction false} PushIdempotentIff(a: Algebra)
    ensures PushFilters(PushFilters(a)) == PushFilters(a) <==> SinksFreely(a)
  {
    FixIff(PushFilters(a));
    StableIff(a);
  }
}

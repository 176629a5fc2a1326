/** The rewrite pipeline run on its own output: the exact queries on which the
    second run changes nothing, and one on which it does. */
module RewriteTwice {
  import opened Seqs
  import opened Rows
  import opened Values
  import opened Expressions
  import opened Folding
  import opened AlgebraTree
  import opened Simplify
  import opened Pushdown
  import opened PushProof
  import opened PushStable
  import opened Perms
  import opened Canonicalize
  import opened Rewrite

  // ------------------------------------------------------- pushdown leaves nothing to simplify

  predicate AllOpen(ops: Ops, cs: seq<Expression>) { forall i :: 0 <= i < |cs| ==> Open(ops, cs[i]) }

  lemma {:induction false} SplitOpen(ops: Ops, e: Expression)
    requires Open(ops, e)
    ensures AllOpen(ops, SplitAnd(e))
  {
    if e.And? { SplitOpen(ops, e.a); SplitOpen(ops, e.b); }
  }

  lemma {:induction false} StackMinimal(ops: Ops, a: Algebra)
    requires Minimal(ops, a)
    ensures Minimal(ops, Below(a)) && AllOpen(ops, Conjuncts(a)) && (a.Filter? ==> !IsEmpty(Below(a)))
  {
    if a.Filter? { SplitOpen(ops, a.cond); StackMinimal(ops, a.input); }
  }

  lemma {:induction false} TryPushMinimal(ops: Ops, c: Expression, x: Algebra)
    requires Minimal(ops, x) && Open(ops, c) && !IsEmpty(x)
    ensures Minimal(ops, TryPush(c, x).tree) && !IsEmpty(TryPush(c, x).tree)
    ensures Minimal(ops, Wrap(TryPush(c, x))) && !IsEmpty(Wrap(TryPush(c, x)))
    ensures !IsUnit(x) ==> !IsUnit(Wrap(TryPush(c, x)))
    ensures TryPush(c, x).left.None? ==> !IsUnit(TryPush(c, x).tree)
    decreases x
  {
    if Stays(c, x) {
      TryPushStays(c, x);
    } else {
      match x
      case Join(l, r) => TryPushMinimal(ops, c, l); TryPushMinimal(ops, c, r);
      case Union(l, r) => TryPushMinimal(ops, c, l); TryPushMinimal(ops, c, r);
      case GraphNode(_, y) => TryPushMinimal(ops, c, y);
      case LeftJoin(l, _, _) => TryPushMinimal(ops, c, l);
      case Extend(y, _, _) => TryPushMinimal(ops, c, y);
      case Minus(l, _) => TryPushMinimal(ops, c, l);
    }
  }

  lemma {:induction false} PushAllMinimal(ops: Ops, cs: seq<Expression>, acc: Algebra)
    requires AllOpen(ops, cs) && Minimal(ops, acc) && !IsEmpty(acc)
    ensures var k := PushAll(cs, acc);
            AllOpen(ops, k.conds) && Minimal(ops, k.tree) && !IsEmpty(k.tree) &&
            (IsUnit(k.tree) ==> IsUnit(acc) && |k.conds| == |cs|)
    decreases |cs|
  {
    if cs != [] {
      TryPushMinimal(ops, cs[0], acc);
      TryPushStays(cs[0], acc);
      PushAllMinimal(ops, cs[1..], TryPush(cs[0], acc).tree);
    }
  }

  lemma {:induction false} WrapAllMinimal(ops: Ops, cs: seq<Expression>, x: Algebra)
    requires AllOpen(ops, cs) && Minimal(ops, x) && !IsEmpty(x)
    ensures Minimal(ops, WrapAll(cs, x)) && !IsEmpty(WrapAll(cs, x))
    ensures IsUnit(WrapAll(cs, x)) ==> cs == [] && IsUnit(x)
    decreases |cs|
  {
    if cs != [] { WrapAllMinimal(ops, cs[1..], x); }
  }

  /** A simplified query stays simplified when its filters are pushed. */
  lemma {:induction false} PushMinimal(ops: Ops, a: Algebra)
    requires Minimal(ops, a)
    ensures Minimal(ops, PushFilters(a))
    ensures IsEmpty(PushFilters(a)) <==> IsEmpty(a)
    ensures IsUnit(PushFilters(a)) <==> IsUnit(a)
    decreases a
  {
    match a
    case Bgp(_) =>
    case Path(_, _, _) =>
    case Table(_, _) =>
    case Join(l, r) => PushMinimal(ops, l); PushMinimal(ops, r);
    case LeftJoin(l, r, _) => PushMinimal(ops, l); PushMinimal(ops, r);
    case Union(l, r) => PushMinimal(ops, l); PushMinimal(ops, r);
    case Minus(l, r) => PushMinimal(ops, l); PushMinimal(ops, r);
    case Filter(_, _) => PushStackMinimal(ops, a);
    case _ => PushMinimal(ops, a.input);
  }

  lemma {:induction false} PushStackMinimal(ops: Ops, a: Algebra)
    requires Minimal(ops, a) && a.Filter?
    ensures Minimal(ops, PushFilters(a)) && !IsEmpty(PushFilters(a)) && !IsUnit(PushFilters(a))
    decreases a, 0
  {
    var x, cs := Below(a), Conjuncts(a);
    var k := PushAll(cs, PushFilters(x));
    StackMinimal(ops, a);
    SplitAtomic(a.cond);
    PushMinimal(ops, x);
    PushAllMinimal(ops, cs, PushFilters(x));
    WrapAllMinimal(ops, k.conds, k.tree);
  }

  // ------------------------------------------------------- pattern order

  lemma {:induction false} PatternVarsOf(ts: seq<TriplePat>, v: VarId)
    ensures v in PatternVars(ts) <==> exists t :: t in ts && v in PatVars(t)
  {
    if ts != [] {
      PatternVarsOf(ts[1..], v);
      assert ts == [ts[0]] + ts[1..];
    }
  }

  /** Pattern order does not change what a tree binds. */
  lemma {:induction false} VisibleCanonical(a: Algebra)
    ensures Visible(Canonical(a)) == Visible(a)
  {
    match a
    case Bgp(ts) =>
      SortKeeps(ts);
      PermMembers(SortPatterns(ts), ts);
      forall v ensures v in PatternVars(SortPatterns(ts)) <==> v in PatternVars(ts) {
        PatternVarsOf(ts, v);
        PatternVarsOf(SortPatterns(ts), v);
      }
    case Path(_, _, _) =>
    case Table(_, _) =>
    case Join(l, r) => VisibleCanonical(l); VisibleCanonical(r);
    case LeftJoin(l, r, _) => VisibleCanonical(l); VisibleCanonical(r);
    case Union(l, r) => VisibleCanonical(l); VisibleCanonical(r);
    case Minus(l, r) => VisibleCanonical(l); VisibleCanonical(r);
    case _ => VisibleCanonical(a.input);
  }

  lemma {:induction false} CanonicalMinimal(ops: Ops, a: Algebra)
    requires Minimal(ops, a)
    ensures Minimal(ops, Canonical(a))
    ensures IsEmpty(Canonical(a)) <==> IsEmpty(a)
    ensures IsUnit(Canonical(a)) <==> IsUnit(a)
  {
    match a
    case Bgp(ts) => SortKeeps(ts); PermMembers(SortPatterns(ts), ts);
    case Path(_, _, _) =>
    case Table(_, _) =>
    case Join(l, r) => CanonicalMinimal(ops, l); CanonicalMinimal(ops, r);
    case LeftJoin(l, r, _) => CanonicalMinimal(ops, l); CanonicalMinimal(ops, r);
    case Union(l, r) => CanonicalMinimal(ops, l); CanonicalMinimal(ops, r);
    case Minus(l, r) => CanonicalMinimal(ops, l); CanonicalMinimal(ops, r);
    case _ => CanonicalMinimal(ops, a.input);
  }

  lemma {:induction false} WrapCanonical(p: Pushed)
    ensures Wrap(Pushed(p.left, Canonical(p.tree))) == Canonical(Wrap(p))
  {
  }

  lemma {:induction false} StaysCanonical(c: Expression, x: Algebra)
    ensures Stays(c, Canonical(x)) <==> Stays(c, x)
  {
    StaysMeaning(c, x);
    StaysMeaning(c, Canonical(x));
    match x
    case Join(l, r) => VisibleCanonical(l); VisibleCanonical(r);
    case LeftJoin(l, _, _) => VisibleCanonical(l);
    case _ =>
  }

  /** Conjuncts sink the same way whatever the order of the patterns. */
  lemma {:induction false} TryPushCanonical(c: Expression, x: Algebra)
    ensures TryPush(c, Canonical(x)) == Pushed(TryPush(c, x).left, Canonical(TryPush(c, x).tree))
    decreases x, 0
  {
    if Stays(c, x) {
      StaysCanonical(c, x);
      TryPushStays(c, x);
      TryPushStays(c, Canonical(x));
    } else {
      match x
      case Join(l, r) =>
        VisibleCanonical(l);
        VisibleCanonical(r);
        if PushableVars(c).value <= Visible(l) { SideCanonical(c, l); } else { SideCanonical(c, r); }
      case Union(l, r) => SideCanonical(c, l); SideCanonical(c, r);
      case GraphNode(_, y) => SideCanonical(c, y);
      case LeftJoin(l, _, _) => VisibleCanonical(l); SideCanonical(c, l);
      case Extend(y, _, _) => SideCanonical(c, y);
      case Minus(l, _) => SideCanonical(c, l);
    }
  }

  lemma {:induction false} SideCanonical(c: Expression, x: Algebra)
    ensures Wrap(TryPush(c, Canonical(x))) == Canonical(Wrap(TryPush(c, x)))
    decreases x, 1
  {
    TryPushCanonical(c, x);
    WrapCanonical(TryPush(c, x));
  }

  lemma {:induction false} StackCanonical(a: Algebra)
    ensures Conjuncts(Canonical(a)) == Conjuncts(a) && Below(Canonical(a)) == Canonical(Below(a))
  {
    if a.Filter? { StackCanonical(a.input); }
  }

  lemma {:induction false} PushAllCanonical(cs: seq<Expression>, acc: Algebra)
    ensures PushAll(cs, Canonical(acc)) == Pushdown.Kept(PushAll(cs, acc).conds, Canonical(PushAll(cs, acc).tree))
    decreases |cs|
  {
    if cs != [] {
      TryPushCanonical(cs[0], acc);
      PushAllCanonical(cs[1..], TryPush(cs[0], acc).tree);
    }
  }

  lemma {:induction false} WrapAllCanonical(cs: seq<Expression>, x: Algebra)
    ensures WrapAll(cs, Canonical(x)) == Canonical(WrapAll(cs, x))
    decreases |cs|
  {
    if cs != [] { WrapAllCanonical(cs[1..], x); }
  }

  /** Pushing filters and ordering patterns commute. */
  lemma {:induction false} PushCanonical(a: Algebra)
    ensures PushFilters(Canonical(a)) == Canonical(PushFilters(a))
    decreases a
  {
    match a
    case Filter(_, _) => PushStackCanonical(a);
    case Bgp(_) =>
    case Path(_, _, _) =>
    case Table(_, _) =>
    case Join(l, r) => PushCanonical(l); PushCanonical(r);
    case LeftJoin(l, r, _) => PushCanonical(l); PushCanonical(r);
    case Union(l, r) => PushCanonical(l); PushCanonical(r);
    case Minus(l, r) => PushCanonical(l); PushCanonical(r);
    case _ => PushCanonical(a.input);
  }

  lemma {:induction false} PushStackCanonical(a: Algebra)
    requires a.Filter?
    ensures PushFilters(Canonical(a)) == Canonical(PushFilters(a))
    decreases a, 0
  {
    var x, cs := Below(a), Conjuncts(a);
    var k := PushAll(cs, PushFilters(x));
    StackCanonical(a);
    PushCanonical(x);
    PushAllCanonical(cs, PushFilters(x));
    WrapAllCanonical(k.conds, k.tree);
  }

  lemma {:induction false} StableCanonical(a: Algebra)
    ensures Stable(Canonical(a)) <==> Stable(a)
  {
    match a
    case Filter(e, x) =>
      StableCanonical(x);
      StackCanonical(x);
      TryPushCanonical(e, Below(x));
    case Bgp(_) =>
    case Path(_, _, _) =>
    case Table(_, _) =>
    case Join(l, r) => StableCanonical(l); StableCanonical(r);
    case LeftJoin(l, r, _) => StableCanonical(l); StableCanonical(r);
    case Union(l, r) => StableCanonical(l); StableCanonical(r);
    case Minus(l, r) => StableCanonical(l); StableCanonical(r);
    case _ => StableCanonical(a.input);
  }

  // ------------------------------------------------------- the pipeline

  /** Rewriting twice is rewriting once exactly for the queries whose simplified
      filters sink freely. */
  lemma {:induction false} RewriteIdempotentIff(ops: Ops, a: Algebra)
    ensures Rewritten(ops, Rewritten(ops, a)) == Rewritten(ops, a) <==> SinksFreely(Simplified(ops, a))
  {
    var s := Simplified(ops, a);
    var p := PushFilters(s);
    SimplifiedIsMinimal(ops, a);
    PushMinimal(ops, s);
    CanonicalMinimal(ops, p);
    MinimalStays(ops, Canonical(p));
    PushCanonical(p);
    CanonicalIdempotent(PushFilters(p));
    FixIff(Canonical(p));
    StableCanonical(p);
    StableIff(s);
  }

  // ------------------------------------------------------- a query that changes twice

  /** `VALUES ?v { UNDEF }` */
  function Values1(v: VarId): Algebra { Table([v], [[None]]) }

  const SAME := Cmp(Eq, Ref(0), Ref(1))
  const BOUND := Bound(Ref(0))
  const INNER := Join(Values1(0), Values1(1))

  /** `FILTER(?0 = ?1 && BOUND(?0))` above the join of three tables. */
  const TWICE := Filter(And(SAME, BOUND), Join(INNER, Values1(2)))
  const ONCE_PUSHED := Join(Filter(BOUND, Filter(SAME, INNER)), Values1(2))
  const TWICE_PUSHED := Join(Filter(SAME, Join(Filter(BOUND, Values1(0)), Values1(1))), Values1(2))

  lemma {:induction false} Bindings()
    ensures PushableVars(SAME) == Some({0, 1}) && PushableVars(BOUND) == Some({0})
    ensures forall v: VarId :: Visible(Values1(v)) == {v}
    ensures Visible(INNER) == {0, 1}
  {
    var zero: set<VarId>, one: set<VarId> := {0}, {1};
    assert PushableVars(Ref(0)) == Some(zero) && PushableVars(Ref(1)) == Some(one);
    assert PushableVars(SAME) == Some(zero + one) && zero + one == {0, 1};
    assert PushableVars(BOUND) == Some(zero);
    forall v: VarId ensures Visible(Values1(v)) == {v} { }
  }

  lemma {:induction false} LeafStays(c: Expression, v: VarId)
    ensures TryPush(c, Values1(v)) == Pushed(Some(c), Values1(v)) && PushFilters(Values1(v)) == Values1(v)
  {
  }

  /** The comparison stops above the inner join, and `BOUND` above the comparison. */
  lemma {:induction false} FirstPush()
    ensures PushFilters(TWICE) == ONCE_PUSHED
  {
    Bindings();
    LeafStays(SAME, 0);
    LeafStays(SAME, 1);
    LeafStays(SAME, 2);
    var top := Join(INNER, Values1(2));
    var next := Join(Filter(SAME, INNER), Values1(2));
    assert TryPush(SAME, INNER) == Pushed(Some(SAME), INNER);
    assert TryPush(SAME, top) == Sunk(next);
    assert TryPush(BOUND, next) == Sunk(ONCE_PUSHED);
    assert PushAll([BOUND], next) == Pushdown.Kept([], ONCE_PUSHED);
    assert PushAll([SAME, BOUND], top) == Pushdown.Kept([], ONCE_PUSHED);
    assert Conjuncts(TWICE) == [SAME, BOUND];
    assert PushFilters(INNER) == INNER;
  }

  /** On the second run `BOUND` goes first and sinks past where the comparison stood. */
  lemma {:induction false} SecondPush()
    ensures PushFilters(ONCE_PUSHED) == TWICE_PUSHED
  {
    Bindings();
    LeafStays(BOUND, 0);
    LeafStays(SAME, 1);
    LeafStays(SAME, 2);
    var stack := Filter(BOUND, Filter(SAME, INNER));
    var next := Join(Filter(BOUND, Values1(0)), Values1(1));
    assert TryPush(BOUND, INNER) == Sunk(next);
    assert Visible(next.l) == {0};
    assert TryPush(SAME, next) == Pushed(Some(SAME), next);
    assert PushAll([SAME], next) == Pushdown.Kept([SAME], next);
    assert PushAll([BOUND, SAME], INNER) == Pushdown.Kept([SAME], next);
    assert Conjuncts(stack) == [BOUND, SAME];
    assert PushFilters(INNER) == INNER;
    assert PushFilters(stack) == Filter(SAME, next);
  }

  lemma {:induction false} OpenParts(ops: Ops)
    ensures Open(ops, SAME) && Open(ops, BOUND) && Open(ops, And(SAME, BOUND))
  {
    assert Folded(ops, Ref(0)) && Folded(ops, Ref(1));
    assert FoldCmp(Eq, Ref(0), Ref(1)) == SAME;
    assert Folded(ops, SAME) && Folded(ops, BOUND);
  }

  lemma {:induction false} FixedShape(ops: Ops)
    ensures Minimal(ops, INNER) && Solid(INNER) && Minimal(ops, Values1(2)) && Solid(Values1(2))
    ensures Canonical(INNER) == INNER && Canonical(Values1(2)) == Values1(2)
    ensures Canonical(TWICE_PUSHED) == TWICE_PUSHED
  {
    forall v: VarId ensures Solid(Values1(v)) && Minimal(ops, Values1(v)) && Canonical(Values1(v)) == Values1(v) {
      assert Values1(v).rows != [];
    }
    var next := Join(Filter(BOUND, Values1(0)), Values1(1));
    assert Canonical(Filter(BOUND, Values1(0))) == Filter(BOUND, Values1(0));
    assert Canonical(next) == next;
    assert Canonical(Filter(SAME, next)) == Filter(SAME, next);
  }

  /** A query the second run changes again. */
  lemma {:induction false} RewriteNotIdempotent(ops: Ops)
    ensures Rewritten(ops, TWICE) == ONCE_PUSHED && Rewritten(ops, ONCE_PUSHED) == TWICE_PUSHED
  {
    FirstPush();
    SecondPush();
    OpenParts(ops);
    FixedShape(ops);
    var stack := Filter(BOUND, Filter(SAME, INNER));
    assert Minimal(ops, Join(INNER, Values1(2)));
    assert Minimal(ops, Filter(SAME, INNER));
    assert Minimal(ops, stack) && Canonical(stack) == stack;
    MinimalStays(ops, TWICE);
    MinimalStays(ops, ONCE_PUSHED);
  }
}

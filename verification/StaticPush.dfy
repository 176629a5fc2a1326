/** A test on the query alone under which pushdown is right for all data: at each
    join a filter sinks through, its variables visible on the other side are
    certain on the side it lands on. */
module StaticPush {
  import opened Seqs
  import opened Rows
  import opened RowOps
  import opened Expressions
  import opened AlgebraTree
  import opened Bindings
  import opened Pushdown
  import opened PushProof

  /** Along the way `try_push` takes (reading through filters, which only stop it). */
  predicate StaticSink(c: Expression, x: Algebra)
    decreases x
  {
    PushableVars(c).Some? ==>
      var cv := PushableVars(c).value;
      match x
      case Join(l, r) =>
        if cv <= Visible(l) then StaticSink(c, l) && cv * Visible(r) <= Certain(l)
        else cv <= Visible(r) ==> StaticSink(c, r) && cv * Visible(l) <= Certain(r)
      case Union(l, r) => StaticSink(c, l) && StaticSink(c, r)
      case GraphNode(g, y) => !(g.Var? && g.v in cv) ==> StaticSink(c, y)
      case LeftJoin(l, r, _) => cv <= Visible(l) ==> StaticSink(c, l) && cv * Visible(r) <= Certain(l)
      case Extend(y, v, _) => v !in cv ==> StaticSink(c, y)
      case Minus(l, _) => StaticSink(c, l)
      case Filter(_, y) => StaticSink(c, y)
      case _ => true
  }

  /** Every conjunct of every filter sinks safely by the static test. */
  predicate StaticPushSafe(a: Algebra) {
    match a
    case Filter(e, x) => StaticPushSafe(x) && forall c | c in SplitAnd(e) :: StaticSink(c, x)
    case Join(l, r) => StaticPushSafe(l) && StaticPushSafe(r)
    case LeftJoin(l, r, _) => StaticPushSafe(l) && StaticPushSafe(r)
    case Union(l, r) => StaticPushSafe(l) && StaticPushSafe(r)
    case Minus(l, r) => StaticPushSafe(l) && StaticPushSafe(r)
    case GraphNode(_, x) => StaticPushSafe(x)
    case Extend(x, _, _) => StaticPushSafe(x)
    case ToMultiSet(x) => StaticPushSafe(x)
    case Group(_, _, x) => StaticPushSafe(x)
    case OrderBy(x, _) => StaticPushSafe(x)
    case Project(x, _) => StaticPushSafe(x)
    case Distinct(x) => StaticPushSafe(x)
    case Reduced(x) => StaticPushSafe(x)
    case Slice(x, _, _) => StaticPushSafe(x)
    case _ => true
  }

  lemma {:induction false} SettledByBounds(vars: set<VarId>, landing: seq<Row>, other: seq<Row>, lo: set<VarId>,
                                           hi: set<VarId>, hi': set<VarId>, lo': set<VarId>)
    requires Between(landing, lo, hi) && Between(other, lo', hi') && vars * hi' <= lo
    ensures Settled(vars, landing, other)
  {
    forall a, b, v | a in landing && b in other && Compatible(a, b) && v in vars && v in b ensures v in a {
      assert v in vars * hi';
    }
  }

  lemma {:induction false} SettledTrees(en: Engine, sc: Scope, vars: set<VarId>, landing: Algebra, other: Algebra)
    requires vars * Visible(other) <= Certain(landing)
    ensures Settled(vars, Eval(en, sc, landing), Eval(en, sc, other))
  {
    RowsBetween(en, sc, landing);
    RowsBetween(en, sc, other);
    SettledByBounds(vars, Eval(en, sc, landing), Eval(en, sc, other), Certain(landing), Visible(landing),
        Visible(other), Certain(other));
  }

  lemma {:induction false} JoinSafe(en: Engine, sc: Scope, c: Expression, l: Algebra, r: Algebra)
    requires PushableVars(c).Some? && StaticSink(c, Join(l, r))
    requires PushableVars(c).value <= Visible(l) ==> SinkSafe(en, sc, c, l)
    requires !(PushableVars(c).value <= Visible(l)) && PushableVars(c).value <= Visible(r) ==> SinkSafe(en, sc, c, r)
    ensures SinkSafe(en, sc, c, Join(l, r))
  {
    var cv := PushableVars(c).value;
    if cv <= Visible(l) {
      SettledTrees(en, sc, cv, l, r);
    } else if cv <= Visible(r) {
      SettledTrees(en, sc, cv, r, l);
    }
  }

  lemma {:induction false} LeftJoinSafe(en: Engine, sc: Scope, c: Expression, l: Algebra, r: Algebra,
                                        on: Option<Expression>)
    requires PushableVars(c).Some? && StaticSink(c, LeftJoin(l, r, on))
    requires PushableVars(c).value <= Visible(l) ==> SinkSafe(en, sc, c, l)
    ensures SinkSafe(en, sc, c, LeftJoin(l, r, on))
  {
    var cv := PushableVars(c).value;
    if cv <= Visible(l) { SettledTrees(en, sc, cv, l, r); }
  }

  /** The static test implies safe sinking on every dataset and scope. */
  lemma {:induction false} StaticSinkSafe(en: Engine, sc: Scope, c: Expression, x: Algebra)
    requires StaticSink(c, x)
    ensures SinkSafe(en, sc, c, x)
    decreases x
  {
    if PushableVars(c).Some? {
      var cv := PushableVars(c).value;
      match x
      case Join(l, r) =>
        if cv <= Visible(l) {
          StaticSinkSafe(en, sc, c, l);
        } else if cv <= Visible(r) {
          StaticSinkSafe(en, sc, c, r);
        }
        JoinSafe(en, sc, c, l, r);
      case Union(l, r) => StaticSinkSafe(en, sc, c, l); StaticSinkSafe(en, sc, c, r);
      case GraphNode(g, y) =>
        if !(g.Var? && g.v in cv) {
          forall name ensures SinkSafe(en, Named(name), c, y) { StaticSinkSafe(en, Named(name), c, y); }
        }
      case LeftJoin(l, r, on) =>
        if cv <= Visible(l) { StaticSinkSafe(en, sc, c, l); }
        LeftJoinSafe(en, sc, c, l, r, on);
      case Extend(y, v, _) => if v !in cv { StaticSinkSafe(en, sc, c, y); }
      case Minus(l, _) => StaticSinkSafe(en, sc, c, l);
      case _ =>
    }
  }

  /** Two trees no static test can tell apart. */
  ghost predicate Alike(x: Algebra, y: Algebra) { Visible(x) == Visible(y) && Certain(x) == Certain(y) }

  lemma {:induction false} TryPushAlike(c: Expression, x: Algebra)
    ensures Alike(Wrap(TryPush(c, x)), x) && Alike(TryPush(c, x).tree, x)
    decreases x
  {
    if TryPush(c, x).left.None? {
      match x
      case Join(l, r) => TryPushAlike(c, l); TryPushAlike(c, r);
      case Union(l, r) => TryPushAlike(c, l); TryPushAlike(c, r);
      case GraphNode(_, y) => TryPushAlike(c, y);
      case LeftJoin(l, _, _) => TryPushAlike(c, l);
      case Extend(y, _, _) => TryPushAlike(c, y);
      case Minus(l, _) => TryPushAlike(c, l);
    } else {
      TryPushStays(c, x);
    }
  }

  /** Sinking one conjunct leaves the test of another as it was. */
  lemma {:induction false} TryPushKeepsStatic(c: Expression, d: Expression, x: Algebra)
    requires StaticSink(c, x)
    ensures StaticSink(c, Wrap(TryPush(d, x))) && StaticSink(c, TryPush(d, x).tree)
    decreases x
  {
    if TryPush(d, x).left.None? && PushableVars(c).Some? {
      var cv, dv := PushableVars(c).value, PushableVars(d).value;
      match x
      case Join(l, r) =>
        TryPushAlike(d, l);
        TryPushAlike(d, r);
        if dv <= Visible(l) {
          if cv <= Visible(l) { TryPushKeepsStatic(c, d, l); }
        } else if !(cv <= Visible(l)) && cv <= Visible(r) {
          TryPushKeepsStatic(c, d, r);
        }
      case Union(l, r) => TryPushKeepsStatic(c, d, l); TryPushKeepsStatic(c, d, r);
      case GraphNode(g, y) => if !(g.Var? && g.v in cv) { TryPushKeepsStatic(c, d, y); }
      case LeftJoin(l, r, _) =>
        TryPushAlike(d, l);
        if cv <= Visible(l) { TryPushKeepsStatic(c, d, l); }
      case Extend(y, v, _) => if v !in cv { TryPushKeepsStatic(c, d, y); }
      case Minus(l, _) => TryPushKeepsStatic(c, d, l);
    }
  }

  lemma {:induction false} PushAllKeepsStatic(c: Expression, cs: seq<Expression>, acc: Algebra)
    ensures Alike(WrapAll(PushAll(cs, acc).conds, PushAll(cs, acc).tree), acc)
    ensures StaticSink(c, acc) ==> StaticSink(c, WrapAll(PushAll(cs, acc).conds, PushAll(cs, acc).tree))
    decreases |cs|
  {
    if cs != [] {
      var p := TryPush(cs[0], acc);
      var rest := PushAll(cs[1..], p.tree);
      TryPushAlike(cs[0], acc);
      PushAllKeepsStatic(c, cs[1..], p.tree);
      if StaticSink(c, acc) { TryPushKeepsStatic(c, cs[0], acc); }
      if p.left.Some? {
        assert PushAll(cs, acc).conds == [p.left.value] + rest.conds;
        assert ([p.left.value] + rest.conds)[1..] == rest.conds;
      } else {
        assert PushAll(cs, acc).conds == rest.conds;
      }
    }
  }

  lemma {:induction false} BelowAlike(c: Expression, a: Algebra)
    ensures Alike(Below(a), a)
    ensures StaticSink(c, Below(a)) <==> StaticSink(c, a)
  {
    match a
    case Filter(_, y) => BelowAlike(c, y);
    case _ =>
  }

  /** Pushing inside a tree changes neither what it binds nor where a further
      filter may sink. */
  lemma {:induction false} PushFiltersKeepsStatic(c: Expression, a: Algebra)
    ensures StaticSink(c, a) ==> StaticSink(c, PushFilters(a))
    decreases a, 1
  {
    match a
    case Filter(_, _) =>
      BelowAlike(c, a);
      PushFiltersKeepsStatic(c, Below(a));
      PushAllKeepsStatic(c, Conjuncts(a), PushFilters(Below(a)));
    case Join(l, r) =>
      PushFiltersKeepsStatic(c, l);
      PushFiltersKeepsStatic(c, r);
      PushFiltersAlike(l);
      PushFiltersAlike(r);
    case LeftJoin(l, r, _) =>
      PushFiltersKeepsStatic(c, l);
      PushFiltersAlike(l);
      PushFiltersAlike(r);
    case Union(l, r) => PushFiltersKeepsStatic(c, l); PushFiltersKeepsStatic(c, r);
    case _ => PushFiltersKeepsUnary(c, a);
  }

  lemma {:induction false} PushFiltersKeepsUnary(c: Expression, a: Algebra)
    requires !a.Filter? && !a.Join? && !a.LeftJoin? && !a.Union?
    ensures StaticSink(c, a) ==> StaticSink(c, PushFilters(a))
    decreases a, 0
  {
    match a
    case Minus(l, _) => PushFiltersKeepsStatic(c, l);
    case GraphNode(_, x) => PushFiltersKeepsStatic(c, x);
    case Extend(x, _, _) => PushFiltersKeepsStatic(c, x);
    case _ =>
  }

  lemma {:induction false} PushFiltersAlike(a: Algebra)
    ensures Alike(PushFilters(a), a)
    decreases a
  {
    match a
    case Filter(e, _) =>
      BelowAlike(e, a);
      PushFiltersAlike(Below(a));
      PushAllKeepsStatic(e, Conjuncts(a), PushFilters(Below(a)));
    case Join(l, r) => PushFiltersAlike(l); PushFiltersAlike(r);
    case LeftJoin(l, r, _) => PushFiltersAlike(l); PushFiltersAlike(r);
    case Union(l, r) => PushFiltersAlike(l); PushFiltersAlike(r);
    case Minus(l, r) => PushFiltersAlike(l); PushFiltersAlike(r);
    case GraphNode(_, x) => PushFiltersAlike(x);
    case Extend(x, _, _) => PushFiltersAlike(x);
    case ToMultiSet(x) => PushFiltersAlike(x);
    case Group(_, _, x) => PushFiltersAlike(x);
    case OrderBy(x, _) => PushFiltersAlike(x);
    case Project(x, _) => PushFiltersAlike(x);
    case Distinct(x) => PushFiltersAlike(x);
    case Reduced(x) => PushFiltersAlike(x);
    case Slice(x, _, _) => PushFiltersAlike(x);
    case _ =>
  }

  lemma {:induction false} AllStaticSafe(en: Engine, sc: Scope, cs: seq<Expression>, acc: Algebra)
    requires forall c :: c in cs ==> StaticSink(c, acc)
    ensures AllSinkSafe(en, sc, cs, acc)
    decreases |cs|
  {
    if cs != [] {
      StaticSinkSafe(en, sc, cs[0], acc);
      forall c | c in cs[1..] ensures StaticSink(c, TryPush(cs[0], acc).tree) {
        assert c in cs;
        TryPushKeepsStatic(c, cs[0], acc);
      }
      AllStaticSafe(en, sc, cs[1..], TryPush(cs[0], acc).tree);
    }
  }

  lemma {:induction false} ConjunctsStatic(a: Algebra)
    requires StaticPushSafe(a)
    ensures StaticPushSafe(Below(a)) && forall c :: c in Conjuncts(a) ==> StaticSink(c, Below(a))
  {
    match a
    case Filter(e, y) =>
      ConjunctsStatic(y);
      forall c | c in Conjuncts(a) ensures StaticSink(c, Below(a)) {
        if c in SplitAnd(e) { BelowAlike(c, y); }
      }
    case _ =>
  }

  lemma {:induction false} StaticIsSafe(en: Engine, sc: Scope, a: Algebra)
    requires StaticPushSafe(a)
    ensures PushSafe(en, sc, a)
    decreases a
  {
    match a
    case Filter(_, _) =>
      ConjunctsStatic(a);
      StaticIsSafe(en, sc, Below(a));
      forall c | c in Conjuncts(a) ensures StaticSink(c, PushFilters(Below(a))) { PushFiltersKeepsStatic(c, Below(a)); }
      AllStaticSafe(en, sc, Conjuncts(a), PushFilters(Below(a)));
    case Join(l, r) => StaticIsSafe(en, sc, l); StaticIsSafe(en, sc, r);
    case LeftJoin(l, r, _) => StaticIsSafe(en, sc, l); StaticIsSafe(en, sc, r);
    case Union(l, r) => StaticIsSafe(en, sc, l); StaticIsSafe(en, sc, r);
    case Minus(l, r) => StaticIsSafe(en, sc, l); StaticIsSafe(en, sc, r);
    case GraphNode(_, x) => forall name ensures PushSafe(en, Named(name), x) { StaticIsSafe(en, Named(name), x); }
    case Extend(x, _, _) => StaticIsSafe(en, sc, x);
    case ToMultiSet(x) => StaticIsSafe(en, sc, x);
    case Group(_, _, x) => StaticIsSafe(en, sc, x);
    case OrderBy(x, _) => StaticIsSafe(en, sc, x);
    case Project(x, _) => StaticIsSafe(en, sc, x);
    case Distinct(x) => StaticIsSafe(en, sc, x);
    case Reduced(x) => StaticIsSafe(en, sc, x);
    case Slice(x, _, _) => StaticIsSafe(en, sc, x);
    case _ =>
  }

  /** Pushdown of a statically safe query keeps the exact rows on every dataset. */
  lemma {:induction false} StaticPushPreserves(en: Engine, sc: Scope, a: Algebra)
    requires StaticPushSafe(a)
    ensures Eval(en, sc, PushFilters(a)) == Eval(en, sc, a)
  {
    StaticIsSafe(en, sc, a);
    PushPreserves(en, sc, a);
  }
}

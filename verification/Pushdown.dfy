/** Filter decomposition and pushdown (crates/graphy-algebra/src/rewrite.rs,
    `push_filters`, `split_and`, `try_push`, `wrap`). */
module Pushdown {
  import opened Seqs
  import opened RowOps
  import opened Expressions
  import opened AlgebraTree

  function SplitAnd(e: Expression): seq<Expression> {
    match e
    case And(a, b) => SplitAnd(a) + SplitAnd(b)
    case _ => [e]
  }

  /** What `try_push` returns: the conjunct if it stays above, and the tree. */
  datatype Pushed = Pushed(left: Option<Expression>, tree: Algebra)

  function Wrap(p: Pushed): Algebra {
    if p.left.Some? then Filter(p.left.value, p.tree) else p.tree
  }

  function Sunk(tree: Algebra): Pushed { Pushed(None, tree) }

  function TryPush(c: Expression, x: Algebra): Pushed
    decreases x
  {
    var stays := Pushed(Some(c), x);
    if PushableVars(c).None? then stays
    else
      var cv := PushableVars(c).value;
      match x
      case Join(l, r) =>
        if cv <= Visible(l) then Sunk(Join(Wrap(TryPush(c, l)), r))
        else if cv <= Visible(r) then Sunk(Join(l, Wrap(TryPush(c, r))))
        else stays
      case Union(l, r) => Sunk(Union(Wrap(TryPush(c, l)), Wrap(TryPush(c, r))))
      case GraphNode(g, y) =>
        if g.Var? && g.v in cv then stays else Sunk(GraphNode(g, Wrap(TryPush(c, y))))
      case LeftJoin(l, r, on) =>
        if cv <= Visible(l) then Sunk(LeftJoin(Wrap(TryPush(c, l)), r, on)) else stays
      case Extend(y, v, e) =>
        if v !in cv then Sunk(Extend(Wrap(TryPush(c, y)), v, e)) else stays
      case Minus(l, r) => Sunk(Minus(Wrap(TryPush(c, l)), r))
      case _ => stays
  }

  /** The conjuncts of a stack of filters, outermost first, and what is below. */
  function Conjuncts(x: Algebra): seq<Expression> {
    match x
    case Filter(e, y) => SplitAnd(e) + Conjuncts(y)
    case _ => []
  }

  function Below(x: Algebra): (r: Algebra)
    ensures !r.Filter?
    ensures r == x || r < x
    ensures x.Filter? ==> r < x
  {
    match x
    case Filter(_, y) => Below(y)
    case _ => x
  }

  datatype Kept = Kept(conds: seq<Expression>, tree: Algebra)

  /** Push each conjunct in order, collecting those that stay. */
  function PushAll(cs: seq<Expression>, acc: Algebra): Kept
    decreases |cs|
  {
    if cs == [] then Kept([], acc)
    else
      var p := TryPush(cs[0], acc);
      var rest := PushAll(cs[1..], p.tree);
      Kept((if p.left.Some? then [p.left.value] else []) + rest.conds, rest.tree)
  }

  /** Re-wrap the leftovers in collection order. */
  function WrapAll(cs: seq<Expression>, x: Algebra): Algebra
    decreases |cs|
  {
    if cs == [] then x else Filter(cs[0], WrapAll(cs[1..], x))
  }

  function PushFilters(a: Algebra): Algebra
    decreases a
  {
    match a
    case Filter(_, _) =>
      var k := PushAll(Conjuncts(a), PushFilters(Below(a)));
      WrapAll(k.conds, k.tree)
    case Join(l, r) => Join(PushFilters(l), PushFilters(r))
    case LeftJoin(l, r, on) => LeftJoin(PushFilters(l), PushFilters(r), on)
    case Union(l, r) => Union(PushFilters(l), PushFilters(r))
    case GraphNode(g, x) => GraphNode(g, PushFilters(x))
    case Extend(x, v, e) => Extend(PushFilters(x), v, e)
    case Minus(l, r) => Minus(PushFilters(l), PushFilters(r))
    case ToMultiSet(x) => ToMultiSet(PushFilters(x))
    case Group(keys, aggs, x) => Group(keys, aggs, PushFilters(x))
    case OrderBy(x, conds) => OrderBy(PushFilters(x), conds)
    case Project(x, vars) => Project(PushFilters(x), vars)
    case Distinct(x) => Distinct(PushFilters(x))
    case Reduced(x) => Reduced(PushFilters(x))
    case Slice(x, offset, limit) => Slice(PushFilters(x), offset, limit)
    case Bgp(_) => a
    case Path(_, _, _) => a
    case Table(_, _) => a
  }

  // ---------------------------------------------- when sinking is right

  /** The condition along the path `try_push` takes through the tree. */
  ghost predicate SinkSafe(en: Engine, sc: Scope, c: Expression, x: Algebra)
    decreases x
  {
    PushableVars(c).Some? ==>
      var cv := PushableVars(c).value;
      match x
      case Join(l, r) =>
        if cv <= Visible(l) then SinkSafe(en, sc, c, l) && Settled(cv, Eval(en, sc, l), Eval(en, sc, r))
        else cv <= Visible(r) ==> SinkSafe(en, sc, c, r) && Settled(cv, Eval(en, sc, r), Eval(en, sc, l))
      case Union(l, r) => SinkSafe(en, sc, c, l) && SinkSafe(en, sc, c, r)
      case GraphNode(g, y) =>
        !(g.Var? && g.v in cv) ==> forall name :: SinkSafe(en, Named(name), c, y)
      case LeftJoin(l, r, on) =>
        cv <= Visible(l) ==>
          SinkSafe(en, sc, c, l) && SettledLeft(Pass(en, sc, on), cv, Eval(en, sc, l), Eval(en, sc, r))
      case Extend(y, v, _) => v !in cv ==> SinkSafe(en, sc, c, y)
      case Minus(l, _) => SinkSafe(en, sc, c, l)
      case _ => true
  }

  ghost predicate AllSinkSafe(en: Engine, sc: Scope, cs: seq<Expression>, acc: Algebra)
    decreases |cs|
  {
    cs != [] ==> SinkSafe(en, sc, cs[0], acc) && AllSinkSafe(en, sc, cs[1..], TryPush(cs[0], acc).tree)
  }

  /** Every filter of the tree sinks safely, in every scope the tree is evaluated in. */
  ghost predicate PushSafe(en: Engine, sc: Scope, a: Algebra)
    decreases a
  {
    match a
    case Filter(_, _) =>
      PushSafe(en, sc, Below(a)) && AllSinkSafe(en, sc, Conjuncts(a), PushFilters(Below(a)))
    case Join(l, r) => PushSafe(en, sc, l) && PushSafe(en, sc, r)
    case LeftJoin(l, r, _) => PushSafe(en, sc, l) && PushSafe(en, sc, r)
    case Union(l, r) => PushSafe(en, sc, l) && PushSafe(en, sc, r)
    case Minus(l, r) => PushSafe(en, sc, l) && PushSafe(en, sc, r)
    case GraphNode(_, x) => forall name :: PushSafe(en, Named(name), x)
    case Extend(x, _, _) => PushSafe(en, sc, x)
    case ToMultiSet(x) => PushSafe(en, sc, x)
    case Group(_, _, x) => PushSafe(en, sc, x)
    case OrderBy(x, _) => PushSafe(en, sc, x)
    case Project(x, _) => PushSafe(en, sc, x)
    case Distinct(x) => PushSafe(en, sc, x)
    case Reduced(x) => PushSafe(en, sc, x)
    case Slice(x, _, _) => PushSafe(en, sc, x)
    case _ => true
  }
}

/** Which variables of a query count where: those a condition mentions and those a
    tree shows to its surroundings (crates/graphy-algebra/src/rewrite.rs,
    `pushable_vars`; crates/graphy-algebra/src/translate.rs, `visible_vars`). */
module QueryVars {
  import opened Seqs
  import opened Rows
  import opened Expressions
  import opened AlgebraTree
  import opened Bindings
  import opened BgpOrder
  import opened Pushdown
  import opened StaticPush

  // ------------------------------------------------------- conditions

  /** The constants, variables and EXISTS tests an expression is built from. */
  function Atoms(e: Expression): seq<Expression>
    decreases e, 0
  {
    match e
    case Or(a, b) => Atoms(a) + Atoms(b)
    case And(a, b) => Atoms(a) + Atoms(b)
    case Cmp(_, a, b) => Atoms(a) + Atoms(b)
    case Arithmetic(_, a, b) => Atoms(a) + Atoms(b)
    case In(x, list, _) => Atoms(x) + AllAtoms(list)
    case Not(a) => Atoms(a)
    case UnaryMinus(a) => Atoms(a)
    case UnaryPlus(a) => Atoms(a)
    case Bound(a) => Atoms(a)
    case _ => [e]
  }

  function AllAtoms(list: seq<Expression>): seq<Expression>
    decreases list, 0
  {
    if list == [] then [] else Atoms(list[0]) + AllAtoms(list[1..])
  }

  ghost predicate Movable(atoms: seq<Expression>) { forall a :: a in atoms ==> !a.Exists? }

  ghost predicate VarsOf(vars: set<VarId>, atoms: seq<Expression>) { forall v :: v in vars <==> Ref(v) in atoms }

  ghost predicate Counts(vars: Option<set<VarId>>, atoms: seq<Expression>) {
    if Movable(atoms) then vars.Some? && VarsOf(vars.value, atoms) else vars.None?
  }

  lemma {:induction false} BothCounts(x: Option<set<VarId>>, y: Option<set<VarId>>, s: seq<Expression>,
                                      t: seq<Expression>)
    requires Counts(x, s) && Counts(y, t)
    ensures Counts(Both(x, y), s + t)
  {
    assert forall a :: a in s + t <==> a in s || a in t;
    assert Movable(s + t) <==> Movable(s) && Movable(t);
  }

  /** A condition may move exactly when it tests no EXISTS, and counts exactly the
      variables it mentions. */
  lemma {:induction false} PushableIff(e: Expression)
    ensures Counts(PushableVars(e), Atoms(e))
    decreases e, 0
  {
    match e
    case Or(a, b) => PushableIff(a); PushableIff(b); BothCounts(PushableVars(a), PushableVars(b), Atoms(a), Atoms(b));
    case And(a, b) => PushableIff(a); PushableIff(b); BothCounts(PushableVars(a), PushableVars(b), Atoms(a), Atoms(b));
    case Cmp(_, a, b) => PushableIff(a); PushableIff(b); BothCounts(PushableVars(a), PushableVars(b), Atoms(a),
        Atoms(b));
    case Arithmetic(_, a, b) =>
      PushableIff(a);
      PushableIff(b);
      BothCounts(PushableVars(a), PushableVars(b), Atoms(a), Atoms(b));
    case In(x, list, _) =>
      PushableIff(x);
      AllPushable(list);
      BothCounts(PushableVars(x), PushableAll(list), Atoms(x), AllAtoms(list));
    case Not(a) => PushableIff(a);
    case UnaryMinus(a) => PushableIff(a);
    case UnaryPlus(a) => PushableIff(a);
    case Bound(a) => PushableIff(a);
    case _ => assert Atoms(e) == [e];
  }

  lemma {:induction false} AllPushable(list: seq<Expression>)
    ensures Counts(PushableAll(list), AllAtoms(list))
    decreases list, 0
  {
    if list != [] {
      PushableIff(list[0]);
      AllPushable(list[1..]);
      BothCounts(PushableVars(list[0]), PushableAll(list[1..]), Atoms(list[0]), AllAtoms(list[1..]));
    }
  }

  // ------------------------------------------------------- trees

  /** The nodes whose bindings reach the root: not those on the right of a MINUS nor
      those below a projection or a group. */
  function Exposed(a: Algebra): seq<Algebra> {
    [a] +
    match a
    case Join(l, r) => Exposed(l) + Exposed(r)
    case Union(l, r) => Exposed(l) + Exposed(r)
    case LeftJoin(l, r, _) => Exposed(l) + Exposed(r)
    case Minus(l, _) => Exposed(l)
    case Filter(_, x) => Exposed(x)
    case GraphNode(_, x) => Exposed(x)
    case Extend(x, _, _) => Exposed(x)
    case ToMultiSet(x) => Exposed(x)
    case OrderBy(x, _) => Exposed(x)
    case Distinct(x) => Exposed(x)
    case Reduced(x) => Exposed(x)
    case Slice(x, _, _) => Exposed(x)
    case _ => []
  }

  predicate InPattern(t: TriplePat, v: VarId) { t.s == Var(v) || t.p == Var(v) || t.o == Var(v) }

  /** The node itself introduces the variable. */
  ghost predicate Introduces(a: Algebra, v: VarId) {
    match a
    case Bgp(ts) => exists t :: t in ts && InPattern(t, v)
    case Path(s, _, o) => s == Var(v) || o == Var(v)
    case GraphNode(g, _) => g == Var(v)
    case Extend(_, u, _) => u == v
    case Table(vars, _) => v in vars
    case Project(_, vars) => v in vars
    case Group(keys, aggs, _) => (exists k :: k in keys && k.0 == v) || exists g :: g in aggs && g.0 == v
    case _ => false
  }

  ghost predicate Shown(nodes: seq<Algebra>, v: VarId) { exists n :: n in nodes && Introduces(n, v) }

  lemma {:induction false} ShownConcat(x: seq<Algebra>, y: seq<Algebra>, v: VarId)
    ensures Shown(x + y, v) <==> Shown(x, v) || Shown(y, v)
  {
    if n :| n in x && Introduces(n, v) { assert n in x + y; }
    if n :| n in y && Introduces(n, v) { assert n in x + y; }
  }

  lemma {:induction false} ShownOne(a: Algebra, v: VarId)
    ensures Shown([a], v) <==> Introduces(a, v)
  {
    assert a in [a];
  }

  lemma {:induction false} PatternShows(ts: seq<TriplePat>, v: VarId)
    ensures v in PatternVars(ts) <==> exists t :: t in ts && InPattern(t, v)
  {
    PatternVarsMember(ts, v);
    forall t | t in ts ensures v in PatVars(t) <==> InPattern(t, v) { }
  }

  /** A variable is visible exactly when an exposed node introduces it. */
  lemma {:induction false} VisibleIff(a: Algebra, v: VarId)
    ensures v in Visible(a) <==> Shown(Exposed(a), v)
    decreases a, 1
  {
    ShownOne(a, v);
    match a
    case Bgp(ts) => PatternShows(ts, v); assert Exposed(a) == [a];
    case Path(_, _, _) => assert Exposed(a) == [a];
    case Table(_, _) => assert Exposed(a) == [a];
    case Project(_, _) => assert Exposed(a) == [a];
    case Group(_, _, _) => assert Exposed(a) == [a];
    case Join(l, r) => VisiblePair(a, l, r, v);
    case Union(l, r) => VisiblePair(a, l, r, v);
    case LeftJoin(l, r, _) => VisiblePair(a, l, r, v);
    case Minus(l, _) => VisibleIff(l, v); ShownConcat([a], Exposed(l), v);
    case _ => VisibleIff(a.input, v); ShownConcat([a], Exposed(a.input), v);
  }

  lemma {:induction false} VisiblePair(a: Algebra, l: Algebra, r: Algebra, v: VarId)
    requires Exposed(a) == [a] + (Exposed(l) + Exposed(r)) && Visible(a) == Visible(l) + Visible(r)
    requires !Introduces(a, v) && l < a && r < a
    ensures v in Visible(a) <==> Shown(Exposed(a), v)
    decreases a, 0
  {
    VisibleIff(l, v);
    VisibleIff(r, v);
    ShownOne(a, v);
    ShownConcat(Exposed(l), Exposed(r), v);
    ShownConcat([a], Exposed(l) + Exposed(r), v);
  }

  // ------------------------------------------------------- queries every filter may sink in

  /** Basic graph patterns, paths, joins and the operators that drop rows: nothing
      leaves a variable of such a tree unbound. */
  predicate Total(a: Algebra) {
    match a
    case Bgp(_) => true
    case Path(_, _, _) => true
    case Join(l, r) => Total(l) && Total(r)
    case Minus(l, r) => Total(l) && Total(r)
    case Filter(_, x) => Total(x)
    case GraphNode(_, x) => Total(x)
    case ToMultiSet(x) => Total(x)
    case OrderBy(x, _) => Total(x)
    case Distinct(x) => Total(x)
    case Reduced(x) => Total(x)
    case Slice(x, _, _) => Total(x)
    case _ => false
  }

  lemma {:induction false} TotalSinks(c: Expression, a: Algebra)
    requires Total(a)
    ensures Certain(a) == Visible(a) && StaticSink(c, a)
  {
    match a
    case Bgp(_) =>
    case Path(_, _, _) =>
    case Join(l, r) => TotalSinks(c, l); TotalSinks(c, r);
    case Minus(l, _) => TotalSinks(c, l);
    case Filter(_, x) => TotalSinks(c, x);
    case GraphNode(_, x) => TotalSinks(c, x);
    case ToMultiSet(x) => TotalSinks(c, x);
    case OrderBy(x, _) => TotalSinks(c, x);
    case Distinct(x) => TotalSinks(c, x);
    case Reduced(x) => TotalSinks(c, x);
    case Slice(x, _, _) => TotalSinks(c, x);
  }

  /** Every such query passes the static test, so that pushdown keeps its rows. */
  lemma {:induction false} TotalPasses(a: Algebra)
    requires Total(a)
    ensures StaticPushSafe(a)
  {
    match a
    case Bgp(_) =>
    case Path(_, _, _) =>
    case Join(l, r) => TotalPasses(l); TotalPasses(r);
    case Minus(l, r) => TotalPasses(l); TotalPasses(r);
    case Filter(e, x) =>
      TotalPasses(x);
      forall c | c in SplitAnd(e) ensures StaticSink(c, x) { TotalSinks(c, x); }
    case GraphNode(_, x) => TotalPasses(x);
    case ToMultiSet(x) => TotalPasses(x);
    case OrderBy(x, _) => TotalPasses(x);
    case Distinct(x) => TotalPasses(x);
    case Reduced(x) => TotalPasses(x);
    case Slice(x, _, _) => TotalPasses(x);
  }
}

/** The SPARQL algebra (crates/graphy-algebra/src/algebra.rs) and its
    row-at-a-time meaning (crates/graphy-engine/src/eval.rs, `Evaluator::eval`). */
module AlgebraTree {
  import opened Seqs
  import opened Terms
  import opened Store
  import opened Rows
  import opened RowOps
  import opened Values
  import opened Expressions
  import opened Paths
  import opened PathModes

  datatype Aggregate =
    | CountAll
    | Count(distinct: bool, arg: Expression)
    | Sample(distinct: bool, arg: Expression)

  datatype Algebra =
    | Bgp(patterns: seq<TriplePat>)
    | Path(s: Pos, path: PathExpr, o: Pos)
    | Join(l: Algebra, r: Algebra)
    | LeftJoin(l: Algebra, r: Algebra, on: Option<Expression>)
    | Filter(cond: Expression, input: Algebra)
    | Union(l: Algebra, r: Algebra)
    | GraphNode(graph: Pos, input: Algebra)
    | Extend(input: Algebra, v: VarId, expr: Expression)
    | Minus(l: Algebra, r: Algebra)
    | Table(vars: seq<VarId>, rows: seq<seq<Option<Term>>>)
    | ToMultiSet(input: Algebra)
    | Group(keys: seq<(VarId, Option<Expression>)>, aggs: seq<(VarId, Aggregate)>, input: Algebra)
    | OrderBy(input: Algebra, conds: seq<(Expression, bool)>)
    | Project(input: Algebra, vars: seq<VarId>)
    | Distinct(input: Algebra)
    | Reduced(input: Algebra)
    | Slice(input: Algebra, offset: nat, limit: Option<nat>)

  // ------------------------------------------------------------- basic graph patterns

  function PatternOf(t: TriplePat, row: Row): Pattern {
    Pattern(Lookup(t.s, row), Lookup(t.p, row), Lookup(t.o, row))
  }

  function BindPos(p: Pos, t: Term, row: Row): Row {
    if p.Var? && p.v !in row then row[p.v := t] else row
  }

  function BindTriple(t: TriplePat, tr: Triple, row: Row): Row {
    BindPos(t.o, tr.o, BindPos(t.p, tr.p, BindPos(t.s, tr.s, row)))
  }

  /** `repeated_vars`: some variable stands in two positions. */
  predicate Repeated(t: TriplePat) {
    (t.s.Var? && (t.s == t.p || t.s == t.o)) || (t.p.Var? && t.p == t.o)
  }

  /** `consistent_in`: every bound position equals the scanned column. */
  predicate Consistent(t: TriplePat, row: Row, tr: Triple) {
    && (t.s.Var? && t.s.v in row ==> row[t.s.v] == tr.s)
    && (t.p.Var? && t.p.v in row ==> row[t.p.v] == tr.p)
    && (t.o.Var? && t.o.v in row ==> row[t.o.v] == tr.o)
  }

  function ScanOne(t: TriplePat, row: Row): Triple -> seq<Row> {
    (tr: Triple) =>
      var r := BindTriple(t, tr, row);
      if !Repeated(t) || Consistent(t, r, tr) then [r] else []
  }

  /** `scan_rows_in`: all extensions of one row by one triple pattern. */
  function ScanRow(g: Graph, t: TriplePat): Row -> seq<Row> {
    (row: Row) => FlatMap(ScanOne(t, row), g.scan(PatternOf(t, row)))
  }

  function BgpRows(g: Graph, ts: seq<TriplePat>, rows: seq<Row>): seq<Row> {
    if ts == [] then rows else BgpRows(g, ts[1..], FlatMap(ScanRow(g, ts[0]), rows))
  }

  function Cost(g: Graph, t: TriplePat): nat { g.estimate(PatternOf(t, map[])) }

  /** Stable insertion, the effect of `sort_by_key` on equal keys. */
  function InsertByCost(g: Graph, t: TriplePat, ts: seq<TriplePat>): seq<TriplePat> {
    if ts == [] || Cost(g, t) <= Cost(g, ts[0]) then [t] + ts else [ts[0]] + InsertByCost(g, t, ts[1..])
  }

  function SortByCost(g: Graph, ts: seq<TriplePat>): seq<TriplePat> {
    if ts == [] then [] else InsertByCost(g, ts[0], SortByCost(g, ts[1..]))
  }

  /** `eval_bgp`: bind-join in order of estimated size. */
  function EvalBgp(g: Graph, ts: seq<TriplePat>): seq<Row> {
    BgpRows(g, SortByCost(g, ts), [map[]])
  }

  // ------------------------------------------------------------- inline data

  function TableRow(vars: seq<VarId>, cells: seq<Option<Term>>, row: Row): seq<Row>
    decreases |vars|
  {
    if vars == [] || cells == [] then [row]
    else if cells[0].None? then TableRow(vars[1..], cells[1..], row)
    else if vars[0] in row && row[vars[0]] != cells[0].value then []
    else TableRow(vars[1..], cells[1..], row[vars[0] := cells[0].value])
  }

  function TableOne(vars: seq<VarId>): seq<Option<Term>> -> seq<Row> {
    (cells: seq<Option<Term>>) => TableRow(vars, cells, map[])
  }

  // ------------------------------------------------------------- grouping and ordering

  function KeyCell(en: Engine, sc: Scope, key: (VarId, Option<Expression>), r: Row): Option<Term> {
    match key.1
    case Some(e) => EvalExpr(en, sc, e, r)
    case None => if key.0 in r then Some(r[key.0]) else None
  }

  function KeyOf(en: Engine, sc: Scope, keys: seq<(VarId, Option<Expression>)>): Row -> seq<Option<Term>> {
    (r: Row) => seq(|keys|, i requires 0 <= i < |keys| => KeyCell(en, sc, keys[i], r))
  }

  function BindKeys(keys: seq<(VarId, Option<Expression>)>, cells: seq<Option<Term>>, row: Row): Row
    requires |keys| == |cells|
  {
    if keys == [] then row
    else BindKeys(keys[1..], cells[1..],
                  if cells[0].Some? then row[keys[0].0 := cells[0].value] else row - {keys[0].0})
  }

  function ArgOne(en: Engine, sc: Scope, e: Expression): Row -> seq<Term> {
    (r: Row) => match EvalExpr(en, sc, e, r) case Some(t) => [t] case None => []
  }

  function Args(en: Engine, sc: Scope, distinct: bool, e: Expression, members: seq<Row>): seq<Term> {
    var args := FlatMap(ArgOne(en, sc, e), members);
    if distinct then Absorb([], args) else args
  }

  /** `eval_aggregate` for the modelled aggregates. */
  function EvalAggregate(en: Engine, sc: Scope, agg: Aggregate, members: seq<Row>): Option<Term> {
    match agg
    case CountAll => Some(IntTerm(|members|))
    case Count(distinct, e) => Some(IntTerm(|Args(en, sc, distinct, e, members)|))
    case Sample(distinct, e) =>
      var args := Args(en, sc, distinct, e, members);
      if args == [] then None else Some(args[0])
  }

  function BindAggs(en: Engine, sc: Scope, aggs: seq<(VarId, Aggregate)>, members: seq<Row>, row: Row): Row {
    if aggs == [] then row
    else
      var t := EvalAggregate(en, sc, aggs[0].1, members);
      BindAggs(en, sc, aggs[1..], members, if t.Some? then row[aggs[0].0 := t.value] else row)
  }

  function WithKey(key: Row -> seq<Option<Term>>, k: seq<Option<Term>>): Row -> seq<Row> {
    (r: Row) => if key(r) == k then [r] else []
  }

  function GroupRow(en: Engine, sc: Scope, keys: seq<(VarId, Option<Expression>)>, aggs: seq<(VarId, Aggregate)>,
                    rows: seq<Row>)
    : seq<Option<Term>> -> seq<Row>
  {
    (k: seq<Option<Term>>) =>
      if |k| != |keys| then []
      else
        var members := FlatMap(WithKey(KeyOf(en, sc, keys), k), rows);
        [BindAggs(en, sc, aggs, members, BindKeys(keys, k, map[]))]
  }

  /** `group_rows`: groups in order of first appearance; an aggregation without
      keys over no rows yields one empty group. */
  function GroupRows(en: Engine, sc: Scope, keys: seq<(VarId, Option<Expression>)>, aggs: seq<(VarId, Aggregate)>,
                     rows: seq<Row>): seq<Row> {
    var found := Absorb([], Map(KeyOf(en, sc, keys), rows));
    FlatMap(GroupRow(en, sc, keys, aggs, rows), if keys == [] && found == [] then [[]] else found)
  }

  function SortKey(en: Engine, sc: Scope, conds: seq<(Expression, bool)>): Row -> seq<Option<Value>> {
    (r: Row) => seq(|conds|, i requires 0 <= i < |conds| =>
      match EvalExpr(en, sc, conds[i].0, r) case Some(t) => Some(ValueOf(t)) case None => None)
  }

  predicate IsPermutation(order: seq<nat>, n: nat) {
    |order| == n && (forall i :: 0 <= i < n ==> order[i] < n) &&
    (forall i, j :: 0 <= i < j < n ==> order[i] != order[j])
  }

  /** `sort_rows`: the sorter sees only the keys and directions. */
  function SortRows(en: Engine, sc: Scope, conds: seq<(Expression, bool)>, rows: seq<Row>): seq<Row> {
    var order := en.sort(Map(SortKey(en, sc, conds), rows), Map((c: (Expression, bool)) => c.1, conds));
    if IsPermutation(order, |rows|) then seq(|rows|, i requires 0 <= i < |rows| => rows[order[i]]) else rows
  }

  // ------------------------------------------------------------- evaluation

  function GraphAt(en: Engine, sc: Scope): Graph {
    match sc
    case Default => en.default
    case Named(name) => if name in en.named then en.named[name] else EMPTY_GRAPH
  }

  /** Rows of one named graph, the graph variable joined in. */
  function NamedRows(en: Engine, v: VarId, x: Algebra): Term -> seq<Row>
    decreases x, 1
  {
    (name: Term) => FlatMap(NameOne(v, name), Eval(en, Named(name), x))
  }

  function Eval(en: Engine, sc: Scope, a: Algebra): seq<Row>
    decreases a, 0
  {
    match a
    case Bgp(ts) => EvalBgp(GraphAt(en, sc), ts)
    case Path(s, p, o) => EvalPath(GraphAt(en, sc), en.stored, s, p, o, map[])
    case Join(l, r) => FlatMap(JoinOne(Eval(en, sc, r)), Eval(en, sc, l))
    case LeftJoin(l, r, on) => FlatMap(LeftOne(Pass(en, sc, on), Eval(en, sc, r)), Eval(en, sc, l))
    case Filter(e, x) => FlatMap(Keep(Test(en, sc, e)), Eval(en, sc, x))
    case Union(l, r) => Eval(en, sc, l) + Eval(en, sc, r)
    case GraphNode(g, x) => (
      match g
      case Const(name) => if name in en.named then Eval(en, Named(name), x) else []
      case Var(v) => FlatMap(NamedRows(en, v, x), en.names)
    )
    case Extend(x, v, e) => FlatMap(ExtendOne(v, ValueFn(en, sc, e)), Eval(en, sc, x))
    case Minus(l, r) => FlatMap(MinusOne(Eval(en, sc, r)), Eval(en, sc, l))
    case Table(vars, rows) => FlatMap(TableOne(vars), rows)
    case ToMultiSet(x) => Eval(en, sc, x)
    case Group(keys, aggs, x) => GroupRows(en, sc, keys, aggs, Eval(en, sc, x))
    case OrderBy(x, conds) => SortRows(en, sc, conds, Eval(en, sc, x))
    case Project(x, vars) => Map(ProjectRow(vars), Eval(en, sc, x))
    case Distinct(x) => Absorb([], Eval(en, sc, x))
    case Reduced(x) => Eval(en, sc, x)
    case Slice(x, offset, limit) => SliceRows(Eval(en, sc, x), offset, limit)
  }

  lemma {:induction false} JoinMeaning(en: Engine, sc: Scope, l: Algebra, r: Algebra)
    ensures Eval(en, sc, Join(l, r)) == FlatMap(JoinOne(Eval(en, sc, r)), Eval(en, sc, l))
  {
  }

  lemma {:induction false} LeftJoinMeaning(en: Engine, sc: Scope, l: Algebra, r: Algebra, on: Option<Expression>)
    ensures Eval(en, sc, LeftJoin(l, r, on)) == FlatMap(LeftOne(Pass(en, sc, on), Eval(en, sc, r)), Eval(en, sc, l))
  {
  }

  lemma {:induction false} FilterMeaning(en: Engine, sc: Scope, e: Expression, x: Algebra)
    ensures Eval(en, sc, Filter(e, x)) == FlatMap(Keep(Test(en, sc, e)), Eval(en, sc, x))
  {
  }

  function GraphRows(en: Engine, g: Pos, x: Algebra): seq<Row> {
    match g
    case Const(name) => if name in en.named then Eval(en, Named(name), x) else []
    case Var(v) => FlatMap(NamedRows(en, v, x), en.names)
  }

  lemma {:induction false} GraphMeaning(en: Engine, sc: Scope, g: Pos, x: Algebra)
    ensures Eval(en, sc, GraphNode(g, x)) == GraphRows(en, g, x)
  {
  }

  lemma {:induction false} PathMeaning(en: Engine, sc: Scope, s: Pos, p: PathExpr, o: Pos)
    ensures Eval(en, sc, Path(s, p, o)) == EvalPath(GraphAt(en, sc), en.stored, s, p, o, map[])
  {
  }

  lemma {:induction false} MinusMeaning(en: Engine, sc: Scope, l: Algebra, r: Algebra)
    ensures Eval(en, sc, Minus(l, r)) == FlatMap(MinusOne(Eval(en, sc, r)), Eval(en, sc, l))
  {
  }

  lemma {:induction false} ExtendMeaning(en: Engine, sc: Scope, x: Algebra, v: VarId, e: Expression)
    ensures Eval(en, sc, Extend(x, v, e)) == FlatMap(ExtendOne(v, ValueFn(en, sc, e)), Eval(en, sc, x))
  {
  }

  lemma {:induction false} ProjectMeaning(en: Engine, sc: Scope, x: Algebra, vars: seq<VarId>)
    ensures Eval(en, sc, Project(x, vars)) == Map(ProjectRow(vars), Eval(en, sc, x))
  {
  }

  lemma {:induction false} UnionMeaning(en: Engine, sc: Scope, l: Algebra, r: Algebra)
    ensures Eval(en, sc, Union(l, r)) == Eval(en, sc, l) + Eval(en, sc, r)
  {
  }

  lemma {:induction false} TableMeaning(en: Engine, sc: Scope, vars: seq<VarId>, rows: seq<seq<Option<Term>>>)
    ensures Eval(en, sc, Table(vars, rows)) == FlatMap(TableOne(vars), rows)
  {
  }

  lemma {:induction false} DistinctMeaning(en: Engine, sc: Scope, x: Algebra)
    ensures Eval(en, sc, Distinct(x)) == Absorb([], Eval(en, sc, x))
  {
  }

  lemma {:induction false} SliceMeaning(en: Engine, sc: Scope, x: Algebra, offset: nat, limit: Option<nat>)
    ensures Eval(en, sc, Slice(x, offset, limit)) == SliceRows(Eval(en, sc, x), offset, limit)
  {
  }

  lemma {:induction false} GroupMeaning(en: Engine, sc: Scope, keys: seq<(VarId, Option<Expression>)>,
                                        aggs: seq<(VarId, Aggregate)>, x: Algebra)
    ensures Eval(en, sc, Group(keys, aggs, x)) == GroupRows(en, sc, keys, aggs, Eval(en, sc, x))
  {
  }

  lemma {:induction false} OrderMeaning(en: Engine, sc: Scope, x: Algebra, conds: seq<(Expression, bool)>)
    ensures Eval(en, sc, OrderBy(x, conds)) == SortRows(en, sc, conds, Eval(en, sc, x))
  {
  }

  // ------------------------------------------------------------- visible variables

  function PatternVars(ts: seq<TriplePat>): set<VarId> {
    if ts == [] then {} else PatVars(ts[0]) + PatternVars(ts[1..])
  }

  /** `visible_vars` as a set (section 18.2.1 of SPARQL 1.1 Query). */
  function Visible(a: Algebra): set<VarId> {
    match a
    case Bgp(ts) => PatternVars(ts)
    case Path(s, _, o) => PosVars(s) + PosVars(o)
    case Join(l, r) => Visible(l) + Visible(r)
    case Union(l, r) => Visible(l) + Visible(r)
    case LeftJoin(l, r, _) => Visible(l) + Visible(r)
    case Filter(_, x) => Visible(x)
    case ToMultiSet(x) => Visible(x)
    case Distinct(x) => Visible(x)
    case Reduced(x) => Visible(x)
    case OrderBy(x, _) => Visible(x)
    case Slice(x, _, _) => Visible(x)
    case GraphNode(g, x) => PosVars(g) + Visible(x)
    case Extend(x, v, _) => Visible(x) + {v}
    case Minus(l, _) => Visible(l)
    case Table(vars, _) => set v | v in vars
    case Group(keys, aggs, _) => (set k | k in keys :: k.0) + (set g | g in aggs :: g.0)
    case Project(_, vars) => set v | v in vars
  }
}

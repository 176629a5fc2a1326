/** The evaluator's loops, each proved to push the rows its function gives
    (crates/graphy-engine/src/eval.rs, `Evaluator::eval`, `eval_bgp`, `scan_rows_in`). */
module EvalLoops {
  import opened Seqs
  import opened Terms
  import opened Store
  import opened Rows
  import opened RowOps
  import opened Expressions
  import opened Paths
  import opened PathLoops
  import opened AlgebraTree

  // ------------------------------------------------------- basic graph patterns

  method ScanPattern(g: Graph, t: TriplePat, row: Row, before: seq<Row>) returns (out: seq<Row>)
    ensures out == before + ScanRow(g, t)(row)
  {
    var batch := g.scan(PatternOf(t, row));
    out := before;
    for i := 0 to |batch|
      invariant out == before + FlatMap(ScanOne(t, row), batch[..i])
    {
      TakeNext(batch, i);
      FlatMapSnoc(ScanOne(t, row), batch[..i], batch[i]);
      var r := BindTriple(t, batch[i], row);
      if !Repeated(t) || Consistent(t, r, batch[i]) { out := out + [r]; }
    }
    TakeAll(batch);
  }

  lemma {:induction false} NoRowsLeft(g: Graph, ts: seq<TriplePat>)
    ensures BgpRows(g, ts, []) == []
  {
    if ts != [] { NoRowsLeft(g, ts[1..]); }
  }

  lemma {:induction false} DropNext<T>(s: seq<T>, i: nat)
    requires i < |s|
    ensures s[i..] == [s[i]] + s[i + 1..] && s[i..][1..] == s[i + 1..]
  {
  }

  /** `eval_bgp`: one pass per pattern over the rows so far; a single pattern is
      not costed, and the loop stops once no row is left. */
  method BindJoin(g: Graph, ts: seq<TriplePat>) returns (rows: seq<Row>)
    ensures rows == EvalBgp(g, ts)
  {
    var order := if |ts| > 1 then SortByCost(g, ts) else ts;
    assert order == SortByCost(g, ts);
    rows := [map[]];
    for k := 0 to |order|
      invariant BgpRows(g, order[k..], rows) == EvalBgp(g, ts)
    {
      DropNext(order, k);
      var t, next := order[k], [];
      for i := 0 to |rows|
        invariant next == FlatMap(ScanRow(g, t), rows[..i])
      {
        TakeNext(rows, i);
        FlatMapSnoc(ScanRow(g, t), rows[..i], rows[i]);
        next := ScanPattern(g, t, rows[i], next);
      }
      TakeAll(rows);
      rows := next;
      if rows == [] {
        NoRowsLeft(g, order[k + 1..]);
        return;
      }
    }
  }

  // ------------------------------------------------------- joins

  method JoinRows(left: seq<Row>, right: seq<Row>) returns (out: seq<Row>)
    ensures out == FlatMap(JoinOne(right), left)
  {
    out := [];
    for i := 0 to |left|
      invariant out == FlatMap(JoinOne(right), left[..i])
    {
      TakeNext(left, i);
      FlatMapSnoc(JoinOne(right), left[..i], left[i]);
      ghost var before := out;
      for j := 0 to |right|
        invariant out == before + FlatMap(MergeInto(left[i]), right[..j])
      {
        TakeNext(right, j);
        FlatMapSnoc(MergeInto(left[i]), right[..j], right[j]);
        if Compatible(left[i], right[j]) { out := out + [left[i] + right[j]]; }
      }
      TakeAll(right);
    }
    TakeAll(left);
  }

  /** The rows of one left row: every passing merge, or the row itself. */
  method ExtendLeft(pass: Row -> bool, a: Row, right: seq<Row>, before: seq<Row>) returns (out: seq<Row>)
    ensures out == before + LeftOne(pass, right)(a)
  {
    out := before;
    var extended := false;
    ghost var merged: seq<Row> := [];
    for j := 0 to |right|
      invariant merged == FlatMap(MergeIf(pass, a), right[..j])
      invariant out == before + merged
      invariant extended <==> merged != []
    {
      TakeNext(right, j);
      FlatMapSnoc(MergeIf(pass, a), right[..j], right[j]);
      assert MergeIf(pass, a)(right[j]) == if Compatible(a, right[j]) && pass(a + right[j]) then [a + right[j]] else [];
      if Compatible(a, right[j]) && pass(a + right[j]) {
        out := out + [a + right[j]];
        extended := true;
        merged := merged + [a + right[j]];
      }
    }
    TakeAll(right);
    if !extended { out := out + [a]; }
  }

  method LeftJoinRows(pass: Row -> bool, left: seq<Row>, right: seq<Row>) returns (out: seq<Row>)
    ensures out == FlatMap(LeftOne(pass, right), left)
  {
    out := [];
    for i := 0 to |left|
      invariant out == FlatMap(LeftOne(pass, right), left[..i])
    {
      TakeNext(left, i);
      FlatMapSnoc(LeftOne(pass, right), left[..i], left[i]);
      out := ExtendLeft(pass, left[i], right, out);
    }
    TakeAll(left);
  }

  // ------------------------------------------------------- named graphs, inline data, duplicates

  method BindName(v: VarId, name: Term, rows: seq<Row>, before: seq<Row>) returns (out: seq<Row>)
    ensures out == before + FlatMap(NameOne(v, name), rows)
  {
    out := before;
    for i := 0 to |rows|
      invariant out == before + FlatMap(NameOne(v, name), rows[..i])
    {
      TakeNext(rows, i);
      FlatMapSnoc(NameOne(v, name), rows[..i], rows[i]);
      if !(v in rows[i] && rows[i][v] != name) { out := out + [rows[i][v := name]]; }
    }
    TakeAll(rows);
  }

  method TableCells(vars: seq<VarId>, cells: seq<Option<Term>>, before: seq<Row>) returns (out: seq<Row>)
    ensures out == before + TableRow(vars, cells, map[])
  {
    var r: Row := map[];
    for i := 0 to if |vars| < |cells| then |vars| else |cells|
      invariant TableRow(vars[i..], cells[i..], r) == TableRow(vars, cells, map[])
    {
      DropNext(vars, i);
      DropNext(cells, i);
      if cells[i].Some? {
        if vars[i] in r && r[vars[i]] != cells[i].value { return before; }
        r := r[vars[i] := cells[i].value];
      }
    }
    out := before + [r];
  }

  method TableRows(vars: seq<VarId>, rows: seq<seq<Option<Term>>>) returns (out: seq<Row>)
    ensures out == FlatMap(TableOne(vars), rows)
  {
    out := [];
    for i := 0 to |rows|
      invariant out == FlatMap(TableOne(vars), rows[..i])
    {
      TakeNext(rows, i);
      FlatMapSnoc(TableOne(vars), rows[..i], rows[i]);
      out := TableCells(vars, rows[i], out);
    }
    TakeAll(rows);
  }

  method DistinctRows(rows: seq<Row>) returns (out: seq<Row>)
    ensures out == Absorb([], rows)
  {
    var seen: set<Row> := {};
    out := [];
    for i := 0 to |rows|
      invariant out == Absorb([], rows[..i])
      invariant forall r :: r in seen <==> r in out
    {
      AbsorbSnoc([], rows, i);
      if rows[i] !in seen {
        seen := seen + {rows[i]};
        out := out + [rows[i]];
      }
    }
    TakeAll(rows);
  }

  // ------------------------------------------------------- the evaluator

  method FilterRows(test: Row -> bool, rows: seq<Row>) returns (out: seq<Row>)
    ensures out == FlatMap(Keep(test), rows)
  {
    out := [];
    for i := 0 to |rows|
      invariant out == FlatMap(Keep(test), rows[..i])
    {
      TakeNext(rows, i);
      FlatMapSnoc(Keep(test), rows[..i], rows[i]);
      if test(rows[i]) { out := out + [rows[i]]; }
    }
    TakeAll(rows);
  }

  method NamedGraphs(en: Engine, v: VarId, x: Algebra) returns (out: seq<Row>)
    ensures out == FlatMap(NamedRows(en, v, x), en.names)
    decreases x, 3
  {
    out := [];
    for i := 0 to |en.names|
      invariant out == FlatMap(NamedRows(en, v, x), en.names[..i])
    {
      TakeNext(en.names, i);
      FlatMapSnoc(NamedRows(en, v, x), en.names[..i], en.names[i]);
      var rows := EvalTree(en, Named(en.names[i]), x);
      out := BindName(v, en.names[i], rows, out);
    }
    TakeAll(en.names);
  }

  /** `Evaluator::eval`, operand rows first, then the operator's loop. */
  method EvalTree(en: Engine, sc: Scope, a: Algebra) returns (out: seq<Row>)
    ensures out == Eval(en, sc, a)
    decreases a, 2
  {
    match a
    case Bgp(ts) => out := BindJoin(GraphAt(en, sc), ts);
    case Path(s, p, o) => out := EvalPathLoop(GraphAt(en, sc), en.stored, s, p, o, map[]);
    case Join(l, r) =>
      var left := EvalTree(en, sc, l);
      var right := EvalTree(en, sc, r);
      out := JoinRows(left, right);
    case LeftJoin(l, r, on) =>
      var left := EvalTree(en, sc, l);
      var right := EvalTree(en, sc, r);
      out := LeftJoinRows(Pass(en, sc, on), left, right);
    case Union(l, r) =>
      var left := EvalTree(en, sc, l);
      var right := EvalTree(en, sc, r);
      out := left + right;
    case Minus(l, r) =>
      var left := EvalTree(en, sc, l);
      var right := EvalTree(en, sc, r);
      out := FlatMap(MinusOne(right), left);
    case Table(vars, rows) => out := TableRows(vars, rows);
    case GraphNode(g, x) =>
      if g.Var? {
        out := NamedGraphs(en, g.v, x);
      } else if g.t in en.named {
        out := EvalTree(en, Named(g.t), x);
      } else {
        out := [];
      }
    case _ => out := EvalUnary(en, sc, a);
  }

  /** Operators that work row by row. */
  method EvalUnary(en: Engine, sc: Scope, a: Algebra) returns (out: seq<Row>)
    requires a.Filter? || a.Extend? || a.ToMultiSet? || a.Group? || a.OrderBy? || a.Project? || a.Distinct?
             || a.Reduced? || a.Slice?
    ensures out == Eval(en, sc, a)
    decreases a, 1
  {
    match a
    case Filter(e, x) =>
      var rows := EvalTree(en, sc, x);
      out := FilterRows(Test(en, sc, e), rows);
    case Extend(x, v, e) =>
      var rows := EvalTree(en, sc, x);
      out := FlatMap(ExtendOne(v, ValueFn(en, sc, e)), rows);
    case ToMultiSet(x) => out := EvalTree(en, sc, x);
    case Project(x, vars) =>
      var rows := EvalTree(en, sc, x);
      out := Map(ProjectRow(vars), rows);
    case Reduced(x) => out := EvalTree(en, sc, x);
    case _ => out := EvalWhole(en, sc, a);
  }

  /** Operators that look at all rows at once. */
  method EvalWhole(en: Engine, sc: Scope, a: Algebra) returns (out: seq<Row>)
    requires a.Group? || a.OrderBy? || a.Distinct? || a.Slice?
    ensures out == Eval(en, sc, a)
    decreases a, 0
  {
    match a
    case Group(keys, aggs, x) =>
      var rows := EvalTree(en, sc, x);
      out := GroupRows(en, sc, keys, aggs, rows);
    case OrderBy(x, conds) =>
      var rows := EvalTree(en, sc, x);
      out := SortRows(en, sc, conds, rows);
    case Distinct(x) =>
      var rows := EvalTree(en, sc, x);
      out := DistinctRows(rows);
    case Slice(x, offset, limit) =>
      var rows := EvalTree(en, sc, x);
      out := SliceRows(rows, offset, limit);
  }
}

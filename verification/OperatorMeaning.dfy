/** What each operator of the algebra does to rows, said of variables and
    positions alone: which operand rows meet, what the result rows bind, and in
    which order and how often they come (crates/graphy-engine/src/eval.rs, `eval`). */
module OperatorMeaning {
  import opened Seqs
  import opened Terms
  import opened Store
  import opened Rows
  import opened RowOps
  import opened Expressions
  import opened Paths
  import opened PathModes
  import opened AlgebraTree
  import opened BgpOrder
  import opened Positions

  /** No variable has two values. */
  ghost predicate Agreeing(a: Row, b: Row) { forall v :: v in a && v in b ==> a[v] == b[v] }

  ghost predicate Overlapping(a: Row, b: Row) { exists v :: v in a && v in b }

  ghost predicate Holds(en: Engine, sc: Scope, e: Expression, r: Row) { EvalEbv(en, sc, e, r) == Some(true) }

  // ------------------------------------------------------- joins

  /** JOIN: one row for every agreeing pair, left row by left row. */
  lemma {:induction false} JoinPairs(en: Engine, sc: Scope, l: Algebra, r: Algebra) returns (at: seq<(nat, nat)>)
    ensures var out, left, right := Eval(en, sc, Join(l, r)), Eval(en, sc, l), Eval(en, sc, r);
            InOrder(at) && |at| == |out| &&
            (forall n :: 0 <= n < |out| ==>
               at[n].0 < |left| && at[n].1 < |right| && out[n] == left[at[n].0] + right[at[n].1]) &&
            (forall i, j :: 0 <= i < |left| && 0 <= j < |right| ==> ((i, j) in at <==> Agreeing(left[i], right[j])))
  {
    var left, right := Eval(en, sc, l), Eval(en, sc, r);
    JoinMeaning(en, sc, l, r);
    at := JoinedPairs(left, right);
  }

  lemma {:induction false} JoinHits(a: Row, right: seq<Row>)
    ensures var js, rows := Hits(MergeInto(a), right), JoinOne(right)(a);
            Ascending(js) && |js| == |rows| &&
            (forall k :: 0 <= k < |js| ==> js[k] < |right| && rows[k] == a + right[js[k]]) &&
            (forall j :: 0 <= j < |right| ==> (j in js <==> Agreeing(a, right[j])))
  {
    HitsAre(MergeInto(a), right);
    forall j | 0 <= j < |right| ensures Compatible(a, right[j]) <==> Agreeing(a, right[j]) { }
  }

  lemma {:induction false} JoinedPairs(left: seq<Row>, right: seq<Row>) returns (at: seq<(nat, nat)>)
    ensures var out := FlatMap(JoinOne(right), left);
            InOrder(at) && |at| == |out| &&
            (forall n :: 0 <= n < |out| ==>
               at[n].0 < |left| && at[n].1 < |right| && out[n] == left[at[n].0] + right[at[n].1]) &&
            (forall i, j :: 0 <= i < |left| && 0 <= j < |right| ==> ((i, j) in at <==> Agreeing(left[i], right[j])))
  {
    var inner := (a: Row) => Hits(MergeInto(a), right);
    forall a ensures Ascending(inner(a)) && |inner(a)| == |JoinOne(right)(a)| { JoinHits(a, right); }
    PairHitsAre(JoinOne(right), inner, left);
    at := PairHits(inner, left);
    var out := FlatMap(JoinOne(right), left);
    forall n | 0 <= n < |out|
      ensures at[n].0 < |left| && at[n].1 < |right| && out[n] == left[at[n].0] + right[at[n].1]
    {
      assert FromPair(JoinOne(right), inner, left, at[n], out[n]);
      JoinHits(left[at[n].0], right);
    }
    forall i, j | 0 <= i < |left| && 0 <= j < |right| ensures (i, j) in at <==> Agreeing(left[i], right[j]) {
      JoinHits(left[i], right);
    }
  }

  /** The pair passes: the rows agree and their union meets the condition, if there is one. */
  ghost predicate Passes(en: Engine, sc: Scope, on: Option<Expression>, a: Row, b: Row) {
    Agreeing(a, b) && (on.Some? ==> Holds(en, sc, on.value, a + b))
  }

  /** OPTIONAL: one row for every passing pair, and the left row as it is, shown as
      a pair with the position past the right side, where no pair passes. */
  lemma {:induction false} LeftJoinPairs(en: Engine, sc: Scope, l: Algebra, r: Algebra, on: Option<Expression>)
    returns (at: seq<(nat, nat)>)
    ensures var out, left, right := Eval(en, sc, LeftJoin(l, r, on)), Eval(en, sc, l), Eval(en, sc, r);
            InOrder(at) && |at| == |out| &&
            (forall n :: 0 <= n < |out| ==>
               at[n].0 < |left| && at[n].1 <= |right| &&
               out[n] == if at[n].1 < |right| then left[at[n].0] + right[at[n].1] else left[at[n].0]) &&
            (forall i, j :: 0 <= i < |left| && 0 <= j < |right| ==>
               ((i, j) in at <==> Passes(en, sc, on, left[i], right[j]))) &&
            (forall i :: 0 <= i < |left| ==>
               ((i, |right|) in at <==> forall j :: 0 <= j < |right| ==> !Passes(en, sc, on, left[i], right[j])))
  {
    var left, right, pass := Eval(en, sc, l), Eval(en, sc, r), Pass(en, sc, on);
    LeftJoinMeaning(en, sc, l, r, on);
    at := LeftJoinedPairs(pass, left, right);
    forall i, j | 0 <= i < |left| && 0 <= j < |right|
      ensures Passes(en, sc, on, left[i], right[j]) <==> Merges(pass, left[i], right[j])
    {
    }
  }

  function PairsOf(pass: Row -> bool, right: seq<Row>): Row -> seq<nat> {
    (a: Row) => if Hits(MergeIf(pass, a), right) == [] then [|right|] else Hits(MergeIf(pass, a), right)
  }

  ghost predicate Merges(pass: Row -> bool, a: Row, b: Row) { Agreeing(a, b) && pass(a + b) }

  lemma {:induction false} MergeHits(pass: Row -> bool, right: seq<Row>, a: Row)
    ensures var js, rows := Hits(MergeIf(pass, a), right), FlatMap(MergeIf(pass, a), right);
            Ascending(js) && |js| == |rows| &&
            (forall k :: 0 <= k < |js| ==> js[k] < |right| && rows[k] == a + right[js[k]]) &&
            (forall j :: 0 <= j < |right| ==> (j in js <==> Merges(pass, a, right[j])))
  {
    var f := MergeIf(pass, a);
    HitsAre(f, right);
    forall j | 0 <= j < |right| ensures f(right[j]) == if Merges(pass, a, right[j]) then [a + right[j]] else [] {
      assert Compatible(a, right[j]) <==> Agreeing(a, right[j]);
    }
  }

  /** The right positions a left row is paired with, and the rows they give. */
  ghost predicate Pairing(pass: Row -> bool, right: seq<Row>, a: Row, js: seq<nat>, rows: seq<Row>) {
    Ascending(js) && |js| == |rows| &&
    (forall k :: 0 <= k < |js| ==> js[k] <= |right| && rows[k] == if js[k] < |right| then a + right[js[k]] else a) &&
    (forall j :: 0 <= j < |right| ==> (j in js <==> Merges(pass, a, right[j]))) &&
    (|right| in js <==> forall j :: 0 <= j < |right| ==> !Merges(pass, a, right[j]))
  }

  lemma {:induction false} PairingSome(pass: Row -> bool, right: seq<Row>, a: Row, js: seq<nat>, rows: seq<Row>)
    requires Ascending(js) && |js| == |rows| && js != []
    requires forall k :: 0 <= k < |js| ==> js[k] < |right| && rows[k] == a + right[js[k]]
    requires forall j :: 0 <= j < |right| ==> (j in js <==> Merges(pass, a, right[j]))
    ensures Pairing(pass, right, a, js, rows)
  {
    assert js[0] in js;
  }

  lemma {:induction false} PairsOfIs(pass: Row -> bool, right: seq<Row>, a: Row)
    ensures var hits, rows := Hits(MergeIf(pass, a), right), FlatMap(MergeIf(pass, a), right);
            PairsOf(pass, right)(a) == (if hits == [] then [|right|] else hits) &&
            LeftOne(pass, right)(a) == if rows == [] then [a] else rows
  {
  }

  lemma {:induction false} PairingNone(pass: Row -> bool, right: seq<Row>, a: Row)
    requires forall j :: 0 <= j < |right| ==> !Merges(pass, a, right[j])
    ensures Pairing(pass, right, a, [|right|], [a])
  {
  }

  lemma {:induction false} PairsOfOne(pass: Row -> bool, right: seq<Row>, a: Row)
    ensures Pairing(pass, right, a, PairsOf(pass, right)(a), LeftOne(pass, right)(a))
  {
    MergeHits(pass, right, a);
    PairsOfIs(pass, right, a);
    var hits := Hits(MergeIf(pass, a), right);
    if hits == [] {
      PairingNone(pass, right, a);
    } else {
      PairingSome(pass, right, a, hits, FlatMap(MergeIf(pass, a), right));
    }
  }

  lemma {:induction false} LeftJoinedPairs(pass: Row -> bool, left: seq<Row>, right: seq<Row>)
    returns (at: seq<(nat, nat)>)
    ensures var out := FlatMap(LeftOne(pass, right), left);
            InOrder(at) && |at| == |out| &&
            (forall n :: 0 <= n < |out| ==>
               at[n].0 < |left| && at[n].1 <= |right| &&
               out[n] == if at[n].1 < |right| then left[at[n].0] + right[at[n].1] else left[at[n].0]) &&
            (forall i, j :: 0 <= i < |left| && 0 <= j < |right| ==>
               ((i, j) in at <==> Merges(pass, left[i], right[j]))) &&
            (forall i :: 0 <= i < |left| ==>
               ((i, |right|) in at <==>
                forall j :: 0 <= j < |right| ==> !Merges(pass, left[i], right[j])))
  {
    var inner, f := PairsOf(pass, right), LeftOne(pass, right);
    forall a ensures Ascending(inner(a)) && |inner(a)| == |f(a)| { PairsOfOne(pass, right, a); }
    PairHitsAre(f, inner, left);
    at := PairHits(inner, left);
    var out := FlatMap(f, left);
    forall n | 0 <= n < |out|
      ensures at[n].0 < |left| && at[n].1 <= |right|
      ensures out[n] == if at[n].1 < |right| then left[at[n].0] + right[at[n].1] else left[at[n].0]
    {
      assert FromPair(f, inner, left, at[n], out[n]);
      PairsOfOne(pass, right, left[at[n].0]);
    }
    forall i | 0 <= i < |left|
      ensures forall j :: 0 <= j < |right| ==>
                ((i, j) in at <==> Merges(pass, left[i], right[j]))
      ensures (i, |right|) in at <==>
              forall j :: 0 <= j < |right| ==> !Merges(pass, left[i], right[j])
    {
      PairsOfOne(pass, right, left[i]);
    }
  }

  // ------------------------------------------------------- rows kept or dropped

  /** FILTER keeps the rows on which the condition is true, not an error. */
  lemma {:induction false} FilterKeeps(en: Engine, sc: Scope, e: Expression, x: Algebra) returns (at: seq<nat>)
    ensures var out, rows := Eval(en, sc, Filter(e, x)), Eval(en, sc, x);
            Picks(out, rows, at) && forall k :: 0 <= k < |rows| ==> (k in at <==> Holds(en, sc, e, rows[k]))
  {
    FilterMeaning(en, sc, e, x);
    HitsAre(Keep(Test(en, sc, e)), Eval(en, sc, x));
    at := Hits(Keep(Test(en, sc, e)), Eval(en, sc, x));
  }

  /** MINUS keeps the left rows for which no right row shares a bound variable and
      agrees on every one it shares. */
  lemma {:induction false} MinusKeeps(en: Engine, sc: Scope, l: Algebra, r: Algebra) returns (at: seq<nat>)
    ensures var out, left, right := Eval(en, sc, Minus(l, r)), Eval(en, sc, l), Eval(en, sc, r);
            Picks(out, left, at) &&
            forall k :: 0 <= k < |left| ==>
              (k in at <==> forall b :: b in right ==> !(Overlapping(left[k], b) && Agreeing(left[k], b)))
  {
    MinusMeaning(en, sc, l, r);
    at := MinusAt(Eval(en, sc, l), Eval(en, sc, r));
  }

  lemma {:induction false} MinusAt(left: seq<Row>, right: seq<Row>) returns (at: seq<nat>)
    ensures Picks(FlatMap(MinusOne(right), left), left, at)
    ensures forall k :: 0 <= k < |left| ==>
              (k in at <==> forall b :: b in right ==> !(Overlapping(left[k], b) && Agreeing(left[k], b)))
  {
    HitsAre(MinusOne(right), left);
    at := Hits(MinusOne(right), left);
    forall k | 0 <= k < |left|
      ensures k in at <==> forall b :: b in right ==> !(Overlapping(left[k], b) && Agreeing(left[k], b))
    {
      forall b | b in right
        ensures Overlapping(left[k], b) && Agreeing(left[k], b) <==>
                Compatible(left[k], b) && left[k].Keys * b.Keys != {}
      {
        SharedKeys(left[k], b);
      }
    }
  }

  lemma {:induction false} SharedKeys(a: Row, b: Row)
    ensures Overlapping(a, b) <==> a.Keys * b.Keys != {}
  {
    if v :| v in a && v in b { assert v in a.Keys * b.Keys; }
    if a.Keys * b.Keys != {} {
      var v :| v in a.Keys * b.Keys;
      assert v in a && v in b;
    }
  }

  /** DISTINCT keeps the first of equal rows. */
  lemma {:induction false} DistinctKeeps(en: Engine, sc: Scope, x: Algebra) returns (at: seq<nat>)
    ensures var out, rows := Eval(en, sc, Distinct(x)), Eval(en, sc, x);
            Picks(out, rows, at) &&
            forall k :: 0 <= k < |rows| ==> (k in at <==> forall j :: 0 <= j < k ==> rows[j] != rows[k])
  {
    DistinctMeaning(en, sc, x);
    at := DistinctAt(Eval(en, sc, x));
  }

  lemma {:induction false} DistinctAt<A>(rows: seq<A>) returns (at: seq<nat>)
    ensures Picks(Absorb([], rows), rows, at)
    ensures forall k :: 0 <= k < |rows| ==> (k in at <==> forall j :: 0 <= j < k ==> rows[j] != rows[k])
  {
    FirstsAre(rows);
    at := Firsts(rows);
    forall k | 0 <= k < |rows| ensures k in at <==> forall j :: 0 <= j < k ==> rows[j] != rows[k] {
      assert k in at <==> IsFirst(rows, k);
    }
  }

  /** OFFSET and LIMIT. */
  lemma {:induction false} SliceCuts(en: Engine, sc: Scope, x: Algebra, offset: nat, limit: Option<nat>)
    ensures var out, rows := Eval(en, sc, Slice(x, offset, limit)), Eval(en, sc, x);
            (forall i :: 0 <= i < |out| ==> offset + i < |rows| && out[i] == rows[offset + i]) &&
            var rest := if offset < |rows| then |rows| - offset else 0;
            |out| == if limit.Some? && limit.value < rest then limit.value else rest
  {
    SliceMeaning(en, sc, x, offset, limit);
    SlicedRows(Eval(en, sc, x), offset, limit);
  }

  lemma {:induction false} SlicedRows(rows: seq<Row>, offset: nat, limit: Option<nat>)
    ensures var out := SliceRows(rows, offset, limit);
            (forall i :: 0 <= i < |out| ==> offset + i < |rows| && out[i] == rows[offset + i]) &&
            var rest := if offset < |rows| then |rows| - offset else 0;
            |out| == if limit.Some? && limit.value < rest then limit.value else rest
  {
  }

  /** UNION is concatenation. */
  lemma {:induction false} UnionRows(en: Engine, sc: Scope, l: Algebra, r: Algebra)
    ensures var out, left, right := Eval(en, sc, Union(l, r)), Eval(en, sc, l), Eval(en, sc, r);
            |out| == |left| + |right| && (forall i :: 0 <= i < |left| ==> out[i] == left[i]) &&
            (forall j :: 0 <= j < |right| ==> out[|left| + j] == right[j])
  {
    UnionMeaning(en, sc, l, r);
  }

  /** REDUCED and inner selects pass the rows through. */
  lemma {:induction false} PassedThrough(en: Engine, sc: Scope, x: Algebra)
    ensures Eval(en, sc, Reduced(x)) == Eval(en, sc, x) && Eval(en, sc, ToMultiSet(x)) == Eval(en, sc, x)
  {
  }

  // ------------------------------------------------------- what rows bind

  /** Equal but for one variable. */
  ghost predicate SameBut(v: VarId, r: Row, s: Row) {
    forall u :: u != v ==> (u in r <==> u in s) && (u in r ==> r[u] == s[u])
  }

  /** BIND adds the value to each row, and nothing where the expression errs. */
  lemma {:induction false} ExtendBinds(en: Engine, sc: Scope, x: Algebra, v: VarId, e: Expression)
    ensures var out, rows := Eval(en, sc, Extend(x, v, e)), Eval(en, sc, x);
            |out| == |rows| &&
            forall i :: 0 <= i < |rows| ==>
              SameBut(v, out[i], rows[i]) &&
              match EvalExpr(en, sc, e, rows[i])
              case Some(t) => v in out[i] && out[i][v] == t
              case None => out[i] == rows[i]
  {
    ExtendMeaning(en, sc, x, v, e);
    ExtendedRows(v, ValueFn(en, sc, e), Eval(en, sc, x));
  }

  lemma {:induction false} ExtendedRows(v: VarId, value: Row -> Option<Term>, rows: seq<Row>)
    ensures var out := FlatMap(ExtendOne(v, value), rows);
            |out| == |rows| &&
            forall i :: 0 <= i < |rows| ==>
              SameBut(v, out[i], rows[i]) &&
              match value(rows[i])
              case Some(t) => v in out[i] && out[i][v] == t
              case None => out[i] == rows[i]
  {
    Singles(ExtendOne(v, value), rows);
  }

  /** SELECT keeps exactly the bindings of the listed variables. */
  lemma {:induction false} ProjectKeeps(en: Engine, sc: Scope, x: Algebra, vars: seq<VarId>)
    ensures var out, rows := Eval(en, sc, Project(x, vars)), Eval(en, sc, x);
            |out| == |rows| &&
            forall i, u :: 0 <= i < |rows| ==>
              (u in out[i] <==> u in vars && u in rows[i]) && (u in out[i] ==> out[i][u] == rows[i][u])
  {
    ProjectMeaning(en, sc, x, vars);
    ProjectedRows(vars, Eval(en, sc, x));
  }

  lemma {:induction false} ProjectedRows(vars: seq<VarId>, rows: seq<Row>)
    ensures var out := Map(ProjectRow(vars), rows);
            |out| == |rows| &&
            forall i, u :: 0 <= i < |rows| ==>
              (u in out[i] <==> u in vars && u in rows[i]) && (u in out[i] ==> out[i][u] == rows[i][u])
  {
  }

  /** One row per name and row that does not bind the variable to another term. */
  ghost predicate NamePairs(out: seq<Row>, v: VarId, names: seq<Term>, rowsOf: Term -> seq<Row>, at: seq<(nat, nat)>) {
    InOrder(at) && |at| == |out| &&
    (forall n :: 0 <= n < |out| ==>
       at[n].0 < |names| && at[n].1 < |rowsOf(names[at[n].0])| &&
       SameBut(v, out[n], rowsOf(names[at[n].0])[at[n].1]) && v in out[n] && out[n][v] == names[at[n].0]) &&
    (forall i, j :: 0 <= i < |names| && 0 <= j < |rowsOf(names[i])| ==>
       ((i, j) in at <==> (v in rowsOf(names[i])[j] ==> rowsOf(names[i])[j][v] == names[i])))
  }

  lemma {:induction false} NameHits(v: VarId, name: Term, rows: seq<Row>)
    ensures var js, out := Hits(NameOne(v, name), rows), FlatMap(NameOne(v, name), rows);
            Ascending(js) && |js| == |out| &&
            (forall k :: 0 <= k < |js| ==>
               js[k] < |rows| && SameBut(v, out[k], rows[js[k]]) && v in out[k] && out[k][v] == name) &&
            (forall j :: 0 <= j < |rows| ==> (j in js <==> (v in rows[j] ==> rows[j][v] == name)))
  {
    HitsAre(NameOne(v, name), rows);
  }

  lemma {:induction false} NamedPairs(f: Term -> seq<Row>, v: VarId, names: seq<Term>, rowsOf: Term -> seq<Row>)
    returns (at: seq<(nat, nat)>)
    requires forall name :: f(name) == FlatMap(NameOne(v, name), rowsOf(name))
    ensures NamePairs(FlatMap(f, names), v, names, rowsOf, at)
  {
    var inner := (name: Term) => Hits(NameOne(v, name), rowsOf(name));
    forall name ensures Ascending(inner(name)) && |inner(name)| == |f(name)| { NameHits(v, name, rowsOf(name)); }
    PairHitsAre(f, inner, names);
    at := PairHits(inner, names);
    var out := FlatMap(f, names);
    forall n | 0 <= n < |out|
      ensures at[n].0 < |names| && at[n].1 < |rowsOf(names[at[n].0])|
      ensures SameBut(v, out[n], rowsOf(names[at[n].0])[at[n].1]) && v in out[n] && out[n][v] == names[at[n].0]
    {
      assert FromPair(f, inner, names, at[n], out[n]);
      NameHits(v, names[at[n].0], rowsOf(names[at[n].0]));
    }
    forall i, j | 0 <= i < |names| && 0 <= j < |rowsOf(names[i])|
      ensures (i, j) in at <==> (v in rowsOf(names[i])[j] ==> rowsOf(names[i])[j][v] == names[i])
    {
      NameHits(v, names[i], rowsOf(names[i]));
    }
  }

  function RowsIn(en: Engine, x: Algebra): Term -> seq<Row> { (name: Term) => Eval(en, Named(name), x) }

  /** GRAPH with a variable evaluates in every named graph, in order, keeps the rows
      whose value of the variable, if any, is the name, and binds it; with a name it
      evaluates in that graph, if the dataset has it. */
  lemma {:induction false} GraphPairs(en: Engine, sc: Scope, v: VarId, x: Algebra) returns (at: seq<(nat, nat)>)
    ensures NamePairs(Eval(en, sc, GraphNode(Var(v), x)), v, en.names, RowsIn(en, x), at)
    ensures forall name :: Eval(en, sc, GraphNode(Const(name), x)) ==
                           if name in en.named then Eval(en, Named(name), x) else []
  {
    GraphMeaning(en, sc, Var(v), x);
    forall name ensures NamedRows(en, v, x)(name) == FlatMap(NameOne(v, name), RowsIn(en, x)(name)) { }
    at := NamedPairs(NamedRows(en, v, x), v, en.names, RowsIn(en, x));
    forall name
      ensures Eval(en, sc, GraphNode(Const(name), x)) == if name in en.named then Eval(en, Named(name), x) else []
    {
      GraphMeaning(en, sc, Const(name), x);
    }
  }

  // ------------------------------------------------------- leaves

  /** Cell `i` gives the variable a value. */
  predicate Cell(vars: seq<VarId>, cells: seq<Option<Term>>, i: nat, v: VarId) {
    i < |vars| && i < |cells| && vars[i] == v && cells[i].Some?
  }

  /** No variable gets two values from the cells, nor another than the row has. */
  ghost predicate Coherent(vars: seq<VarId>, cells: seq<Option<Term>>, row: Row) {
    (forall i: nat, j: nat, v :: Cell(vars, cells, i, v) && Cell(vars, cells, j, v)
        ==> cells[i].value == cells[j].value) &&
    (forall i: nat, v :: Cell(vars, cells, i, v) && v in row ==> row[v] == cells[i].value)
  }

  /** The row and what the cells give. */
  ghost predicate Filled(vars: seq<VarId>, cells: seq<Option<Term>>, row: Row, m: Row) {
    (forall v :: v in m <==> v in row || exists i: nat :: Cell(vars, cells, i, v)) &&
    (forall v :: v in row ==> v in m && m[v] == row[v]) &&
    (forall i: nat, v :: Cell(vars, cells, i, v) ==> v in m && m[v] == cells[i].value)
  }

  lemma {:induction false} CellsShift(vars: seq<VarId>, cells: seq<Option<Term>>)
    requires vars != [] && cells != []
    ensures forall i: nat, u :: Cell(vars[1..], cells[1..], i, u) <==> Cell(vars, cells, i + 1, u)
    ensures forall i: nat, u :: Cell(vars, cells, i, u) <==>
                                if i == 0 then vars[0] == u && cells[0].Some? else Cell(vars[1..], cells[1..], i - 1, u)
  {
  }

  lemma {:induction false} CellsTail(vars: seq<VarId>, cells: seq<Option<Term>>, row: Row, next: Row)
    requires vars != [] && cells != []
    requires next == if cells[0].Some? then row[vars[0] := cells[0].value] else row
    ensures Coherent(vars, cells, row) <==>
              Coherent(vars[1..], cells[1..], next) &&
              (cells[0].Some? && vars[0] in row ==> row[vars[0]] == cells[0].value)
  {
    CellsShift(vars, cells);
    var vs, cs := vars[1..], cells[1..];
    if cells[0].Some? { assert Cell(vars, cells, 0, vars[0]); }
    if Coherent(vars, cells, row) {
      forall i: nat, j: nat, u | Cell(vs, cs, i, u) && Cell(vs, cs, j, u) ensures cs[i].value == cs[j].value {
        assert Cell(vars, cells, i + 1, u) && Cell(vars, cells, j + 1, u);
      }
      forall i: nat, u | Cell(vs, cs, i, u) && u in next ensures next[u] == cs[i].value {
        assert Cell(vars, cells, i + 1, u);
      }
    }
  }

  lemma {:induction false} FilledTail(vars: seq<VarId>, cells: seq<Option<Term>>, row: Row, next: Row, m: Row)
    requires vars != [] && cells != []
    requires next == if cells[0].Some? then row[vars[0] := cells[0].value] else row
    requires cells[0].Some? && vars[0] in row ==> row[vars[0]] == cells[0].value
    requires Filled(vars[1..], cells[1..], next, m)
    ensures Filled(vars, cells, row, m)
  {
    CellsShift(vars, cells);
    var vs, cs := vars[1..], cells[1..];
    forall u ensures u in m <==> u in row || exists i: nat :: Cell(vars, cells, i, u) {
      if u in m && u !in row {
        if i: nat :| Cell(vs, cs, i, u) { assert Cell(vars, cells, i + 1, u); } else { assert Cell(vars, cells, 0, u); }
      }
      if i: nat :| Cell(vars, cells, i, u) { if i > 0 { assert Cell(vs, cs, i - 1, u); } }
    }
    forall i: nat, u | Cell(vars, cells, i, u) ensures u in m && m[u] == cells[i].value {
      if i > 0 { assert Cell(vs, cs, i - 1, u); }
    }
  }

  lemma {:induction false} TableRowIs(vars: seq<VarId>, cells: seq<Option<Term>>, row: Row)
    ensures var out := TableRow(vars, cells, row);
            if Coherent(vars, cells, row) then |out| == 1 && Filled(vars, cells, row, out[0]) else out == []
    decreases |vars|
  {
    if vars != [] && cells != [] {
      var next := if cells[0].Some? then row[vars[0] := cells[0].value] else row;
      CellsTail(vars, cells, row, next);
      TableRowIs(vars[1..], cells[1..], next);
      if Coherent(vars, cells, row) {
        FilledTail(vars, cells, row, next, TableRow(vars[1..], cells[1..], next)[0]);
      }
    } else {
      assert forall i: nat, v :: !Cell(vars, cells, i, v);
    }
  }

  /** VALUES yields one row for each coherent line, binding what its cells give. */
  lemma {:induction false} TableLines(en: Engine, sc: Scope, vars: seq<VarId>, rows: seq<seq<Option<Term>>>)
    returns (at: seq<nat>)
    ensures var out := Eval(en, sc, Table(vars, rows));
            Ascending(at) && |at| == |out| &&
            (forall n :: 0 <= n < |out| ==> at[n] < |rows| && Filled(vars, rows[at[n]], map[], out[n])) &&
            (forall k :: 0 <= k < |rows| ==> (k in at <==> Coherent(vars, rows[k], map[])))
  {
    forall i | 0 <= i < |rows|
      ensures var out := TableOne(vars)(rows[i]);
              if Coherent(vars, rows[i], map[]) then |out| == 1 && Filled(vars, rows[i], map[], out[0]) else out == []
    {
      TableRowIs(vars, rows[i], map[]);
    }
    HitsAre(TableOne(vars), rows);
    at := Hits(TableOne(vars), rows);
    TableMeaning(en, sc, vars, rows);
  }

  /** The triples a pattern is matched against in a scope. */
  function TriplesIn(en: Engine, sc: Scope): set<Triple> {
    if sc.Default? then en.default.triples
    else if sc.name in en.named then en.named[sc.name].triples
    else {}
  }

  /** A basic graph pattern in its scope: each row that binds exactly its variables
      and maps every pattern to a triple there, once. */
  lemma {:induction false} BgpMaps(en: Engine, sc: Scope, ts: seq<TriplePat>, m: Row)
    ensures NoDup(Eval(en, sc, Bgp(ts)))
    ensures m in Eval(en, sc, Bgp(ts)) <==>
            m.Keys == PatternVars(ts) && forall t :: t in ts ==> Instance(t, m) in TriplesIn(en, sc)
  {
    BgpSolutions(GraphAt(en, sc), ts, m);
    assert GraphAt(en, sc).triples == TriplesIn(en, sc);
  }

  /** The graph of a scope. */
  ghost predicate GraphOf(en: Engine, sc: Scope, g: Graph) {
    match sc
    case Default => g == en.default
    case Named(name) => name in en.named && g == en.named[name]
  }

  /** A path pattern in its scope: each pair of the path that starts at a node, once. */
  lemma {:induction false} PathPairs(en: Engine, sc: Scope, g: Graph, v: VarId, p: PathExpr, w: VarId, m: Row)
    requires GraphOf(en, sc, g) && StoredOk(g, en.stored) && Exact(p)
    ensures NoDup(Eval(en, sc, Path(Var(v), p, Var(w))))
    ensures m in Eval(en, sc, Path(Var(v), p, Var(w))) <==>
            m.Keys == {v, w} && m[v] in Nodes(g) && Denote(g, p)(m[v], m[w])
  {
    PathRows(g, en.stored, p, v, w, map[], m);
    SolvesFree(g, p, v, w, m);
    PathMeaningIn(en, sc, g, v, p, w);
  }

  lemma {:induction false} PathMeaningIn(en: Engine, sc: Scope, g: Graph, v: VarId, p: PathExpr, w: VarId)
    requires GraphOf(en, sc, g)
    ensures Eval(en, sc, Path(Var(v), p, Var(w))) == EvalPath(g, en.stored, Var(v), p, Var(w), map[])
  {
    PathMeaning(en, sc, Var(v), p, Var(w));
  }

  lemma {:induction false} SolvesFree(g: Graph, p: PathExpr, v: VarId, w: VarId, m: Row)
    ensures Solves(g, p, v, w, map[], m) <==> m.Keys == {v, w} && m[v] in Nodes(g) && Denote(g, p)(m[v], m[w])
  {
    if v in m && w in m {
      var e: Row := map[v := m[v], w := m[w]];
      assert map[][v := m[v]][w := m[w]] == e;
      assert e.Keys == {v, w};
    }
  }
}

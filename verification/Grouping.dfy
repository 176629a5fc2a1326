/** What grouping and ordering yield, said of row positions and of what single
    expressions evaluate to (crates/graphy-engine/src/eval.rs, `group_rows`,
    `eval_aggregate`, `sort_rows`). */
module Grouping {
  import opened Seqs
  import opened Terms
  import opened Rows
  import opened Values
  import opened Expressions
  import opened Paths
  import opened AlgebraTree
  import opened Positions

  type Key = (VarId, Option<Expression>)
  type Agg = (VarId, Aggregate)

  /** The row gives the key this value, or none. */
  ghost predicate KeyIs(en: Engine, sc: Scope, key: Key, r: Row, cell: Option<Term>) {
    match key.1
    case Some(e) => EvalExpr(en, sc, e, r) == cell
    case None => if cell.Some? then key.0 in r && r[key.0] == cell.value else key.0 !in r
  }

  ghost predicate SameKey(en: Engine, sc: Scope, keys: seq<Key>, r: Row, s: Row) {
    forall c, cell :: 0 <= c < |keys| ==> (KeyIs(en, sc, keys[c], r, cell) <==> KeyIs(en, sc, keys[c], s, cell))
  }

  /** The positions of the rows with the key of row `first`. */
  ghost function Members(en: Engine, sc: Scope, keys: seq<Key>, rows: seq<Row>, first: nat): set<nat>
    requires first < |rows|
  {
    set j: nat | j < |rows| && SameKey(en, sc, keys, rows[j], rows[first])
  }

  ghost predicate Errs(en: Engine, sc: Scope, e: Expression, r: Row) { EvalExpr(en, sc, e, r).None? }

  /** Rows on which the argument is no error, and the terms it has on them. */
  ghost function Without(en: Engine, sc: Scope, e: Expression, rows: seq<Row>, members: set<nat>): set<nat> {
    set j | j in members && j < |rows| && !Errs(en, sc, e, rows[j])
  }

  ghost function TermsOf(en: Engine, sc: Scope, e: Expression, rows: seq<Row>, members: set<nat>): set<Term> {
    set j | j in Without(en, sc, e, rows, members) :: EvalExpr(en, sc, e, rows[j]).value
  }

  /** The aggregate over these rows: COUNT leaves errors out, SAMPLE takes the first term. */
  ghost predicate AggregateIs(en: Engine, sc: Scope, agg: Aggregate, rows: seq<Row>, members: set<nat>,
                              value: Option<Term>) {
    match agg
    case CountAll => value == Some(IntTerm(|members|))
    case Count(false, e) => value == Some(IntTerm(|Without(en, sc, e, rows, members)|))
    case Count(true, e) => value == Some(IntTerm(|TermsOf(en, sc, e, rows, members)|))
    case Sample(_, e) =>
      match value
      case None => Without(en, sc, e, rows, members) == {}
      case Some(t) =>
        exists j: nat :: IsLeast(j, Without(en, sc, e, rows, members)) && EvalExpr(en, sc, e, rows[j]) == Some(t)
  }

  // ------------------------------------------------------- members of a group

  lemma {:induction false} KeyIsCell(en: Engine, sc: Scope, key: Key, r: Row, cell: Option<Term>)
    ensures KeyIs(en, sc, key, r, cell) <==> KeyCell(en, sc, key, r) == cell
  {
  }

  lemma {:induction false} SameKeyIff(en: Engine, sc: Scope, keys: seq<Key>, r: Row, s: Row)
    ensures KeyOf(en, sc, keys)(r) == KeyOf(en, sc, keys)(s) <==> SameKey(en, sc, keys, r, s)
  {
    var x, y := KeyOf(en, sc, keys)(r), KeyOf(en, sc, keys)(s);
    forall c, cell | 0 <= c < |keys|
      ensures KeyIs(en, sc, keys[c], r, cell) <==> x[c] == cell
      ensures KeyIs(en, sc, keys[c], s, cell) <==> y[c] == cell
    {
      KeyIsCell(en, sc, keys[c], r, cell);
      KeyIsCell(en, sc, keys[c], s, cell);
    }
    if SameKey(en, sc, keys, r, s) {
      forall c | 0 <= c < |keys| ensures x[c] == y[c] { assert KeyIs(en, sc, keys[c], s, y[c]); }
    }
  }

  /** Everything the argument evaluates to on the rows with key `k`, in row order. */
  function ArgAt(en: Engine, sc: Scope, keys: seq<Key>, k: seq<Option<Term>>, e: Expression): Row -> seq<Term> {
    (r: Row) => if KeyOf(en, sc, keys)(r) == k then ArgOne(en, sc, e)(r) else []
  }

  ghost predicate ArgList(en: Engine, sc: Scope, e: Expression, rows: seq<Row>, members: set<nat>, at: seq<nat>,
                          args: seq<Term>) {
    Ascending(at) && |at| == |args| && Elements(at) == Without(en, sc, e, rows, members) &&
    forall n :: 0 <= n < |at| ==> at[n] < |rows| && EvalExpr(en, sc, e, rows[at[n]]) == Some(args[n])
  }

  lemma {:induction false} ArgsOneByOne(en: Engine, sc: Scope, keys: seq<Key>, k: seq<Option<Term>>, e: Expression,
                                        rows: seq<Row>)
    ensures FlatMap(ArgOne(en, sc, e), FlatMap(WithKey(KeyOf(en, sc, keys), k), rows))
            == FlatMap(ArgAt(en, sc, keys, k, e), rows)
  {
    var g, f := ArgAt(en, sc, keys, k, e), WithKey(KeyOf(en, sc, keys), k);
    forall r | r in rows ensures g(r) == FlatMap(ArgOne(en, sc, e), f(r)) {
      if KeyOf(en, sc, keys)(r) == k { FlatMapOne(ArgOne(en, sc, e), r); }
    }
    FlatMapAssoc(ArgOne(en, sc, e), f, g, rows);
  }

  lemma {:induction false} ArgAtIs(en: Engine, sc: Scope, keys: seq<Key>, k: seq<Option<Term>>, e: Expression, r: Row)
    ensures ArgAt(en, sc, keys, k, e)(r) ==
            if KeyOf(en, sc, keys)(r) == k && !Errs(en, sc, e, r) then [EvalExpr(en, sc, e, r).value] else []
  {
  }

  /** The argument's term on a row where it has one. */
  function TermAt(en: Engine, sc: Scope, e: Expression, rows: seq<Row>): nat -> Term {
    (j: nat) => if j < |rows|
        && EvalExpr(en, sc, e, rows[j]).Some? then EvalExpr(en, sc, e, rows[j]).value else Simple([])
  }

  lemma {:induction false} ArgsAre(en: Engine, sc: Scope, keys: seq<Key>, k: seq<Option<Term>>, e: Expression,
                                   rows: seq<Row>, members: set<nat>) returns (at: seq<nat>)
    requires forall j: nat :: j in members <==> j < |rows| && KeyOf(en, sc, keys)(rows[j]) == k
    ensures ArgList(en, sc, e, rows, members, at,
                    FlatMap(ArgOne(en, sc, e), FlatMap(WithKey(KeyOf(en, sc, keys), k), rows)))
  {
    var g := ArgAt(en, sc, keys, k, e);
    ArgsOneByOne(en, sc, keys, k, e, rows);
    var some, val := Without(en, sc, e, rows, members), TermAt(en, sc, e, rows);
    forall j: nat | j < |rows| ensures g(rows[j]) == if j in some then [val(j)] else [] {
      ArgHit(en, sc, keys, k, e, rows, members, j);
    }
    SomeHits(g, rows, some, val);
    at := Hits(g, rows);
    ArgListFrom(en, sc, e, rows, members, at, FlatMap(g, rows));
  }

  lemma {:induction false} ArgHit(en: Engine, sc: Scope, keys: seq<Key>, k: seq<Option<Term>>, e: Expression,
                                  rows: seq<Row>, members: set<nat>, j: nat)
    requires j < |rows| && (j in members <==> KeyOf(en, sc, keys)(rows[j]) == k)
    ensures ArgAt(en, sc, keys, k, e)(rows[j]) ==
            if j in Without(en, sc, e, rows, members) then [TermAt(en, sc, e, rows)(j)] else []
  {
    ArgAtIs(en, sc, keys, k, e, rows[j]);
  }

  lemma {:induction false} ArgListFrom(en: Engine, sc: Scope, e: Expression, rows: seq<Row>, members: set<nat>,
                                       at: seq<nat>, args: seq<Term>)
    requires Ascending(at) && |at| == |args| && Elements(at) == Without(en, sc, e, rows, members)
    requires forall n :: 0 <= n < |at| ==> args[n] == TermAt(en, sc, e, rows)(at[n])
    ensures ArgList(en, sc, e, rows, members, at, args)
  {
    forall n | 0 <= n < |at| ensures at[n] < |rows| && EvalExpr(en, sc, e, rows[at[n]]) == Some(args[n]) {
      assert at[n] in Elements(at);
    }
  }

  lemma {:induction false} MembersSize(en: Engine, sc: Scope, keys: seq<Key>, k: seq<Option<Term>>, rows: seq<Row>,
                                       members: set<nat>)
    requires forall j: nat :: j in members <==> j < |rows| && KeyOf(en, sc, keys)(rows[j]) == k
    ensures |members| == |FlatMap(WithKey(KeyOf(en, sc, keys), k), rows)|
  {
    var f := WithKey(KeyOf(en, sc, keys), k);
    HitsAre(f, rows);
    var at := Hits(f, rows);
    AscendingSize(at);
    SamePositions(at, members, |rows|);
  }

  lemma {:induction false} DistinctSize<A(!new)>(xs: seq<A>, all: set<A>)
    requires forall x :: x in xs <==> x in all
    ensures |Absorb([], xs)| == |all|
  {
    var none: seq<A> := [];
    AbsorbMembers(none, xs);
    var ys := Absorb(none, xs);
    NoDupSet(ys);
    assert forall y :: y in ys <==> y in xs;
    assert (set y | y in ys) == all;
  }

  lemma {:induction false} NoDupSet<A>(ys: seq<A>)
    requires NoDup(ys)
    ensures |set y | y in ys| == |ys|
  {
    if ys != [] {
      var init, last := ys[..|ys| - 1], ys[|ys| - 1];
      NoDupSet(init);
      assert (set y | y in ys) == (set y | y in init) + {last};
      assert last !in init;
    }
  }

  lemma {:induction false} AggregateMeans(en: Engine, sc: Scope, keys: seq<Key>, k: seq<Option<Term>>, agg: Aggregate,
                                          rows: seq<Row>, members: set<nat>)
    requires forall j: nat :: j in members <==> j < |rows| && KeyOf(en, sc, keys)(rows[j]) == k
    ensures var list := FlatMap(WithKey(KeyOf(en, sc, keys), k), rows);
            forall value :: AggregateIs(en, sc, agg, rows, members, value)
                <==> EvalAggregate(en, sc, agg, list) == value
  {
    var list := FlatMap(WithKey(KeyOf(en, sc, keys), k), rows);
    match agg
    case CountAll => MembersSize(en, sc, keys, k, rows, members);
    case Count(distinct, e) =>
      var at := ArgsAre(en, sc, keys, k, e, rows, members);
      CountMeans(en, sc, e, rows, members, at, FlatMap(ArgOne(en, sc, e), list));
    case Sample(distinct, e) =>
      var at := ArgsAre(en, sc, keys, k, e, rows, members);
      SampleMeans(en, sc, distinct, e, rows, members, at, FlatMap(ArgOne(en, sc, e), list));
  }

  lemma {:induction false} CountMeans(en: Engine, sc: Scope, e: Expression, rows: seq<Row>, members: set<nat>,
                                      at: seq<nat>, args: seq<Term>)
    requires ArgList(en, sc, e, rows, members, at, args)
    ensures |args| == |Without(en, sc, e, rows, members)|
    ensures |Absorb([], args)| == |TermsOf(en, sc, e, rows, members)|
  {
    AscendingSize(at);
    forall t ensures t in args <==> t in TermsOf(en, sc, e, rows, members) {
      if t in args {
        var n :| 0 <= n < |args| && args[n] == t;
        assert at[n] in Elements(at);
      }
      if t in TermsOf(en, sc, e, rows, members) {
        var j :| j in Without(en, sc, e, rows, members) && EvalExpr(en, sc, e, rows[j]).value == t;
        assert j in Elements(at);
        var n :| 0 <= n < |at| && at[n] == j;
      }
    }
    DistinctSize(args, TermsOf(en, sc, e, rows, members));
  }

  lemma {:induction false} SampleMeans(en: Engine, sc: Scope, distinct: bool, e: Expression, rows: seq<Row>,
                                       members: set<nat>, at: seq<nat>, args: seq<Term>)
    requires ArgList(en, sc, e, rows, members, at, args)
    ensures var some := if distinct then Absorb([], args) else args;
            var first := if some == [] then None else Some(some[0]);
            forall value :: AggregateIs(en, sc, Sample(distinct, e), rows, members, value) <==> first == value
  {
    FirstStays(args);
    var all := Without(en, sc, e, rows, members);
    if args != [] {
      LeastIs(at, all);
      assert IsLeast(at[0], all) && EvalExpr(en, sc, e, rows[at[0]]) == Some(args[0]);
    } else {
      assert Elements(at) == {};
    }
  }

  lemma {:induction false} FirstStays<A>(xs: seq<A>)
    ensures Absorb([], xs) == [] <==> xs == []
    ensures xs != [] ==> Absorb([], xs)[0] == xs[0]
  {
    if xs != [] {
      var one: seq<A> := [xs[0]];
      AbsorbMembers(one, xs[1..]);
      assert [] + one == one;
      assert Absorb([], xs) == Absorb(one, xs[1..]);
      assert Absorb(one, xs[1..])[..1][0] == xs[0];
    }
  }

  // ------------------------------------------------------- what a group's row binds

  /** The last aggregate with a value decides, then the last key. */
  ghost predicate ByAggregate(en: Engine, sc: Scope, aggs: seq<Agg>, rows: seq<Row>, members: set<nat>, u: VarId,
                              t: Term) {
    exists i :: 0 <= i < |aggs| && aggs[i].0 == u && AggregateIs(en, sc, aggs[i].1, rows, members, Some(t)) &&
                SilentFrom(en, sc, aggs, rows, members, u, i + 1)
  }

  /** No aggregate from `i` on gives the variable a value. */
  ghost predicate SilentFrom(en: Engine, sc: Scope, aggs: seq<Agg>, rows: seq<Row>, members: set<nat>, u: VarId,
                             i: nat) {
    forall j :: i <= j < |aggs| && aggs[j].0 == u ==> AggregateIs(en, sc, aggs[j].1, rows, members, None)
  }

  /** The last key of that name has this value on row `r`. */
  ghost predicate ByKey(en: Engine, sc: Scope, keys: seq<Key>, r: Row, u: VarId, cell: Option<Term>) {
    exists c :: 0 <= c < |keys| && keys[c].0 == u && KeyIs(en, sc, keys[c], r, cell) &&
                forall d :: c < d < |keys| ==> keys[d].0 != u
  }

  ghost predicate NoKey(keys: seq<Key>, u: VarId) { forall c :: 0 <= c < |keys| ==> keys[c].0 != u }

  /** `m` is the row of the group that row `first` begins. */
  ghost predicate GroupRowIs(en: Engine, sc: Scope, keys: seq<Key>, aggs: seq<Agg>, rows: seq<Row>, first: nat,
                             members: set<nat>, m: Row)
    requires first < |rows|
  {
    forall u ::
      if u in m then
        ByAggregate(en, sc, aggs, rows, members, u, m[u]) ||
        (SilentFrom(en, sc, aggs, rows, members, u, 0) && ByKey(en, sc, keys, rows[first], u, Some(m[u])))
      else
        SilentFrom(en, sc, aggs, rows, members, u, 0) &&
        (NoKey(keys, u) || ByKey(en, sc, keys, rows[first], u, None))
  }

  // ------------------------------------------------------- last one wins

  lemma {:induction false} BindAggsIs(en: Engine, sc: Scope, aggs: seq<Agg>, list: seq<Row>, row: Row, u: VarId)
    ensures var m := BindAggs(en, sc, aggs, list, row);
            (u in m && exists i :: 0 <= i < |aggs| && aggs[i].0 == u &&
                                   EvalAggregate(en, sc, aggs[i].1, list) == Some(m[u])
                                       && Quiet(en, sc, aggs, list, u, i + 1))
            || (Quiet(en, sc, aggs, list, u, 0) && (u in m <==> u in row) && (u in m ==> m[u] == row[u]))
    decreases |aggs|
  {
    if aggs != [] {
      var t := EvalAggregate(en, sc, aggs[0].1, list);
      var next := if t.Some? then row[aggs[0].0 := t.value] else row;
      BindAggsIs(en, sc, aggs[1..], list, next, u);
      var m := BindAggs(en, sc, aggs, list, row);
      assert m == BindAggs(en, sc, aggs[1..], list, next);
      if i :| 0 <= i < |aggs| - 1 && u in m && aggs[1..][i].0 == u &&
              EvalAggregate(en, sc, aggs[1..][i].1, list) == Some(m[u]) && Quiet(en, sc, aggs[1..], list, u, i + 1) {
        QuietTail(en, sc, aggs, list, u, i + 2);
        assert aggs[i + 1] == aggs[1..][i];
      } else {
        QuietTail(en, sc, aggs, list, u, 1);
        if aggs[0].0 == u && t.Some? { assert EvalAggregate(en, sc, aggs[0].1, list) == Some(m[u]); }
      }
    }
  }

  ghost predicate Quiet(en: Engine, sc: Scope, aggs: seq<Agg>, list: seq<Row>, u: VarId, i: nat) {
    forall j :: i <= j < |aggs| && aggs[j].0 == u ==> EvalAggregate(en, sc, aggs[j].1, list) == None
  }

  lemma {:induction false} QuietTail(en: Engine, sc: Scope, aggs: seq<Agg>, list: seq<Row>, u: VarId, i: nat)
    requires aggs != [] && i > 0
    ensures Quiet(en, sc, aggs, list, u, i) <==> Quiet(en, sc, aggs[1..], list, u, i - 1)
  {
    forall j | 0 <= j < |aggs| - 1 ensures aggs[1..][j] == aggs[j + 1] { }
    if Quiet(en, sc, aggs[1..], list, u, i - 1) {
      forall j | i <= j < |aggs| && aggs[j].0 == u ensures EvalAggregate(en, sc, aggs[j].1, list) == None {
        assert aggs[1..][j - 1] == aggs[j];
      }
    }
  }

  lemma {:induction false} BindKeysIs(keys: seq<Key>, cells: seq<Option<Term>>, row: Row, u: VarId)
    requires |keys| == |cells|
    ensures var m := BindKeys(keys, cells, row);
            if NoKey(keys, u) then (u in m <==> u in row) && (u in m ==> m[u] == row[u])
            else exists c :: 0 <= c < |keys| && keys[c].0 == u && (forall d :: c < d < |keys| ==> keys[d].0 != u) &&
                             cells[c] == if u in m then Some(m[u]) else None
    decreases |keys|
  {
    if keys != [] {
      var next := if cells[0].Some? then row[keys[0].0 := cells[0].value] else row - {keys[0].0};
      BindKeysIs(keys[1..], cells[1..], next, u);
      forall d | 0 < d < |keys| ensures keys[d] == keys[1..][d - 1] && cells[d] == cells[1..][d - 1] { }
      if NoKey(keys[1..], u) {
        if keys[0].0 == u { assert forall d :: 0 < d < |keys| ==> keys[d].0 != u; }
      } else {
        var m := BindKeys(keys, cells, row);
        var c :| 0 <= c < |keys| - 1 && keys[1..][c].0 == u
            && (forall d :: c < d < |keys| - 1 ==> keys[1..][d].0 != u) &&
                 cells[1..][c] == if u in m then Some(m[u]) else None;
        assert keys[c + 1].0 == u && cells[c + 1] == if u in m then Some(m[u]) else None;
        assert forall d :: c + 1 < d < |keys| ==> keys[d].0 != u;
      }
    }
  }

  // ------------------------------------------------------- the groups

  lemma {:induction false} AggsAgree(en: Engine, sc: Scope, keys: seq<Key>, k: seq<Option<Term>>, aggs: seq<Agg>,
                                     rows: seq<Row>, members: set<nat>, row: Row, u: VarId)
    requires forall j: nat :: j in members <==> j < |rows| && KeyOf(en, sc, keys)(rows[j]) == k
    ensures var m := BindAggs(en, sc, aggs, FlatMap(WithKey(KeyOf(en, sc, keys), k), rows), row);
            (u in m && ByAggregate(en, sc, aggs, rows, members, u, m[u])) ||
            (SilentFrom(en, sc, aggs, rows, members, u, 0) && (u in m <==> u in row) && (u in m ==> m[u] == row[u]))
  {
    var list := FlatMap(WithKey(KeyOf(en, sc, keys), k), rows);
    forall i | 0 <= i < |aggs|
      ensures forall value :: AggregateIs(en, sc, aggs[i].1, rows, members, value) <==>
                              EvalAggregate(en, sc, aggs[i].1, list) == value
    {
      AggregateMeans(en, sc, keys, k, aggs[i].1, rows, members);
    }
    BindAggsIs(en, sc, aggs, list, row, u);
    forall i: nat | Quiet(en, sc, aggs, list, u, i) ensures SilentFrom(en, sc, aggs, rows, members, u, i) {
      forall j | i <= j < |aggs| && aggs[j].0 == u ensures AggregateIs(en, sc, aggs[j].1, rows, members, None) {
        assert EvalAggregate(en, sc, aggs[j].1, list) == None;
      }
    }
  }

  lemma {:induction false} KeyBound(en: Engine, sc: Scope, keys: seq<Key>, r: Row, u: VarId)
    ensures var b := BindKeys(keys, KeyOf(en, sc, keys)(r), map[]);
            if u in b then ByKey(en, sc, keys, r, u, Some(b[u])) else NoKey(keys, u) || ByKey(en, sc, keys, r, u, None)
  {
    var cells := KeyOf(en, sc, keys)(r);
    BindKeysIs(keys, cells, map[], u);
    forall c | 0 <= c < |keys| ensures KeyIs(en, sc, keys[c], r, cells[c]) { KeyIsCell(en, sc, keys[c], r, cells[c]); }
  }

  lemma {:induction false} OneGroup(en: Engine, sc: Scope, keys: seq<Key>, aggs: seq<Agg>, rows: seq<Row>, first: nat)
    requires first < |rows|
    ensures var out := GroupRow(en, sc, keys, aggs, rows)(KeyOf(en, sc, keys)(rows[first]));
            |out| == 1 && GroupRowIs(en, sc, keys, aggs, rows, first, Members(en, sc, keys, rows, first), out[0])
  {
    var k := KeyOf(en, sc, keys)(rows[first]);
    var bound := BindKeys(keys, k, map[]);
    var m := BindAggs(en, sc, aggs, FlatMap(WithKey(KeyOf(en, sc, keys), k), rows), bound);
    var members := Members(en, sc, keys, rows, first);
    forall j: nat ensures j in members <==> j < |rows| && KeyOf(en, sc, keys)(rows[j]) == k {
      if j < |rows| { SameKeyIff(en, sc, keys, rows[j], rows[first]); }
    }
    assert GroupRow(en, sc, keys, aggs, rows)(k) == [m];
    forall u
      ensures if u in m then
                ByAggregate(en, sc, aggs, rows, members, u, m[u]) ||
                (SilentFrom(en, sc, aggs, rows, members, u, 0) && ByKey(en, sc, keys, rows[first], u, Some(m[u])))
              else
                SilentFrom(en, sc, aggs, rows, members, u, 0) &&
                (NoKey(keys, u) || ByKey(en, sc, keys, rows[first], u, None))
    {
      AggsAgree(en, sc, keys, k, aggs, rows, members, bound, u);
      KeyBound(en, sc, keys, rows[first], u);
    }
  }

  /** GROUP BY: one row for each key, in order of first appearance, binding its keys
      and the aggregates over the rows with that key. */
  lemma {:induction false} GroupsOf(en: Engine, sc: Scope, keys: seq<Key>, aggs: seq<Agg>, x: Algebra)
    returns (at: seq<nat>)
    requires !(keys == [] && Eval(en, sc, x) == [])
    ensures var out, rows := Eval(en, sc, Group(keys, aggs, x)), Eval(en, sc, x);
            Ascending(at) && |at| == |out| &&
            (forall k :: 0 <= k < |rows| ==>
               (k in at <==> forall j :: 0 <= j < k ==> !SameKey(en, sc, keys, rows[j], rows[k]))) &&
            forall n :: 0 <= n < |out| ==>
              at[n] < |rows| &&
              GroupRowIs(en, sc, keys, aggs, rows, at[n], Members(en, sc, keys, rows, at[n]), out[n])
  {
    GroupMeaning(en, sc, keys, aggs, x);
    at := GroupsAt(en, sc, keys, aggs, Eval(en, sc, x));
  }

  lemma {:induction false} GroupsAt(en: Engine, sc: Scope, keys: seq<Key>, aggs: seq<Agg>, rows: seq<Row>)
    returns (at: seq<nat>)
    requires !(keys == [] && rows == [])
    ensures var out := GroupRows(en, sc, keys, aggs, rows);
            Ascending(at) && |at| == |out| &&
            (forall k :: 0 <= k < |rows| ==>
               (k in at <==> forall j :: 0 <= j < k ==> !SameKey(en, sc, keys, rows[j], rows[k]))) &&
            forall n :: 0 <= n < |out| ==>
              at[n] < |rows| &&
              GroupRowIs(en, sc, keys, aggs, rows, at[n], Members(en, sc, keys, rows, at[n]), out[n])
  {
    var cells := Map(KeyOf(en, sc, keys), rows);
    var f, found := GroupRow(en, sc, keys, aggs, rows), Absorb([], cells);
    FirstsAre(cells);
    FirstStays(cells);
    at := Firsts(cells);
    forall n | 0 <= n < |found|
      ensures at[n] < |rows| && |f(found[n])| == 1
      ensures GroupRowIs(en, sc, keys, aggs, rows, at[n], Members(en, sc, keys, rows, at[n]), f(found[n])[0])
    {
      OneGroup(en, sc, keys, aggs, rows, at[n]);
    }
    Singles(f, found);
    forall k | 0 <= k < |rows|
      ensures k in at <==> forall j :: 0 <= j < k ==> !SameKey(en, sc, keys, rows[j], rows[k])
    {
      forall j | 0 <= j < k ensures cells[j] == cells[k] <==> SameKey(en, sc, keys, rows[j], rows[k]) {
        SameKeyIff(en, sc, keys, rows[j], rows[k]);
      }
      assert k in at <==> IsFirst(cells, k);
    }
  }

  /** Without keys and rows there is one group all the same, with no members. */
  lemma {:induction false} EmptyGroup(en: Engine, sc: Scope, aggs: seq<Agg>, x: Algebra)
    requires Eval(en, sc, x) == []
    ensures var out := Eval(en, sc, Group([], aggs, x));
            |out| == 1 &&
            forall u :: if u in out[0] then ByAggregate(en, sc, aggs, [], {}, u, out[0][u])
                        else SilentFrom(en, sc, aggs, [], {}, u, 0)
  {
    GroupMeaning(en, sc, [], aggs, x);
    var m := BindAggs(en, sc, aggs, FlatMap(WithKey(KeyOf(en, sc, []), []), []), map[]);
    FlatMapOne(GroupRow(en, sc, [], aggs, []), []);
    assert GroupRows(en, sc, [], aggs, []) == [m];
    forall u ensures if u in m then ByAggregate(en, sc, aggs, [], {}, u, m[u]) else SilentFrom(en, sc, aggs, [], {}, u,
        0) {
      AggsAgree(en, sc, [], [], aggs, [], {}, map[], u);
    }
  }

  // ------------------------------------------------------- ordering

  /** The value of a condition on a row, or none on an error. */
  ghost predicate OrderedAs(en: Engine, sc: Scope, conds: seq<(Expression, bool)>, r: Row, key: seq<Option<Value>>) {
    |key| == |conds| &&
    forall c :: 0 <= c < |conds| ==>
      match EvalExpr(en, sc, conds[c].0, r)
      case Some(t) => key[c] == Some(ValueOf(t))
      case None => key[c] == None
  }

  /** What a sorter is asked for: a permutation after which no key comes too late. */
  ghost predicate Sorts(order: seq<nat>, keys: seq<seq<Option<Value>>>, descending: seq<bool>,
                        after: (seq<Option<Value>>, seq<Option<Value>>, seq<bool>) -> bool) {
    IsPermutation(order, |keys|) &&
    forall i, j :: 0 <= i < j < |order| ==> !after(keys[order[i]], keys[order[j]], descending)
  }

  /** ORDER BY: with a sorter that sorts by a comparison, no row comes after one that
      its conditions' values, compared in their directions, put behind it. */
  lemma {:induction false} OrderSorts(en: Engine, sc: Scope, x: Algebra, conds: seq<(Expression, bool)>,
                                      after: (seq<Option<Value>>, seq<Option<Value>>, seq<bool>) -> bool,
                                      i: nat, j: nat, a: seq<Option<Value>>, b: seq<Option<Value>>,
                                          descending: seq<bool>)
    requires forall ks, ds :: Sorts(en.sort(ks, ds), ks, ds, after)
    requires i < j < |Eval(en, sc, OrderBy(x, conds))|
    requires OrderedAs(en, sc, conds, Eval(en, sc, OrderBy(x, conds))[i], a)
    requires OrderedAs(en, sc, conds, Eval(en, sc, OrderBy(x, conds))[j], b)
    requires |descending| == |conds| && forall c :: 0 <= c < |conds| ==> descending[c] == conds[c].1
    ensures !after(a, b, descending)
  {
    OrderMeaning(en, sc, x, conds);
    var rows := Eval(en, sc, x);
    var keys := Map(SortKey(en, sc, conds), rows);
    var directions := Map((c: (Expression, bool)) => c.1, conds);
    assert directions == descending;
    var order := en.sort(keys, directions);
    assert Sorts(order, keys, directions, after);
    assert a == SortKey(en, sc, conds)(rows[order[i]]) == keys[order[i]];
    assert b == SortKey(en, sc, conds)(rows[order[j]]) == keys[order[j]];
  }
}

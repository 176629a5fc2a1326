/** Row operators of the evaluator as loops over rows, and when a filter may move
    across them. Nothing here depends on what conditions are. */
module RowOps {
  import opened Seqs
  import opened Terms
  import opened Rows

  // ------------------------------------------------------------- operators

  function MergeInto(row: Row): Row -> seq<Row> {
    (e: Row) => if Compatible(row, e) then [row + e] else []
  }

  function JoinOne(right: seq<Row>): Row -> seq<Row> {
    (a: Row) => FlatMap(MergeInto(a), right)
  }

  function MergeIf(pass: Row -> bool, a: Row): Row -> seq<Row> {
    (b: Row) => if Compatible(a, b) && pass(a + b) then [a + b] else []
  }

  /** A left row without a passing partner goes through bare. */
  function LeftOne(pass: Row -> bool, right: seq<Row>): Row -> seq<Row> {
    (a: Row) =>
      var extended := FlatMap(MergeIf(pass, a), right);
      if extended == [] then [a] else extended
  }

  function Keep(test: Row -> bool): Row -> seq<Row> {
    (r: Row) => if test(r) then [r] else []
  }

  /** Compatible with some row that shares a bound variable. */
  predicate Excluded(a: Row, right: seq<Row>) {
    exists b | b in right :: Compatible(a, b) && a.Keys * b.Keys != {}
  }

  function MinusOne(right: seq<Row>): Row -> seq<Row> {
    (a: Row) => if Excluded(a, right) then [] else [a]
  }

  /** An erroneous expression leaves the row as it is. */
  function ExtendOne(v: VarId, value: Row -> Option<Term>): Row -> seq<Row> {
    (r: Row) => if value(r).Some? then [r[v := value(r).value]] else [r]
  }

  /** The graph variable is joined in after the inner pattern. */
  function NameOne(v: VarId, name: Term): Row -> seq<Row> {
    (r: Row) => if v in r && r[v] != name then [] else [r[v := name]]
  }

  function ProjectRow(vars: seq<VarId>): Row -> Row {
    (r: Row) => map v | v in vars && v in r :: r[v]
  }

  function SliceRows(rows: seq<Row>, offset: nat, limit: Option<nat>): seq<Row> {
    var rest := if offset < |rows| then rows[offset..] else [];
    if limit.Some? && limit.value < |rest| then rest[..limit.value] else rest
  }

  // ------------------------------------------------------- left join rows

  lemma {:induction false} MergedFrom(pass: Row -> bool, right: seq<Row>, a: Row, m: Row) returns (b: Row)
    requires m in FlatMap(MergeIf(pass, a), right)
    ensures b in right && m in MergeIf(pass, a)(b)
  {
    FlatMapMember(MergeIf(pass, a), right, m);
    b :| b in right && m in MergeIf(pass, a)(b);
  }

  /** Rows of a left join extend their left row, or are it. */
  lemma {:induction false} LeftOneMember(pass: Row -> bool, right: seq<Row>, a: Row, m: Row) returns (b: Row)
    requires m in LeftOne(pass, right)(a)
    ensures m == a || (b in right && Compatible(a, b) && pass(a + b) && m == a + b)
  {
    b := a;
    if m in FlatMap(MergeIf(pass, a), right) {
      b := MergedFrom(pass, right, a, m);
    }
  }

  lemma {:induction false} LeftRowsSame(pass: Row -> bool, pass': Row -> bool, left: seq<Row>, right: seq<Row>)
    requires forall m :: pass(m) <==> pass'(m)
    ensures FlatMap(LeftOne(pass, right), left) == FlatMap(LeftOne(pass', right), left)
  {
    forall a ensures LeftOne(pass, right)(a) == LeftOne(pass', right)(a) {
      FlatMapCong(MergeIf(pass, a), MergeIf(pass', a), right);
    }
    FlatMapCong(LeftOne(pass, right), LeftOne(pass', right), left);
  }

  lemma {:induction false} NeverExtended(pass: Row -> bool, left: seq<Row>, right: seq<Row>)
    requires forall m :: !pass(m)
    ensures FlatMap(LeftOne(pass, right), left) == left
  {
    forall a ensures LeftOne(pass, right)(a) == [a] { FlatMapEmpty(MergeIf(pass, a), right); }
    FlatMapUnit(LeftOne(pass, right), left);
  }

  lemma {:induction false} JoinUnit(rows: seq<Row>)
    ensures FlatMap(JoinOne(rows), [map[]]) == rows
    ensures FlatMap(JoinOne([map[]]), rows) == rows
  {
    FlatMapOne(JoinOne(rows), map[]);
    forall b ensures MergeInto(map[])(b) == [b] { assert map[] + b == b; }
    FlatMapUnit(MergeInto(map[]), rows);
    forall a ensures JoinOne([map[]])(a) == [a] {
      assert a + map[] == a;
      FlatMapOne(MergeInto(a), map[]);
    }
    FlatMapUnit(JoinOne([map[]]), rows);
  }

  // -------------------------------------------------- filters that move

  ghost predicate Agree(vars: set<VarId>, r: Row, s: Row) {
    forall v :: v in vars ==> (v in r <==> v in s) && (v in r ==> r[v] == s[v])
  }

  /** The test reads only these variables. */
  ghost predicate DependsOn(test: Row -> bool, vars: set<VarId>) {
    forall r, s :: Agree(vars, r, s) ==> test(r) == test(s)
  }

  /** A filter commutes with any row-by-row operator whose results pass exactly
      when the row they come from passes. */
  lemma {:induction false} KeepCommutes(after: Row -> bool, before: Row -> bool, f: Row -> seq<Row>, rows: seq<Row>)
    requires forall a, m :: a in rows && m in f(a) ==> (after(m) <==> before(a))
    ensures FlatMap(Keep(after), FlatMap(f, rows)) == FlatMap(f, FlatMap(Keep(before), rows))
  {
    var h := (a: Row) => if before(a) then f(a) else [];
    forall a | a in rows ensures h(a) == FlatMap(Keep(after), f(a)) {
      if before(a) { FlatMapUnit(Keep(after), f(a)); } else { FlatMapEmpty(Keep(after), f(a)); }
    }
    FlatMapAssoc(Keep(after), f, h, rows);
    forall a ensures h(a) == FlatMap(f, Keep(before)(a)) {
      if before(a) {
        FlatMapOne(f, a);
      }
    }
    FlatMapAssoc(f, Keep(before), h, rows);
  }

  lemma {:induction false} KeepBoth(test: Row -> bool, test': Row -> bool, both: Row -> bool, rows: seq<Row>)
    requires forall r :: both(r) == (test(r) && test'(r))
    ensures FlatMap(Keep(test), FlatMap(Keep(test'), rows)) == FlatMap(Keep(both), rows)
  {
    forall r ensures Keep(both)(r) == FlatMap(Keep(test), Keep(test')(r)) {
      if test'(r) { FlatMapOne(Keep(test), r); }
    }
    FlatMapAssoc(Keep(test), Keep(test'), Keep(both), rows);
  }

  lemma {:induction false} KeepSame(test: Row -> bool, test': Row -> bool, rows: seq<Row>)
    requires forall r :: test(r) == test'(r)
    ensures FlatMap(Keep(test), rows) == FlatMap(Keep(test'), rows)
  {
    FlatMapCong(Keep(test), Keep(test'), rows);
  }

  /** No compatible row of the other side binds a condition variable that the row
      filtered early leaves unbound. */
  ghost predicate Settled(vars: set<VarId>, landing: seq<Row>, other: seq<Row>) {
    forall a, b, v :: a in landing && b in other && Compatible(a, b) && v in vars && v in b ==> v in a
  }

  /** As above for OPTIONAL, where only rows passing the join condition merge. */
  ghost predicate SettledLeft(pass: Row -> bool, vars: set<VarId>, landing: seq<Row>, other: seq<Row>) {
    forall a, b, v :: a in landing && b in other && Compatible(a, b) && pass(a + b) && v in vars && v in b ==> v in a
  }

  lemma {:induction false} SinkJoinLeft(test: Row -> bool, vars: set<VarId>, left: seq<Row>, right: seq<Row>)
    requires DependsOn(test, vars) && Settled(vars, left, right)
    ensures FlatMap(Keep(test), FlatMap(JoinOne(right), left)) == FlatMap(JoinOne(right), FlatMap(Keep(test), left))
  {
    forall a, m | a in left && m in JoinOne(right)(a) ensures test(m) <==> test(a) {
      FlatMapMember(MergeInto(a), right, m);
      assert Agree(vars, m, a);
    }
    KeepCommutes(test, test, JoinOne(right), left);
  }

  lemma {:induction false} SinkJoinRight(test: Row -> bool, vars: set<VarId>, left: seq<Row>, right: seq<Row>)
    requires DependsOn(test, vars) && Settled(vars, right, left)
    ensures FlatMap(Keep(test), FlatMap(JoinOne(right), left)) == FlatMap(JoinOne(FlatMap(Keep(test), right)), left)
  {
    forall a | a in left ensures JoinOne(FlatMap(Keep(test), right))(a) == FlatMap(Keep(test), JoinOne(right)(a)) {
      forall b, m | b in right && m in MergeInto(a)(b) ensures test(m) <==> test(b) {
        assert Compatible(b, a) && Agree(vars, m, b);
      }
      KeepCommutes(test, test, MergeInto(a), right);
    }
    FlatMapAssoc(Keep(test), JoinOne(right), JoinOne(FlatMap(Keep(test), right)), left);
  }

  lemma {:induction false} SinkLeftJoin(test: Row -> bool, pass: Row -> bool, vars: set<VarId>, left: seq<Row>,
                                        right: seq<Row>)
    requires DependsOn(test, vars) && SettledLeft(pass, vars, left, right)
    ensures FlatMap(Keep(test), FlatMap(LeftOne(pass, right), left))
            == FlatMap(LeftOne(pass, right), FlatMap(Keep(test), left))
  {
    forall a, m | a in left && m in LeftOne(pass, right)(a) ensures test(m) <==> test(a) {
      var b := LeftOneMember(pass, right, a, m);
      assert Agree(vars, m, a);
    }
    KeepCommutes(test, test, LeftOne(pass, right), left);
  }

  lemma {:induction false} SinkMinus(test: Row -> bool, left: seq<Row>, right: seq<Row>)
    ensures FlatMap(Keep(test), FlatMap(MinusOne(right), left)) == FlatMap(MinusOne(right), FlatMap(Keep(test), left))
  {
    KeepCommutes(test, test, MinusOne(right), left);
  }

  lemma {:induction false} SinkExtend(test: Row -> bool, vars: set<VarId>, v: VarId, value: Row -> Option<Term>,
                                      rows: seq<Row>)
    requires DependsOn(test, vars) && v !in vars
    ensures FlatMap(Keep(test), FlatMap(ExtendOne(v, value), rows))
            == FlatMap(ExtendOne(v, value), FlatMap(Keep(test), rows))
  {
    forall a, m | a in rows && m in ExtendOne(v, value)(a) ensures test(m) <==> test(a) { assert Agree(vars, m, a); }
    KeepCommutes(test, test, ExtendOne(v, value), rows);
  }

  lemma {:induction false} SinkNamed(after: Row -> bool, before: Row -> bool, vars: set<VarId>, v: VarId, name: Term,
                                     rows: seq<Row>)
    requires DependsOn(after, vars) && v !in vars && forall r :: after(r) == before(r)
    ensures FlatMap(Keep(after), FlatMap(NameOne(v, name), rows))
            == FlatMap(NameOne(v, name), FlatMap(Keep(before), rows))
  {
    forall a, m | a in rows && m in NameOne(v, name)(a) ensures after(m) <==> before(a) { assert Agree(vars, m, a); }
    KeepCommutes(after, before, NameOne(v, name), rows);
  }

  // ------------------------------------------------------- small cases

  lemma {:induction false} JoinSingle(a: Row, b: Row)
    requires Compatible(a, b)
    ensures FlatMap(JoinOne([b]), [a]) == [a + b]
  {
    FlatMapOne(JoinOne([b]), a);
    FlatMapOne(MergeInto(a), b);
  }

  lemma {:induction false} KeepSingle(test: Row -> bool, a: Row)
    ensures FlatMap(Keep(test), [a]) == if test(a) then [a] else []
  {
    FlatMapOne(Keep(test), a);
  }
}

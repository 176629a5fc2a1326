/** Scalar expressions and their three-valued evaluation: a term, or an error
    (crates/graphy-algebra/src/algebra.rs, crates/graphy-engine/src/eval.rs,
    `eval_expr`). */
module Expressions {
  import opened Seqs
  import opened Terms
  import opened Rows
  import opened RowOps
  import opened Values
  import opened Store

  /** `Exists` stands for the expressions that see the whole row and the graph
      scope; `id` names the pattern. */
  datatype Expression =
    | Constant(t: Term)
    | Ref(v: VarId)
    | Or(a: Expression, b: Expression)
    | And(a: Expression, b: Expression)
    | Cmp(op: CmpOp, a: Expression, b: Expression)
    | In(e: Expression, list: seq<Expression>, negated: bool)
    | Arithmetic(aop: ArithOp, a: Expression, b: Expression)
    | Not(a: Expression)
    | UnaryMinus(a: Expression)
    | UnaryPlus(a: Expression)
    | Bound(a: Expression)
    | Exists(id: nat)

  /** The graph a pattern is matched in. */
  datatype Scope = Default | Named(name: Term)

  /** Everything evaluation depends on besides the query. */
  datatype Engine = Engine(
    ops: Ops,
    default: Graph,
    names: seq<Term>,
    named: map<Term, Graph>,
    stored: set<Term>,
    exists_: (nat, Scope, Row) -> Option<bool>,
    sort: (seq<seq<Option<Value>>>, seq<bool>) -> seq<nat>)

  /** The term an expression has under a row; `None` is an evaluation error. */
  function EvalExpr(en: Engine, sc: Scope, e: Expression, row: Row): Option<Term>
    decreases e, 0
  {
    match e
    case Constant(t) => Some(t)
    case Ref(v) => if v in row then Some(row[v]) else None
    case Or(a, b) => OrTerm(EvalEbv(en, sc, a, row), EvalEbv(en, sc, b, row))
    case And(a, b) => AndTerm(EvalEbv(en, sc, a, row), EvalEbv(en, sc, b, row))
    case Not(a) => NotTerm(EvalEbv(en, sc, a, row))
    case Cmp(op, a, b) => CmpTerm(en.ops, op, EvalExpr(en, sc, a, row), EvalExpr(en, sc, b, row))
    case In(x, list, negated) => InTerm(en.ops, EvalExpr(en, sc, x, row), EvalAll(en, sc, list, row), negated)
    case Arithmetic(op, a, b) => ArithTerm(en.ops, op, EvalExpr(en, sc, a, row), EvalExpr(en, sc, b, row))
    case UnaryMinus(a) => MinusTerm(en.ops, EvalExpr(en, sc, a, row))
    case UnaryPlus(a) => PlusTerm(en.ops, EvalExpr(en, sc, a, row))
    case Bound(a) => Some(BoolTerm(EvalExpr(en, sc, a, row).Some?))
    case Exists(id) => BoolOption(en.exists_(id, sc, row))
  }

  /** Effective boolean value of the expression, `None` on error. */
  function EvalEbv(en: Engine, sc: Scope, e: Expression, row: Row): Option<bool>
    decreases e, 1
  {
    EbvOption(en.ops, EvalExpr(en, sc, e, row))
  }

  function EbvOption(ops: Ops, t: Option<Term>): Option<bool> {
    if t.Some? then Ebv(ops, ValueOf(t.value)) else None
  }

  /** Section 17.2 truth tables: an error is absorbed by a deciding operand. */
  function OrTerm(x: Option<bool>, y: Option<bool>): Option<Term> {
    if x == Some(true) || y == Some(true) then Some(BoolTerm(true))
    else if x == Some(false) && y == Some(false) then Some(BoolTerm(false))
    else None
  }

  function AndTerm(x: Option<bool>, y: Option<bool>): Option<Term> {
    if x == Some(false) || y == Some(false) then Some(BoolTerm(false))
    else if x == Some(true) && y == Some(true) then Some(BoolTerm(true))
    else None
  }

  function NotTerm(x: Option<bool>): Option<Term> {
    if x.Some? then Some(BoolTerm(!x.value)) else None
  }

  function CmpTerm(ops: Ops, op: CmpOp, x: Option<Term>, y: Option<Term>): Option<Term> {
    if x.None? || y.None? then None else BoolOption(Compare(ops, op, ValueOf(x.value), ValueOf(y.value)))
  }

  function InTerm(ops: Ops, x: Option<Term>, ys: seq<Option<Term>>, negated: bool): Option<Term> {
    if x.None? then None
    else
      var found := Search(ops, ValueOf(x.value), ys, false);
      if found.Some? then Some(BoolTerm(found.value != negated)) else None
  }

  function ArithTerm(ops: Ops, op: ArithOp, x: Option<Term>, y: Option<Term>): Option<Term> {
    if x.None? || y.None? then None else Arith(ops, op, ValueOf(x.value), ValueOf(y.value))
  }

  function MinusTerm(ops: Ops, x: Option<Term>): Option<Term> {
    if x.None? then None else Arith(ops, Sub, VInt(0), ValueOf(x.value))
  }

  function PlusTerm(ops: Ops, x: Option<Term>): Option<Term> {
    if x.None? || !IsNumeric(ops, ValueOf(x.value)) then None else x
  }

  function BoolOption(b: Option<bool>): Option<Term> {
    if b.Some? then Some(BoolTerm(b.value)) else None
  }

  function EvalAll(en: Engine, sc: Scope, list: seq<Expression>, row: Row): (r: seq<Option<Term>>)
    ensures |r| == |list|
    ensures forall i :: 0 <= i < |list| ==> r[i] == EvalExpr(en, sc, list[i], row)
    decreases list, 0
  {
    seq(|list|, i requires 0 <= i < |list| => EvalExpr(en, sc, list[i], row))
  }

  /** The IN loop: stops at the first equal member, remembers errors. */
  function Search(ops: Ops, x: Value, ys: seq<Option<Term>>, errored: bool): Option<bool> {
    if ys == [] then (if errored then None else Some(false))
    else
      match ys[0]
      case None => Search(ops, x, ys[1..], true)
      case Some(y) =>
        match EqValues(ops, x, ValueOf(y))
        case Some(true) => Some(true)
        case Some(false) => Search(ops, x, ys[1..], errored)
        case None => Search(ops, x, ys[1..], true)
  }

  /** `truthy`: the row passes a filter. */
  predicate Truthy(en: Engine, sc: Scope, e: Expression, row: Row) {
    EvalEbv(en, sc, e, row) == Some(true)
  }

  /** A condition as a test of rows. */
  function Test(en: Engine, sc: Scope, e: Expression): Row -> bool { (r: Row) => Truthy(en, sc, e, r) }

  /** An optional join condition; a missing one passes. */
  function Pass(en: Engine, sc: Scope, on: Option<Expression>): Row -> bool {
    (r: Row) => on.Some? ==> Truthy(en, sc, on.value, r)
  }

  function ValueFn(en: Engine, sc: Scope, e: Expression): Row -> Option<Term> { (r: Row) => EvalExpr(en, sc, e, r) }

  // ----------------------------------------------------- dependence

  /** `pushable_vars`: the variables a condition depends on; `None` for one that
      must not move. */
  function PushableVars(e: Expression): Option<set<VarId>> {
    match e
    case Constant(_) => Some({})
    case Ref(v) => Some({v})
    case Or(a, b) => Both(PushableVars(a), PushableVars(b))
    case And(a, b) => Both(PushableVars(a), PushableVars(b))
    case Cmp(_, a, b) => Both(PushableVars(a), PushableVars(b))
    case Arithmetic(_, a, b) => Both(PushableVars(a), PushableVars(b))
    case In(x, list, _) => Both(PushableVars(x), PushableAll(list))
    case Not(a) => PushableVars(a)
    case UnaryMinus(a) => PushableVars(a)
    case UnaryPlus(a) => PushableVars(a)
    case Bound(a) => PushableVars(a)
    case Exists(_) => None
  }

  function PushableAll(list: seq<Expression>): Option<set<VarId>> {
    if list == [] then Some({}) else Both(PushableVars(list[0]), PushableAll(list[1..]))
  }

  function Both(x: Option<set<VarId>>, y: Option<set<VarId>>): Option<set<VarId>> {
    if x.None? || y.None? then None else Some(x.value + y.value)
  }

  /** A movable condition depends only on its variables: neither the rest of the
      row nor the graph scope matters. */
  lemma {:induction false} DependsOnly(en: Engine, sc: Scope, sc': Scope, e: Expression, r: Row, s: Row)
    requires PushableVars(e).Some? && Agree(PushableVars(e).value, r, s)
    ensures EvalExpr(en, sc, e, r) == EvalExpr(en, sc', e, s)
    decreases e, 0
  {
    match e
    case Constant(_) =>
    case Ref(_) =>
    case Or(a, b) => DependsOnly(en, sc, sc', a, r, s); DependsOnly(en, sc, sc', b, r, s);
    case And(a, b) => DependsOnly(en, sc, sc', a, r, s); DependsOnly(en, sc, sc', b, r, s);
    case Cmp(_, a, b) => DependsOnly(en, sc, sc', a, r, s); DependsOnly(en, sc, sc', b, r, s);
    case Arithmetic(_, a, b) => DependsOnly(en, sc, sc', a, r, s); DependsOnly(en, sc, sc', b, r, s);
    case In(x, list, _) =>
      DependsOnly(en, sc, sc', x, r, s);
      DependsOnlyAll(en, sc, sc', list, r, s);
    case Not(a) => DependsOnly(en, sc, sc', a, r, s);
    case UnaryMinus(a) => DependsOnly(en, sc, sc', a, r, s);
    case UnaryPlus(a) => DependsOnly(en, sc, sc', a, r, s);
    case Bound(a) => DependsOnly(en, sc, sc', a, r, s);
  }

  lemma {:induction false} DependsOnlyAll(en: Engine, sc: Scope, sc': Scope, list: seq<Expression>, r: Row, s: Row)
    requires PushableAll(list).Some? && Agree(PushableAll(list).value, r, s)
    ensures EvalAll(en, sc, list, r) == EvalAll(en, sc', list, s)
    decreases list, 1
  {
    if list != [] {
      DependsOnly(en, sc, sc', list[0], r, s);
      DependsOnlyAll(en, sc, sc', list[1..], r, s);
      assert EvalAll(en, sc, list, r) == [EvalExpr(en, sc, list[0], r)] + EvalAll(en, sc, list[1..], r);
      assert EvalAll(en, sc', list, s) == [EvalExpr(en, sc', list[0], s)] + EvalAll(en, sc', list[1..], s);
    }
  }

  /** As a row test: movable conditions read their variables and no scope. */
  lemma {:induction false} MovableTest(en: Engine, sc: Scope, sc': Scope, c: Expression)
    requires PushableVars(c).Some?
    ensures DependsOn(Test(en, sc, c), PushableVars(c).value)
    ensures forall r :: Test(en, sc, c)(r) == Test(en, sc', c)(r)
  {
    forall r, s | Agree(PushableVars(c).value, r, s)
      ensures Test(en, sc, c)(r) == Test(en, sc, c)(s) && Test(en, sc, c)(r) == Test(en, sc', c)(s)
    {
      DependsOnly(en, sc, sc, c, r, s);
      DependsOnly(en, sc, sc', c, r, s);
    }
    forall r ensures Test(en, sc, c)(r) == Test(en, sc', c)(r) { assert Agree(PushableVars(c).value, r, r); }
  }
}

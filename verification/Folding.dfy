/** Constant folding (crates/graphy-algebra/src/rewrite.rs, `fold`,
    `fold_arith`, `ebv_const`, `int_const`). */
module Folding {
  import opened Seqs
  import opened Terms
  import opened Digits
  import opened Rows
  import opened Values
  import opened Expressions

  /** `ebv_const` on a constant term. */
  function EbvConst(ops: Ops, t: Term): Option<bool> {
    match t
    case Simple(lex) => Some(lex != [])
    case Lang(lex, _, _) => Some(lex != [])
    case Typed(lex, dt) =>
      if dt == XSD_BOOLEAN then
        if lex == TRUE || lex == Ascii("1") then Some(true)
        else if lex == FALSE || lex == Ascii("0") then Some(false)
        else None
      else if dt == XSD_INTEGER then
        (match ParseI64(lex) case Some(v) => Some(v != 0) case None => None)
      else ops.constEbv(t)
    case _ => None
  }

  function ConstEbv(ops: Ops, e: Expression): Option<bool> {
    if e.Constant? then EbvConst(ops, e.t) else None
  }

  function IntConst(e: Expression): (r: Option<int>)
    ensures r.Some? ==> IsI64(r.value)
  {
    if e.Constant? && e.t.Typed? && e.t.dt == XSD_INTEGER then ParseI64(e.t.lex) else None
  }

  function BoolExpr(b: bool): Expression { Constant(BoolTerm(b)) }

  function Fold(ops: Ops, e: Expression): Expression
    decreases e, 0
  {
    match e
    case And(a, b) => FoldAnd(ops, Fold(ops, a), Fold(ops, b))
    case Or(a, b) => FoldOr(ops, Fold(ops, a), Fold(ops, b))
    case Not(a) => FoldNot(ops, Fold(ops, a))
    case Cmp(op, a, b) => FoldCmp(op, Fold(ops, a), Fold(ops, b))
    case Arithmetic(op, a, b) => FoldArith(op, Fold(ops, a), Fold(ops, b))
    case UnaryMinus(a) => FoldMinus(Fold(ops, a))
    case UnaryPlus(a) => FoldPlus(Fold(ops, a))
    case In(x, list, negated) => In(Fold(ops, x), FoldAll(ops, list), negated)
    case Bound(a) => Bound(Fold(ops, a))
    case Constant(_) => e
    case Ref(_) => e
    case Exists(_) => e
  }

  lemma {:induction false} FoldOfArith(ops: Ops, op: ArithOp, a: Expression, b: Expression)
    ensures Fold(ops, Arithmetic(op, a, b)) == FoldArith(op, Fold(ops, a), Fold(ops, b))
  {
  }

  lemma {:induction false} FoldOfMinus(ops: Ops, a: Expression)
    ensures Fold(ops, UnaryMinus(a)) == FoldMinus(Fold(ops, a))
  {
  }

  lemma {:induction false} FoldOfPlus(ops: Ops, a: Expression)
    ensures Fold(ops, UnaryPlus(a)) == FoldPlus(Fold(ops, a))
  {
  }

  function FoldAll(ops: Ops, list: seq<Expression>): (r: seq<Expression>)
    ensures |r| == |list| && forall i :: 0 <= i < |list| ==> r[i] == Fold(ops, list[i])
    decreases list, 0
  {
    seq(|list|, i requires 0 <= i < |list| => Fold(ops, list[i]))
  }

  function FoldAnd(ops: Ops, a: Expression, b: Expression): Expression {
    var x, y := ConstEbv(ops, a), ConstEbv(ops, b);
    if x == Some(false) || y == Some(false) then BoolExpr(false)
    else if x == Some(true) then b
    else if y == Some(true) then a
    else And(a, b)
  }

  function FoldOr(ops: Ops, a: Expression, b: Expression): Expression {
    var x, y := ConstEbv(ops, a), ConstEbv(ops, b);
    if x == Some(true) || y == Some(true) then BoolExpr(true)
    else if x == Some(false) then b
    else if y == Some(false) then a
    else Or(a, b)
  }

  function FoldNot(ops: Ops, a: Expression): Expression {
    var x := ConstEbv(ops, a);
    if x.Some? then BoolExpr(!x.value) else Not(a)
  }

  function FoldCmp(op: CmpOp, a: Expression, b: Expression): Expression {
    var x, y := IntConst(a), IntConst(b);
    if x.Some? && y.Some? then BoolExpr(CompareInts(op, x.value, y.value)) else Cmp(op, a, b)
  }

  predicate CompareInts(op: CmpOp, x: int, y: int) {
    match op
    case Eq => x == y
    case Ne => x != y
    case Lt => x < y
    case Le => x <= y
    case Gt => x > y
    case Ge => x >= y
  }

  /** Integer division yields a decimal, so it never folds. */
  function FoldArith(op: ArithOp, a: Expression, b: Expression): Expression {
    var x, y := IntConst(a), IntConst(b);
    if op != Div && x.Some? && y.Some? && Checked(op, x.value, y.value).Some? then
      Constant(IntTerm(Checked(op, x.value, y.value).value))
    else Arithmetic(op, a, b)
  }

  function FoldMinus(a: Expression): Expression {
    var x := IntConst(a);
    if x.Some? && IsI64(-x.value) then Constant(IntTerm(-x.value)) else UnaryMinus(a)
  }

  function FoldPlus(a: Expression): Expression {
    if IntConst(a).Some? then a else UnaryPlus(a)
  }

  // ------------------------------------------------ when folding is safe

  /** What `ebv_const` reads of a constant, if anything, is its truth value. */
  predicate ConstAgrees(ops: Ops, e: Expression) {
    e.Constant? && EbvConst(ops, e.t).Some? ==> EbvConst(ops, e.t) == Ebv(ops, ValueOf(e.t))
  }

  /** Expressions that evaluate to `true`, `false` or an error. */
  predicate BoolValued(e: Expression) {
    match e
    case Constant(t) => t == BoolTerm(true) || t == BoolTerm(false)
    case Ref(_) => false
    case Arithmetic(_, _, _) => false
    case UnaryMinus(_) => false
    case UnaryPlus(_) => false
    case _ => true
  }

  /** The operand a connective collapses to, if folding drops the other one:
      `deciding` is the constant that decides, `neutral` the one dropped. */
  function Kept(ops: Ops, neutral: bool, a: Expression, b: Expression): Option<Expression> {
    var x, y := ConstEbv(ops, a), ConstEbv(ops, b);
    if x == Some(!neutral) || y == Some(!neutral) then None
    else if x == Some(neutral) then Some(b)
    else if y == Some(neutral) then Some(a)
    else None
  }

  predicate KeepsBool(k: Option<Expression>) { k.Some? ==> BoolValued(k.value) }

  /** Folding keeps the truth value of an expression in a condition. */
  predicate EbvSafe(ops: Ops, e: Expression)
    decreases e, 1
  {
    match e
    case And(a, b) => EbvSafe(ops, a) && EbvSafe(ops, b)
    case Or(a, b) => EbvSafe(ops, a) && EbvSafe(ops, b)
    case Constant(_) => ConstAgrees(ops, e)
    case _ => ValueSafe(ops, e)
  }

  /** Folding keeps the term an expression evaluates to: wherever a connective
      collapses to one operand, that operand is boolean-valued. */
  predicate ValueSafe(ops: Ops, e: Expression)
    decreases e, 0
  {
    match e
    case And(a, b) => EbvSafe(ops, a) && EbvSafe(ops, b) && KeepsBool(Kept(ops, true, Fold(ops, a), Fold(ops, b)))
    case Or(a, b) => EbvSafe(ops, a) && EbvSafe(ops, b) && KeepsBool(Kept(ops, false, Fold(ops, a), Fold(ops, b)))
    case Not(a) => EbvSafe(ops, a)
    case Cmp(_, a, b) => ValueSafe(ops, a) && ValueSafe(ops, b)
    case Arithmetic(_, a, b) => ValueSafe(ops, a) && ValueSafe(ops, b)
    case In(x, list, _) => ValueSafe(ops, x) && forall i :: 0 <= i < |list| ==> ValueSafe(ops, list[i])
    case UnaryMinus(a) => ValueSafe(ops, a)
    case UnaryPlus(a) => ValueSafe(ops, a)
    case Bound(a) => ValueSafe(ops, a)
    case _ => true
  }

  // ------------------------------------------------------- node lemmas

  lemma {:induction false} ConstDecides(en: Engine, sc: Scope, e: Expression, row: Row)
    requires ConstAgrees(en.ops, e)
    ensures ConstEbv(en.ops, e).Some? ==> EvalEbv(en, sc, e, row) == ConstEbv(en.ops, e)
  {
  }

  lemma {:induction false} BoolExprEval(en: Engine, sc: Scope, b: bool, row: Row)
    ensures EvalEbv(en, sc, BoolExpr(b), row) == Some(b) && EvalExpr(en, sc, BoolExpr(b), row) == Some(BoolTerm(b))
    ensures ConstAgrees(en.ops, BoolExpr(b))
  {
    ComputedBool(b);
    assert |TRUE| == 4 && |FALSE| == 5 && |Ascii("1")| == 1;
  }

  lemma {:induction false} IntConstEval(e: Expression)
    ensures IntConst(e).Some? ==> ValueOf(e.t) == VInt(IntConst(e).value)
  {
    BooleanIsNotInteger();
  }

  /** A boolean-valued expression evaluates to the term of its truth value. */
  lemma {:induction false} BoolValuedEval(en: Engine, sc: Scope, e: Expression, row: Row)
    requires BoolValued(e)
    ensures EvalExpr(en, sc, e, row)
            == (if EvalEbv(en, sc, e, row).Some? then Some(BoolTerm(EvalEbv(en, sc, e, row).value)) else None)
  {
    ComputedBool(true);
    ComputedBool(false);
  }

  /** The truth value of a connective is the connective of the truth values. */
  lemma {:induction false} ConnectiveEbv(en: Engine, sc: Scope, a: Expression, b: Expression, row: Row)
    ensures var x, y := EvalEbv(en, sc, a, row), EvalEbv(en, sc, b, row);
            EvalEbv(en, sc, And(a, b), row) ==
              (if x == Some(false) || y == Some(false) then Some(false)
               else if x == Some(true) && y == Some(true) then Some(true) else None) &&
            EvalEbv(en, sc, Or(a, b), row) ==
              (if x == Some(true) || y == Some(true) then Some(true)
               else if x == Some(false) && y == Some(false) then Some(false) else None)
    ensures EvalEbv(en, sc, a, row) in {None, Some(true), Some(false)}
    ensures EvalEbv(en, sc, b, row) in {None, Some(true), Some(false)}
  {
    forall e: Expression | e == a || e == b ensures EvalEbv(en, sc, e, row) in {None, Some(true), Some(false)} {
      var z := EvalEbv(en, sc, e, row);
      if z.Some? { if z.value { assert z == Some(true); } else { assert z == Some(false); } }
    }
    ComputedBool(true);
    ComputedBool(false);
    var x, y := EvalEbv(en, sc, a, row), EvalEbv(en, sc, b, row);
    assert EvalExpr(en, sc, And(a, b), row) == AndTerm(x, y);
    assert EvalExpr(en, sc, Or(a, b), row) == OrTerm(x, y);
  }

  lemma {:induction false} FoldAndEval(en: Engine, sc: Scope, a: Expression, b: Expression, row: Row)
    requires ConstAgrees(en.ops, a) && ConstAgrees(en.ops, b)
    ensures EvalEbv(en, sc, FoldAnd(en.ops, a, b), row) == EvalEbv(en, sc, And(a, b), row)
    ensures ConstAgrees(en.ops, FoldAnd(en.ops, a, b))
    ensures KeepsBool(Kept(en.ops, true, a, b)) ==>
              EvalExpr(en, sc, FoldAnd(en.ops, a, b), row) == EvalExpr(en, sc, And(a, b), row)
  {
    ConstDecides(en, sc, a, row);
    ConstDecides(en, sc, b, row);
    BoolExprEval(en, sc, true, row);
    BoolExprEval(en, sc, false, row);
    ConnectiveEbv(en, sc, a, b, row);
    var k := Kept(en.ops, true, a, b);
    if k.Some? && BoolValued(k.value) { BoolValuedEval(en, sc, k.value, row); }
  }

  lemma {:induction false} FoldOrEval(en: Engine, sc: Scope, a: Expression, b: Expression, row: Row)
    requires ConstAgrees(en.ops, a) && ConstAgrees(en.ops, b)
    ensures EvalEbv(en, sc, FoldOr(en.ops, a, b), row) == EvalEbv(en, sc, Or(a, b), row)
    ensures ConstAgrees(en.ops, FoldOr(en.ops, a, b))
    ensures KeepsBool(Kept(en.ops, false, a, b)) ==>
              EvalExpr(en, sc, FoldOr(en.ops, a, b), row) == EvalExpr(en, sc, Or(a, b), row)
  {
    ConstDecides(en, sc, a, row);
    ConstDecides(en, sc, b, row);
    BoolExprEval(en, sc, true, row);
    BoolExprEval(en, sc, false, row);
    ConnectiveEbv(en, sc, a, b, row);
    var k := Kept(en.ops, false, a, b);
    if k.Some? && BoolValued(k.value) { BoolValuedEval(en, sc, k.value, row); }
  }

  lemma {:induction false} FoldNotEval(en: Engine, sc: Scope, a: Expression, row: Row)
    requires ConstAgrees(en.ops, a)
    ensures EvalExpr(en, sc, FoldNot(en.ops, a), row) == EvalExpr(en, sc, Not(a), row)
    ensures ConstAgrees(en.ops, FoldNot(en.ops, a))
  {
    ConstDecides(en, sc, a, row);
    BoolExprEval(en, sc, true, row);
    BoolExprEval(en, sc, false, row);
  }

  lemma {:induction false} ConstCmp(en: Engine, sc: Scope, op: CmpOp, t: Term, u: Term, x: int, y: int, row: Row)
    requires ValueOf(t) == VInt(x) && ValueOf(u) == VInt(y)
    ensures EvalExpr(en, sc, Cmp(op, Constant(t), Constant(u)), row) == Some(BoolTerm(CompareInts(op, x, y)))
  {
    CompareConsts(en.ops, op, x, y);
    CmpMeaning(en, sc, op, Constant(t), Constant(u), row);
  }

  lemma {:induction false} CmpMeaning(en: Engine, sc: Scope, op: CmpOp, a: Expression, b: Expression, row: Row)
    ensures EvalExpr(en, sc, Cmp(op, a, b), row)
            == CmpTerm(en.ops, op, EvalExpr(en, sc, a, row), EvalExpr(en, sc, b, row))
  {
  }

  lemma {:induction false} CompareConsts(ops: Ops, op: CmpOp, x: int, y: int)
    ensures Compare(ops, op, VInt(x), VInt(y)) == Some(CompareInts(op, x, y))
  {
  }

  lemma {:induction false} FoldCmpEval(en: Engine, sc: Scope, op: CmpOp, a: Expression, b: Expression, row: Row)
    ensures EvalExpr(en, sc, FoldCmp(op, a, b), row) == EvalExpr(en, sc, Cmp(op, a, b), row)
    ensures ConstAgrees(en.ops, FoldCmp(op, a, b))
  {
    IntConstEval(a);
    IntConstEval(b);
    var x, y := IntConst(a), IntConst(b);
    if x.Some? && y.Some? {
      BoolExprEval(en, sc, CompareInts(op, x.value, y.value), row);
      ConstCmp(en, sc, op, a.t, b.t, x.value, y.value, row);
      assert a == Constant(a.t) && b == Constant(b.t);
    }
  }

  lemma {:induction false} IntTermAgrees(ops: Ops, i: int)
    requires IsI64(i)
    ensures ConstAgrees(ops, Constant(IntTerm(i)))
  {
    BooleanIsNotInteger();
    ComputedInt(i);
  }

  lemma {:induction false} ConstArith(en: Engine, sc: Scope, op: ArithOp, t: Term, u: Term, x: int, y: int, row: Row)
    requires op != Div && ValueOf(t) == VInt(x) && ValueOf(u) == VInt(y) && Checked(op, x, y).Some?
    ensures EvalExpr(en, sc, Arithmetic(op, Constant(t), Constant(u)), row) == Some(IntTerm(Checked(op, x, y).value))
  {
    ArithMeaning(en, sc, op, Constant(t), Constant(u), row);
    ArithConsts(en.ops, op, x, y);
  }

  lemma {:induction false} ArithMeaning(en: Engine, sc: Scope, op: ArithOp, a: Expression, b: Expression, row: Row)
    ensures EvalExpr(en, sc, Arithmetic(op, a, b), row)
            == ArithTerm(en.ops, op, EvalExpr(en, sc, a, row), EvalExpr(en, sc, b, row))
  {
  }

  lemma {:induction false} ArithConsts(ops: Ops, op: ArithOp, x: int, y: int)
    requires op != Div && Checked(op, x, y).Some?
    ensures Arith(ops, op, VInt(x), VInt(y)) == Some(IntTerm(Checked(op, x, y).value))
  {
  }

  lemma {:induction false} FoldArithEval(en: Engine, sc: Scope, op: ArithOp, a: Expression, b: Expression, row: Row)
    ensures EvalExpr(en, sc, FoldArith(op, a, b), row) == EvalExpr(en, sc, Arithmetic(op, a, b), row)
  {
    IntConstEval(a);
    IntConstEval(b);
    var x, y := IntConst(a), IntConst(b);
    if op != Div && x.Some? && y.Some? && Checked(op, x.value, y.value).Some? {
      ConstArith(en, sc, op, a.t, b.t, x.value, y.value, row);
      assert a == Constant(a.t) && b == Constant(b.t);
    }
  }

  lemma {:induction false} FoldArithAgrees(ops: Ops, op: ArithOp, a: Expression, b: Expression)
    ensures ConstAgrees(ops, FoldArith(op, a, b))
  {
    var x, y := IntConst(a), IntConst(b);
    if op != Div && x.Some? && y.Some? && Checked(op, x.value, y.value).Some? {
      IntTermAgrees(ops, Checked(op, x.value, y.value).value);
    }
  }

  lemma {:induction false} MinusMeaning(en: Engine, sc: Scope, a: Expression, row: Row)
    ensures EvalExpr(en, sc, UnaryMinus(a), row) == MinusTerm(en.ops, EvalExpr(en, sc, a, row))
  {
  }

  lemma {:induction false} FoldMinusEval(en: Engine, sc: Scope, a: Expression, row: Row)
    ensures EvalExpr(en, sc, FoldMinus(a), row) == EvalExpr(en, sc, UnaryMinus(a), row)
  {
    IntConstEval(a);
    var x := IntConst(a);
    if x.Some? && IsI64(-x.value) {
      MinusMeaning(en, sc, a, row);
      ArithConsts(en.ops, Sub, 0, x.value);
      assert a == Constant(a.t);
    }
  }

  lemma {:induction false} FoldMinusAgrees(ops: Ops, a: Expression)
    ensures ConstAgrees(ops, FoldMinus(a))
  {
    var x := IntConst(a);
    if x.Some? && IsI64(-x.value) { IntTermAgrees(ops, -x.value); }
  }

  lemma {:induction false} FoldPlusEval(en: Engine, sc: Scope, a: Expression, row: Row)
    ensures EvalExpr(en, sc, FoldPlus(a), row) == EvalExpr(en, sc, UnaryPlus(a), row)
    ensures ConstAgrees(en.ops, FoldPlus(a))
  {
    IntConstEval(a);
    BooleanIsNotInteger();
  }

  // ------------------------------------------------------ main theorems

  /** Folding keeps true, false and error of every safe condition on every row. */
  lemma {:induction false} FoldKeepsEbv(en: Engine, sc: Scope, e: Expression, row: Row)
    requires EbvSafe(en.ops, e)
    ensures EvalEbv(en, sc, Fold(en.ops, e), row) == EvalEbv(en, sc, e, row)
    ensures ConstAgrees(en.ops, Fold(en.ops, e))
    decreases e, 1
  {
    match e
    case And(a, b) =>
      FoldKeepsEbv(en, sc, a, row);
      FoldKeepsEbv(en, sc, b, row);
      FoldAndEval(en, sc, Fold(en.ops, a), Fold(en.ops, b), row);
    case Or(a, b) =>
      FoldKeepsEbv(en, sc, a, row);
      FoldKeepsEbv(en, sc, b, row);
      FoldOrEval(en, sc, Fold(en.ops, a), Fold(en.ops, b), row);
    case Constant(_) =>
    case _ => FoldKeepsValue(en, sc, e, row);
  }

  /** Folding keeps the term, or the error, of every value-safe expression. */
  lemma {:induction false} FoldKeepsValue(en: Engine, sc: Scope, e: Expression, row: Row)
    requires ValueSafe(en.ops, e)
    ensures EvalExpr(en, sc, Fold(en.ops, e), row) == EvalExpr(en, sc, e, row)
    ensures e.Constant? || ConstAgrees(en.ops, Fold(en.ops, e))
    decreases e, 0
  {
    match e
    case And(a, b) =>
      FoldKeepsEbv(en, sc, a, row);
      FoldKeepsEbv(en, sc, b, row);
      FoldAndEval(en, sc, Fold(en.ops, a), Fold(en.ops, b), row);
    case Or(a, b) =>
      FoldKeepsEbv(en, sc, a, row);
      FoldKeepsEbv(en, sc, b, row);
      FoldOrEval(en, sc, Fold(en.ops, a), Fold(en.ops, b), row);
    case Not(a) =>
      FoldKeepsEbv(en, sc, a, row);
      FoldNotEval(en, sc, Fold(en.ops, a), row);
    case Cmp(op, a, b) =>
      FoldKeepsValue(en, sc, a, row);
      FoldKeepsValue(en, sc, b, row);
      FoldCmpEval(en, sc, op, Fold(en.ops, a), Fold(en.ops, b), row);
    case Arithmetic(op, a, b) =>
      FoldKeepsValue(en, sc, a, row);
      FoldKeepsValue(en, sc, b, row);
      FoldArithEval(en, sc, op, Fold(en.ops, a), Fold(en.ops, b), row);
      FoldArithAgrees(en.ops, op, Fold(en.ops, a), Fold(en.ops, b));
    case UnaryMinus(a) =>
      FoldKeepsValue(en, sc, a, row);
      FoldMinusEval(en, sc, Fold(en.ops, a), row);
      FoldMinusAgrees(en.ops, Fold(en.ops, a));
    case UnaryPlus(a) =>
      FoldKeepsValue(en, sc, a, row);
      FoldPlusEval(en, sc, Fold(en.ops, a), row);
    case In(x, list, _) =>
      FoldKeepsValue(en, sc, x, row);
      forall i | 0 <= i < |list|
        ensures EvalExpr(en, sc, Fold(en.ops, list[i]), row) == EvalExpr(en, sc, list[i], row)
      {
        FoldKeepsValue(en, sc, list[i], row);
      }
      assert EvalAll(en, sc, FoldAll(en.ops, list), row) == EvalAll(en, sc, list, row);
    case Bound(a) => FoldKeepsValue(en, sc, a, row);
    case _ =>
  }

  /** Integer constants whose sum, difference or product fits 64 bits. */
  predicate Computes(op: ArithOp, a: Expression, b: Expression) {
    IntConst(a).Some? && IntConst(b).Some? &&
    match op
    case Add => IsI64(IntConst(a).value + IntConst(b).value)
    case Sub => IsI64(IntConst(a).value - IntConst(b).value)
    case Mul => IsI64(IntConst(a).value * IntConst(b).value)
    case Div => false
  }

  /** No node of the expression is one that folding changes: no connective or `!` has
      a constant with a truth value, no comparison or arithmetic has integer constants
      to compute with. */
  predicate Folded(ops: Ops, e: Expression) {
    match e
    case And(a, b) => Folded(ops, a) && Folded(ops, b) && ConstEbv(ops, a).None? && ConstEbv(ops, b).None?
    case Or(a, b) => Folded(ops, a) && Folded(ops, b) && ConstEbv(ops, a).None? && ConstEbv(ops, b).None?
    case Not(a) => Folded(ops, a) && ConstEbv(ops, a).None?
    case Cmp(_, a, b) => Folded(ops, a) && Folded(ops, b) && (IntConst(a).None? || IntConst(b).None?)
    case Arithmetic(op, a, b) => Folded(ops, a) && Folded(ops, b) && !Computes(op, a, b)
    case UnaryMinus(a) => Folded(ops, a) && (IntConst(a).Some? ==> IntConst(a).value == I64_MIN)
    case UnaryPlus(a) => Folded(ops, a) && IntConst(a).None?
    case In(x, list, _) => Folded(ops, x) && forall i :: 0 <= i < |list| ==> Folded(ops, list[i])
    case Bound(a) => Folded(ops, a)
    case _ => true
  }

  lemma {:induction false} TruthValue(x: Option<bool>)
    ensures x == None || x == Some(true) || x == Some(false)
  {
    if x.Some? { if x.value { assert x == Some(true); } else { assert x == Some(false); } }
  }

  lemma {:induction false} ConnectivesFolded(ops: Ops, a: Expression, b: Expression)
    requires Folded(ops, a) && Folded(ops, b)
    ensures Folded(ops, FoldAnd(ops, a, b)) && Folded(ops, FoldOr(ops, a, b)) && Folded(ops, FoldNot(ops, a))
  {
    var x, y := ConstEbv(ops, a), ConstEbv(ops, b);
    TruthValue(x);
    TruthValue(y);
  }

  lemma {:induction false} ArithFolded(ops: Ops, a: Expression, b: Expression)
    requires Folded(ops, a) && Folded(ops, b)
    ensures forall op :: Folded(ops, FoldArith(op, a, b))
    ensures forall op :: Folded(ops, FoldCmp(op, a, b))
    ensures Folded(ops, FoldMinus(a)) && Folded(ops, FoldPlus(a))
  {
  }

  /** A folded expression is such a one. */
  lemma {:induction false} FoldFolds(ops: Ops, e: Expression)
    ensures Folded(ops, Fold(ops, e))
  {
    match e
    case And(a, b) => FoldFolds(ops, a); FoldFolds(ops, b); ConnectivesFolded(ops, Fold(ops, a), Fold(ops, b));
    case Or(a, b) => FoldFolds(ops, a); FoldFolds(ops, b); ConnectivesFolded(ops, Fold(ops, a), Fold(ops, b));
    case Not(a) => FoldFolds(ops, a); ConnectivesFolded(ops, Fold(ops, a), Fold(ops, a));
    case Cmp(_, a, b) => FoldFolds(ops, a); FoldFolds(ops, b); ArithFolded(ops, Fold(ops, a), Fold(ops, b));
    case Arithmetic(_, a, b) => FoldFolds(ops, a); FoldFolds(ops, b); ArithFolded(ops, Fold(ops, a), Fold(ops, b));
    case UnaryMinus(a) => FoldFolds(ops, a); ArithFolded(ops, Fold(ops, a), Fold(ops, a));
    case UnaryPlus(a) => FoldFolds(ops, a); ArithFolded(ops, Fold(ops, a), Fold(ops, a));
    case In(x, list, _) =>
      FoldFolds(ops, x);
      forall i | 0 <= i < |list| ensures Folded(ops, Fold(ops, list[i])) { FoldFolds(ops, list[i]); }
    case Bound(a) => FoldFolds(ops, a);
    case _ =>
  }

  /** Folding leaves such an expression alone. */
  lemma {:induction false} FoldedStays(ops: Ops, e: Expression)
    requires Folded(ops, e)
    ensures Fold(ops, e) == e
  {
    match e
    case And(a, b) => FoldedStays(ops, a); FoldedStays(ops, b);
    case Or(a, b) => FoldedStays(ops, a); FoldedStays(ops, b);
    case Not(a) => FoldedStays(ops, a);
    case Cmp(_, a, b) => FoldedStays(ops, a); FoldedStays(ops, b);
    case Arithmetic(_, a, b) => FoldedStays(ops, a); FoldedStays(ops, b);
    case In(x, list, _) =>
      FoldedStays(ops, x);
      forall i | 0 <= i < |list| ensures Fold(ops, list[i]) == list[i] { FoldedStays(ops, list[i]); }
      assert FoldAll(ops, list) == list;
    case UnaryMinus(a) => FoldedStays(ops, a);
    case UnaryPlus(a) => FoldedStays(ops, a);
    case Bound(a) => FoldedStays(ops, a);
    case _ =>
  }

  /** Folding twice is folding once. */
  lemma {:induction false} FoldIdempotent(ops: Ops, e: Expression)
    ensures Fold(ops, Fold(ops, e)) == Fold(ops, e)
  {
    FoldFolds(ops, e);
    FoldedStays(ops, Fold(ops, e));
  }
}

/** Exactly where constant folding keeps what an expression evaluates to, and
    constants and operands for which it does not. */
module FoldLimits {
  import opened Seqs
  import opened Terms
  import opened Digits
  import opened Rows
  import opened Values
  import opened Expressions
  import opened Folding
  import ExactDecimal

  // ------------------------------------------------------- collapsing a connective

  ghost predicate BoolOrError(en: Engine, sc: Scope, e: Expression, row: Row) {
    EvalExpr(en, sc, e, row) in {None, Some(BoolTerm(true)), Some(BoolTerm(false))} &&
    (EvalExpr(en, sc, e, row).None? <==> EvalEbv(en, sc, e, row).None?)
  }

  /** What `fold` makes of a conjunction or disjunction of folded operands. */
  function Collapsed(ops: Ops, conjunction: bool, a: Expression, b: Expression): Expression {
    if conjunction then FoldAnd(ops, a, b) else FoldOr(ops, a, b)
  }

  ghost predicate CollapseKeeps(en: Engine, sc: Scope, conjunction: bool, a: Expression, b: Expression, row: Row) {
    EvalExpr(en, sc, Collapsed(en.ops, conjunction, a, b), row)
    == EvalExpr(en, sc, if conjunction then And(a, b) else Or(a, b), row)
  }

  /** Exactly when collapsing `&&` or `||` keeps its value: on every row the
      operand that stays evaluates to a boolean or an error. */
  lemma {:induction false} CollapseExactIff(en: Engine, sc: Scope, conjunction: bool, a: Expression, b: Expression)
    requires ConstAgrees(en.ops, a) && ConstAgrees(en.ops, b)
    ensures var k := Kept(en.ops, conjunction, a, b);
            (forall row :: CollapseKeeps(en, sc, conjunction, a, b, row))
            <==> (k.Some? ==> forall row :: BoolOrError(en, sc, k.value, row))
  {
    var k := Kept(en.ops, conjunction, a, b);
    forall row
      ensures CollapseKeeps(en, sc, conjunction, a, b, row) <==> (k.Some? ==> BoolOrError(en, sc, k.value, row))
    {
      if conjunction { CollapseAndAt(en, sc, a, b, row); } else { CollapseOrAt(en, sc, a, b, row); }
    }
    if k.Some? && forall row :: CollapseKeeps(en, sc, conjunction, a, b, row) {
      forall row ensures BoolOrError(en, sc, k.value, row) { assert CollapseKeeps(en, sc, conjunction, a, b, row); }
    }
  }

  lemma {:induction false} CollapseAndAt(en: Engine, sc: Scope, a: Expression, b: Expression, row: Row)
    requires ConstAgrees(en.ops, a) && ConstAgrees(en.ops, b)
    ensures var k := Kept(en.ops, true, a, b);
            CollapseKeeps(en, sc, true, a, b, row) <==> (k.Some? ==> BoolOrError(en, sc, k.value, row))
  {
    ComputedBool(true);
    ComputedBool(false);
    ConstDecides(en, sc, a, row);
    ConstDecides(en, sc, b, row);
    BoolExprEval(en, sc, false, row);
  }

  lemma {:induction false} CollapseOrAt(en: Engine, sc: Scope, a: Expression, b: Expression, row: Row)
    requires ConstAgrees(en.ops, a) && ConstAgrees(en.ops, b)
    ensures var k := Kept(en.ops, false, a, b);
            CollapseKeeps(en, sc, false, a, b, row) <==> (k.Some? ==> BoolOrError(en, sc, k.value, row))
  {
    ComputedBool(true);
    ComputedBool(false);
    ConstDecides(en, sc, a, row);
    ConstDecides(en, sc, b, row);
    BoolExprEval(en, sc, true, row);
  }

  /** `true && ?x` and `false || ?x` fold to `?x`, which changes the value
      whenever ?x is bound to a number: `BIND(true && ?x AS ?y)` with ?x = 5. */
  lemma {:induction false} CollapseChangesValue(en: Engine, sc: Scope, conjunction: bool)
    ensures var e := if conjunction then And(BoolExpr(true), Ref(0)) else Or(BoolExpr(false), Ref(0));
            var row: Row := map[0 := IntTerm(5)];
            EvalExpr(en, sc, e, row) == Some(BoolTerm(true)) &&
            EvalExpr(en, sc, Fold(en.ops, e), row) == Some(IntTerm(5)) &&
            IntTerm(5) != BoolTerm(true)
  {
    var row: Row := map[0 := IntTerm(5)];
    ComputedInt(5);
    ComputedBool(true);
    BoolExprEval(en, sc, true, row);
    BoolExprEval(en, sc, false, row);
  }

  // ------------------------------------------------------- reading a constant

  ghost predicate NotKeeps(en: Engine, sc: Scope, t: Term, row: Row) {
    EvalExpr(en, sc, Fold(en.ops, Not(Constant(t))), row) == EvalExpr(en, sc, Not(Constant(t)), row)
  }

  /** Exactly for which constants folding `!` keeps the outcome: those `ebv_const`
      does not read, and those it reads as they evaluate. */
  lemma {:induction false} FoldNotExactIff(en: Engine, sc: Scope, t: Term)
    ensures (forall row :: NotKeeps(en, sc, t, row)) <==> ConstAgrees(en.ops, Constant(t))
  {
    ComputedBool(true);
    ComputedBool(false);
    forall row: Row ensures NotKeeps(en, sc, t, row) <==> ConstAgrees(en.ops, Constant(t)) {
      NotAtRow(en, sc, t, row);
    }
    var none: Row := map[];
    assert NotKeeps(en, sc, t, none) <==> ConstAgrees(en.ops, Constant(t));
  }

  lemma {:induction false} NotAtRow(en: Engine, sc: Scope, t: Term, row: Row)
    ensures NotKeeps(en, sc, t, row) <==> ConstAgrees(en.ops, Constant(t))
  {
    ComputedBool(true);
    ComputedBool(false);
    var x, y := EbvConst(en.ops, t), Ebv(en.ops, ValueOf(t));
    NotOfConstant(en, sc, t, row);
    assert ValueOf(BoolTerm(true)) != ValueOf(BoolTerm(false));
    FoldOfNot(en.ops, t);
    if x.Some? { assert EvalExpr(en, sc, BoolExpr(!x.value), row) == Some(BoolTerm(!x.value)); }
  }

  lemma {:induction false} NotOfConstant(en: Engine, sc: Scope, t: Term, row: Row)
    ensures EvalExpr(en, sc, Not(Constant(t)), row) == NotTerm(Ebv(en.ops, ValueOf(t)))
  {
    assert EvalExpr(en, sc, Constant(t), row) == Some(t);
    assert EvalEbv(en, sc, Constant(t), row) == Ebv(en.ops, ValueOf(t));
  }

  lemma {:induction false} FoldOfNot(ops: Ops, t: Term)
    ensures Fold(ops, Not(Constant(t))) == FoldNot(ops, Constant(t))
  {
    assert Fold(ops, Constant(t)) == Constant(t);
  }

  /** The constants read alike on their form alone: all but language-tagged ones
      and decimals and floating-point numbers, which are read by other parsers. */
  predicate ReadAlike(t: Term) {
    match t
    case Lang(_, _, _) => false
    case Typed(_, dt) => dt == XSD_BOOLEAN || dt == XSD_INTEGER
    case _ => true
  }

  /** Those are read whenever they have a truth value and then as it is, except the
      ill-formed numbers and booleans, which are not read. */
  lemma {:induction false} ReadAlikeAgrees(ops: Ops, t: Term)
    requires ReadAlike(t)
    ensures ConstAgrees(ops, Constant(t))
    ensures EbvConst(ops, t) == if ValueOf(t).VOther? then None else Ebv(ops, ValueOf(t))
  {
    BooleanIsNotInteger();
  }

  // ------------------------------------------------------- what folding computes

  /** Built from integer constants by `+`, `-`, `*` and signs. */
  predicate ClosedInteger(e: Expression) {
    match e
    case Constant(t) => t.Typed? && t.dt == XSD_INTEGER && ParseI64(t.lex).Some?
    case Arithmetic(op, a, b) => op != Div && ClosedInteger(a) && ClosedInteger(b)
    case UnaryMinus(a) => ClosedInteger(a)
    case UnaryPlus(a) => ClosedInteger(a)
    case _ => false
  }

  /** Built from booleans and comparisons of such integers by the connectives. */
  predicate ClosedBoolean(e: Expression) {
    match e
    case Constant(t) => t == BoolTerm(true) || t == BoolTerm(false)
    case And(a, b) => ClosedBoolean(a) && ClosedBoolean(b)
    case Or(a, b) => ClosedBoolean(a) && ClosedBoolean(b)
    case Not(a) => ClosedBoolean(a)
    case Cmp(_, a, b) => ClosedInteger(a) && ClosedInteger(b)
    case _ => false
  }

  /** Folded to its value, or left open where it has none. */
  ghost predicate Computed(en: Engine, sc: Scope, e: Expression, row: Row) {
    var f := Fold(en.ops, e);
    if f.Constant? then EvalExpr(en, sc, e, row) == Some(f.t) else EvalExpr(en, sc, e, row) == None
  }

  lemma {:induction false} IntegerComputed(en: Engine, sc: Scope, e: Expression, row: Row)
    requires ClosedInteger(e)
    ensures Computed(en, sc, e, row) && (Fold(en.ops, e).Constant? ==> IntConst(Fold(en.ops, e)).Some?)
  {
    match e
    case Constant(t) =>
    case Arithmetic(op, a, b) =>
      IntegerComputed(en, sc, a, row);
      IntegerComputed(en, sc, b, row);
      ArithComputed(en, sc, op, a, b, row);
    case UnaryMinus(a) =>
      IntegerComputed(en, sc, a, row);
      MinusComputed(en, sc, a, row);
    case UnaryPlus(a) =>
      IntegerComputed(en, sc, a, row);
      PlusComputed(en, sc, a, row);
  }

  lemma {:induction false} IntTermConst(i: int)
    requires IsI64(i)
    ensures IntConst(Constant(IntTerm(i))) == Some(i)
  {
    ParseRenderInt(i);
  }

  lemma {:induction false} ArithComputed(en: Engine, sc: Scope, op: ArithOp, a: Expression, b: Expression, row: Row)
    requires op != Div && Computed(en, sc, a, row) && Computed(en, sc, b, row)
    requires Fold(en.ops, a).Constant? ==> IntConst(Fold(en.ops, a)).Some?
    requires Fold(en.ops, b).Constant? ==> IntConst(Fold(en.ops, b)).Some?
    ensures var e := Arithmetic(op, a, b);
            Computed(en, sc, e, row) && (Fold(en.ops, e).Constant? ==> IntConst(Fold(en.ops, e)).Some?)
  {
    var f, g := Fold(en.ops, a), Fold(en.ops, b);
    FoldOfArith(en.ops, op, a, b);
    ArithMeaning(en, sc, op, a, b, row);
    ArithOf(en.ops, op, f, g, EvalExpr(en, sc, a, row), EvalExpr(en, sc, b, row));
  }

  lemma {:induction false} ArithOf(ops: Ops, op: ArithOp, f: Expression, g: Expression, v: Option<Term>,
                                   w: Option<Term>)
    requires op != Div
    requires if f.Constant? then v == Some(f.t) && IntConst(f).Some? else v == None
    requires if g.Constant? then w == Some(g.t) && IntConst(g).Some? else w == None
    ensures var h := FoldArith(op, f, g);
            if h.Constant? then ArithTerm(ops, op, v, w) == Some(h.t) && IntConst(h).Some?
            else ArithTerm(ops, op, v, w) == None
  {
    if f.Constant? && g.Constant? {
      IntConstEval(f);
      IntConstEval(g);
      Combined(ops, op, IntConst(f).value, IntConst(g).value);
      var v := Checked(op, IntConst(f).value, IntConst(g).value);
      if v.Some? { IntTermConst(v.value); }
    }
  }

  lemma {:induction false} Combined(ops: Ops, op: ArithOp, x: int, y: int)
    requires op != Div
    ensures Arith(ops, op, VInt(x), VInt(y)) ==
            match Checked(op, x, y) case Some(v) => Some(IntTerm(v)) case None => None
  {
  }

  lemma {:induction false} MinusComputed(en: Engine, sc: Scope, a: Expression, row: Row)
    requires Computed(en, sc, a, row)
    requires Fold(en.ops, a).Constant? ==> IntConst(Fold(en.ops, a)).Some?
    ensures Computed(en, sc, UnaryMinus(a), row)
    ensures Fold(en.ops, UnaryMinus(a)).Constant? ==> IntConst(Fold(en.ops, UnaryMinus(a))).Some?
  {
    var f := Fold(en.ops, a);
    FoldOfMinus(en.ops, a);
    MinusMeaning(en, sc, a, row);
    MinusOf(en.ops, f, EvalExpr(en, sc, a, row));
  }

  lemma {:induction false} MinusOf(ops: Ops, f: Expression, v: Option<Term>)
    requires if f.Constant? then v == Some(f.t) && IntConst(f).Some? else v == None
    ensures var g := FoldMinus(f);
            if g.Constant? then MinusTerm(ops, v) == Some(g.t) && IntConst(g).Some? else MinusTerm(ops, v) == None
  {
    if f.Constant? {
      var x := IntConst(f).value;
      IntConstEval(f);
      Negated(ops, x);
      FoldMinusIs(f, x);
      assert MinusTerm(ops, v) == Arith(ops, Sub, VInt(0), VInt(x));
    }
  }

  lemma {:induction false} FoldMinusIs(f: Expression, x: int)
    requires IntConst(f) == Some(x)
    ensures FoldMinus(f) == if IsI64(-x) then Constant(IntTerm(-x)) else UnaryMinus(f)
    ensures IsI64(-x) ==> IntConst(FoldMinus(f)) == Some(-x)
  {
    if IsI64(-x) { IntTermConst(-x); }
  }

  lemma {:induction false} Negated(ops: Ops, x: int)
    ensures Arith(ops, Sub, VInt(0), VInt(x)) == if IsI64(-x) then Some(IntTerm(-x)) else None
  {
  }

  lemma {:induction false} PlusComputed(en: Engine, sc: Scope, a: Expression, row: Row)
    requires Computed(en, sc, a, row)
    requires Fold(en.ops, a).Constant? ==> IntConst(Fold(en.ops, a)).Some?
    ensures Computed(en, sc, UnaryPlus(a), row)
    ensures Fold(en.ops, UnaryPlus(a)).Constant? ==> IntConst(Fold(en.ops, UnaryPlus(a))).Some?
  {
    var f := Fold(en.ops, a);
    FoldOfPlus(en.ops, a);
    PlusMeaning(en, sc, a, row);
    PlusOf(en.ops, f, EvalExpr(en, sc, a, row));
  }

  lemma {:induction false} PlusMeaning(en: Engine, sc: Scope, a: Expression, row: Row)
    ensures EvalExpr(en, sc, UnaryPlus(a), row) == PlusTerm(en.ops, EvalExpr(en, sc, a, row))
  {
  }

  lemma {:induction false} PlusOf(ops: Ops, f: Expression, v: Option<Term>)
    requires if f.Constant? then v == Some(f.t) && IntConst(f).Some? else v == None
    ensures var g := FoldPlus(f);
            if g.Constant? then PlusTerm(ops, v) == Some(g.t) && IntConst(g).Some? else PlusTerm(ops, v) == None
  {
    if f.Constant? {
      IntConstEval(f);
      assert FoldPlus(f) == f;
    }
  }

  lemma {:induction false} BooleanComputed(en: Engine, sc: Scope, e: Expression, row: Row)
    requires ClosedBoolean(e)
    ensures Computed(en, sc, e, row)
    ensures BoolConstant(Fold(en.ops, e))
  {
    match e
    case Constant(t) =>
    case And(a, b) =>
      BooleanComputed(en, sc, a, row);
      BooleanComputed(en, sc, b, row);
      AndComputed(en, sc, a, b, row);
    case Or(a, b) =>
      BooleanComputed(en, sc, a, row);
      BooleanComputed(en, sc, b, row);
      OrComputed(en, sc, a, b, row);
    case Not(a) =>
      BooleanComputed(en, sc, a, row);
      NotComputed(en, sc, a, row);
    case Cmp(op, a, b) =>
      IntegerComputed(en, sc, a, row);
      IntegerComputed(en, sc, b, row);
      CmpComputed(en, sc, op, a, b, row);
  }

  lemma {:induction false} CmpComputed(en: Engine, sc: Scope, op: CmpOp, a: Expression, b: Expression, row: Row)
    requires Computed(en, sc, a, row) && Computed(en, sc, b, row)
    requires Fold(en.ops, a).Constant? ==> IntConst(Fold(en.ops, a)).Some?
    requires Fold(en.ops, b).Constant? ==> IntConst(Fold(en.ops, b)).Some?
    ensures Computed(en, sc, Cmp(op, a, b), row)
    ensures BoolConstant(Fold(en.ops, Cmp(op, a, b)))
  {
    var f, g := Fold(en.ops, a), Fold(en.ops, b);
    assert Fold(en.ops, Cmp(op, a, b)) == FoldCmp(op, f, g);
    CmpMeaning(en, sc, op, a, b, row);
    if f.Constant? && g.Constant? {
      IntConstEval(f);
      IntConstEval(g);
      CompareConsts(en.ops, op, IntConst(f).value, IntConst(g).value);
    }
  }

  lemma {:induction false} TruthOfBool(en: Engine, b: bool)
    ensures EbvConst(en.ops, BoolTerm(b)) == Some(b) && Ebv(en.ops, ValueOf(BoolTerm(b))) == Some(b)
  {
    ComputedBool(b);
    assert |TRUE| == 4 && |FALSE| == 5 && |Ascii("1")| == 1;
  }

  ghost predicate BoolConstant(f: Expression) { f.Constant? ==> f.t == BoolTerm(true) || f.t == BoolTerm(false) }

  lemma {:induction false} TruthComputed(en: Engine, sc: Scope, a: Expression, row: Row)
    requires Computed(en, sc, a, row) && BoolConstant(Fold(en.ops, a))
    ensures var f := Fold(en.ops, a);
            EvalEbv(en, sc, a, row) == ConstEbv(en.ops, f) &&
            if f.Constant? then ConstEbv(en.ops, f).Some? && f == BoolExpr(ConstEbv(en.ops, f).value)
            else ConstEbv(en.ops, f) == None
  {
    TruthOfBool(en, true);
    TruthOfBool(en, false);
  }

  lemma {:induction false} NotComputed(en: Engine, sc: Scope, a: Expression, row: Row)
    requires Computed(en, sc, a, row) && BoolConstant(Fold(en.ops, a))
    ensures Computed(en, sc, Not(a), row) && BoolConstant(Fold(en.ops, Not(a)))
  {
    TruthComputed(en, sc, a, row);
    assert Fold(en.ops, Not(a)) == FoldNot(en.ops, Fold(en.ops, a));
    assert EvalExpr(en, sc, Not(a), row) == NotTerm(EvalEbv(en, sc, a, row));
  }

  lemma {:induction false} AndComputed(en: Engine, sc: Scope, a: Expression, b: Expression, row: Row)
    requires Computed(en, sc, a, row) && Computed(en, sc, b, row)
    requires BoolConstant(Fold(en.ops, a)) && BoolConstant(Fold(en.ops, b))
    ensures Computed(en, sc, And(a, b), row) && BoolConstant(Fold(en.ops, And(a, b)))
  {
    var f, g := Fold(en.ops, a), Fold(en.ops, b);
    TruthComputed(en, sc, a, row);
    TruthComputed(en, sc, b, row);
    TruthValue(ConstEbv(en.ops, f));
    TruthValue(ConstEbv(en.ops, g));
    assert Fold(en.ops, And(a, b)) == FoldAnd(en.ops, f, g);
    assert EvalExpr(en, sc, And(a, b), row) == AndTerm(ConstEbv(en.ops, f), ConstEbv(en.ops, g));
  }

  lemma {:induction false} OrComputed(en: Engine, sc: Scope, a: Expression, b: Expression, row: Row)
    requires Computed(en, sc, a, row) && Computed(en, sc, b, row)
    requires BoolConstant(Fold(en.ops, a)) && BoolConstant(Fold(en.ops, b))
    ensures Computed(en, sc, Or(a, b), row) && BoolConstant(Fold(en.ops, Or(a, b)))
  {
    var f, g := Fold(en.ops, a), Fold(en.ops, b);
    TruthComputed(en, sc, a, row);
    TruthComputed(en, sc, b, row);
    TruthValue(ConstEbv(en.ops, f));
    TruthValue(ConstEbv(en.ops, g));
    assert Fold(en.ops, Or(a, b)) == FoldOr(en.ops, f, g);
    assert EvalExpr(en, sc, Or(a, b), row) == OrTerm(ConstEbv(en.ops, f), ConstEbv(en.ops, g));
  }

  /** A condition or sum of constants folds to the term it evaluates to, and to no
      constant exactly when it is an error. */
  lemma {:induction false} FoldComputes(en: Engine, sc: Scope, e: Expression, row: Row, t: Term)
    requires ClosedInteger(e) || ClosedBoolean(e)
    ensures Fold(en.ops, e) == Constant(t) <==> EvalExpr(en, sc, e, row) == Some(t)
  {
    if ClosedInteger(e) { IntegerComputed(en, sc, e, row); } else { BooleanComputed(en, sc, e, row); }
  }

  /** No language-tagged constant is read as it evaluates. */
  lemma {:induction false} LangNeverAgrees(en: Engine, sc: Scope, lex: Bytes, tag: Bytes, dir: Option<Dir>, row: Row)
    ensures var t := Lang(lex, tag, dir);
            EbvConst(en.ops, t) == Some(lex != []) && EvalEbv(en, sc, Constant(t), row) == None
    ensures !NotKeeps(en, sc, Lang(lex, tag, dir), row)
  {
    NotAtRow(en, sc, Lang(lex, tag, dir), row);
  }

  const ONE_E_THREE: Term := Typed(Ascii("1e3"), XSD_DECIMAL)

  /** `"1e3"^^xsd:decimal`: the folder reads it as a floating-point number, the
      evaluator's decimal parser refuses it, and `!` of it folds to false where it
      evaluates to an error. */
  lemma {:induction false} ExponentDecimalFolds(en: Engine, sc: Scope, row: Row)
    requires en.ops.constEbv(ONE_E_THREE) == Some(true)
    requires en.ops.numeric(ONE_E_THREE) == ExactDecimal.Parse(Ascii("1e3")).Some?
    ensures var e := Not(Constant(ONE_E_THREE));
            EvalExpr(en, sc, e, row) == None && EvalExpr(en, sc, Fold(en.ops, e), row) == Some(BoolTerm(false))
  {
    ExponentRefused();
    DecimalIsOther();
    assert Ebv(en.ops, ValueOf(ONE_E_THREE)) == None;
    NotOfConstant(en, sc, ONE_E_THREE, row);
    assert EbvConst(en.ops, ONE_E_THREE) == Some(true);
    FoldOfNot(en.ops, ONE_E_THREE);
  }

  lemma {:induction false} DecimalIsOther()
    ensures XSD_DECIMAL != XSD_BOOLEAN && XSD_DECIMAL != XSD_INTEGER
    ensures ValueOf(ONE_E_THREE) == VOther(ONE_E_THREE)
  {
    var n := |XSD|;
    assert XSD_DECIMAL[n] == 'd' as int && XSD_BOOLEAN[n] == 'b' as int && XSD_INTEGER[n] == 'i' as int;
  }

  lemma {:induction false} ExponentRefused()
    ensures ExactDecimal.Parse(Ascii("1e3")) == None
  {
    var s: Bytes := Ascii("1e3");
    assert s == [49, 101, 51];
    assert Find(s[1..], 46) == Find(s[1..][1..], 46) + 1 && Find(s[1..][1..], 46) == 1;
    assert Find(s, 46) == 3;
    assert s[..3] + [] == s;
  }
}

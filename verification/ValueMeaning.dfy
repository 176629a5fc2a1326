/** What expressions evaluate to, said of terms alone: equality, order, IN, the
    logical connectives and integer arithmetic (crates/graphy-engine/src/eval.rs,
    `eval_expr`; crates/graphy-engine/src/value.rs, `eq_values`, `cmp_values`, `ebv`). */
module ValueMeaning {
  import opened Seqs
  import opened Terms
  import opened Digits
  import opened Rows
  import opened Values
  import opened Expressions
  import ByteOrder

  // ------------------------------------------------------- kinds of terms

  datatype Kind = IriKind | BlankKind | StringKind | IntegerKind(i: int) | BooleanKind(b: bool)

  /** The kind and value of a term of the modelled kinds. */
  predicate IsKind(t: Term, k: Kind) {
    match k
    case IriKind => t.Iri?
    case BlankKind => t.Blank?
    case StringKind => t.Simple? || t.Lang?
    case IntegerKind(i) => t.Typed? && t.dt == XSD_INTEGER && ParseI64(t.lex) == Some(i)
    case BooleanKind(b) =>
      t.Typed? && t.dt == XSD_BOOLEAN && t.lex in (if b then {TRUE, Ascii("1")} else {FALSE, Ascii("0")})
  }

  lemma {:induction false} BooleanTexts()
    ensures TRUE != FALSE && TRUE != Ascii("0") && Ascii("1") != FALSE && Ascii("1") != Ascii("0")
  {
    assert TRUE[0] == 116 && FALSE[0] == 102 && Ascii("1")[0] == 49 && Ascii("0")[0] == 48;
  }

  lemma {:induction false} KindValue(t: Term, k: Kind)
    requires IsKind(t, k)
    ensures match k
            case IriKind => ValueOf(t) == VIri(t.iri)
            case BlankKind => ValueOf(t) == VBlank(t.name)
            case StringKind =>
              ValueOf(t) == VStr(t.lex, if t.Lang? then Some((t.tag, t.dir)) else None)
            case IntegerKind(i) => ValueOf(t) == VInt(i)
            case BooleanKind(b) => ValueOf(t) == VBool(b)
  {
    BooleanIsNotInteger();
    BooleanTexts();
  }

  lemma {:induction false} CmpOutcome(en: Engine, sc: Scope, op: CmpOp, a: Expression, b: Expression, row: Row, t: Term,
                                      u: Term)
    requires EvalExpr(en, sc, a, row) == Some(t) && EvalExpr(en, sc, b, row) == Some(u)
    ensures EvalExpr(en, sc, Cmp(op, a, b), row) == BoolOption(Compare(en.ops, op, ValueOf(t), ValueOf(u)))
  {
  }

  // ------------------------------------------------------- equality

  /** Language tags agree without case. */
  predicate SameTag(t: Term, u: Term) {
    (t.Simple? && u.Simple?) || (t.Lang? && u.Lang? && Lower(t.tag) == Lower(u.tag) && t.dir == u.dir)
  }

  /** `=` within one kind: IRIs, blank nodes and plain strings are equal when they are
      the same term, tagged strings when text, tag and direction are, numbers and
      booleans when their values are. */
  predicate Same(t: Term, u: Term, k: Kind, l: Kind)
    requires IsKind(t, k) && IsKind(u, l)
  {
    match (k, l)
    case (IriKind, IriKind) => t == u
    case (BlankKind, BlankKind) => t == u
    case (StringKind, StringKind) => t.lex == u.lex && SameTag(t, u)
    case (IntegerKind(i), IntegerKind(j)) => i == j
    case (BooleanKind(x), BooleanKind(y)) => x == y
    case _ => false
  }

  predicate Literal(k: Kind) { !k.IriKind? && !k.BlankKind? }

  predicate OneKind(k: Kind, l: Kind) {
    (k.IriKind? && l.IriKind?) || (k.BlankKind? && l.BlankKind?) || (k.StringKind? && l.StringKind?)
    || (k.IntegerKind? && l.IntegerKind?) || (k.BooleanKind? && l.BooleanKind?)
  }

  /** `=` and `!=`: literals of different kinds are an error, other terms of
      different kinds are unequal. */
  lemma {:induction false} EqualityMeans(en: Engine, sc: Scope, a: Expression, b: Expression, row: Row, t: Term,
                                         u: Term,
                                         k: Kind, l: Kind)
    requires EvalExpr(en, sc, a, row) == Some(t) && EvalExpr(en, sc, b, row) == Some(u) && IsKind(t, k) && IsKind(u, l)
    ensures var eq, ne := EvalExpr(en, sc, Cmp(Eq, a, b), row), EvalExpr(en, sc, Cmp(Ne, a, b), row);
            if Literal(k) && Literal(l) && !OneKind(k, l) then eq == None && ne == None
            else eq == Some(BoolTerm(Same(t, u, k, l))) && ne == Some(BoolTerm(!Same(t, u, k, l)))
  {
    CmpOutcome(en, sc, Eq, a, b, row, t, u);
    CmpOutcome(en, sc, Ne, a, b, row, t, u);
    EqualValues(en.ops, t, u, k, l);
  }

  lemma {:induction false} EqualValues(ops: Ops, t: Term, u: Term, k: Kind, l: Kind)
    requires IsKind(t, k) && IsKind(u, l)
    ensures EqValues(ops, ValueOf(t), ValueOf(u))
            == if Literal(k) && Literal(l) && !OneKind(k, l) then None else Some(Same(t, u, k, l))
  {
    KindValue(t, k);
    KindValue(u, l);
  }

  // ------------------------------------------------------- order

  lemma {:induction false} OrderBytesIs(x: Bytes, y: Bytes)
    ensures OrderBytes(x, y) == Less <==> ByteOrder.Less(x, y)
    ensures OrderBytes(x, y) == Greater <==> ByteOrder.Less(y, x)
    ensures OrderBytes(x, y) == Equal <==> x == y
  {
    if x != [] && y != [] && x[0] == y[0] {
      OrderBytesIs(x[1..], y[1..]);
      assert x == [x[0]] + x[1..] && y == [y[0]] + y[1..];
    }
  }

  /** `t` comes before `u`: numbers by value, false before true, strings of one tag
      byte by byte. */
  predicate Comparable(t: Term, u: Term, k: Kind, l: Kind) {
    (k.IntegerKind? && l.IntegerKind?) || (k.BooleanKind? && l.BooleanKind?)
    || (k.StringKind? && l.StringKind? && SameTag(t, u))
  }

  predicate Ahead(t: Term, u: Term, k: Kind, l: Kind)
    requires IsKind(t, k) && IsKind(u, l)
  {
    match (k, l)
    case (IntegerKind(i), IntegerKind(j)) => i < j
    case (BooleanKind(x), BooleanKind(y)) => !x && y
    case (StringKind, StringKind) => ByteOrder.Less(t.lex, u.lex)
    case _ => false
  }

  /** The four order comparisons; an error for every other pair of these kinds. */
  lemma {:induction false} OrderMeans(en: Engine, sc: Scope, a: Expression, b: Expression, row: Row, t: Term, u: Term,
                                      k: Kind, l: Kind)
    requires EvalExpr(en, sc, a, row) == Some(t) && EvalExpr(en, sc, b, row) == Some(u) && IsKind(t, k) && IsKind(u, l)
    ensures var lt, gt := EvalExpr(en, sc, Cmp(Lt, a, b), row), EvalExpr(en, sc, Cmp(Gt, a, b), row);
            var le, ge := EvalExpr(en, sc, Cmp(Le, a, b), row), EvalExpr(en, sc, Cmp(Ge, a, b), row);
            if Comparable(t, u, k, l) then
              lt == Some(BoolTerm(Ahead(t, u, k, l))) && gt == Some(BoolTerm(Ahead(u, t, l, k))) &&
              le == Some(BoolTerm(!Ahead(u, t, l, k))) && ge == Some(BoolTerm(!Ahead(t, u, k, l)))
            else lt == None && gt == None && le == None && ge == None
  {
    CmpOutcome(en, sc, Lt, a, b, row, t, u);
    CmpOutcome(en, sc, Gt, a, b, row, t, u);
    CmpOutcome(en, sc, Le, a, b, row, t, u);
    CmpOutcome(en, sc, Ge, a, b, row, t, u);
    OrderedValues(en.ops, t, u, k, l);
  }

  lemma {:induction false} OrderedValues(ops: Ops, t: Term, u: Term, k: Kind, l: Kind)
    requires IsKind(t, k) && IsKind(u, l)
    ensures CmpValues(ops, ValueOf(t), ValueOf(u))
            == if !Comparable(t, u, k, l) then None
               else Some(if Ahead(t, u, k, l) then Less else if Ahead(u, t, l, k) then Greater else Equal)
    ensures !(Ahead(t, u, k, l) && Ahead(u, t, l, k))
  {
    KindValue(t, k);
    KindValue(u, l);
    if k.StringKind? && l.StringKind? {
      OrderBytesIs(t.lex, u.lex);
      ByteOrder.LessTotal(t.lex, u.lex);
    }
  }

  /** A comparison with an operand that errs is an error. */
  lemma {:induction false} ComparisonErrs(en: Engine, sc: Scope, op: CmpOp, a: Expression, b: Expression, row: Row)
    requires EvalExpr(en, sc, a, row) == None || EvalExpr(en, sc, b, row) == None
    ensures EvalExpr(en, sc, Cmp(op, a, b), row) == None
  {
  }

  // ------------------------------------------------------- membership

  /** The `i`-th member is equal; comparing with it is an error. */
  ghost predicate EqualAt(en: Engine, sc: Scope, x: Expression, list: seq<Expression>, row: Row, i: nat)
    requires i < |list|
  {
    EvalExpr(en, sc, Cmp(Eq, x, list[i]), row) == Some(BoolTerm(true))
  }

  ghost predicate ErrsAt(en: Engine, sc: Scope, x: Expression, list: seq<Expression>, row: Row, i: nat)
    requires i < |list|
  {
    EvalExpr(en, sc, Cmp(Eq, x, list[i]), row) == None
  }

  lemma {:induction false} SearchIs(ops: Ops, x: Value, ys: seq<Option<Term>>, errored: bool)
    ensures var r := Search(ops, x, ys, errored);
            if exists i :: 0 <= i < |ys| && ys[i].Some? && EqValues(ops, x, ValueOf(ys[i].value)) == Some(true)
            then r == Some(true)
            else if errored || exists i :: 0 <= i < |ys| &&
                                           (ys[i].None? || EqValues(ops, x, ValueOf(ys[i].value)) == None)
            then r == None
            else r == Some(false)
    decreases |ys|
  {
    if ys != [] {
      var bad := ys[0].None? || EqValues(ops, x, ValueOf(ys[0].value)) == None;
      SearchIs(ops, x, ys[1..], errored || bad);
      forall i | 0 < i < |ys| ensures ys[1..][i - 1] == ys[i] { }
      forall i | 0 <= i < |ys| - 1 ensures ys[1..][i] == ys[i + 1] { }
      if ys[0].Some? && EqValues(ops, x, ValueOf(ys[0].value)).Some? {
        var e := EqValues(ops, x, ValueOf(ys[0].value)).value;
        if e { assert EqValues(ops, x, ValueOf(ys[0].value)) == Some(true); }
        else { assert EqValues(ops, x, ValueOf(ys[0].value)) == Some(false); }
      }
    }
  }

  /** IN is true when some member is equal, and otherwise an error when comparing
      with some member is; NOT IN is its negation. */
  lemma {:induction false} InMeans(en: Engine, sc: Scope, x: Expression, list: seq<Expression>, negated: bool, row: Row)
    ensures var r := EvalExpr(en, sc, In(x, list, negated), row);
            if EvalExpr(en, sc, x, row) == None then r == None
            else if exists i :: 0 <= i < |list| && EqualAt(en, sc, x, list, row, i) then r == Some(BoolTerm(!negated))
            else if exists i :: 0 <= i < |list| && ErrsAt(en, sc, x, list, row, i) then r == None
            else r == Some(BoolTerm(negated))
  {
    if EvalExpr(en, sc, x, row).Some? {
      var t, ys := EvalExpr(en, sc, x, row).value, EvalAll(en, sc, list, row);
      SearchIs(en.ops, ValueOf(t), ys, false);
      assert BoolTerm(true) != BoolTerm(false) by { ComputedBool(true); ComputedBool(false); }
      forall i | 0 <= i < |list|
        ensures EqualAt(en, sc, x, list, row, i) <==>
                ys[i].Some? && EqValues(en.ops, ValueOf(t), ValueOf(ys[i].value)) == Some(true)
        ensures ErrsAt(en, sc, x, list, row, i) <==>
                ys[i].None? || EqValues(en.ops, ValueOf(t), ValueOf(ys[i].value)) == None
      {
        if ys[i].Some? { CmpOutcome(en, sc, Eq, x, list[i], row, t, ys[i].value); }
      }
    }
  }

  // ------------------------------------------------------- truth

  /** The effective boolean value; an error for IRIs, blank nodes and tagged strings. */
  lemma {:induction false} TruthMeans(en: Engine, sc: Scope, e: Expression, row: Row, t: Term, k: Kind)
    requires EvalExpr(en, sc, e, row) == Some(t) && IsKind(t, k)
    ensures EvalEbv(en, sc, e, row) ==
            match k
            case StringKind => if t.Simple? then Some(t.lex != []) else None
            case IntegerKind(i) => Some(i != 0)
            case BooleanKind(b) => Some(b)
            case _ => None
  {
    KindValue(t, k);
  }

  /** The connectives on three truth values: a deciding operand absorbs an error. */
  lemma {:induction false} ConnectivesMean(en: Engine, sc: Scope, a: Expression, b: Expression, row: Row)
    ensures var x, y := EvalEbv(en, sc, a, row), EvalEbv(en, sc, b, row);
            EvalExpr(en, sc, And(a, b), row) ==
              (if x == Some(false) || y == Some(false) then Some(BoolTerm(false))
               else if x == None || y == None then None else Some(BoolTerm(true))) &&
            EvalExpr(en, sc, Or(a, b), row) ==
              (if x == Some(true) || y == Some(true) then Some(BoolTerm(true))
               else if x == None || y == None then None else Some(BoolTerm(false)))
    ensures EvalExpr(en, sc, Not(a), row) ==
            match EvalEbv(en, sc, a, row) case Some(x) => Some(BoolTerm(!x)) case None => None
    ensures EvalExpr(en, sc, Bound(a), row) == Some(BoolTerm(EvalExpr(en, sc, a, row) != None))
    ensures EvalExpr(en, sc, a, row) == None ==> EvalEbv(en, sc, a, row) == None
  {
    var x, y := EvalEbv(en, sc, a, row), EvalEbv(en, sc, b, row);
    if x.Some? { if x.value { assert x == Some(true); } else { assert x == Some(false); } }
    if y.Some? { if y.value { assert y == Some(true); } else { assert y == Some(false); } }
    assert EvalExpr(en, sc, And(a, b), row) == AndTerm(x, y);
    assert EvalExpr(en, sc, Or(a, b), row) == OrTerm(x, y);
  }

  // ------------------------------------------------------- arithmetic

  function Exactly(op: ArithOp, i: int, j: int): int
    requires op != Div
  {
    match op
    case Add => i + j
    case Sub => i - j
    case Mul => i * j
  }

  function InRange(v: int): Option<Term> { if I64_MIN <= v <= I64_MAX then Some(IntTerm(v)) else None }

  lemma {:induction false} ArithOutcome(en: Engine, sc: Scope, op: ArithOp, a: Expression, b: Expression, row: Row,
                                        t: Term,
                                        u: Term)
    requires EvalExpr(en, sc, a, row) == Some(t) && EvalExpr(en, sc, b, row) == Some(u)
    ensures EvalExpr(en, sc, Arithmetic(op, a, b), row) == Arith(en.ops, op, ValueOf(t), ValueOf(u))
  {
  }

  /** Integer arithmetic is exact, and an error outside 64 bits. */
  lemma {:induction false} IntegersCompute(en: Engine, sc: Scope, op: ArithOp, a: Expression, b: Expression, row: Row,
                                           t: Term, u: Term, i: int, j: int)
    requires op != Div
    requires EvalExpr(en, sc, a, row) == Some(t) && IsKind(t, IntegerKind(i))
    requires EvalExpr(en, sc, b, row) == Some(u) && IsKind(u, IntegerKind(j))
    ensures EvalExpr(en, sc, Arithmetic(op, a, b), row) == InRange(Exactly(op, i, j))
  {
    KindValue(t, IntegerKind(i));
    KindValue(u, IntegerKind(j));
    ArithOutcome(en, sc, op, a, b, row, t, u);
  }

  /** The signs: negation is exact or an error, `+` leaves a number as it is written. */
  lemma {:induction false} SignsCompute(en: Engine, sc: Scope, a: Expression, row: Row, t: Term, i: int)
    requires EvalExpr(en, sc, a, row) == Some(t) && IsKind(t, IntegerKind(i))
    ensures EvalExpr(en, sc, UnaryMinus(a), row) == InRange(-i) && EvalExpr(en, sc, UnaryPlus(a), row) == Some(t)
  {
    KindValue(t, IntegerKind(i));
    SignOutcome(en, sc, a, row, t);
  }

  lemma {:induction false} SignOutcome(en: Engine, sc: Scope, a: Expression, row: Row, t: Term)
    requires EvalExpr(en, sc, a, row) == Some(t)
    ensures EvalExpr(en, sc, UnaryMinus(a), row) == Arith(en.ops, Sub, VInt(0), ValueOf(t))
    ensures EvalExpr(en, sc, UnaryPlus(a), row) == if IsNumeric(en.ops, ValueOf(t)) then Some(t) else None
  {
  }

  /** Arithmetic on anything but numbers is an error. */
  lemma {:induction false} NumbersOnly(en: Engine, sc: Scope, op: ArithOp, a: Expression, b: Expression, row: Row,
                                       t: Term, k: Kind)
    requires EvalExpr(en, sc, a, row) == Some(t) && IsKind(t, k) && !k.IntegerKind?
    ensures EvalExpr(en, sc, Arithmetic(op, a, b), row) == None && EvalExpr(en, sc, Arithmetic(op, b, a), row) == None
    ensures EvalExpr(en, sc, UnaryMinus(a), row) == None && EvalExpr(en, sc, UnaryPlus(a), row) == None
  {
    KindValue(t, k);
    assert !IsNumeric(en.ops, ValueOf(t)) && !ValueOf(t).VInt?;
    SignOutcome(en, sc, a, row, t);
    if EvalExpr(en, sc, b, row).Some? {
      ArithOutcome(en, sc, op, a, b, row, t, EvalExpr(en, sc, b, row).value);
      ArithOutcome(en, sc, op, b, a, row, EvalExpr(en, sc, b, row).value, t);
    }
  }
}

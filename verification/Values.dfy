/** SPARQL value semantics on strings, booleans and xsd:integer
    (crates/graphy-engine/src/value.rs). Values of every other kind (decimals,
    doubles, dates, triple terms, unknown datatypes) go through `Ops`, whose
    answers are arbitrary. */
module Values {
  import opened Seqs
  import opened Terms
  import opened Digits

  datatype Value =
    | VIri(iri: Bytes)
    | VBlank(name: Bytes)
    | VStr(lex: Bytes, lang: Option<(Bytes, Option<Dir>)>)
    | VInt(i: int)
    | VBool(b: bool)
    | VOther(t: Term)

  datatype ArithOp = Add | Sub | Mul | Div
  datatype CmpOp = Eq | Ne | Lt | Le | Gt | Ge
  datatype Ordering = Less | Equal | Greater

  /** Semantics of the value kinds that are not modelled. */
  datatype Ops = Ops(
    numeric: Term -> bool,
    nonZero: Term -> bool,
    constEbv: Term -> Option<bool>,
    order: (Value, Value) -> Option<Ordering>,
    equal: (Value, Value) -> Option<bool>,
    arith: (ArithOp, Value, Value) -> Option<Term>)

  /** `decode_value`. */
  function ValueOf(t: Term): Value {
    match t
    case Iri(iri) => VIri(iri)
    case Blank(name) => VBlank(name)
    case Simple(lex) => VStr(lex, None)
    case Lang(lex, tag, dir) => VStr(lex, Some((tag, dir)))
    case Typed(lex, dt) =>
      if dt == XSD_BOOLEAN then
        if lex == TRUE || lex == Ascii("1") then VBool(true)
        else if lex == FALSE || lex == Ascii("0") then VBool(false)
        else VOther(t)
      else if dt == XSD_INTEGER then
        if ParseI64(lex).Some? then VInt(ParseI64(lex).value) else VOther(t)
      else VOther(t)
    case TripleTerm(_, _, _) => VOther(t)
  }

  function BoolTerm(b: bool): Term { Typed(if b then TRUE else FALSE, XSD_BOOLEAN) }

  function IntTerm(i: int): Term { Typed(RenderInt(i), XSD_INTEGER) }

  predicate IsI64(i: int) { I64_MIN <= i <= I64_MAX }

  /** Computed booleans read back as themselves. */
  lemma {:induction false} ComputedBool(b: bool)
    ensures ValueOf(BoolTerm(b)) == VBool(b)
  {
    assert |TRUE| == 4 && |FALSE| == 5 && |Ascii("1")| == 1;
  }

  /** Computed integers read back as themselves. */
  lemma {:induction false} ComputedInt(i: int)
    requires IsI64(i)
    ensures ValueOf(IntTerm(i)) == VInt(i)
  {
    BooleanIsNotInteger();
    ParseRenderInt(i);
  }

  /** Effective boolean value (section 17.2.2 of SPARQL 1.1 Query). */
  function Ebv(ops: Ops, v: Value): Option<bool> {
    match v
    case VBool(b) => Some(b)
    case VInt(i) => Some(i != 0)
    case VStr(lex, lang) => if lang.None? then Some(lex != []) else None
    case VOther(t) => if ops.numeric(t) then Some(ops.nonZero(t)) else None
    case _ => None
  }

  predicate IsNumeric(ops: Ops, v: Value) { v.VInt? || (v.VOther? && ops.numeric(v.t)) }

  function Order(x: int, y: int): Ordering {
    if x < y then Less else if x == y then Equal else Greater
  }

  function OrderBytes(x: Bytes, y: Bytes): Ordering {
    if x == [] then (if y == [] then Equal else Less)
    else if y == [] then Greater
    else if x[0] == y[0] then OrderBytes(x[1..], y[1..])
    else Order(x[0], y[0])
  }

  /** `lang_eq`: tags compare without case. */
  predicate LangEq(x: Option<(Bytes, Option<Dir>)>, y: Option<(Bytes, Option<Dir>)>) {
    match (x, y)
    case (None, None) => true
    case (Some(a), Some(b)) => Lower(a.0) == Lower(b.0) && a.1 == b.1
    case _ => false
  }

  /** `cmp_values`. */
  function CmpValues(ops: Ops, x: Value, y: Value): Option<Ordering> {
    match (x, y)
    case (VInt(i), VInt(j)) => Some(Order(i, j))
    case (VBool(a), VBool(b)) => Some(Order(if a then 1 else 0, if b then 1 else 0))
    case (VStr(a, la), VStr(b, lb)) => if LangEq(la, lb) then Some(OrderBytes(a, b)) else None
    case _ => if x.VOther? || y.VOther? then ops.order(x, y) else None
  }

  /** `eq_values`. */
  function EqValues(ops: Ops, x: Value, y: Value): Option<bool> {
    match (x, y)
    case (VInt(i), VInt(j)) => Some(i == j)
    case (VBool(a), VBool(b)) => Some(a == b)
    case (VStr(a, la), VStr(b, lb)) => Some(a == b && LangEq(la, lb))
    case (VIri(a), VIri(b)) => Some(a == b)
    case (VBlank(a), VBlank(b)) => Some(a == b)
    case _ =>
      if x.VOther? || y.VOther? then ops.equal(x, y)
      else if IsLiteral(x) && IsLiteral(y) then None
      else Some(false)
  }

  predicate IsLiteral(v: Value) { v.VStr? || v.VInt? || v.VBool? }

  function Compare(ops: Ops, op: CmpOp, x: Value, y: Value): Option<bool> {
    match op
    case Eq => EqValues(ops, x, y)
    case Ne => (match EqValues(ops, x, y) case Some(b) => Some(!b) case None => None)
    case _ =>
      match CmpValues(ops, x, y)
      case None => None
      case Some(o) => Some(
        match op
        case Lt => o == Less
        case Le => o != Greater
        case Gt => o == Greater
        case _ => o != Less)
  }

  function Checked(op: ArithOp, i: int, j: int): Option<int> {
    var v := match op case Add => i + j case Sub => i - j case _ => i * j;
    if IsI64(v) then Some(v) else None
  }

  /** `arith` followed by `encode_value`: integer overflow is an error, integer
      division leaves the integers. */
  function Arith(ops: Ops, op: ArithOp, x: Value, y: Value): Option<Term> {
    if x.VInt? && y.VInt? && op != Div then
      match Checked(op, x.i, y.i)
      case Some(v) => Some(IntTerm(v))
      case None => None
    else if IsNumeric(ops, x) && IsNumeric(ops, y) then ops.arith(op, x, y)
    else None
  }
}

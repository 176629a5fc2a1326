/** Tagged 64-bit term ids with inline values (crates/graphy-core/src/id.rs,
    `TermId::try_inline`, `inline` and `decode`, `parse_decimal` and `render_decimal`). */
module InlineId {
  import opened Seqs
  import opened Terms
  import opened Arith
  import ByteOrder
  import opened Digits
  import opened DateText
  import opened InlineCompare

  // ------------------------------------------------------- decimal text

  datatype Decimal = Decimal(unscaled: int, scale: nat)

  function Zeros(n: nat): (r: Bytes)
    ensures |r| == n && forall i :: 0 <= i < n ==> r[i] == 48
  {
    seq(n, i => 48)
  }

  function Abs(v: int): nat { if v < 0 then -v else v }

  /** Digits of the unscaled value, padded so that one stands before the point. */
  function Padded(u: nat, scale: nat): (r: Bytes)
    ensures |r| > scale
  {
    var digits := Render(u);
    if |digits| <= scale then Zeros(scale + 1 - |digits|) + digits else digits
  }

  function RenderDecimal(d: Decimal): Bytes {
    var sign := if d.unscaled < 0 then [DASH] else [];
    if d.scale == 0 then sign + Render(Abs(d.unscaled))
    else
      var digits := Padded(Abs(d.unscaled), d.scale);
      var point := |digits| - d.scale;
      sign + (digits[..point] + [DOT] + digits[point..])
  }

  /** Minimal scale, but at least one fraction digit. */
  function Stripped(u: int, scale: nat): Decimal
    decreases scale
  {
    if scale > 1 && u % 10 == 0 then Stripped(u / 10, scale - 1) else Decimal(u, scale)
  }

  /** An accumulation that leaves i128 fails, wherever it does. */
  function Accumulated(digits: Bytes): Option<int>
    requires AllDigits(digits)
  {
    if Value(digits) <= I128_MAX then Some(Value(digits)) else None
  }

  method AccumulateLoop(digits: Bytes) returns (r: Option<int>)
    requires AllDigits(digits)
    ensures r == Accumulated(digits)
  {
    var unscaled := 0;
    for i := 0 to |digits|
      invariant unscaled == Value(digits[..i]) <= I128_MAX
    {
      assert digits[..i + 1][..i] == digits[..i];
      PrefixBelow(digits, i + 1);
      if unscaled * 10 > I128_MAX {
        return None;
      }
      var d: int := digits[i];
      if unscaled * 10 + (d - 48) > I128_MAX {
        return None;
      }
      unscaled := unscaled * 10 + (d - 48);
    }
    TakeAll(digits);
    return Some(unscaled);
  }

  lemma {:induction false} PrefixBelow(digits: Bytes, k: nat)
    requires AllDigits(digits) && k <= |digits|
    ensures AllDigits(digits[..k]) && Value(digits[..k]) <= Value(digits)
    decreases |digits| - k
  {
    if k < |digits| {
      PrefixBelow(digits, k + 1);
      assert digits[..k + 1][..k] == digits[..k];
    } else {
      TakeAll(digits);
    }
  }

  /** The parsed magnitude and sign at the scale of the text, made canonical. */
  function Normalized(unscaled: int, scale: nat): Option<Decimal> {
    var d := Stripped(unscaled, scale);
    var e := if d.scale == 0 then Decimal(d.unscaled * 10, 1) else d;
    if !IsI128(e.unscaled) || e.scale > 255 || !IsUnscaled(e.unscaled) then None else Some(e)
  }

  /** The text behind the sign. */
  function ParseUnsigned(neg: bool, rest: Bytes): Option<Decimal> {
    var point := Find(rest, DOT);
    var int_part := rest[..point];
    var frac_part := if point < |rest| then rest[point + 1..] else [];
    if int_part == [] && frac_part == [] then None
    else if !AllDigits(int_part + frac_part) then None
    else
      match Accumulated(int_part + frac_part)
      case None => None
      case Some(v) => Normalized(if neg then -v else v, |frac_part|)
  }

  function ParseDecimal(lex: Bytes): Option<Decimal> {
    if lex == [] then None
    else if lex[0] == DASH then ParseUnsigned(true, lex[1..])
    else if lex[0] == PLUS then ParseUnsigned(false, lex[1..])
    else ParseUnsigned(false, lex)
  }

  /** The decimals the canonical writer writes one way only. */
  predicate Canonical(d: Decimal) {
    IsUnscaled(d.unscaled) && 1 <= d.scale <= 255 && (d.scale == 1 || d.unscaled % 10 != 0)
  }

  lemma {:induction false} PaddedValue(u: nat, scale: nat)
    ensures AllDigits(Padded(u, scale)) && Value(Padded(u, scale)) == u
  {
    RenderValue(u);
    var digits := Render(u);
    if |digits| <= scale { ZerosValue(Zeros(scale + 1 - |digits|), digits); }
  }

  lemma {:induction false} NoDot(s: Bytes)
    requires AllDigits(s)
    ensures DOT !in s
  {
  }

  lemma {:induction false} PointReads(digits: Bytes, scale: nat)
    requires AllDigits(digits) && 0 < scale < |digits|
    ensures var point := |digits| - scale;
            var rest := digits[..point] + [DOT] + digits[point..];
            && Find(rest, DOT) == point && rest[..point] == digits[..point] && rest[point + 1..] == digits[point..]
            && rest[0] == digits[0]
  {
    var point := |digits| - scale;
    NoDot(digits[..point]);
    FindFirst(digits[..point], DOT, digits[point..]);
  }

  lemma {:induction false} UnsignedReads(neg: bool, digits: Bytes, scale: nat)
    requires AllDigits(digits) && 0 < scale < |digits| && Value(digits) <= I128_MAX
    ensures var point := |digits| - scale;
            ParseUnsigned(neg, digits[..point] + [DOT] + digits[point..])
            == Normalized(if neg then -Value(digits) else Value(digits), scale)
  {
    var point := |digits| - scale;
    PointReads(digits, scale);
    assert digits[..point] + digits[point..] == digits;
  }

  lemma {:induction false} SignReads(neg: bool, rest: Bytes)
    requires rest != [] && IsDigit(rest[0])
    ensures ParseDecimal((if neg then [DASH] else []) + rest) == ParseUnsigned(neg, rest)
  {
    if neg {
      assert ([DASH] + rest)[1..] == rest;
    } else {
      assert [] + rest == rest;
    }
  }

  lemma {:induction false} CanonicalStays(d: Decimal)
    requires Canonical(d)
    ensures Normalized(d.unscaled, d.scale) == Some(d)
  {
  }

  lemma {:induction false} SignedReads(neg: bool, digits: Bytes, scale: nat)
    requires AllDigits(digits) && 0 < scale < |digits| && Value(digits) <= I128_MAX
    ensures var point := |digits| - scale;
            ParseDecimal((if neg then [DASH] else []) + (digits[..point] + [DOT] + digits[point..]))
            == Normalized(if neg then -Value(digits) else Value(digits), scale)
  {
    UnsignedReads(neg, digits, scale);
    PointReads(digits, scale);
    var point := |digits| - scale;
    SignReads(neg, digits[..point] + [DOT] + digits[point..]);
  }

  lemma {:induction false} RenderedShape(d: Decimal)
    requires Canonical(d)
    ensures var digits := Padded(Abs(d.unscaled), d.scale);
            var point := |digits| - d.scale;
            RenderDecimal(d)
            == (if d.unscaled < 0 then [DASH] else []) + (digits[..point] + [DOT] + digits[point..])
  {
  }

  /** Canonical decimals survive rendering and parsing. */
  lemma {:induction false} DecimalRoundTrip(d: Decimal)
    requires Canonical(d)
    ensures ParseDecimal(RenderDecimal(d)) == Some(d)
  {
    var digits := Padded(Abs(d.unscaled), d.scale);
    RenderedShape(d);
    PaddedValue(Abs(d.unscaled), d.scale);
    SignedReads(d.unscaled < 0, digits, d.scale);
    assert (if d.unscaled < 0 then -Value(digits) else Value(digits)) == d.unscaled;
    CanonicalStays(d);
  }

  lemma {:induction false} StrippedScale(u: int, scale: nat)
    ensures var d := Stripped(u, scale);
            && (scale >= 1 ==> d.scale >= 1) && (d.scale <= 1 || d.unscaled % 10 != 0) && d.scale <= scale
            && u == d.unscaled * Pow10(scale - d.scale)
    decreases scale
  {
    if scale > 1 && u % 10 == 0 { StrippedScale(u / 10, scale - 1); }
  }

  /** Whatever parses is canonical and has the value of its text. */
  lemma {:induction false} ParsedCanonical(unscaled: int, scale: nat)
    requires Normalized(unscaled, scale).Some?
    ensures var d := Normalized(unscaled, scale).value;
            Canonical(d) && unscaled * Pow10(d.scale) == d.unscaled * Pow10(scale)
  {
    StrippedScale(unscaled, scale);
    var s := Stripped(unscaled, scale);
    if s.scale > 0 {
      Pow10Add(scale - s.scale, s.scale);
      Regroup(s.unscaled, Pow10(scale - s.scale), Pow10(s.scale));
    } else {
      assert Pow10(1) == 10 && Pow10(0) == 1;
    }
  }

  // ------------------------------------------------------- floating point

  /** The bits of a double and of a float. */
  type Bits64 = b: int | 0 <= b < 0x1_0000_0000_0000_0000
  type Bits32 = b: int | 0 <= b < 0x1_0000_0000

  /** What the ids take from the language: reading floating-point text, writing it
      in scientific notation, rounding a double to a float, which bytes are UTF-8.
      `shortStrings` is the cargo feature of that name. */
  datatype Platform = Platform(
    parse64: Bytes -> Option<Bits64>,
    parse32: Bytes -> Option<Bits32>,
    scientific64: Bits64 -> Bytes,
    scientific32: Bits32 -> Bytes,
    narrow: Bits64 -> Bits32,
    utf8: Bytes -> bool,
    shortStrings: bool)

  const EXPONENT: Byte := 69

  /** `with_point_mantissa` */
  function PointMantissa(s: Bytes): Bytes {
    var e := Find(s, EXPONENT);
    if DOT in s[..e] then s else s[..e] + Ascii(".0") + s[e..]
  }

  /** The three texts that are no numbers, or the number's. */
  function RenderFloating(sign: bool, topExponent: bool, fraction: int, number: Bytes): Bytes {
    if !topExponent then PointMantissa(number)
    else if fraction != 0 then Ascii("NaN")
    else if sign then Ascii("-INF")
    else Ascii("INF")
  }

  function RenderDouble(p: Platform, b: Bits64): Bytes {
    RenderFloating(b / 0x8000_0000_0000_0000 == 1, b / 0x10_0000_0000_0000 % 0x800 == 0x7FF, b % 0x10_0000_0000_0000,
                   p.scientific64(b))
  }

  function RenderFloat(p: Platform, b: Bits32): Bytes {
    RenderFloating(b / 0x8000_0000 == 1, b / 0x80_0000 % 0x100 == 0xFF, b % 0x80_0000, p.scientific32(b))
  }

  /** Scientific notation with a point in front of its exponent. */
  ghost predicate MantissaText(s: Bytes, text: Bytes) { exists head, tail :: Mantissa(s, head, tail, text) }

  predicate Mantissa(s: Bytes, head: Bytes, tail: Bytes, text: Bytes) {
    s == head + tail && EXPONENT !in head && (tail == [] || tail[0] == EXPONENT) &&
    text == if DOT in head then s else head + Ascii(".0") + tail
  }

  lemma {:induction false} MantissaIs(s: Bytes)
    ensures MantissaText(s, PointMantissa(s))
  {
    var e := Find(s, EXPONENT);
    FindIsFirst(s, EXPONENT);
    assert Mantissa(s, s[..e], s[e..], PointMantissa(s));
  }

  /** The text of a double, by its bits without the sign: beyond infinity's it is no
      number, below a number's. */
  lemma {:induction false} DoubleText(p: Platform, b: Bits64)
    ensures var m, text := b % 0x8000_0000_0000_0000, RenderDouble(p, b);
            if m > 0x7FF0_0000_0000_0000 then text == Ascii("NaN")
            else if m == 0x7FF0_0000_0000_0000 then
              text == if b >= 0x8000_0000_0000_0000 then Ascii("-INF") else Ascii("INF")
            else MantissaText(p.scientific64(b), text)
  {
    MantissaIs(p.scientific64(b));
    var m := b % 0x8000_0000_0000_0000;
    assert b / 0x10_0000_0000_0000 % 0x800 == m / 0x10_0000_0000_0000;
    assert b % 0x10_0000_0000_0000 == m % 0x10_0000_0000_0000;
  }

  lemma {:induction false} FloatText(p: Platform, b: Bits32)
    ensures var m, text := b % 0x8000_0000, RenderFloat(p, b);
            if m > 0x7F80_0000 then text == Ascii("NaN")
            else if m == 0x7F80_0000 then text == if b >= 0x8000_0000 then Ascii("-INF") else Ascii("INF")
            else MantissaText(p.scientific32(b), text)
  {
    MantissaIs(p.scientific32(b));
    var m := b % 0x8000_0000;
    assert b / 0x80_0000 % 0x100 == m / 0x80_0000;
    assert b % 0x80_0000 == m % 0x80_0000;
  }

  /** Binary places of a positive fraction. */
  function Log2(m: nat): (k: nat)
    requires m > 0
    ensures Pow2(k) <= m < 2 * Pow2(k)
  {
    if m == 1 then 0 else Log2(m / 2) + 1
  }

  /** `f64::from`: a float as the double of the same value, its 23 places of
      fraction at the top of the 52. */
  function Widened(b: Bits32): Bits64 {
    var sign, exponent, fraction := b / 0x8000_0000, b / 0x80_0000 % 0x100, b % 0x80_0000;
    WidenedBounds(fraction);
    (sign * 0x4_0000_0000 +
     if exponent == 0xFF then 0x7FF * 0x80_0000 + fraction
     else if exponent != 0 then (exponent + 896) * 0x80_0000 + fraction
     else if fraction == 0 then 0
     else
       var k := Log2(fraction);
       (k + 874) * 0x80_0000 + (fraction - Pow2(k)) * Pow2(23 - k)) * 0x2000_0000
  }

  lemma {:induction false} WidenedBounds(fraction: nat)
    requires fraction < 0x80_0000
    ensures fraction > 0 ==>
              Log2(fraction) < 23 &&
              0 <= (fraction - Pow2(Log2(fraction))) * Pow2(23 - Log2(fraction)) < 0x80_0000
  {
    if fraction > 0 {
      var k := Log2(fraction);
      Pow2At23();
      Log2Below(fraction, 23);
      Pow2Add(k, 23 - k);
      Remaining(fraction, Pow2(k), Pow2(23 - k));
    }
  }

  lemma {:induction false} Log2Below(m: nat, n: nat)
    requires 0 < m < Pow2(n)
    ensures Log2(m) < n
  {
    if m > 1 { Log2Below(m / 2, n - 1); }
  }

  lemma {:induction false} Remaining(m: nat, p: nat, q: nat)
    requires p <= m < 2 * p && q > 0
    ensures 0 <= (m - p) * q < p * q
  {
    TimesGap(2 * p - m, q);
    assert (m - p) * q == p * q - (2 * p - m) * q;
  }

  lemma {:induction false} Pow2At23()
    ensures Pow2(23) == 0x80_0000
  {
    assert Pow2(4) == 16;
    Pow2Add(4, 4);
    Pow2Add(8, 8);
    Pow2Add(3, 4);
    Pow2Add(7, 16);
  }

  /** A finite float stands for `FloatUnits(b) / 2^150`, a finite double for
      `DoubleUnits(b) / 2^1075`, both without sign. */
  function FloatUnits(b: Bits32): nat {
    var exponent, fraction := b / 0x80_0000 % 0x100, b % 0x80_0000;
    if exponent == 0 then fraction * 2 else (fraction + 0x80_0000) * Pow2(exponent)
  }

  function DoubleUnits(b: Bits64): nat {
    var exponent, fraction := b / 0x10_0000_0000_0000 % 0x800, b % 0x10_0000_0000_0000;
    if exponent == 0 then fraction * 2 else (fraction + 0x10_0000_0000_0000) * Pow2(exponent)
  }

  /** The fields of a widened float. */
  lemma {:induction false} WidenedFields(sign: int, exponent: int, fraction: int)
    requires 0 <= sign < 2 && 0 <= exponent < 0x800 && 0 <= fraction < 0x80_0000
    ensures var w := (sign * 0x4_0000_0000 + exponent * 0x80_0000 + fraction) * 0x2000_0000;
            && w / 0x8000_0000_0000_0000 == sign && w / 0x10_0000_0000_0000 % 0x800 == exponent
            && w % 0x10_0000_0000_0000 == fraction * 0x2000_0000
  {
    var w := (sign * 0x4_0000_0000 + exponent * 0x80_0000 + fraction) * 0x2000_0000;
    assert w / 0x10_0000_0000_0000 == sign * 0x800 + exponent;
  }

  lemma {:induction false} NormalUnits(m: nat, e: nat)
    ensures m * 0x2000_0000 * Pow2(e + 896) == m * Pow2(e) * Pow2(925)
  {
    PowerOf29();
    Pow2Add(e, 925);
    Pow2Add(29, e + 896);
    Rearranged(m, 0x2000_0000, Pow2(e + 896), Pow2(e), Pow2(925));
  }

  lemma {:induction false} PowerOf29()
    ensures Pow2(29) == 0x2000_0000
  {
    Pow2At23();
    assert Pow2(6) == 64;
    Pow2Add(23, 6);
  }

  lemma {:induction false} Rearranged(m: int, a: int, b: int, c: int, d: int)
    requires a * b == c * d
    ensures m * a * b == m * c * d
  {
    assert m * a * b == m * (a * b) && m * c * d == m * (c * d);
  }

  lemma {:induction false} Chain(f: int, p: int, q: int, c: int, r: int, t: int)
    requires q * c * r == 2 * t
    ensures ((f - p) * q + p * q) * c * r == f * 2 * t
  {
    assert (f - p) * q + p * q == f * q;
    Regrouped(f, q, c, r);
    Regrouped(f, 2, t, 1);
  }

  lemma {:induction false} Regrouped(a: int, b: int, c: int, d: int)
    ensures a * b * c * d == a * (b * c * d)
  {
    assert a * b * c == a * (b * c);
  }

  lemma {:induction false} SubnormalUnits(f: nat, k: nat)
    requires k < 23 && Pow2(k) <= f
    ensures ((f - Pow2(k)) * Pow2(23 - k) + 0x80_0000) * 0x2000_0000 * Pow2(k + 874) == f * 2 * Pow2(925)
  {
    Pow2At23();
    PowerOf29();
    Pow2Add(k, 23 - k);
    Pow2Add(23 - k, 29);
    Pow2Add(52 - k, k + 874);
    Chain(f, Pow2(k), Pow2(23 - k), 0x2000_0000, Pow2(k + 874), Pow2(925));
  }

  ghost predicate Widens(b: Bits32, w: Bits64) {
    var top, fraction := b / 0x80_0000 % 0x100 == 0xFF, b % 0x80_0000;
    && w / 0x8000_0000_0000_0000 == b / 0x8000_0000
    && (w / 0x10_0000_0000_0000 % 0x800 == 0x7FF <==> top)
    && (top ==> (w % 0x10_0000_0000_0000 == 0 <==> fraction == 0))
    && (!top ==> DoubleUnits(w) == FloatUnits(b) * Pow2(925))
  }

  /** The exponent and upper fraction a float is widened to. */
  lemma {:induction false} WidenedShape(b: Bits32)
    ensures var sign, exponent, fraction := b / 0x8000_0000, b / 0x80_0000 % 0x100, b % 0x80_0000;
            && (exponent == 0xFF ==> Widened(b) == Word(sign, 0x7FF, fraction))
            && (0 < exponent < 0xFF ==> Widened(b) == Word(sign, exponent + 896, fraction))
            && (exponent == 0 && fraction == 0 ==> Widened(b) == Word(sign, 0, 0))
            && (exponent == 0 && fraction > 0 ==>
                var k := Log2(fraction);
                k < 23 && Widened(b) == Word(sign, k + 874, (fraction - Pow2(k)) * Pow2(23 - k))
                && 0 <= (fraction - Pow2(k)) * Pow2(23 - k) < 0x80_0000)
  {
    WidenedBounds(b % 0x80_0000);
  }

  function Word(sign: int, exponent: int, fraction: int): int {
    (sign * 0x4_0000_0000 + exponent * 0x80_0000 + fraction) * 0x2000_0000
  }

  lemma {:induction false} WordUnits(w: Bits64, sign: int, exponent: int, fraction: int)
    requires 0 <= sign < 2 && 0 <= exponent < 0x800 && 0 <= fraction < 0x80_0000 && w == Word(sign, exponent, fraction)
    ensures w / 0x8000_0000_0000_0000 == sign && w / 0x10_0000_0000_0000 % 0x800 == exponent
    ensures w % 0x10_0000_0000_0000 == 0 <==> fraction == 0
    ensures DoubleUnits(w) == if exponent == 0 then fraction * 0x2000_0000 * 2
                              else (fraction + 0x80_0000) * 0x2000_0000 * Pow2(exponent)
  {
    WidenedFields(sign, exponent, fraction);
    assert fraction * 0x2000_0000 + 0x10_0000_0000_0000 == (fraction + 0x80_0000) * 0x2000_0000;
  }

  lemma {:induction false} NormalWidens(b: Bits32)
    requires b / 0x80_0000 % 0x100 != 0
    ensures Widens(b, Widened(b))
  {
    var sign, exponent, fraction := b / 0x8000_0000, b / 0x80_0000 % 0x100, b % 0x80_0000;
    WidenedShape(b);
    if exponent == 0xFF {
      WordUnits(Widened(b), sign, 0x7FF, fraction);
    } else {
      WordUnits(Widened(b), sign, exponent + 896, fraction);
      NormalUnits(fraction + 0x80_0000, exponent);
    }
  }

  lemma {:induction false} SubnormalWidens(b: Bits32)
    requires b / 0x80_0000 % 0x100 == 0
    ensures Widens(b, Widened(b))
  {
    var sign, fraction := b / 0x8000_0000, b % 0x80_0000;
    WidenedShape(b);
    if fraction == 0 {
      WordUnits(Widened(b), sign, 0, 0);
    } else {
      var k := Log2(fraction);
      WordUnits(Widened(b), sign, k + 874, (fraction - Pow2(k)) * Pow2(23 - k));
      SubnormalUnits(fraction, k);
    }
  }

  /** Widening keeps sign and value, infinities and NaN. */
  lemma {:induction false} WidenedValue(b: Bits32)
    ensures Widens(b, Widened(b))
  {
    if b / 0x80_0000 % 0x100 == 0 { SubnormalWidens(b); } else { NormalWidens(b); }
  }

  // ------------------------------------------------------- payloads

  datatype InlineValue =
    | IntegerValue(v: int)
    | DecimalValue(d: Decimal)
    | DoubleValue(bits: Bits64, declaredFloat: bool)
    | BooleanValue(b: bool)
    | DateValue(dt: Instant)
    | StringValue(s: Bytes)

  const TAG: int := 0x1000_0000_0000_0000
  const TAG_INTEGER: int := 1
  const TAG_DECIMAL: int := 2
  const TAG_DOUBLE: int := 3
  const TAG_BOOLEAN: int := 4
  const TAG_DATE_TIME: int := 5
  const TAG_SHORT_STRING: int := 6

  function InstantPayload(dt: Instant): int {
    (if dt.dateOnly then 0x800_0000_0000_0000 else 0)
    + (if dt.tz.Some? then 0x400_0000_0000_0000 + (dt.tz.value + 64) * 0x8_0000_0000_0000 else 0)
    + dt.millis * 0x200_0000_0000 + (dt.seconds + 0x100_0000_0000)
  }

  function Limit(n: nat): (r: nat)
    ensures r > 0
  {
    if n == 0 then 1 else 256 * Limit(n - 1)
  }

  /** Text as a number of `n` bytes, the first one highest and zeros behind. */
  function Packed(s: Bytes, n: nat): nat
    requires |s| <= n
  {
    if s == [] then 0 else s[0] * Limit(n - 1) + Packed(s[1..], n - 1)
  }

  /** The first `len` of the `n` bytes of a number. */
  function Unpacked(v: nat, n: nat, len: nat): (s: Bytes)
    requires len <= n
    ensures |s| == len
  {
    if len == 0 then []
    else [v / Limit(n - 1) % 256] + Unpacked(v % Limit(n - 1), n - 1, len - 1)
  }

  /** `TermId::inline`: tag in the top four bits, payload below. */
  function Inline(v: InlineValue): Option<int> {
    match v
    case IntegerValue(i) => if IsInt(i) then Some(TAG_INTEGER * TAG + (i + 0x800_0000_0000_0000)) else None
    case DecimalValue(d) =>
      if IsUnscaled(d.unscaled) && d.scale <= 255
      then Some(TAG_DECIMAL * TAG + ((d.unscaled + 0x8_0000_0000_0000) * 256 + d.scale)) else None
    case DoubleValue(bits, declaredFloat) =>
      if bits % 32 == 0
      then Some(TAG_DOUBLE * TAG + ((if declaredFloat then 0x800_0000_0000_0000 else 0) + bits / 32)) else None
    case BooleanValue(b) => Some(TAG_BOOLEAN * TAG + if b then 1 else 0)
    case DateValue(dt) => if Inlines(dt) then Some(TAG_DATE_TIME * TAG + InstantPayload(dt)) else None
    case StringValue(s) => if |s| <= 7 then Some(TAG_SHORT_STRING * TAG + (Packed(s, 7) * 16 + |s|)) else None
  }

  function DecodeInstant(payload: int): Instant
    requires 0 <= payload < TAG
  {
    Instant(payload / 0x800_0000_0000_0000 % 2 == 1,
            payload % 0x200_0000_0000 - 0x100_0000_0000,
            payload / 0x200_0000_0000 % 0x400,
            if payload / 0x400_0000_0000_0000 % 2 == 1 then Some(payload / 0x8_0000_0000_0000 % 0x80 - 64) else None)
  }

  /** `ShortString::from_payload` */
  function DecodeString(p: Platform, payload: nat): Option<InlineValue> {
    var len := payload % 16;
    if len > 7 then None
    else
      var s := Unpacked(payload / 16, 7, len);
      if p.utf8(s) then Some(StringValue(s)) else None
  }

  /** `TermId::decode` */
  function Decode(p: Platform, id: int): Option<InlineValue>
    requires 0 <= id < 16 * TAG
  {
    var tag, payload := id / TAG, id % TAG;
    if tag == TAG_INTEGER then Some(IntegerValue(payload - 0x800_0000_0000_0000))
    else if tag == TAG_DECIMAL then Some(DecimalValue(Decimal(payload / 256 - 0x8_0000_0000_0000, payload % 256)))
    else if tag == TAG_DOUBLE then
      Some(DoubleValue(payload % 0x800_0000_0000_0000 * 32, payload / 0x800_0000_0000_0000 == 1))
    else if tag == TAG_BOOLEAN then Some(BooleanValue(payload % 2 == 1))
    else if tag == TAG_DATE_TIME then Some(DateValue(DecodeInstant(payload)))
    else if tag == TAG_SHORT_STRING && p.shortStrings then DecodeString(p, payload)
    else None
  }

  lemma {:induction false} InstantFields(dt: Instant)
    requires Inlines(dt)
    ensures 0 <= InstantPayload(dt) < TAG && DecodeInstant(InstantPayload(dt)) == dt
  {
    var p := InstantPayload(dt);
    var low := dt.seconds + 0x100_0000_0000;
    var zone := if dt.tz.Some? then dt.tz.value + 64 else 0;
    var hasZone, kind := if dt.tz.Some? then 1 else 0, if dt.dateOnly then 1 else 0;
    FourFields(kind, hasZone, zone, dt.millis, low);
    assert p == kind * 0x800_0000_0000_0000 + hasZone * 0x400_0000_0000_0000 + zone * 0x8_0000_0000_0000
        + dt.millis * 0x200_0000_0000 + low;
  }

  /** Disjoint bit fields are read back by shift and mask. */
  lemma {:induction false} FourFields(kind: int, hasZone: int, zone: int, millis: int, low: int)
    requires 0 <= kind < 2 && 0 <= hasZone < 2 && 0 <= zone < 0x80 && 0 <= millis < 0x400 && 0 <= low < 0x200_0000_0000
    ensures var p := kind * 0x800_0000_0000_0000 + hasZone * 0x400_0000_0000_0000 + zone * 0x8_0000_0000_0000
            + millis * 0x200_0000_0000 + low;
            && 0 <= p < TAG && p % 0x200_0000_0000 == low && p / 0x200_0000_0000 % 0x400 == millis
            && p / 0x8_0000_0000_0000 % 0x80 == zone && p / 0x400_0000_0000_0000 % 2 == hasZone
            && p / 0x800_0000_0000_0000 % 2 == kind
  {
    var p := kind * 0x800_0000_0000_0000 + hasZone * 0x400_0000_0000_0000 + zone * 0x8_0000_0000_0000
        + millis * 0x200_0000_0000 + low;
    assert p / 0x200_0000_0000 == kind * 0x4_0000 + hasZone * 0x2_0000 + zone * 0x400 + millis;
    assert p / 0x8_0000_0000_0000 == kind * 0x100 + hasZone * 0x80 + zone;
    assert p / 0x400_0000_0000_0000 == kind * 2 + hasZone;
  }

  lemma {:induction false} HeadGap(x: int, y: int, rest: int, w: int)
    requires x < y && 0 <= rest < w
    ensures x * w + rest < y * w
    decreases y - x
  {
    if x + 1 < y { HeadGap(x + 1, y, 0, w); }
  }

  lemma {:induction false} PackedBound(s: Bytes, n: nat)
    requires |s| <= n
    ensures Packed(s, n) < Limit(n)
  {
    if s != [] {
      PackedBound(s[1..], n - 1);
      HeadGap(s[0], 256, Packed(s[1..], n - 1), Limit(n - 1));
    }
  }

  lemma {:induction false} UnpacksHead(v: nat, n: nat, len: nat, head: Byte, rest: nat, w: nat)
    requires 0 < len <= n && w == Limit(n - 1) && rest < w && v == head * w + rest
    ensures Unpacked(v, n, len) == [head] + Unpacked(rest, n - 1, len - 1)
  {
    DivUnique(v, head, rest, w);
    assert v / w % 256 == head;
  }

  lemma {:induction false} PackedReads(s: Bytes, n: nat)
    requires |s| <= n
    ensures Unpacked(Packed(s, n), n, |s|) == s
  {
    if s != [] {
      PackedBound(s[1..], n - 1);
      UnpacksHead(Packed(s, n), n, |s|, s[0], Packed(s[1..], n - 1), Limit(n - 1));
      PackedReads(s[1..], n - 1);
      assert s == [s[0]] + s[1..];
    }
  }

  /** Packed text compares as text, the length deciding between equal numbers. */
  lemma {:induction false} PackedOrder(a: Bytes, b: Bytes, n: nat)
    requires |a| <= n && |b| <= n && ByteOrder.Less(a, b)
    ensures Packed(a, n) < Packed(b, n) || (Packed(a, n) == Packed(b, n) && |a| < |b|)
  {
    if a != [] {
      PackedBound(a[1..], n - 1);
      if a[0] < b[0] {
        HeadGap(a[0], b[0], Packed(a[1..], n - 1), Limit(n - 1));
      } else {
        PackedOrder(a[1..], b[1..], n - 1);
      }
    }
  }

  /** Values the build can hold: text, and only with the feature. */
  predicate Held(p: Platform, v: InlineValue) { v.StringValue? ==> p.shortStrings && p.utf8(v.s) }

  lemma {:induction false} DecimalFields(d: Decimal)
    requires d.scale <= 255
    ensures var payload := (d.unscaled + 0x8_0000_0000_0000) * 256 + d.scale;
            payload / 256 == d.unscaled + 0x8_0000_0000_0000 && payload % 256 == d.scale
  {
  }

  lemma {:induction false} DoubleFields(bits: Bits64, declaredFloat: bool)
    requires bits % 32 == 0
    ensures var payload := (if declaredFloat then 0x800_0000_0000_0000 else 0) + bits / 32;
            payload % 0x800_0000_0000_0000 * 32 == bits && (payload / 0x800_0000_0000_0000 == 1 <==> declaredFloat)
  {
  }

  lemma {:induction false} StringReads(p: Platform, s: Bytes)
    requires |s| <= 7 && p.utf8(s)
    ensures Packed(s, 7) * 16 + |s| < TAG && DecodeString(p, Packed(s, 7) * 16 + |s|) == Some(StringValue(s))
  {
    PackedBound(s, 7);
    assert Limit(7) == 0x100_0000_0000_0000;
    PackedReads(s, 7);
    DivUnique(Packed(s, 7) * 16 + |s|, Packed(s, 7), |s|, 16);
  }

  lemma {:induction false} InlineTagged(v: InlineValue)
    requires Inline(v).Some?
    ensures TAG <= Inline(v).value < 7 * TAG
  {
    match v
    case DateValue(dt) => InstantFields(dt);
    case StringValue(s) => PackedBound(s, 7); assert Limit(7) == 0x100_0000_0000_0000;
    case _ =>
  }

  /** An id decodes to the value it was made from. */
  lemma {:induction false} InlineRoundTrip(p: Platform, v: InlineValue)
    requires Inline(v).Some? && Held(p, v)
    ensures TAG <= Inline(v).value < 16 * TAG && Decode(p, Inline(v).value) == Some(v)
  {
    InlineTagged(v);
    match v
    case DecimalValue(d) => DecimalFields(d);
    case DoubleValue(bits, declaredFloat) => DoubleFields(bits, declaredFloat);
    case DateValue(dt) => InstantFields(dt);
    case StringValue(s) => StringReads(p, s);
    case _ =>
  }

  /** Payloads no value has: a boolean's upper bits, a date's spare milliseconds and
      zones and times of day, a short string's bytes behind its end. */
  predicate Unused(v: InlineValue, payload: int) {
    match v
    case BooleanValue(_) => payload > 1
    case DateValue(dt) =>
      || dt.millis > 999 || (dt.tz.Some? && !(-56 <= dt.tz.value <= 56))
      || (dt.tz.None? && payload / 0x8_0000_0000_0000 % 0x80 != 0)
      || (dt.dateOnly && (dt.millis != 0 || (dt.seconds + Offset(dt.tz)) % 86400 != 0))
    case StringValue(s) => |s| > 7 || Packed(s, 7) != payload / 16
    case _ => false
  }

  /** What an id decodes to is inlined as that id again, so that the ranges are as
      wide as the payloads. */
  lemma {:induction false} DecodeExact(p: Platform, id: int)
    requires 0 <= id < 16 * TAG && Decode(p, id).Some? && !Unused(Decode(p, id).value, id % TAG)
    ensures Inline(Decode(p, id).value) == Some(id)
  {
    var v, payload := Decode(p, id).value, id % TAG;
    assert id == id / TAG * TAG + payload;
    match v
    case DateValue(dt) => InstantBits(payload);
    case _ =>
  }

  lemma {:induction false} InstantBits(payload: int)
    requires 0 <= payload < TAG
    requires payload / 0x400_0000_0000_0000 % 2 == 0 ==> payload / 0x8_0000_0000_0000 % 0x80 == 0
    ensures InstantPayload(DecodeInstant(payload)) == payload && SecondsFit(DecodeInstant(payload).seconds)
  {
    var low, millis := payload % 0x200_0000_0000, payload / 0x200_0000_0000 % 0x400;
    var zone, hasZone := payload / 0x8_0000_0000_0000 % 0x80, payload / 0x400_0000_0000_0000 % 2;
    var kind := payload / 0x800_0000_0000_0000 % 2;
    assert payload == payload / 0x200_0000_0000 * 0x200_0000_0000 + low;
    assert payload / 0x200_0000_0000 == payload / 0x8_0000_0000_0000 * 0x400 + millis;
    assert payload / 0x8_0000_0000_0000 == payload / 0x400_0000_0000_0000 * 0x80 + zone;
    assert payload / 0x400_0000_0000_0000 == payload / 0x800_0000_0000_0000 * 2 + hasZone;
  }

  /** Every float's double passes the test on the low five bits. */
  lemma {:induction false} FloatsFit(b: Bits32)
    ensures Widened(b) % 0x2000_0000 == 0 && Inline(DoubleValue(Widened(b), true)).Some?
  {
    WidenedBounds(b % 0x80_0000);
  }

  /** Payload order is value order for integers, and false before true. */
  lemma {:induction false} IntegerOrder(a: int, b: int)
    requires IsInt(a) && IsInt(b)
    ensures Inline(IntegerValue(a)).value < Inline(IntegerValue(b)).value <==> a < b
  {
  }

  /** Payload order is byte order for short strings. */
  lemma {:induction false} StringOrder(a: Bytes, b: Bytes)
    requires |a| <= 7 && |b| <= 7
    ensures Inline(StringValue(a)).value < Inline(StringValue(b)).value <==> ByteOrder.Less(a, b)
  {
    ByteOrder.LessTotal(a, b);
    if ByteOrder.Less(a, b) {
      PackedOrder(a, b, 7);
    } else if a != b {
      PackedOrder(b, a, 7);
    }
    ByteOrder.LessIrreflexive(a);
  }

  // ------------------------------------------------------- lexical forms

  function Lexical(p: Platform, v: InlineValue): Bytes
    requires Inline(v).Some?
  {
    match v
    case IntegerValue(i) => RenderInt(i)
    case DecimalValue(d) => RenderDecimal(d)
    case DoubleValue(bits, declaredFloat) =>
      if declaredFloat then RenderFloat(p, p.narrow(bits)) else RenderDouble(p, bits)
    case BooleanValue(b) => if b then TRUE else FALSE
    case DateValue(dt) => RenderDateTime(dt)
    case StringValue(s) => s
  }

  function Datatype(v: InlineValue): Bytes {
    match v
    case IntegerValue(_) => XSD_INTEGER
    case DecimalValue(_) => XSD_DECIMAL
    case DoubleValue(_, declaredFloat) => if declaredFloat then XSD_FLOAT else XSD_DOUBLE
    case BooleanValue(_) => XSD_BOOLEAN
    case DateValue(dt) => if dt.dateOnly then XSD_DATE else XSD_DATE_TIME
    case StringValue(_) => XSD_STRING
  }

  function ParseValue(p: Platform, lex: Bytes, dt: Bytes): Option<InlineValue> {
    if dt == XSD_INTEGER then
      match ParseI64(lex) case None => None case Some(i) => Some(IntegerValue(i))
    else if dt == XSD_DECIMAL then
      match ParseDecimal(lex) case None => None case Some(d) => Some(DecimalValue(d))
    else if dt == XSD_DOUBLE then
      match p.parse64(lex) case None => None case Some(b) => Some(DoubleValue(b, false))
    else if dt == XSD_FLOAT then
      match p.parse32(lex) case None => None case Some(b) => Some(DoubleValue(Widened(b), true))
    else if dt == XSD_BOOLEAN then
      if lex == TRUE then Some(BooleanValue(true)) else if lex == FALSE then Some(BooleanValue(false)) else None
    else if dt == XSD_DATE_TIME then ParseDateValue(lex, false)
    else if dt == XSD_DATE then ParseDateValue(lex, true)
    else if dt == XSD_STRING && p.shortStrings && |lex| <= 7 then Some(StringValue(lex))
    else None
  }

  function ParseDateValue(lex: Bytes, dateOnly: bool): (r: Option<InlineValue>)
    ensures r.Some? ==> r.value.DateValue? && Datatype(r.value) == if dateOnly then XSD_DATE else XSD_DATE_TIME
  {
    match ParseDateTime(lex, dateOnly)
    case None => None
    case Some(i) => Some(DateValue(i))
  }

  /** `TermId::try_inline`: only text that its value renders back to is inlined. */
  function TryInline(p: Platform, lex: Bytes, dt: Bytes): Option<int> {
    match ParseValue(p, lex, dt)
    case None => None
    case Some(v) => if Inline(v).Some? && Lexical(p, v) == lex then Inline(v) else None
  }

  /** An inlined id gives its text and datatype back. */
  lemma {:induction false} InlineIsLossless(p: Platform, lex: Bytes, dt: Bytes)
    requires p.utf8(lex) && TryInline(p, lex, dt).Some?
    ensures var id := TryInline(p, lex, dt).value;
            && TAG <= id < 16 * TAG && Decode(p, id).Some? && Inline(Decode(p, id).value) == Some(id)
            && Lexical(p, Decode(p, id).value) == lex && Datatype(Decode(p, id).value) == dt
  {
    var v := ParseValue(p, lex, dt).value;
    ParsedKind(p, lex, dt);
    InlineRoundTrip(p, v);
  }

  lemma {:induction false} ParsedKind(p: Platform, lex: Bytes, dt: Bytes)
    requires ParseValue(p, lex, dt).Some?
    ensures var v := ParseValue(p, lex, dt).value;
            Datatype(v) == dt && (v.StringValue? ==> p.shortStrings && v.s == lex)
  {
  }

  /** Distinct literals have distinct inline ids. */
  lemma {:induction false} TryInlineInjective(p: Platform, lex: Bytes, dt: Bytes, lex': Bytes, dt': Bytes)
    requires p.utf8(lex) && p.utf8(lex')
    requires TryInline(p, lex, dt).Some? && TryInline(p, lex, dt) == TryInline(p, lex', dt')
    ensures lex == lex' && dt == dt'
  {
    InlineIsLossless(p, lex, dt);
    InlineIsLossless(p, lex', dt');
  }

  /** Values whose text the writer can read back. */
  predicate Written(p: Platform, v: InlineValue) {
    match v
    case DecimalValue(d) => Canonical(d)
    case DoubleValue(bits, false) => p.parse64(RenderDouble(p, bits)) == Some(bits)
    case DoubleValue(bits, true) =>
      (match p.parse32(RenderFloat(p, p.narrow(bits))) case Some(b) => Widened(b) == bits case None => false)
    case _ => true
  }

  /** Every canonical value in range inlines from its own text. */
  lemma {:induction false} CanonicalInlines(p: Platform, v: InlineValue)
    requires Inline(v).Some? && Held(p, v) && Written(p, v)
    ensures ParseValue(p, Lexical(p, v), Datatype(v)) == Some(v)
    ensures TryInline(p, Lexical(p, v), Datatype(v)) == Inline(v)
  {
    DatatypesDiffer();
    match v
    case IntegerValue(i) => ParseRenderInt(i);
    case DecimalValue(d) => DecimalRoundTrip(d);
    case DoubleValue(_, _) =>
    case BooleanValue(_) => assert TRUE[0] == 116 && FALSE[0] == 102;
    case DateValue(dt) => DateTimeRoundTrip(dt);
    case StringValue(_) =>
  }

  /** `v` is a canonical value whose text and datatype these are. */
  ghost predicate CanonicalFor(p: Platform, v: InlineValue, lex: Bytes, dt: Bytes) {
    Held(p, v) && Written(p, v) && Inline(v).Some? && Lexical(p, v) == lex && Datatype(v) == dt
  }

  lemma {:induction false} ParsedWritten(p: Platform, lex: Bytes, dt: Bytes)
    requires p.utf8(lex) && ParseValue(p, lex, dt).Some?
    ensures var v := ParseValue(p, lex, dt).value;
            Inline(v).Some? && Lexical(p, v) == lex ==> Held(p, v) && Written(p, v)
  {
    ParsedKind(p, lex, dt);
    if dt == XSD_DECIMAL {
      DatatypesDiffer();
      ParsedDecimal(lex);
    }
  }

  lemma {:induction false} ParsedDecimal(lex: Bytes)
    requires ParseDecimal(lex).Some?
    ensures Canonical(ParseDecimal(lex).value)
  {
    var neg := lex[0] == DASH;
    var rest := if lex[0] == DASH || lex[0] == PLUS then lex[1..] else lex;
    var point := Find(rest, DOT);
    var frac := if point < |rest| then rest[point + 1..] else [];
    var v := Accumulated(rest[..point] + frac).value;
    ParsedCanonical(if neg then -v else v, |frac|);
  }

  /** A text inlines exactly when it is the canonical text of a value in range. */
  lemma {:induction false} TryInlineIff(p: Platform, lex: Bytes, dt: Bytes, id: int)
    requires p.utf8(lex)
    ensures TryInline(p, lex, dt) == Some(id) <==>
            exists v :: CanonicalFor(p, v, lex, dt) && Inline(v) == Some(id)
  {
    if TryInline(p, lex, dt) == Some(id) {
      ParsedKind(p, lex, dt);
      ParsedWritten(p, lex, dt);
      assert CanonicalFor(p, ParseValue(p, lex, dt).value, lex, dt);
    }
    if v :| CanonicalFor(p, v, lex, dt) && Inline(v) == Some(id) { CanonicalInlines(p, v); }
  }

  lemma {:induction false} DatatypesDiffer()
    ensures XSD_DECIMAL != XSD_INTEGER && XSD_BOOLEAN != XSD_INTEGER && XSD_BOOLEAN != XSD_DECIMAL
    ensures XSD_DOUBLE !in {XSD_INTEGER, XSD_DECIMAL} && XSD_FLOAT !in {XSD_INTEGER, XSD_DECIMAL, XSD_DOUBLE}
    ensures XSD_BOOLEAN !in {XSD_DOUBLE, XSD_FLOAT}
    ensures XSD_DATE_TIME !in {XSD_INTEGER, XSD_DECIMAL, XSD_DOUBLE, XSD_FLOAT, XSD_BOOLEAN}
    ensures XSD_DATE !in {XSD_INTEGER, XSD_DECIMAL, XSD_DOUBLE, XSD_FLOAT, XSD_BOOLEAN, XSD_DATE_TIME}
    ensures XSD_STRING !in {XSD_INTEGER, XSD_DECIMAL, XSD_DOUBLE, XSD_FLOAT, XSD_BOOLEAN, XSD_DATE_TIME, XSD_DATE}
  {
    var n := |XSD|;
    assert XSD_INTEGER[n] == 'i' as int && XSD_BOOLEAN[n] == 'b' as int;
    assert XSD_STRING[n] == 's' as int && XSD_FLOAT[n] == 'f' as int;
    assert XSD_DECIMAL[n] == 'd' as int && XSD_DECIMAL[n + 1] == 'e' as int;
    assert XSD_DOUBLE[n] == 'd' as int && XSD_DOUBLE[n + 1] == 'o' as int;
    assert XSD_DATE_TIME[n] == 'd' as int && XSD_DATE_TIME[n + 1] == 'a' as int;
    assert XSD_DATE[n] == 'd' as int && XSD_DATE[n + 1] == 'a' as int;
    assert |XSD_DATE| != |XSD_DATE_TIME|;
  }
}

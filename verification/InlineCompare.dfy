/** Exact comparison of inline integers and decimals
    (crates/graphy-core/src/id.rs, `cmp_int_dec` and `cmp_dec_dec`). */
module InlineCompare {
  import opened Seqs
  import opened Digits

  datatype Ordering = Less | Equal | Greater

  function Cmp(x: int, y: int): Ordering { if x < y then Less else if x == y then Equal else Greater }

  function Reverse(o: Ordering): Ordering {
    match o
    case Less => Greater
    case Equal => Equal
    case Greater => Less
  }

  const I128_MAX: int := 0x7FFF_FFFF_FFFF_FFFF_FFFF_FFFF_FFFF_FFFF

  predicate IsI128(v: int) { -I128_MAX - 1 <= v <= I128_MAX }

  /** Payload ranges: 60-bit integers, 52-bit unscaled decimals. */
  predicate IsInt(v: int) { -0x800_0000_0000_0000 <= v < 0x800_0000_0000_0000 }
  predicate IsUnscaled(u: int) { -0x8_0000_0000_0000 <= u < 0x8_0000_0000_0000 }

  // ------------------------------------------------------- the code

  function CmpIntDec(a: int, u: int, s: nat): Ordering {
    var floor := if s == 0 then u else if s <= 38 then u / Pow10(s) else if u >= 0 then 0 else -1;
    var hasFrac := if s == 0 then false else if s <= 38 then u % Pow10(s) != 0 else u != 0;
    var ord := Cmp(a, floor);
    if ord == Equal && hasFrac then Less else ord
  }

  /** Alignment to the larger scale: `checked_pow`, then `checked_mul`. */
  function Aligned(u: int, delta: nat): Option<int> {
    if Pow10(delta) > I128_MAX || !IsI128(u * Pow10(delta)) then None else Some(u * Pow10(delta))
  }

  function CmpDecDec(u1: int, s1: nat, u2: int, s2: nat): Ordering
    decreases if s1 > s2 then 1 else 0
  {
    if s1 > s2 then Reverse(CmpDecDec(u2, s2, u1, s1))
    else if u1 == 0 then Cmp(0, u2)
    else
      match Aligned(u1, s2 - s1)
      case Some(lhs) => Cmp(lhs, u2)
      case None => if u1 > 0 then Greater else Less
  }

  // ------------------------------------------------------- powers

  lemma {:induction false} Pow10Grows(a: nat, b: nat)
    requires a <= b
    ensures Pow10(a) <= Pow10(b)
  {
    if a < b { Pow10Grows(a, b - 1); }
  }

  lemma {:induction false} Pow10Of16()
    ensures Pow10(16) == 1_0000_0000_0000_0000
  {
    assert Pow10(4) == 10000;
    Pow10Add(4, 4);
    Pow10Add(8, 8);
  }

  lemma {:induction false} Pow10Of38()
    ensures Pow10(38) == 100_0000_0000_0000_0000_0000_0000_0000_0000_0000
  {
    Pow10Of16();
    Pow10Add(16, 16);
    assert Pow10(6) == 1000000 by { assert Pow10(3) == 1000; }
    Pow10Add(32, 6);
  }

  /** `10i128.pow(s)` is defined exactly up to scale 38. */
  lemma {:induction false} PowFits(s: nat)
    ensures IsI128(Pow10(s)) <==> s <= 38
    ensures s > 38 ==> Pow10(s) > I128_MAX + 1
  {
    Pow10Of38();
    if s <= 38 { Pow10Grows(s, 38); } else { Pow10Grows(39, s); }
  }

  lemma {:induction false} ScaleOrder(x: int, y: int, p: int)
    requires p > 0
    ensures Cmp(x * p, y * p) == Cmp(x, y)
  {
    var d := y - x;
    assert y * p - x * p == d * p;
    if d > 0 { assert d * p > 0; } else if d < 0 { assert d * p < 0; }
  }

  lemma {:induction false} FloorOrder(a: int, u: int, p: int)
    requires p > 0
    ensures Cmp(a * p, u) == if a == u / p && u % p != 0 then Less else Cmp(a, u / p)
  {
    var f := u / p;
    assert u == f * p + u % p;
    if a > f {
      assert a * p >= (f + 1) * p by { ScaleOrder(a, f + 1, p); }
      assert (f + 1) * p == f * p + p;
    } else if a < f {
      assert a * p < f * p by { ScaleOrder(a, f, p); }
    }
  }

  // ------------------------------------------------------- exactness

  /** An integer compares with a decimal as `a * 10^s` does with `u`. */
  lemma {:induction false} IntDecExact(a: int, u: int, s: nat)
    requires IsUnscaled(u)
    ensures CmpIntDec(a, u, s) == Cmp(a * Pow10(s), u)
  {
    if s == 0 {
      assert a * Pow10(0) == a;
    } else if s <= 38 {
      FloorOrder(a, u, Pow10(s));
    } else {
      Pow10Grows(16, s);
      Pow10Of16();
      SmallFloor(a, u, Pow10(s));
    }
  }

  /** A decimal smaller than one unit: sign and fraction decide. */
  lemma {:induction false} SmallFloor(a: int, u: int, p: int)
    requires -p < u < p
    ensures Cmp(a * p, u)
            == (var floor := if u >= 0 then 0 else -1; if a == floor && u != 0 then Less else Cmp(a, floor))
  {
    if a > 0 {
      assert a * p >= p by { ScaleOrder(a, 1, p); }
    } else if a < 0 {
      assert a * p <= -p by { ScaleOrder(a, -1, p); }
    }
  }

  lemma {:induction false} AlignedExact(u1: int, u2: int, delta: nat)
    requires u1 != 0 && IsUnscaled(u2)
    ensures (match Aligned(u1, delta) case Some(lhs) => Cmp(lhs, u2) case None => if u1 > 0 then Greater else Less)
            == Cmp(u1 * Pow10(delta), u2)
  {
    var p := Pow10(delta);
    if u1 > 0 {
      assert u1 * p >= p by { ScaleOrder(u1, 1, p); }
    } else {
      assert u1 * p <= -p by { ScaleOrder(u1, -1, p); }
    }
  }

  /** Decimals compare as the rationals `u1 / 10^s1` and `u2 / 10^s2`, at every
      scale and through both overflow branches. */
  lemma {:induction false} DecDecExact(u1: int, s1: nat, u2: int, s2: nat)
    requires IsUnscaled(u1) && IsUnscaled(u2)
    ensures CmpDecDec(u1, s1, u2, s2) == Cmp(u1 * Pow10(s2), u2 * Pow10(s1))
    decreases if s1 > s2 then 1 else 0
  {
    if s1 > s2 {
      DecDecExact(u2, s2, u1, s1);
    } else {
      var delta := s2 - s1;
      Pow10Add(s1, delta);
      var p, q := Pow10(delta), Pow10(s1);
      assert u1 * Pow10(s2) == (u1 * p) * q by { Regroup(u1, p, q); }
      ScaleOrder(u1 * p, u2, q);
      if u1 != 0 { AlignedExact(u1, u2, delta); }
    }
  }

  lemma {:induction false} Regroup(u: int, p: int, q: int)
    ensures u * (q * p) == (u * p) * q
  {
  }

  // ------------------------------------------------------- the value order

  /** A decoded numeric payload. */
  datatype Num = IntNum(v: int) | DecNum(u: int, s: nat)

  predicate InPayload(n: Num) {
    match n
    case IntNum(v) => IsInt(v)
    case DecNum(u, s) => IsUnscaled(u) && s <= 255
  }

  function Unscaled(n: Num): int { match n case IntNum(v) => v case DecNum(u, _) => u }
  function Scale(n: Num): nat { match n case IntNum(_) => 0 case DecNum(_, s) => s }

  /** The numeric arms of `partial_cmp_value`. */
  function CmpValue(a: Num, b: Num): Ordering {
    match (a, b)
    case (IntNum(x), IntNum(y)) => Cmp(x, y)
    case (IntNum(x), DecNum(u, s)) => CmpIntDec(x, u, s)
    case (DecNum(u, s), IntNum(y)) => Reverse(CmpIntDec(y, u, s))
    case (DecNum(u1, s1), DecNum(u2, s2)) => CmpDecDec(u1, s1, u2, s2)
  }

  /** One rational order over integers and decimals alike. */
  lemma {:induction false} ValueExact(a: Num, b: Num)
    requires InPayload(a) && InPayload(b)
    ensures CmpValue(a, b) == Cmp(Unscaled(a) * Pow10(Scale(b)), Unscaled(b) * Pow10(Scale(a)))
  {
    match (a, b)
    case (IntNum(x), IntNum(y)) =>
    case (IntNum(x), DecNum(u, s)) => IntDecExact(x, u, s);
    case (DecNum(u, s), IntNum(y)) => IntDecExact(y, u, s);
    case (DecNum(u1, s1), DecNum(u2, s2)) => DecDecExact(u1, s1, u2, s2);
  }

  /** So values are totally preordered: reversing the arguments reverses the
      answer, and "not greater" is transitive. */
  lemma {:induction false} ValuePreorder(a: Num, b: Num, c: Num)
    requires InPayload(a) && InPayload(b) && InPayload(c)
    ensures CmpValue(a, a) == Equal && CmpValue(b, a) == Reverse(CmpValue(a, b))
    ensures CmpValue(a, b) != Greater && CmpValue(b, c) != Greater ==> CmpValue(a, c) != Greater
  {
    ValueExact(a, a);
    ValueExact(a, b);
    ValueExact(b, a);
    ValueExact(b, c);
    ValueExact(a, c);
    if CmpValue(a, b) != Greater && CmpValue(b, c) != Greater {
      FractionsTransitive(Unscaled(a), Pow10(Scale(a)), Unscaled(b), Pow10(Scale(b)), Unscaled(c), Pow10(Scale(c)));
    }
  }

  lemma {:induction false} FractionsTransitive(a: int, p: int, b: int, q: int, c: int, r: int)
    requires p > 0 && q > 0 && r > 0 && a * q <= b * p && b * r <= c * q
    ensures a * r <= c * p
  {
    ScaleOrder(a * q, b * p, r);
    ScaleOrder(b * r, c * q, p);
    assert (a * q) * r == (a * r) * q by { Regroup(a, r, q); }
    assert (b * p) * r == (b * r) * p by { Regroup(b, r, p); }
    assert (c * q) * p == (c * p) * q by { Regroup(c, p, q); }
    ScaleOrder(a * r, c * p, q);
  }
}

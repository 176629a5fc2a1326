/** The exact decimal type of the engine (crates/graphy-engine/src/value.rs, `Dec`). */
module ExactDecimal {
  import opened Seqs
  import opened Terms
  import opened Digits
  import opened Arith
  import opened DateText
  import opened InlineCompare
  import opened InlineId

  /** `u / 10^s`, with `u` an i128. */
  datatype Dec = Dec(u: int, s: nat)

  const U32_MAX: int := 0xFFFF_FFFF
  const DIV_SCALE: nat := 18

  predicate Ok(d: Dec) { IsI128(d.u) }

  /** `d` is the rational `num / 10^k`. */
  ghost predicate Equals(d: Dec, num: int, k: nat) { d.u * Pow10(k) == num * Pow10(d.s) }

  // ------------------------------------------------------- normal form

  /** Strip trailing fraction zeros. */
  function Normal(d: Dec): Dec
    decreases d.s
  {
    if d.s > 0 && d.u % 10 == 0 then Normal(Dec(d.u / 10, d.s - 1)) else d
  }

  method NormalLoop(d: Dec) returns (r: Dec)
    ensures r == Normal(d)
  {
    var u, s := d.u, d.s;
    while s > 0 && u % 10 == 0
      invariant Normal(Dec(u, s)) == Normal(d)
    {
      u := u / 10;
      s := s - 1;
    }
    r := Dec(u, s);
  }

  predicate IsNormal(d: Dec) { d.s == 0 || d.u % 10 != 0 }

  lemma {:induction false} Times(a: int, b: int, c: int)
    ensures (a * b) * c == a * (b * c) && (a * b) * c == (a * c) * b
  {
  }

  lemma {:induction false} NormalKeeps(d: Dec)
    ensures var n := Normal(d);
            && IsNormal(n) && n.s <= d.s && d.u == n.u * Pow10(d.s - n.s) && Equals(n, d.u, d.s)
            && (Ok(d) ==> Ok(n))
    decreases d.s
  {
    var n := Normal(d);
    if d.s > 0 && d.u % 10 == 0 {
      NormalKeeps(Dec(d.u / 10, d.s - 1));
      Times(n.u, Pow10(d.s - 1 - n.s), 10);
    }
    Pow10Add(d.s - n.s, n.s);
    Times(n.u, Pow10(d.s - n.s), Pow10(n.s));
  }

  lemma {:induction false} Cancel(a: int, b: int, p: int)
    requires p > 0 && a * p == b * p
    ensures a == b
  {
    ScaleOrder(a, b, p);
  }

  /** A value has one normal form. */
  lemma {:induction false} NormalUnique(a: Dec, b: Dec)
    requires IsNormal(a) && IsNormal(b) && Equals(a, b.u, b.s)
    ensures a == b
  {
    if a.s < b.s {
      ShorterIsWhole(a, b);
    } else if b.s < a.s {
      ShorterIsWhole(b, a);
    } else {
      Cancel(a.u, b.u, Pow10(a.s));
    }
  }

  lemma {:induction false} ShorterIsWhole(a: Dec, b: Dec)
    requires a.s < b.s && a.u * Pow10(b.s) == b.u * Pow10(a.s)
    ensures b.u % 10 == 0
  {
    var e := b.s - a.s;
    Pow10Add(e, a.s);
    Times(a.u, Pow10(e), Pow10(a.s));
    Cancel(a.u * Pow10(e), b.u, Pow10(a.s));
    Times(a.u, Pow10(e - 1), 10);
    assert b.u == (a.u * Pow10(e - 1)) * 10;
  }

  // ------------------------------------------------------- arithmetic

  function CheckedPow(e: nat): Option<int> { if IsI128(Pow10(e)) then Some(Pow10(e)) else None }

  datatype Pair = NoPair | Pair(a: int, b: int, s: nat)

  /** Both unscaled values at the larger scale. */
  function AlignBoth(a: Dec, b: Dec): Pair {
    var s := if a.s < b.s then b.s else a.s;
    if CheckedPow(s - a.s).None? || CheckedPow(s - b.s).None? then NoPair
    else
      var x, y := a.u * Pow10(s - a.s), b.u * Pow10(s - b.s);
      if IsI128(x) && IsI128(y) then Pair(x, y, s) else NoPair
  }

  function CheckedAdd(a: Dec, b: Dec): Option<Dec> {
    var p := AlignBoth(a, b);
    if p.NoPair? || !IsI128(p.a + p.b) then None else Some(Normal(Dec(p.a + p.b, p.s)))
  }

  function CheckedSub(a: Dec, b: Dec): Option<Dec> {
    var p := AlignBoth(a, b);
    if p.NoPair? || !IsI128(p.a - p.b) then None else Some(Normal(Dec(p.a - p.b, p.s)))
  }

  function CheckedMul(a: Dec, b: Dec): Option<Dec> {
    if !IsI128(a.u * b.u) || a.s + b.s > U32_MAX then None else Some(Normal(Dec(a.u * b.u, a.s + b.s)))
  }

  /** Division of machine integers truncates toward zero. */
  function Quotient(a: int, b: int): int
    requires b != 0
  {
    var q := Abs(a) / Abs(b);
    if (a < 0) == (b < 0) then q else -q
  }

  /** `None` stands for a zero divisor, an overflow, or the overflow panic of
      dividing the least i128 by -1. */
  function CheckedDiv(a: Dec, b: Dec): Option<Dec> {
    if b.u == 0 then None
    else
      var s := if DIV_SCALE < a.s then a.s else DIV_SCALE;
      var shift := s + b.s - a.s;
      if CheckedPow(shift).None? || !IsI128(a.u * Pow10(shift)) then None
      else
        var q := Quotient(a.u * Pow10(shift), b.u);
        if !IsI128(q) then None else Some(Normal(Dec(q, s)))
  }

  lemma {:induction false} Rescale(d: Dec, num: int, k: nat, e: nat)
    requires Equals(d, num, k)
    ensures Equals(d, num * Pow10(e), k + e)
  {
    Pow10Add(k, e);
    Times(d.u, Pow10(k), Pow10(e));
    Times(num, Pow10(d.s), Pow10(e));
  }

  /** Aligned values are the operands times the scale of the other. */
  lemma {:induction false} AlignedValues(a: Dec, b: Dec)
    requires AlignBoth(a, b).Pair?
    ensures var p := AlignBoth(a, b); var e := a.s + b.s - p.s;
            e >= 0 && p.a * Pow10(e) == a.u * Pow10(b.s) && p.b * Pow10(e) == b.u * Pow10(a.s)
  {
    var p := AlignBoth(a, b);
    var e := a.s + b.s - p.s;
    Pow10Add(p.s - a.s, e);
    Pow10Add(p.s - b.s, e);
    Times(a.u, Pow10(p.s - a.s), Pow10(e));
    Times(b.u, Pow10(p.s - b.s), Pow10(e));
  }

  lemma {:induction false} Distribute(x: int, y: int, p: int)
    ensures (x + y) * p == x * p + y * p && (x - y) * p == x * p - y * p
  {
  }

  /** Normalizing a result at the common scale and stating it at scale `k + e`. */
  lemma {:induction false} NormalAt(u: int, k: nat, e: nat, num: int)
    requires IsI128(u) && Ok(Dec(u, k)) && num == u * Pow10(e)
    ensures var r := Normal(Dec(u, k)); Ok(r) && IsNormal(r) && Equals(r, num, k + e)
  {
    NormalKeeps(Dec(u, k));
    Rescale(Normal(Dec(u, k)), u, k, e);
  }

  /** A defined sum is the rational one, in normal form. */
  lemma {:induction false} AddExact(a: Dec, b: Dec)
    requires Ok(a) && Ok(b) && CheckedAdd(a, b).Some?
    ensures var r := CheckedAdd(a, b).value;
            Ok(r) && IsNormal(r) && Equals(r, a.u * Pow10(b.s) + b.u * Pow10(a.s), a.s + b.s)
  {
    var p := AlignBoth(a, b);
    AlignedValues(a, b);
    var e := a.s + b.s - p.s;
    Distribute(p.a, p.b, Pow10(e));
    NormalAt(p.a + p.b, p.s, e, a.u * Pow10(b.s) + b.u * Pow10(a.s));
  }

  /** A defined difference is the rational one, in normal form. */
  lemma {:induction false} SubExact(a: Dec, b: Dec)
    requires Ok(a) && Ok(b) && CheckedSub(a, b).Some?
    ensures var r := CheckedSub(a, b).value;
            Ok(r) && IsNormal(r) && Equals(r, a.u * Pow10(b.s) - b.u * Pow10(a.s), a.s + b.s)
  {
    var p := AlignBoth(a, b);
    AlignedValues(a, b);
    var e := a.s + b.s - p.s;
    Distribute(p.a, p.b, Pow10(e));
    NormalAt(p.a - p.b, p.s, e, a.u * Pow10(b.s) - b.u * Pow10(a.s));
  }

  lemma {:induction false} MulExact(a: Dec, b: Dec)
    requires Ok(a) && Ok(b) && CheckedMul(a, b).Some?
    ensures var r := CheckedMul(a, b).value; Ok(r) && IsNormal(r) && Equals(r, a.u * b.u, a.s + b.s)
  {
    NormalKeeps(Dec(a.u * b.u, a.s + b.s));
  }

  lemma {:induction false} SignedTimes(a: int, b: int, k: int, m: int, q: int)
    requires m > 0 && b == (if b < 0 then -m else m) && q == if (a < 0) == (b < 0) then k else -k
    ensures q * b == if a < 0 then -(k * m) else k * m
  {
    assert (-k) * m == -(k * m) && k * (-m) == -(k * m) && (-k) * (-m) == k * m;
  }

  lemma {:induction false} DivBounds(n: int, m: int)
    requires n >= 0 && m > 0
    ensures 0 <= n / m * m <= n < n / m * m + m
  {
    assert n == n / m * m + n % m;
    assert n / m >= 0;
  }

  lemma {:induction false} QuotientBounds(a: int, b: int)
    requires b != 0
    ensures var q := Quotient(a, b);
            Abs(q * b) <= Abs(a) < Abs(q * b) + Abs(b) && (q * b == 0 || (q * b < 0) == (a < 0))
  {
    DivBounds(Abs(a), Abs(b));
    SignedTimes(a, b, Abs(a) / Abs(b), Abs(b), Quotient(a, b));
  }

  // ------------------------------------------------------- when they are defined

  /** The unscaled value at scale `s` and the power that takes it there fit an i128. */
  predicate ScalesTo(d: Dec, s: nat) {
    d.s <= s && IsI128(Pow10(s - d.s)) && IsI128(d.u * Pow10(s - d.s))
  }

  function Larger(a: Dec, b: Dec): nat { if a.s < b.s then b.s else a.s }

  /** The value at scale `s`, which some scales do not reach. */
  function At(d: Dec, s: nat): int
    requires d.s <= s
  {
    d.u * Pow10(s - d.s)
  }

  lemma {:induction false} WordPowers()
    ensures Pow2(32) == 0x1_0000_0000 && Pow2(63) == 0x8000_0000_0000_0000 && Pow2(64) == 0x1_0000_0000_0000_0000
  {
    assert Pow2(4) == 16;
    Pow2Add(4, 4);
    Pow2Add(8, 8);
    assert Pow2(16) == 0x1_0000;
    Pow2Add(16, 16);
    Pow2Add(32, 32);
    assert Pow2(64) == 2 * Pow2(63);
  }

  /** The ranges: 128 bits signed, and 32 bits for scales. */
  lemma {:induction false} Widths(v: int)
    ensures IsI128(v) <==> 0 - Pow2(127) <= v < Pow2(127)
    ensures U32_MAX == Pow2(32) - 1
  {
    WordPowers();
    Pow2Add(63, 64);
    assert I128_MAX + 1 == 0x8000_0000_0000_0000 * 0x1_0000_0000_0000_0000;
  }

  /** Both operands reach the larger scale. */
  predicate Meet(a: Dec, b: Dec) { ScalesTo(a, Larger(a, b)) && ScalesTo(b, Larger(a, b)) }

  lemma {:induction false} AlignedIff(a: Dec, b: Dec)
    ensures AlignBoth(a, b).Pair? <==> Meet(a, b)
    ensures Meet(a, b) ==> AlignBoth(a, b) == Pair(At(a, Larger(a, b)), At(b, Larger(a, b)), Larger(a, b))
  {
  }

  /** The sum is the normal form of the rational sum, exactly when both operands
      reach the larger scale and the sum there fits; nothing otherwise. */
  lemma {:induction false} AddIff(a: Dec, b: Dec, r: Dec)
    requires Ok(a) && Ok(b)
    ensures CheckedAdd(a, b) == Some(r) <==>
            Meet(a, b) && IsI128(At(a, Larger(a, b)) + At(b, Larger(a, b))) &&
            IsNormal(r) && Equals(r, a.u * Pow10(b.s) + b.u * Pow10(a.s), a.s + b.s)
  {
    AlignedIff(a, b);
    if CheckedAdd(a, b).Some? {
      AddExact(a, b);
      SameValue(CheckedAdd(a, b).value, r, a.u * Pow10(b.s) + b.u * Pow10(a.s), a.s + b.s);
    }
  }

  lemma {:induction false} SubIff(a: Dec, b: Dec, r: Dec)
    requires Ok(a) && Ok(b)
    ensures CheckedSub(a, b) == Some(r) <==>
            Meet(a, b) && IsI128(At(a, Larger(a, b)) - At(b, Larger(a, b))) &&
            IsNormal(r) && Equals(r, a.u * Pow10(b.s) - b.u * Pow10(a.s), a.s + b.s)
  {
    AlignedIff(a, b);
    if CheckedSub(a, b).Some? {
      SubExact(a, b);
      SameValue(CheckedSub(a, b).value, r, a.u * Pow10(b.s) - b.u * Pow10(a.s), a.s + b.s);
    }
  }

  lemma {:induction false} MulIff(a: Dec, b: Dec, r: Dec)
    requires Ok(a) && Ok(b)
    ensures CheckedMul(a, b) == Some(r) <==>
            IsI128(a.u * b.u) && a.s + b.s <= U32_MAX && IsNormal(r) && Equals(r, a.u * b.u, a.s + b.s)
  {
    if CheckedMul(a, b).Some? {
      MulExact(a, b);
      SameValue(CheckedMul(a, b).value, r, a.u * b.u, a.s + b.s);
    }
  }

  /** `q` is `num / d` truncated toward zero. */
  ghost predicate Truncates(q: int, num: int, d: int) {
    Abs(q * d) <= Abs(num) < Abs(q * d) + Abs(d) && (q * d == 0 || (q * d < 0) == (num < 0))
  }

  lemma {:induction false} TruncatedOnce(q: int, r: int, num: int, d: int)
    requires d != 0 && Truncates(q, num, d) && Truncates(r, num, d)
    ensures q == r
  {
    Distribute(q, r, d);
    if d > 0 {
      TimesGap(q - r, d);
    } else {
      TimesGap(r - q, -d);
      assert (r - q) * (-d) == (q - r) * d;
    }
  }

  /** The quotient at scale `max(18, a.s)`, truncated toward zero, exactly when the
      divisor is not zero and shifted dividend and quotient fit. */
  lemma {:induction false} DivIff(a: Dec, b: Dec, r: Dec)
    requires Ok(a) && Ok(b)
    ensures var s := if a.s > 18 then a.s else 18;
            var num := a.u * Pow10(s + b.s - a.s);
            CheckedDiv(a, b) == Some(r) <==>
            b.u != 0 && ScalesTo(a, s + b.s) && IsNormal(r) &&
            exists q :: Truncates(q, num, b.u) && IsI128(q) && Equals(r, q, s)
  {
    var s := if DIV_SCALE < a.s then a.s else DIV_SCALE;
    var num := a.u * Pow10(s + b.s - a.s);
    if b.u != 0 && ScalesTo(a, s + b.s) {
      var q := Quotient(num, b.u);
      QuotientBounds(num, b.u);
      assert Truncates(q, num, b.u);
      forall k | Truncates(k, num, b.u) ensures k == q { TruncatedOnce(k, q, num, b.u); }
      if IsI128(q) {
        assert CheckedDiv(a, b) == Some(Normal(Dec(q, s)));
        NormalKeeps(Dec(q, s));
        SameValue(Normal(Dec(q, s)), r, q, s);
      } else {
        assert CheckedDiv(a, b) == None;
      }
    } else {
      assert CheckedDiv(a, b) == None;
    }
  }

  lemma {:induction false} SameValue(x: Dec, r: Dec, num: int, k: nat)
    requires IsNormal(x) && Equals(x, num, k)
    ensures x == r <==> IsNormal(r) && Equals(r, num, k)
  {
    if IsNormal(r) && Equals(r, num, k) {
      CrossValues(x, r, num, k);
      NormalUnique(x, r);
    }
  }

  lemma {:induction false} CrossValues(x: Dec, r: Dec, num: int, k: nat)
    requires Equals(x, num, k) && Equals(r, num, k)
    ensures Equals(x, r.u, r.s)
  {
    Times(x.u, Pow10(r.s), Pow10(k));
    Times(r.u, Pow10(x.s), Pow10(k));
    Times(num, Pow10(x.s), Pow10(r.s));
    Cancel(x.u * Pow10(r.s), r.u * Pow10(x.s), Pow10(k));
  }

  // ------------------------------------------------------- comparison

  /** `Dec::compare`; `approx` compares the nearest doubles. */
  function Compare(approx: (Dec, Dec) -> Ordering, a: Dec, b: Dec): Ordering {
    match AlignBoth(a, b)
    case Pair(x, y, _) => Cmp(x, y)
    case NoPair => approx(a, b)
  }

  lemma {:induction false} CompareExact(a: Dec, b: Dec)
    requires Meet(a, b)
    ensures Cmp(At(a, Larger(a, b)), At(b, Larger(a, b))) == Cmp(a.u * Pow10(b.s), b.u * Pow10(a.s))
  {
    AlignedIff(a, b);
    AlignedValues(a, b);
    var p := AlignBoth(a, b);
    ScaleOrder(p.a, p.b, Pow10(a.s + b.s - p.s));
  }

  /** Comparison is rational comparison, whatever the doubles say, exactly when both
      operands reach the larger scale. */
  lemma {:induction false} CompareExactIff(a: Dec, b: Dec)
    ensures (forall approx: (Dec, Dec) -> Ordering ::
              Compare(approx, a, b) == Cmp(a.u * Pow10(b.s), b.u * Pow10(a.s)))
            <==> Meet(a, b)
  {
    AlignedIff(a, b);
    if Meet(a, b) {
      CompareExact(a, b);
    } else {
      var less, greater := (x: Dec, y: Dec) => Less, (x: Dec, y: Dec) => Greater;
      assert Compare(less, a, b) == Less && Compare(greater, a, b) == Greater;
    }
  }

  // ------------------------------------------------------- integer bounds

  function Trunc(d: Dec): int {
    match CheckedPow(d.s)
    case Some(p) => Quotient(d.u, p)
    case None => 0
  }

  predicate Exact(d: Dec) { d.s == 0 || (CheckedPow(d.s).Some? && d.u % Pow10(d.s) == 0) }

  function Ceil(d: Dec): int { if !Exact(d) && d.u > 0 then Trunc(d) + 1 else Trunc(d) }

  function Floor(d: Dec): int { if !Exact(d) && d.u < 0 then Trunc(d) - 1 else Trunc(d) }

  lemma {:induction false} WholeIff(u: int, p: int)
    requires p > 0
    ensures u % p == 0 <==> Quotient(u, p) * p == u
  {
    QuotientBounds(u, p);
    var q := Quotient(u, p);
    if q * p == u { DivUnique(u, q, 0, p); }
    if u % p == 0 {
      var k := u / p;
      assert u == k * p + u % p;
      if u >= 0 { DivUnique(Abs(u), k, 0, p); } else { DivUnique(Abs(u), -k, 0, p); }
    }
  }

  /** Truncation toward zero, at every scale. */
  lemma {:induction false} TruncBounds(d: Dec)
    requires Ok(d)
    ensures var t, p := Trunc(d), Pow10(d.s);
            && Abs(t * p) <= Abs(d.u) < Abs(t * p) + p && (t * p == 0 || (t * p < 0) == (d.u < 0))
            && (Exact(d) ==> t * p == d.u) && (t * p == d.u && d.u != 0 ==> Exact(d))
  {
    PowFits(d.s);
    var p := Pow10(d.s);
    if d.s <= 38 {
      QuotientBounds(d.u, p);
      WholeIff(d.u, p);
      if d.s == 0 { assert p == 1 && d.u % p == 0; }
    }
  }

  lemma {:induction false} NextMultiple(t: int, p: int)
    ensures (t + 1) * p == t * p + p && (t - 1) * p == t * p - p
  {
  }

  /** Floor and ceiling are the true integer bounds, at every scale. */
  lemma {:induction false} FloorCeilBounds(d: Dec)
    requires Ok(d)
    ensures var p := Pow10(d.s);
            && Floor(d) * p <= d.u < (Floor(d) + 1) * p
            && (Ceil(d) - 1) * p < d.u <= Ceil(d) * p
  {
    TruncBounds(d);
    NextMultiple(Trunc(d), Pow10(d.s));
    NextMultiple(Trunc(d) - 1, Pow10(d.s));
    NextMultiple(Trunc(d) + 1, Pow10(d.s));
  }

  // ------------------------------------------------------- rounding

  function Round(d: Dec): Dec {
    match CheckedPow(d.s)
    case None => d
    case Some(p) =>
      var t := Quotient(d.u, p);
      var rem := d.u - t * p;
      var half := p / 2;
      if Abs(rem) > half || (Abs(rem) == half && d.u > 0) then Dec(if d.u > 0 then t + 1 else t - 1, 0)
      else Dec(t, 0)
  }

  /** `r` is the integer nearest to `d`, ties toward positive infinity. */
  predicate HalfUp(d: Dec, r: Dec) {
    r.s == 0 && (2 * r.u - 1) * Pow10(d.s) <= 2 * d.u < (2 * r.u + 1) * Pow10(d.s)
  }

  lemma {:induction false} DoubleTimes(t: int, p: int)
    ensures (2 * t - 1) * p == 2 * (t * p) - p && (2 * t + 1) * p == 2 * (t * p) + p
  {
  }

  lemma {:induction false} Pow10Even(s: nat)
    requires s > 0
    ensures Pow10(s) % 2 == 0
  {
    assert Pow10(s) == Pow10(s - 1) * 10;
    DivUnique(Pow10(s), Pow10(s - 1) * 5, 0, 2);
  }

  /** Rounding is half-up exactly for one to 38 fraction digits, and for integers
      that are not positive: a positive integer is rounded to its successor, and
      beyond 38 digits nothing is rounded. */
  lemma {:induction false} RoundHalfUpIff(d: Dec)
    requires Ok(d)
    ensures HalfUp(d, Round(d)) <==> 1 <= d.s <= 38 || (d.s == 0 && d.u <= 0)
  {
    PowFits(d.s);
    if d.s <= 38 {
      var p := Pow10(d.s);
      var t := Quotient(d.u, p);
      QuotientBounds(d.u, p);
      DoubleTimes(t, p);
      DoubleTimes(t + 1, p);
      DoubleTimes(t - 1, p);
      NextMultiple(t, p);
      if d.s > 0 { Pow10Even(d.s); } else { assert p == 1; }
    }
  }

  // ------------------------------------------------------- text

  function Lexical(d: Dec): Bytes {
    var n := Normal(d);
    var sign := if n.u < 0 then [DASH] else [];
    var digits := Render(Abs(n.u));
    if n.s == 0 then sign + (digits + [DOT, 48])
    else if |digits| > n.s then sign + (digits[..|digits| - n.s] + [DOT] + digits[|digits| - n.s..])
    else sign + ([48, DOT] + Zeros(n.s - |digits|) + digits)
  }

  function ParseMagnitude(neg: bool, rest: Bytes): Option<Dec> {
    var point := Find(rest, DOT);
    var int_part := rest[..point];
    var frac_part := if point < |rest| then rest[point + 1..] else [];
    if (int_part == [] && frac_part == []) || !AllDigits(int_part + frac_part) then None
    else
      match Accumulated(int_part + frac_part)
      case None => None
      case Some(v) => Some(Normal(Dec(if neg then -v else v, |frac_part|)))
  }

  function Parse(lex: Bytes): Option<Dec> {
    if lex == [] then None
    else if lex[0] == DASH then ParseMagnitude(true, lex[1..])
    else if lex[0] == PLUS then ParseMagnitude(false, lex[1..])
    else ParseMagnitude(false, lex)
  }

  /** An optional sign, digits, and an optional point with digits behind it. */
  predicate Spelled(lex: Bytes, sign: Bytes, whole: Bytes, frac: Bytes, pointed: bool) {
    && lex == sign + (whole + if pointed then [DOT] + frac else []) && (!pointed ==> frac == [])
    && sign in {[], [PLUS], [DASH]} && AllDigits(whole) && AllDigits(frac) && whole + frac != []
  }

  /** The text stands for the decimal: its normal form is the value spelled, and the
      digits fit the accumulator. */
  ghost predicate Reads(sign: Bytes, whole: Bytes, frac: Bytes, d: Dec)
    requires AllDigits(whole + frac)
  {
    var v := Value(whole + frac);
    v <= I128_MAX && IsNormal(d) && Equals(d, if sign == [DASH] then -v else v, |frac|)
  }

  lemma {:induction false} MagnitudeIff(neg: bool, whole: Bytes, frac: Bytes, pointed: bool, d: Dec)
    requires AllDigits(whole) && AllDigits(frac) && whole + frac != [] && (!pointed ==> frac == [])
    ensures AllDigits(whole + frac)
    ensures ParseMagnitude(neg, whole + if pointed then [DOT] + frac else []) == Some(d) <==>
            Reads(if neg then [DASH] else [], whole, frac, d)
  {
    var rest := whole + if pointed then [DOT] + frac else [];
    NoDot(whole);
    if pointed {
      FindFirst(whole, DOT, frac);
      assert rest == whole + [DOT] + frac;
    } else {
      FindNone(whole, DOT);
      assert rest == whole;
    }
    var v := Value(whole + frac);
    var n := Dec(if neg then -v else v, |frac|);
    NormalKeeps(n);
    SameValue(Normal(n), d, n.u, n.s);
  }

  lemma {:induction false} MagnitudeSplits(neg: bool, rest: Bytes) returns (whole: Bytes, frac: Bytes, pointed: bool)
    requires ParseMagnitude(neg, rest).Some?
    ensures rest == whole + (if pointed then [DOT] + frac else []) && (!pointed ==> frac == [])
    ensures AllDigits(whole) && AllDigits(frac) && whole + frac != []
  {
    var point := Find(rest, DOT);
    pointed := point < |rest|;
    whole, frac := rest[..point], if pointed then rest[point + 1..] else [];
    DigitsBoth(whole, frac);
    PointSplits(rest, whole, frac, pointed);
  }

  lemma {:induction false} PointSplits(rest: Bytes, whole: Bytes, frac: Bytes, pointed: bool)
    requires var point := Find(rest, DOT);
             pointed == (point < |rest|) && whole == rest[..point] && frac == if pointed then rest[point + 1..] else []
    ensures rest == whole + if pointed then [DOT] + frac else []
  {
    FindIsFirst(rest, DOT);
    if pointed { assert rest == whole + [DOT] + frac; }
  }

  lemma {:induction false} DigitsBoth(x: Bytes, y: Bytes)
    ensures AllDigits(x + y) <==> AllDigits(x) && AllDigits(y)
  {
    if AllDigits(x + y) {
      forall i | 0 <= i < |x| ensures IsDigit(x[i]) { assert (x + y)[i] == x[i]; }
      forall i | 0 <= i < |y| ensures IsDigit(y[i]) { assert (x + y)[|x| + i] == y[i]; }
    }
  }

  ghost predicate Stands(lex: Bytes, sign: Bytes, whole: Bytes, frac: Bytes, pointed: bool, d: Dec) {
    Spelled(lex, sign, whole, frac, pointed) && AllDigits(whole + frac) && Reads(sign, whole, frac, d)
  }

  lemma {:induction false} SignIs(sign: Bytes, rest: Bytes)
    requires sign in {[], [PLUS], [DASH]} && rest != [] && rest[0] != PLUS && rest[0] != DASH
    ensures Parse(sign + rest) == ParseMagnitude(sign == [DASH], rest)
  {
    if sign == [] { assert sign + rest == rest; } else { assert (sign + rest)[1..] == rest; }
  }

  lemma {:induction false} SpelledParses(lex: Bytes, sign: Bytes, whole: Bytes, frac: Bytes, pointed: bool, d: Dec)
    requires Stands(lex, sign, whole, frac, pointed, d)
    ensures Parse(lex) == Some(d)
  {
    var rest := whole + if pointed then [DOT] + frac else [];
    MagnitudeIff(sign == [DASH], whole, frac, pointed, d);
    assert rest[0] == if whole != [] then whole[0] else DOT;
    SignIs(sign, rest);
  }

  lemma {:induction false} ParsedSpells(lex: Bytes, d: Dec)
    returns (sign: Bytes, whole: Bytes, frac: Bytes, pointed: bool)
    requires Parse(lex) == Some(d)
    ensures Stands(lex, sign, whole, frac, pointed, d)
  {
    sign := if lex[0] == DASH then [DASH] else if lex[0] == PLUS then [PLUS] else [];
    var rest := lex[|sign|..];
    assert lex == sign + rest;
    whole, frac, pointed := MagnitudeSplits(lex[0] == DASH, rest);
    DigitsBoth(whole, frac);
    MagnitudeIff(lex[0] == DASH, whole, frac, pointed, d);
  }

  /** Which texts parse, and to what. */
  lemma {:induction false} ParseIff(lex: Bytes, d: Dec)
    ensures Parse(lex) == Some(d) <==> exists sign, whole, frac, pointed :: Stands(lex, sign, whole, frac, pointed, d)
  {
    if Parse(lex) == Some(d) {
      var sign, whole, frac, pointed := ParsedSpells(lex, d);
    }
    if sign, whole, frac, pointed :| Stands(lex, sign, whole, frac, pointed, d) {
      SpelledParses(lex, sign, whole, frac, pointed, d);
    }
  }

  /** The digits `lexical` writes and where it puts the point. */
  function WrittenDigits(n: Dec): Bytes { if n.s == 0 then Render(Abs(n.u)) + [48] else Padded(Abs(n.u), n.s) }
  function Places(n: Dec): nat { if n.s == 0 then 1 else n.s }

  lemma {:induction false} PaddedShape(u: nat, s: nat)
    requires s > 0
    ensures var r, digits := Render(u), Padded(u, s);
            var point := |digits| - s;
            digits[..point] + [DOT] + digits[point..]
            == if |r| > s then r[..|r| - s] + [DOT] + r[|r| - s..] else [48, DOT] + Zeros(s - |r|) + r
  {
    var r, digits := Render(u), Padded(u, s);
    if |r| <= s {
      assert Zeros(s + 1 - |r|) == [48] + Zeros(s - |r|);
      assert digits == [48] + (Zeros(s - |r|) + r);
      assert digits[..1] == [48] && digits[1..] == Zeros(s - |r|) + r;
    }
  }

  lemma {:induction false} WholeShape(r: Bytes)
    ensures var digits := r + [48]; digits[..|r|] + [DOT] + digits[|r|..] == r + [DOT, 48]
  {
    assert (r + [48])[..|r|] == r && (r + [48])[|r|..] == [48];
  }

  lemma {:induction false} WholeDigits(u: nat)
    ensures AllDigits(Render(u) + [48]) && Value(Render(u) + [48]) == u * 10
  {
    RenderValue(u);
    assert (Render(u) + [48])[..|Render(u)|] == Render(u);
  }

  /** The text of a normal form with these digits, `k` of them behind the point. */
  predicate Shaped(n: Dec, digits: Bytes, k: nat, text: Bytes) {
    && AllDigits(digits) && 0 < k < |digits|
    && Value(digits) == Abs(n.u) * (if n.s == 0 then 10 else 1)
    && text == (if n.u < 0 then [DASH] else []) + (digits[..|digits| - k] + [DOT] + digits[|digits| - k..])
  }

  lemma {:induction false} WholeLexical(d: Dec)
    requires Normal(d).s == 0
    ensures Shaped(Normal(d), Render(Abs(Normal(d).u)) + [48], 1, Lexical(d))
  {
    var n := Normal(d);
    WholeDigits(Abs(n.u));
    WholeShape(Render(Abs(n.u)));
  }

  lemma {:induction false} FractionLexical(d: Dec)
    requires Normal(d).s > 0
    ensures Shaped(Normal(d), Padded(Abs(Normal(d).u), Normal(d).s), Normal(d).s, Lexical(d))
  {
    var n := Normal(d);
    PaddedValue(Abs(n.u), n.s);
    PaddedShape(Abs(n.u), n.s);
  }

  lemma {:induction false} LexicalShape(d: Dec)
    ensures Shaped(Normal(d), WrittenDigits(Normal(d)), Places(Normal(d)), Lexical(d))
  {
    if Normal(d).s == 0 { WholeLexical(d); } else { FractionLexical(d); }
  }

  lemma {:induction false} MagnitudeReads(neg: bool, digits: Bytes, k: nat)
    requires AllDigits(digits) && 0 < k < |digits|
    ensures ParseMagnitude(neg, digits[..|digits| - k] + [DOT] + digits[|digits| - k..])
            == if Value(digits) > I128_MAX then None
               else Some(Normal(Dec(if neg then -Value(digits) else Value(digits), k)))
  {
    PointReads(digits, k);
    assert digits[..|digits| - k] + digits[|digits| - k..] == digits;
  }

  lemma {:induction false} SignParses(neg: bool, rest: Bytes)
    requires rest != [] && IsDigit(rest[0])
    ensures Parse((if neg then [DASH] else []) + rest) == ParseMagnitude(neg, rest)
  {
    if neg {
      assert ([DASH] + rest)[1..] == rest;
    } else {
      assert [] + rest == rest;
    }
  }

  /** The largest magnitude whose text the parser's i128 accumulator can hold:
      an integer is written with one extra zero. */
  predicate Readable(n: Dec) { Abs(n.u) * (if n.s == 0 then 10 else 1) <= I128_MAX }

  /** Parsing the canonical text gives the normal form back exactly within that
      bound, and fails beyond it. */
  lemma {:induction false} LexicalRoundTrip(d: Dec)
    ensures Parse(Lexical(d)) == if Readable(Normal(d)) then Some(Normal(d)) else None
  {
    var n := Normal(d);
    LexicalShape(d);
    NormalKeeps(d);
    NormalAgain(n);
    ShapedParses(n, WrittenDigits(n), Places(n), Lexical(d));
  }

  lemma {:induction false} ShapedParses(n: Dec, digits: Bytes, k: nat, text: Bytes)
    requires Shaped(n, digits, k, text)
    ensures var v := Abs(n.u) * (if n.s == 0 then 10 else 1);
            Parse(text) == if v > I128_MAX then None else Some(Normal(Dec(if n.u < 0 then -v else v, k)))
  {
    PointReads(digits, k);
    MagnitudeReads(n.u < 0, digits, k);
    SignParses(n.u < 0, digits[..|digits| - k] + [DOT] + digits[|digits| - k..]);
  }

  /** The text `5.0` parses to a value that rounds to 6, and 6 is not it rounded
      half up. */
  lemma {:induction false} FiveRoundsToSix()
    ensures var text: Bytes := [53, DOT, 48];
            Parse(text) == Some(Dec(5, 0)) && Round(Dec(5, 0)) == Dec(6, 0) && !HalfUp(Dec(5, 0), Dec(6, 0))
  {
    var five := Dec(5, 0);
    assert Normal(five) == five && Render(5) == [53];
    assert [] + ([53] + [DOT, 48]) == [53, DOT, 48];
    LexicalRoundTrip(five);
    assert Pow10(0) == 1;
  }

  /** A normal form, written with its places, normalizes to itself. */
  lemma {:induction false} NormalAgain(n: Dec)
    requires IsNormal(n)
    ensures var v := Abs(n.u) * (if n.s == 0 then 10 else 1);
            Normal(Dec(if n.u < 0 then -v else v, Places(n))) == n
  {
    if n.s == 0 {
      assert Normal(Dec(n.u * 10, 1)) == Normal(Dec(n.u, 0));
    }
  }
}

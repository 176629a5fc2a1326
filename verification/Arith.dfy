/** Arithmetic facts the proofs share. */
module Arith {

  lemma {:induction false} TimesGap(d: int, w: int)
    requires w > 0
    ensures d >= 1 ==> d * w >= w
    ensures d <= -1 ==> d * w <= -w
  {
  }

  /** Quotient and remainder are unique. */
  lemma {:induction false} DivUnique(y: int, q: int, r: int, w: int)
    requires 0 <= r < w && y == q * w + r
    ensures y / w == q && y % w == r
  {
    var p := y / w;
    assert y == p * w + y % w;
    TimesGap(p - q, w);
    assert (p - q) * w == r - y % w;
  }

  /** One more group of seven bits in front of the value `u` of the later ones. */
  lemma {:induction false} GroupShift(weight: nat, d: nat, u: nat)
    ensures weight * (d + 128 * u) == weight * d + (weight * 128) * u && weight * d >= 0
  {
  }

  function Pow2(e: nat): (p: nat)
    ensures p >= 1
  {
    if e == 0 then 1 else 2 * Pow2(e - 1)
  }

  lemma {:induction false} Pow2Add(j: nat, k: nat)
    ensures Pow2(j + k) == Pow2(j) * Pow2(k)
  {
    if j > 0 { Pow2Add(j - 1, k); }
  }
}

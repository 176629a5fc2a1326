/** Decimal spellings of naturals and machine integers: `to_string` and
    `str::parse::<i64>` as the source uses them. */
module Digits {
  import opened Seqs
  import opened Terms

  const I64_MIN: int := -0x8000_0000_0000_0000
  const I64_MAX: int := 0x7FFF_FFFF_FFFF_FFFF

  predicate IsDigit(b: Byte) { 48 <= b <= 57 }

  predicate AllDigits(s: Bytes) { forall i :: 0 <= i < |s| ==> IsDigit(s[i]) }

  /** The number a digit string spells, most significant digit first. */
  function Value(s: Bytes): (v: int)
    requires AllDigits(s)
    ensures v >= 0
  {
    if s == [] then 0 else Value(s[..|s| - 1]) * 10 + (s[|s| - 1] - 48)
  }

  /** `n.to_string()` for an unsigned number. */
  function Render(n: nat): (s: Bytes)
    ensures |s| > 0 && AllDigits(s)
    ensures n > 0 ==> s[0] != 48
  {
    if n < 10 then [48 + n] else Render(n / 10) + [48 + n % 10]
  }

  /** `i.to_string()` for a signed number. */
  function RenderInt(v: int): (s: Bytes)
  {
    if v < 0 then [45] + Render(-v) else Render(v)
  }

  /** `lex.parse::<i64>().ok()`. */
  function ParseI64(s: Bytes): (r: Option<int>)
    ensures r.Some? ==> I64_MIN <= r.value <= I64_MAX
  {
    var neg := |s| > 0 && s[0] == 45;
    var body := if |s| > 0 && (s[0] == 43 || s[0] == 45) then s[1..] else s;
    if body == [] || !AllDigits(body) then None
    else
      var v := if neg then -Value(body) else Value(body);
      if I64_MIN <= v <= I64_MAX then Some(v) else None
  }

  lemma {:induction false} RenderValue(n: nat)
    ensures Value(Render(n)) == n
  {
    if n >= 10 {
      RenderValue(n / 10);
      assert Render(n)[..|Render(n)| - 1] == Render(n / 10);
    } else {
      assert Render(n)[..0] == [];
    }
  }

  lemma {:induction false} ShiftDigit(a: int, p: int, b: int)
    ensures (a * p + b) * 10 == a * (p * 10) + b * 10
  {
  }

  lemma {:induction false} ValueConcat(s: Bytes, t: Bytes)
    requires AllDigits(s) && AllDigits(t)
    ensures AllDigits(s + t)
    ensures Value(s + t) == Value(s) * Pow10(|t|) + Value(t)
  {
    if t == [] {
      assert s + t == s;
    } else {
      var u := t[..|t| - 1];
      ValueConcat(s, u);
      assert (s + t)[..|s + t| - 1] == s + u;
      assert Pow10(|t|) == Pow10(|u|) * 10;
      assert Value(s + t) == Value(s + u) * 10 + (t[|t| - 1] - 48);
      ShiftDigit(Value(s), Pow10(|u|), Value(u));
    }
  }

  function Pow10(e: nat): (p: int)
    ensures p >= 1
  {
    if e == 0 then 1 else Pow10(e - 1) * 10
  }

  lemma {:induction false} Pow10Add(a: nat, b: nat)
    ensures Pow10(a + b) == Pow10(a) * Pow10(b)
  {
    if b > 0 { Pow10Add(a, b - 1); }
  }

  /** `i.to_string().parse::<i64>()` gives `i` back. */
  lemma {:induction false} ParseRenderInt(v: int)
    requires I64_MIN <= v <= I64_MAX
    ensures ParseI64(RenderInt(v)) == Some(v)
  {
    if v < 0 {
      RenderValue(-v);
      assert RenderInt(v)[1..] == Render(-v);
    } else {
      RenderValue(v);
      assert Render(v)[0] != 45;
    }
  }

  /** The text spells the number: an optional sign, then digits. */
  predicate Spells(s: Bytes, sign: Bytes, digits: Bytes, v: int) {
    s == sign + digits && sign in {[], [43], [45]} && digits != [] && AllDigits(digits) &&
    v == if sign == [45] then -Value(digits) else Value(digits)
  }

  lemma {:induction false} SpelledParses(s: Bytes, sign: Bytes, digits: Bytes, v: int)
    requires Spells(s, sign, digits, v)
    ensures ParseI64(s) == if I64_MIN <= v <= I64_MAX then Some(v) else None
  {
    if sign == [] { assert s == digits && IsDigit(s[0]); } else { assert s[1..] == digits && s[0] == sign[0]; }
  }

  /** What parses as a machine integer: a text that spells one which fits. */
  lemma {:induction false} ParseI64Iff(s: Bytes, v: int)
    ensures ParseI64(s) == Some(v) <==> I64_MIN <= v <= I64_MAX && exists sign, digits :: Spells(s, sign, digits, v)
  {
    if ParseI64(s) == Some(v) {
      var sign: Bytes := if s[0] == 43 || s[0] == 45 then [s[0]] else [];
      assert Spells(s, sign, s[|sign|..], v);
    }
    if sign, digits :| Spells(s, sign, digits, v) { SpelledParses(s, sign, digits, v); }
  }

  /** Digits without a superfluous leading zero. */
  predicate Shortest(digits: Bytes) { digits != [] && AllDigits(digits) && (|digits| > 1 ==> digits[0] != 48) }

  lemma {:induction false} RenderShortest(digits: Bytes)
    requires Shortest(digits)
    ensures Render(Value(digits)) == digits
    decreases |digits|
  {
    if |digits| > 1 {
      var init, last := digits[..|digits| - 1], digits[|digits| - 1];
      RenderShortest(init);
      LeadingDigit(init);
      assert digits == init + [last];
      var v, d: int := Value(init), last;
      assert (v * 10 + (d - 48)) / 10 == v && (v * 10 + (d - 48)) % 10 == d - 48;
    } else {
      assert digits == [digits[0]] && digits[..0] == [];
    }
  }

  lemma {:induction false} LeadingDigit(digits: Bytes)
    requires Shortest(digits)
    ensures digits[0] != 48 ==> Value(digits) > 0
    decreases |digits|
  {
    if |digits| > 1 { LeadingDigit(digits[..|digits| - 1]); } else { assert digits[..0] == []; }
  }

  /** The text of an integer: the shortest digits of its magnitude, with a minus sign
      for a negative one. */
  lemma {:induction false} RenderIntIff(v: int, s: Bytes)
    ensures RenderInt(v) == s <==>
            exists digits :: Shortest(digits) && s == (if v < 0 then [45] else []) + digits &&
                             Value(digits) == if v < 0 then -v else v
  {
    var m := if v < 0 then -v else v;
    RenderValue(m);
    assert Shortest(Render(m)) by { if m == 0 { assert Render(0) == [48]; } }
    assert RenderInt(v) == (if v < 0 then [45] else []) + Render(m);
    if digits :| Shortest(digits) && s == (if v < 0 then [45] else []) + digits && Value(digits) == m {
      RenderShortest(digits);
    }
  }
}

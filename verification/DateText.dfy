/** Canonical date and dateTime text (crates/graphy-core/src/id.rs,
    `parse_date_time` and `render_date_time`). */
module DateText {
  import opened Seqs
  import opened Terms
  import opened Digits
  import opened Calendar

  const DASH: Byte := 45
  const PLUS: Byte := 43
  const DOT: Byte := 46
  const COLON: Byte := 58
  const TEE: Byte := 84
  const ZED: Byte := 90

  /** Seconds from the epoch as an instant, or the wall clock without timezone;
      timezone in quarter-hours. */
  datatype Instant = Instant(dateOnly: bool, seconds: int, millis: nat, tz: Option<int>)

  function Offset(tz: Option<int>): int { if tz.Some? then tz.value * 900 else 0 }

  predicate SecondsFit(s: int) { -0x100_0000_0000 <= s < 0x100_0000_0000 }

  /** What `TermId::inline` accepts. */
  predicate Inlines(dt: Instant) {
    && SecondsFit(dt.seconds) && dt.millis <= 999 && (dt.tz.Some? ==> -56 <= dt.tz.value <= 56)
    && (dt.dateOnly ==> dt.millis == 0 && (dt.seconds + Offset(dt.tz)) % 86400 == 0)
  }

  // ------------------------------------------------------- rendering

  function Two(n: int): Bytes
    requires 0 <= n < 100
  {
    [48 + n / 10, 48 + n % 10]
  }

  /** `{:04}`: at least four digits. */
  function Year(y: nat): Bytes {
    if y < 10 then [48, 48, 48, 48 + y]
    else if y < 100 then [48, 48] + Two(y)
    else if y < 1000 then [48] + Render(y)
    else Render(y)
  }

  function DateBody(c: Date): Bytes
    requires Valid(c)
  {
    (if c.y < 0 then [DASH] + Year(-c.y) else Year(c.y)) + MonthDay(c)
  }

  function MonthDay(c: Date): Bytes
    requires Valid(c)
  {
    [DASH] + Two(c.m) + [DASH] + Two(c.d)
  }

  /** The fraction without trailing zeros, empty for whole seconds. */
  function Fraction(millis: nat): Bytes
    requires millis <= 999
  {
    if millis == 0 then []
    else if millis % 100 == 0 then [DOT, 48 + millis / 100]
    else if millis % 10 == 0 then [DOT] + Two(millis / 10)
    else [DOT, 48 + millis / 100] + Two(millis % 100)
  }

  function Clock(sod: int, millis: nat): Bytes
    requires 0 <= sod < 86400 && millis <= 999
  {
    Two(sod / 3600) + [COLON] + Two(sod / 60 % 60) + [COLON] + Two(sod % 60) + Fraction(millis)
  }

  function Zone(tz: Option<int>): Bytes
    requires tz.Some? ==> -56 <= tz.value <= 56
  {
    if tz.None? then []
    else if tz.value == 0 then [ZED]
    else
      var q := if tz.value < 0 then -tz.value else tz.value;
      [if tz.value < 0 then DASH else PLUS] + Two(q / 4) + [COLON] + Two(q % 4 * 15)
  }

  function Wall(dt: Instant): int { dt.seconds + Offset(dt.tz) }

  function Body(dt: Instant): Bytes
    requires Inlines(dt)
  {
    var wall := Wall(dt);
    DaysRoundTrip(wall / 86400);
    DateBody(CivilFromDays(wall / 86400)) + if dt.dateOnly then [] else [TEE] + Clock(wall % 86400, dt.millis)
  }

  function RenderDateTime(dt: Instant): Bytes
    requires Inlines(dt)
  {
    Body(dt) + Zone(dt.tz)
  }

  /** A number in at least `width` digits. */
  function Pad(n: nat,
               width: nat): Bytes { seq(if |Render(n)| < width then width - |Render(n)| else 0, i => 48) + Render(n) }

  lemma {:induction false} TwoIsPad(n: int)
    requires 0 <= n < 100
    ensures Two(n) == Pad(n, 2)
  {
    if n >= 10 { assert Render(n / 10) == [48 + n / 10]; }
  }

  lemma {:induction false} RenderSize(n: nat)
    ensures |Render(n)| == if n < 10 then 1 else |Render(n / 10)| + 1
  {
  }

  lemma {:induction false} YearIsPad(y: nat)
    ensures Year(y) == Pad(y, 4)
  {
    RenderSize(y);
    RenderSize(y / 10);
    RenderSize(y / 100);
    RenderSize(y / 1000);
    if y < 100 { if y >= 10 { TwoIsPad(y); } }
  }

  /** The fraction `.f` of `millis` thousandths: none for zero, and no trailing zero. */
  ghost predicate FractionText(millis: nat, text: Bytes) {
    if millis == 0 then text == []
    else exists digits ::
           text == [DOT] + digits && AllDigits(digits) && 0 < |digits| <= 3 && digits[|digits| - 1] != 48 &&
           Value(digits) * Pow10(3 - |digits|) == millis
  }

  lemma {:induction false} FractionIs(millis: nat)
    requires millis <= 999
    ensures FractionText(millis, Fraction(millis))
  {
    if millis > 0 {
      var a, b, c := millis / 100, millis / 10 % 10, millis % 10;
      var digits: Bytes :=
        if millis % 100 == 0 then [48 + a] else if millis % 10 == 0 then [48 + a, 48 + b] else [48 + a, 48 + b, 48 + c];
      assert Pow10(0) == 1 && Pow10(1) == 10 && Pow10(2) == 100;
      DigitValues(a, b, c);
      assert Fraction(millis) == [DOT] + digits;
    }
  }

  lemma {:induction false} DigitValues(a: int, b: int, c: int)
    requires 0 <= a < 10 && 0 <= b < 10 && 0 <= c < 10
    ensures Value([48 + a]) == a && Value([48 + a, 48 + b]) == a * 10 + b
    ensures Value([48 + a, 48 + b, 48 + c]) == a * 100 + b * 10 + c
  {
    var x: Bytes, xy: Bytes, xyz: Bytes := [48 + a], [48 + a, 48 + b], [48 + a, 48 + b, 48 + c];
    assert x[..0] == [] && xy[..1] == x && xyz[..2] == xy;
  }

  /** The zone of an offset in minutes. */
  function ZoneText(minutes: int): Bytes {
    var m := if minutes < 0 then -minutes else minutes;
    if minutes == 0 then [ZED] else [if minutes < 0 then DASH else PLUS] + Pad(m / 60, 2) + [COLON] + Pad(m % 60, 2)
  }

  lemma {:induction false} ZoneIs(tz: int)
    requires -56 <= tz <= 56
    ensures Zone(Some(tz)) == ZoneText(tz * 15)
  {
    if tz != 0 {
      var q := if tz < 0 then -tz else tz;
      assert q * 15 / 60 == q / 4 && q * 15 % 60 == q % 4 * 15;
      TwoIsPad(q / 4);
      TwoIsPad(q % 4 * 15);
    }
  }

  function DayText(c: Date): Bytes
    requires Valid(c)
  {
    (if c.y < 0 then [DASH] + Pad(-c.y, 4) else Pad(c.y, 4)) + ([DASH] + Pad(c.m, 2) + [DASH] + Pad(c.d, 2))
  }

  lemma {:induction false} DayIs(c: Date)
    requires Valid(c)
    ensures DateBody(c) == DayText(c)
  {
    YearIsPad(if c.y < 0 then -c.y else c.y);
    TwoIsPad(c.m);
    TwoIsPad(c.d);
  }

  /** A time of day with its fraction. */
  ghost predicate ClockText(h: int, mi: int, sec: int, millis: nat, text: Bytes) {
    0 <= h < 24 && 0 <= mi < 60 && 0 <= sec < 60 &&
    exists fraction ::
      FractionText(millis, fraction) && text == Pad(h, 2) + [COLON] + Pad(mi, 2) + [COLON] + Pad(sec, 2) + fraction
  }

  lemma {:induction false} ClockIs(sod: int, h: int, mi: int, sec: int, millis: nat)
    requires 0 <= sod < 86400 && millis <= 999 && h == sod / 3600 && mi == sod / 60 % 60 && sec == sod % 60
    ensures ClockText(h, mi, sec, millis, Clock(sod, millis))
  {
    ClockParts(sod, h, mi, sec);
    TwoIsPad(h);
    TwoIsPad(mi);
    TwoIsPad(sec);
    FractionIs(millis);
    assert Clock(sod, millis) == Two(h) + [COLON] + Two(mi) + [COLON] + Two(sec) + Fraction(millis);
  }

  lemma {:induction false} ClockParts(sod: int, h: int, mi: int, sec: int)
    requires 0 <= sod < 86400 && h == sod / 3600 && mi == sod / 60 % 60 && sec == sod % 60
    ensures 0 <= h < 24 && 0 <= mi < 60 && 0 <= sec < 60 && sod == h * 3600 + mi * 60 + sec
  {
  }

  function ZoneOf(tz: Option<int>): Bytes { if tz.None? then [] else ZoneText(tz.value * 15) }

  /** The text of a date, for a dateTime of a time of day, and of a zone. */
  ghost predicate TextOf(text: Bytes, dateOnly: bool, c: Date, h: int, mi: int, sec: int, millis: nat,
                         tz: Option<int>) {
    Valid(c) &&
    exists clock ::
      ClockText(h, mi, sec, millis, clock) &&
      text == DayText(c) + (if dateOnly then [] else [TEE] + clock) + ZoneOf(tz)
  }

  lemma {:induction false} ZoneFrom(tz: Option<int>)
    requires tz.Some? ==> -56 <= tz.value <= 56
    ensures Zone(tz) == ZoneOf(tz)
  {
    if tz.Some? { ZoneIs(tz.value); }
  }

  lemma {:induction false} Written(dt: Instant, c: Date, h: int, mi: int, sec: int, clock: Bytes)
    requires Inlines(dt) && Valid(c) && ClockText(h, mi, sec, dt.millis, clock)
    requires Body(dt) == DayText(c) + (if dt.dateOnly then [] else [TEE] + clock) && Zone(dt.tz) == ZoneOf(dt.tz)
    ensures TextOf(RenderDateTime(dt), dt.dateOnly, c, h, mi, sec, dt.millis, dt.tz)
  {
  }

  lemma {:induction false} BodyIs(dt: Instant, c: Date, clock: Bytes)
    requires Inlines(dt) && c == CivilFromDays(Wall(dt) / 86400) && Valid(c)
             && clock == Clock(Wall(dt) % 86400, dt.millis)
    ensures Body(dt) == DateBody(c) + if dt.dateOnly then [] else [TEE] + clock
  {
  }

  /** An instant is written as its wall clock and zone: the seconds are those of the
      calendar date and time less the offset. */
  lemma {:induction false} RenderedText(dt: Instant) returns (c: Date, h: int, mi: int, sec: int)
    requires Inlines(dt)
    ensures TextOf(RenderDateTime(dt), dt.dateOnly, c, h, mi, sec, dt.millis, dt.tz)
    ensures dt.seconds == DaysFromCivil(c) * 86400 + h * 3600 + mi * 60 + sec
                          - (if dt.tz.Some? then dt.tz.value * 15 * 60 else 0)
    ensures dt.dateOnly ==> h == 0 && mi == 0 && sec == 0
  {
    var wall := Wall(dt);
    var sod := wall % 86400;
    DaysRoundTrip(wall / 86400);
    c, h, mi, sec := CivilFromDays(wall / 86400), sod / 3600, sod / 60 % 60, sod % 60;
    DayIs(c);
    ClockParts(sod, h, mi, sec);
    ClockIs(sod, h, mi, sec, dt.millis);
    BodyIs(dt, c, Clock(sod, dt.millis));
    ZoneFrom(dt.tz);
    Written(dt, c, h, mi, sec, Clock(sod, dt.millis));
    assert wall == wall / 86400 * 86400 + sod;
  }

  // ------------------------------------------------------- parsing

  function DigitOf(b: Byte): int {
    var v: int := b;
    v - 48
  }

  function TwoAt(s: Bytes, i: nat): int
    requires i + 1 < |s|
  {
    DigitOf(s[i]) * 10 + DigitOf(s[i + 1])
  }

  predicate DigitsAt(s: Bytes, i: nat)
    requires i + 1 < |s|
  {
    IsDigit(s[i]) && IsDigit(s[i + 1])
  }

  datatype Split = NoSplit | Split(body: Bytes, tz: Option<int>)

  /** `split_tz`: no result for a timezone that is not in quarter-hours. */
  function SplitTz(lex: Bytes): Split {
    var n := |lex|;
    if n > 0 && lex[n - 1] == ZED then Split(lex[..n - 1], Some(0))
    else if n >= 6 && ZoneShape(lex[n - 6..]) then
      var t := lex[n - 6..];
      var hh, mm := TwoAt(t, 1), TwoAt(t, 4);
      if hh > 14 || (hh == 14 && mm != 0) || mm > 59 || mm % 15 != 0 then NoSplit
      else
        var q := hh * 4 + mm / 15;
        Split(lex[..n - 6], Some(if t[0] == DASH then -q else q))
    else Split(lex, None)
  }

  predicate ZoneShape(t: Bytes)
    requires |t| == 6
  {
    (t[0] == PLUS || t[0] == DASH) && DigitsAt(t, 1) && t[3] == COLON && DigitsAt(t, 4)
  }

  /** `parse_date_fields`. */
  function ParseDate(s: Bytes): Option<Date> {
    var neg := |s| > 0 && s[0] == DASH;
    var body := if neg then s[1..] else s;
    if |body| < 10 then None
    else
      var ystr, md := body[..|body| - 6], body[|body| - 6..];
      if md[0] != DASH || md[3] != DASH || !DigitsAt(md, 1) || !DigitsAt(md, 4) || !AllDigits(ystr) then None
      else
        var y := Value(ystr);
        if y > I64_MAX || y > 40000 then None
        else
          var c := Date(if neg then -y else y, TwoAt(md, 1), TwoAt(md, 4));
          if Valid(c) then Some(c) else None
  }

  datatype Time = NoTime | Time(sod: int, millis: nat)

  /** Milliseconds of one to three fraction digits. */
  function ParseFraction(frac: Bytes): Option<nat> {
    if frac == [] || |frac| > 3 || !AllDigits(frac) then None
    else if |frac| == 1 then Some(DigitOf(frac[0]) * 100)
    else if |frac| == 2 then Some(TwoAt(frac, 0) * 10)
    else Some(DigitOf(frac[0]) * 100 + TwoAt(frac, 1))
  }

  /** `parse_time_fields`. */
  function ParseTime(s: Bytes): Time {
    if |s| < 8 || s[2] != COLON || s[5] != COLON || !DigitsAt(s, 0) || !DigitsAt(s, 3) || !DigitsAt(s, 6) then NoTime
    else
      var h, mi, sec := TwoAt(s, 0), TwoAt(s, 3), TwoAt(s, 6);
      if h > 23 || mi > 59 || sec > 59 then NoTime
      else if |s| == 8 then Time(h * 3600 + mi * 60 + sec, 0)
      else if s[8] != DOT then NoTime
      else
        match ParseFraction(s[9..])
        case None => NoTime
        case Some(millis) => Time(h * 3600 + mi * 60 + sec, millis)
  }

  function Assemble(dateOnly: bool, date: Option<Date>, time: Time, tz: Option<int>): Option<Instant> {
    if date.None? || time.NoTime? then None
    else
      var seconds := DaysFromCivil(date.value) * 86400 + time.sod - Offset(tz);
      if SecondsFit(seconds) then Some(Instant(dateOnly, seconds, time.millis, tz)) else None
  }

  function ParseDateTime(lex: Bytes, dateOnly: bool): Option<Instant> {
    if !IsAscii(lex) then None
    else
      match SplitTz(lex)
      case NoSplit => None
      case Split(body, tz) =>
        if dateOnly then Assemble(true, ParseDate(body), Time(0, 0), tz)
        else
          var t := Find(body, TEE);
          if t == |body| then None
          else Assemble(false, ParseDate(body[..t]), ParseTime(body[t + 1..]), tz)
  }

  // ------------------------------------------------------- fields

  lemma {:induction false} TwoReads(n: int)
    requires 0 <= n < 100
    ensures AllDigits(Two(n)) && TwoAt(Two(n), 0) == n
  {
  }

  lemma {:induction false} ZoneFields(tz: int)
    requires -56 <= tz <= 56 && tz != 0
    ensures var t, q := Zone(Some(tz)), if tz < 0 then -tz else tz;
            && |t| == 6 && ZoneShape(t) && t[5] != ZED && (t[0] == DASH <==> tz < 0)
            && TwoAt(t, 1) == q / 4 && TwoAt(t, 4) == q % 4 * 15
  {
  }

  lemma {:induction false} QuartersSplit(q: int)
    requires 0 < q <= 56
    ensures var hh, mm := q / 4, q % 4 * 15;
            hh * 4 + mm / 15 == q && hh <= 14 && (hh == 14 ==> mm == 0) && mm <= 59 && mm % 15 == 0
  {
  }

  /** Zone text is cut off and read back; a body that shows no zone stays whole. */
  lemma {:induction false} ZoneReads(body: Bytes, tz: Option<int>)
    requires tz.Some? ==> -56 <= tz.value <= 56
    requires body != [] && body[|body| - 1] != ZED && (|body| >= 6 ==> !ZoneShape(body[|body| - 6..]))
    ensures SplitTz(body + Zone(tz)) == Split(body, tz)
  {
    var lex := body + Zone(tz);
    if tz.None? {
      assert lex == body;
    } else if tz.value == 0 {
      assert lex[..|lex| - 1] == body;
    } else {
      ZoneFields(tz.value);
      QuartersSplit(if tz.value < 0 then -tz.value else tz.value);
      assert lex[|lex| - 6..] == Zone(tz) && lex[..|lex| - 6] == body;
      assert lex[|lex| - 1] == Zone(tz)[5];
    }
  }

  lemma {:induction false} YearReads(y: nat)
    requires y <= 40000
    ensures AllDigits(Year(y)) && Value(Year(y)) == y && |Year(y)| >= 4
  {
    RenderValue(y);
    var r := Render(y);
    if y < 10 {
      assert Value([48, 48, 48, 48 + y]) == y by {
        assert [48, 48, 48, 48 + y] == [48, 48, 48] + [48 + y];
        ZerosValue([48, 48, 48], [48 + y]);
        assert [48 + y][..0] == [];
      }
    } else if y < 100 {
      assert Render(y) == Two(y);
      ZerosValue([48, 48], Two(y));
    } else {
      RenderLength(y);
      if y < 1000 { ZerosValue([48], r); }
    }
  }

  lemma {:induction false} RenderLength(y: nat)
    requires 100 <= y
    ensures |Render(y)| >= 3 && (y >= 1000 ==> |Render(y)| >= 4)
  {
    if y >= 1000 { assert |Render(y / 100)| >= 2; }
    assert |Render(y / 10)| >= 2;
  }

  /** Leading zeros do not change the value. */
  lemma {:induction false} ZerosValue(zeros: Bytes, s: Bytes)
    requires AllDigits(s) && forall i :: 0 <= i < |zeros| ==> zeros[i] == 48
    ensures AllDigits(zeros + s) && Value(zeros + s) == Value(s)
  {
    ValueConcat(zeros, s);
    ZeroValue(zeros);
  }

  lemma {:induction false} ZeroValue(zeros: Bytes)
    requires forall i :: 0 <= i < |zeros| ==> zeros[i] == 48
    ensures AllDigits(zeros) && Value(zeros) == 0
  {
    if zeros != [] { ZeroValue(zeros[..|zeros| - 1]); }
  }

  lemma {:induction false} DateReads(c: Date)
    requires Valid(c) && -40000 <= c.y <= 40000
    ensures ParseDate(DateBody(c)) == Some(c)
  {
    var y := if c.y < 0 then -c.y else c.y;
    YearReads(y);
    TwoReads(c.m);
    TwoReads(c.d);
    var s := DateBody(c);
    var body := Year(y) + MonthDay(c);
    if c.y < 0 {
      assert s[1..] == body;
    } else {
      assert s == body;
      assert s[0] == Year(y)[0];
    }
    assert body[..|body| - 6] == Year(y) && body[|body| - 6..] == MonthDay(c);
    assert TwoAt(MonthDay(c), 1) == c.m && TwoAt(MonthDay(c), 4) == c.d;
  }

  lemma {:induction false} FractionReads(millis: nat)
    requires 0 < millis <= 999
    ensures Fraction(millis)[0] == DOT && ParseFraction(Fraction(millis)[1..]) == Some(millis)
  {
    var frac := Fraction(millis)[1..];
    if millis % 100 == 0 {
      assert frac == [48 + millis / 100];
    } else if millis % 10 == 0 {
      assert frac == Two(millis / 10);
    } else {
      assert frac == [48 + millis / 100] + Two(millis % 100);
    }
  }

  lemma {:induction false} ClockFields(h: int, mi: int, sec: int, tail: Bytes)
    requires 0 <= h <= 23 && 0 <= mi <= 59 && 0 <= sec <= 59
    ensures var s := Two(h) + [COLON] + Two(mi) + [COLON] + Two(sec) + tail;
            && |s| == 8 + |tail| && s[2] == COLON && s[5] == COLON && DigitsAt(s, 0) && DigitsAt(s, 3) && DigitsAt(s, 6)
            && TwoAt(s, 0) == h && TwoAt(s, 3) == mi && TwoAt(s, 6) == sec && s[8..] == tail
  {
  }

  lemma {:induction false} SecondsOfDay(sod: int)
    requires 0 <= sod < 86400
    ensures var h, mi, sec := sod / 3600, sod / 60 % 60, sod % 60;
            h * 3600 + mi * 60 + sec == sod && 0 <= h <= 23 && 0 <= mi <= 59 && 0 <= sec <= 59
  {
  }

  lemma {:induction false} ClockReads(sod: int, millis: nat)
    requires 0 <= sod < 86400 && millis <= 999
    ensures ParseTime(Clock(sod, millis)) == Time(sod, millis)
  {
    var s := Clock(sod, millis);
    SecondsOfDay(sod);
    ClockFields(sod / 3600, sod / 60 % 60, sod % 60, Fraction(millis));
    if millis > 0 {
      FractionReads(millis);
      assert s[8] == s[8..][0] && s[9..] == s[8..][1..];
    }
  }

  // ------------------------------------------------------- main result

  /** The seconds of an inline payload span years whose text the parser takes. */
  lemma {:induction false} YearInRange(days: int)
    requires -0x100_0000_0000 - 50400 <= days * 86400 + 86399 && days * 86400 <= 0x100_0000_0000 + 50400
    ensures var c := CivilFromDays(days); Valid(c) && -40000 <= c.y <= 40000
  {
    var c := CivilFromDays(days);
    DaysRoundTrip(days);
    DaysByYear(c);
    DayInside(c);
  }

  lemma {:induction false} WallSplits(dt: Instant)
    requires Inlines(dt)
    ensures var wall := Wall(dt);
            && -0x100_0000_0000 - 50400 <= wall / 86400 * 86400 + 86399
            && wall / 86400 * 86400 <= 0x100_0000_0000 + 50400
            && wall / 86400 * 86400 + wall % 86400 - Offset(dt.tz) == dt.seconds
  {
  }

  /** Neither form of body ends in something that reads as a timezone. */
  lemma {:induction false} DateShowsNoZone(c: Date)
    requires Valid(c)
    ensures var s := DateBody(c); |s| >= 6 && s[|s| - 1] != ZED && !ZoneShape(s[|s| - 6..])
  {
    var s := DateBody(c);
    assert s[|s| - 6..] == MonthDay(c);
    assert s[|s| - 1] == s[|s| - 6..][5];
  }

  lemma {:induction false} ClockShowsNoZone(pre: Bytes, sod: int, millis: nat)
    requires 0 <= sod < 86400 && millis <= 999
    ensures var s := pre + Clock(sod, millis); |s| >= 8 && s[|s| - 1] != ZED && !ZoneShape(s[|s| - 6..])
  {
    var clock := Clock(sod, millis);
    SecondsOfDay(sod);
    ClockFields(sod / 3600, sod / 60 % 60, sod % 60, Fraction(millis));
    var s := pre + clock;
    assert s[|s| - 6..] == clock[|clock| - 6..];
    assert s[|s| - 1] == clock[|clock| - 1];
    if millis == 0 {
      assert clock[|clock| - 6] == COLON;
    } else {
      assert |clock| == 8 + |Fraction(millis)|;
      if |Fraction(millis)| == 2 {
        assert clock[|clock| - 6] == clock[4];
      } else if |Fraction(millis)| == 3 {
        assert clock[|clock| - 6] == clock[5];
      } else {
        assert clock[|clock| - 6] == clock[6];
      }
    }
  }

  lemma {:induction false} DateIsAscii(c: Date)
    requires Valid(c) && -40000 <= c.y <= 40000
    ensures IsAscii(DateBody(c)) && TEE !in DateBody(c)
  {
    YearReads(if c.y < 0 then -c.y else c.y);
  }

  lemma {:induction false} ClockIsAscii(sod: int, millis: nat)
    requires 0 <= sod < 86400 && millis <= 999
    ensures IsAscii(Clock(sod, millis))
  {
    SecondsOfDay(sod);
    assert IsAscii(Two(sod / 3600) + [COLON] + Two(sod / 60 % 60) + [COLON] + Two(sod % 60));
    if millis > 0 { assert IsAscii(Fraction(millis)); }
  }

  lemma {:induction false} ZoneIsAscii(tz: Option<int>)
    requires tz.Some? ==> -56 <= tz.value <= 56
    ensures IsAscii(Zone(tz))
  {
  }

  lemma {:induction false} DateTextReads(c: Date, tz: Option<int>)
    requires Valid(c) && -40000 <= c.y <= 40000 && (tz.Some? ==> -56 <= tz.value <= 56)
    ensures ParseDateTime(DateBody(c) + Zone(tz), true) == Assemble(true, Some(c), Time(0, 0), tz)
  {
    DateIsAscii(c);
    ZoneIsAscii(tz);
    AsciiConcat(DateBody(c), Zone(tz));
    DateShowsNoZone(c);
    ZoneReads(DateBody(c), tz);
    DateReads(c);
  }

  lemma {:induction false} TimeTextReads(c: Date, sod: int, millis: nat, tz: Option<int>)
    requires Valid(c) && -40000 <= c.y <= 40000 && (tz.Some? ==> -56 <= tz.value <= 56)
    requires 0 <= sod < 86400 && millis <= 999
    ensures ParseDateTime(DateBody(c) + ([TEE] + Clock(sod, millis)) + Zone(tz), false)
            == Assemble(false, Some(c), Time(sod, millis), tz)
  {
    var date, clock := DateBody(c), Clock(sod, millis);
    var body := date + ([TEE] + clock);
    assert body == date + [TEE] + clock;
    TimeIsAscii(c, sod, millis, tz);
    ClockShowsNoZone(date + [TEE], sod, millis);
    ZoneReads(body, tz);
    DateIsAscii(c);
    FindFirst(date, TEE, clock);
    DateReads(c);
    ClockReads(sod, millis);
  }

  lemma {:induction false} TimeIsAscii(c: Date, sod: int, millis: nat, tz: Option<int>)
    requires Valid(c) && -40000 <= c.y <= 40000 && (tz.Some? ==> -56 <= tz.value <= 56)
    requires 0 <= sod < 86400 && millis <= 999
    ensures IsAscii(DateBody(c) + ([TEE] + Clock(sod, millis)) + Zone(tz))
  {
    DateIsAscii(c);
    ClockIsAscii(sod, millis);
    ZoneIsAscii(tz);
    AsciiConcat([TEE], Clock(sod, millis));
    AsciiConcat(DateBody(c), [TEE] + Clock(sod, millis));
    AsciiConcat(DateBody(c) + ([TEE] + Clock(sod, millis)), Zone(tz));
  }

  lemma {:induction false} Reassembled(dt: Instant)
    requires Inlines(dt)
    ensures var wall := Wall(dt); var c := CivilFromDays(wall / 86400);
            && Valid(c) && -40000 <= c.y <= 40000
            && Assemble(dt.dateOnly, Some(c), if dt.dateOnly then Time(0, 0) else Time(wall % 86400, dt.millis), dt.tz)
                == Some(dt)
  {
    WallSplits(dt);
    YearInRange(Wall(dt) / 86400);
    DaysRoundTrip(Wall(dt) / 86400);
  }

  /** Every inline date or dateTime survives rendering and parsing unchanged. */
  lemma {:induction false} DateTimeRoundTrip(dt: Instant)
    requires Inlines(dt)
    ensures ParseDateTime(RenderDateTime(dt), dt.dateOnly) == Some(dt)
  {
    var c := CivilFromDays(Wall(dt) / 86400);
    Reassembled(dt);
    if dt.dateOnly {
      DateTextReads(c, dt.tz);
      assert DateBody(c) + [] == DateBody(c);
    } else {
      TimeTextReads(c, Wall(dt) % 86400, dt.millis, dt.tz);
    }
  }
}

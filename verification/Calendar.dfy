/** The proleptic Gregorian calendar conversions
    (crates/graphy-core/src/id.rs, `days_from_civil` and `civil_from_days`). */
module Calendar {
  import opened Arith

  datatype Date = Date(y: int, m: int, d: int)

  predicate LeapYear(y: int) { y % 4 == 0 && (y % 100 != 0 || y % 400 == 0) }

  function DaysInMonth(y: int, m: int): int {
    if m == 1 || m == 3 || m == 5 || m == 7 || m == 8 || m == 10 || m == 12 then 31
    else if m == 4 || m == 6 || m == 9 || m == 11 then 30
    else if m == 2 then if LeapYear(y) then 29 else 28
    else 0
  }

  predicate Valid(c: Date) { 1 <= c.m <= 12 && 1 <= c.d <= DaysInMonth(c.y, c.m) }

  predicate Earlier(a: Date, b: Date) { a.y < b.y || (a.y == b.y && (a.m < b.m || (a.m == b.m && a.d < b.d))) }

  /** Days since 1970-01-01. */
  function DaysFromCivil(c: Date): int {
    var y := if c.m <= 2 then c.y - 1 else c.y;
    var era, yoe := y / 400, y % 400;
    var mp := if c.m > 2 then c.m - 3 else c.m + 9;
    var doy := (153 * mp + 2) / 5 + c.d - 1;
    var doe := yoe * 365 + yoe / 4 - yoe / 100 + doy;
    era * 146097 + doe - 719468
  }

  function YearOfEra(doe: int): int { (doe - doe / 1460 + doe / 36524 - doe / 146096) / 365 }

  function CivilFromDays(days: int): Date {
    var z := days + 719468;
    var era, doe := z / 146097, z % 146097;
    var yoe := YearOfEra(doe);
    var doy := doe - (365 * yoe + yoe / 4 - yoe / 100);
    var mp := (5 * doy + 2) / 153;
    var d := doy - (153 * mp + 2) / 5 + 1;
    var m := if mp < 10 then mp + 3 else mp - 9;
    var y := yoe + era * 400;
    Date(if m <= 2 then y + 1 else y, m, d)
  }

  /** The count starts on 1970-01-01. */
  lemma {:induction false} Epoch()
    ensures DaysFromCivil(Date(1970, 1, 1)) == 0
  {
    assert 1969 / 400 == 4 && 1969 % 400 == 369;
    assert (153 * 10 + 2) / 5 == 306;
  }

  // ------------------------------------------------------- years from March

  /** First day of the March year `y`, counted from the March year 0. */
  function YearStart(y: int): int { 365 * y + y / 4 - y / 100 + y / 400 }

  /** First day of the month `mp` of a March year. */
  function MonthStart(mp: int): int { (153 * mp + 2) / 5 }

  lemma {:induction false} YearStartByEra(y: int)
    ensures var era, yoe := y / 400, y % 400; YearStart(y) == era * 146097 + yoe * 365 + yoe / 4 - yoe / 100
  {
    var era, yoe := y / 400, y % 400;
    assert y == era * 400 + yoe;
    assert y / 4 == era * 100 + yoe / 4;
    assert y / 100 == era * 4 + yoe / 100;
  }

  lemma {:induction false} YearLength(y: int)
    ensures YearStart(y + 1) - YearStart(y) == if LeapYear(y + 1) then 366 else 365
  {
    assert (y + 1) / 4 - y / 4 == if (y + 1) % 4 == 0 then 1 else 0;
    assert (y + 1) / 100 - y / 100 == if (y + 1) % 100 == 0 then 1 else 0;
    assert (y + 1) / 400 - y / 400 == if (y + 1) % 400 == 0 then 1 else 0;
  }

  lemma {:induction false} YearStartMonotone(a: int, b: int)
    requires a <= b
    ensures YearStart(a) + 365 * (b - a) - 1 <= YearStart(b)
    ensures a < b ==> YearStart(a + 1) <= YearStart(b)
  {
    assert b / 4 >= a / 4 && b / 400 >= a / 400;
    assert b / 100 - a / 100 <= b / 4 - a / 4 + 1;
    assert b / 100 - (a + 1) / 100 <= b / 4 - (a + 1) / 4 + 1;
  }

  /** The March year and month of a date. */
  function MarchYear(c: Date): int { if c.m <= 2 then c.y - 1 else c.y }
  function MarchMonth(c: Date): int { if c.m > 2 then c.m - 3 else c.m + 9 }

  lemma {:induction false} DaysByYear(c: Date)
    ensures DaysFromCivil(c) == YearStart(MarchYear(c)) + MonthStart(MarchMonth(c)) + c.d - 1 - 719468
  {
    YearStartByEra(MarchYear(c));
  }

  /** A date's day stays inside its March month and year. */
  lemma {:induction false} DayInside(c: Date)
    requires Valid(c)
    ensures var mp := MarchMonth(c); 0 <= mp <= 11 && c.d <= MonthStart(mp + 1) - MonthStart(mp)
    ensures 0 <= MonthStart(MarchMonth(c)) + c.d - 1 < YearStart(MarchYear(c) + 1) - YearStart(MarchYear(c))
  {
    YearLength(MarchYear(c));
  }

  // ------------------------------------------------------- the year formula

  /** Within century `c` of an era: at most 100 years of 365 days and one leap
      day every fourth. */
  lemma {:induction false} YearInCentury(doe: int, c: int)
    requires 0 <= c <= 3 && c * 36524 <= doe < (c + 1) * 36524
    ensures var yoe := YearOfEra(doe);
            c * 100 <= yoe < c * 100 + 100 && yoe * 365 + yoe / 4 - c <= doe < (yoe + 1) * 365 + (yoe + 1) / 4 - c
  {
    assert doe / 36524 == c && doe / 146096 == 0;
    var q := doe / 1460;
    var yoe := YearOfEra(doe);
    assert yoe == (doe - q + c) / 365;
    assert 1460 * q <= doe < 1460 * q + 1460;
  }

  lemma {:induction false} CenturyYear(doe: int, c: int)
    requires 0 <= c <= 3 && c * 36524 <= doe < (c + 1) * 36524
    ensures var yoe := YearOfEra(doe); 0 <= yoe < 400 && YearStart(yoe) <= doe < YearStart(yoe + 1)
  {
    YearInCentury(doe, c);
    var yoe := YearOfEra(doe);
    assert yoe / 100 == c && yoe / 400 == 0;
    if yoe + 1 < c * 100 + 100 {
      assert (yoe + 1) / 100 == c && (yoe + 1) / 400 == 0;
    } else {
      assert (yoe + 1) / 100 == c + 1 && (yoe + 1) / 4 == 25 * (c + 1);
    }
  }

  lemma {:induction false} YearOfEraRange(doe: int)
    requires 0 <= doe < 146097
    ensures var yoe := YearOfEra(doe); 0 <= yoe < 400 && YearStart(yoe) <= doe < YearStart(yoe + 1)
  {
    if doe == 146096 {
      assert YearOfEra(doe) == 399;
    } else {
      CenturyYear(doe, doe / 36524);
    }
  }

  lemma {:induction false} MonthOfDay(doy: int)
    requires 0 <= doy <= 365
    ensures var mp := (5 * doy + 2) / 153; 0 <= mp <= 11 && MonthStart(mp) <= doy < MonthStart(mp + 1)
  {
  }

  lemma {:induction false} EraStart(era: int, yoe: int)
    requires 0 <= yoe < 400
    ensures YearStart(era * 400 + yoe) == era * 146097 + YearStart(yoe)
  {
    var y := era * 400 + yoe;
    DivUnique(y, era * 100 + yoe / 4, yoe % 4, 4);
    DivUnique(y, era * 4 + yoe / 100, yoe % 100, 100);
    DivUnique(y, era, yoe, 400);
  }

  // ------------------------------------------------------- main results

  /** The March year, month and day that `CivilFromDays` turns into a date. */
  lemma {:induction false} CivilParts(days: int, era: int, yoe: int, doy: int)
    requires era == (days + 719468) / 146097 && yoe == YearOfEra((days + 719468) % 146097)
    requires doy == (days + 719468) % 146097 - (365 * yoe + yoe / 4 - yoe / 100) && 0 <= doy <= 365
    ensures var c, mp := CivilFromDays(days), (5 * doy + 2) / 153;
            && MarchYear(c) == yoe + era * 400 && MarchMonth(c) == mp && 1 <= c.m <= 12
            && c.d == doy - MonthStart(mp) + 1
  {
    MonthOfDay(doy);
  }

  /** Every day number names a valid date, and that date's day number is it. */
  lemma {:induction false} DaysRoundTrip(days: int)
    ensures Valid(CivilFromDays(days)) && DaysFromCivil(CivilFromDays(days)) == days
  {
    var z := days + 719468;
    var era, doe := z / 146097, z % 146097;
    var yoe := YearOfEra(doe);
    YearOfEraRange(doe);
    var doy := doe - YearStart(yoe);
    assert YearStart(yoe) == 365 * yoe + yoe / 4 - yoe / 100;
    DayOfYear(era, yoe, doy);
    CivilParts(days, era, yoe, doy);
    MonthOfDay(doy);
    var c := CivilFromDays(days);
    DaysByYear(c);
    MonthFits(yoe + era * 400, (5 * doy + 2) / 153, c);
  }

  lemma {:induction false} DayOfYear(era: int, yoe: int, doy: int)
    requires 0 <= yoe < 400 && 0 <= doy < YearStart(yoe + 1) - YearStart(yoe)
    ensures var y := yoe + era * 400;
            && YearStart(y) == era * 146097 + YearStart(yoe)
            && doy < YearStart(y + 1) - YearStart(y) && doy <= 365
  {
    EraStart(era, yoe);
    YearLength(yoe);
    YearLength(yoe + era * 400);
    LeapByEra(era, yoe);
  }

  lemma {:induction false} LeapByEra(era: int, yoe: int)
    ensures LeapYear(yoe + era * 400 + 1) == LeapYear(yoe + 1)
  {
    var y, x := yoe + era * 400 + 1, yoe + 1;
    DivUnique(y, x / 4 + era * 100, x % 4, 4);
    DivUnique(y, x / 100 + era * 4, x % 100, 100);
    DivUnique(y, x / 400 + era, x % 400, 400);
  }

  /** A day inside its March month and year is a day of its calendar month. */
  lemma {:induction false} MonthFits(y: int, mp: int, c: Date)
    requires 0 <= mp <= 11 && MarchYear(c) == y && MarchMonth(c) == mp && 1 <= c.m <= 12
    requires 1 <= c.d <= MonthStart(mp + 1) - MonthStart(mp)
    requires MonthStart(mp) + c.d - 1 < YearStart(y + 1) - YearStart(y)
    ensures Valid(c)
  {
    YearLength(y);
  }

  /** March years and months order dates as calendar ones do. */
  lemma {:induction false} SameMarch(a: Date, b: Date)
    requires 1 <= a.m <= 12 && 1 <= b.m <= 12 && Earlier(a, b)
    ensures MarchYear(a) < MarchYear(b) || (MarchYear(a) == MarchYear(b) &&
              (MarchMonth(a) < MarchMonth(b) || (MarchMonth(a) == MarchMonth(b) && a.d < b.d)))
  {
  }

  lemma {:induction false} MonthsApart(a: int, b: int)
    requires 0 <= a < b <= 11
    ensures MonthStart(a + 1) <= MonthStart(b)
  {
  }

  /** Later dates have larger day numbers. */
  lemma {:induction false} DaysMonotone(a: Date, b: Date)
    requires Valid(a) && Valid(b) && Earlier(a, b)
    ensures DaysFromCivil(a) < DaysFromCivil(b)
  {
    DaysByYear(a);
    DaysByYear(b);
    DayInside(a);
    DayInside(b);
    SameMarch(a, b);
    if MarchYear(a) < MarchYear(b) {
      YearStartMonotone(MarchYear(a), MarchYear(b));
    } else if MarchMonth(a) < MarchMonth(b) {
      MonthsApart(MarchMonth(a), MarchMonth(b));
    }
  }

  /** Every valid date comes back from its day number: the conversions are
      mutually inverse, strictly monotone bijections. */
  lemma {:induction false} CivilRoundTrip(c: Date)
    requires Valid(c)
    ensures CivilFromDays(DaysFromCivil(c)) == c
  {
    var back := CivilFromDays(DaysFromCivil(c));
    DaysRoundTrip(DaysFromCivil(c));
    if Earlier(c, back) {
      DaysMonotone(c, back);
    } else if Earlier(back, c) {
      DaysMonotone(back, c);
    }
  }

  /** The second copy of the conversion (crates/graphy-engine/src/value.rs). */
  function ValueDays(year: int, month: int, day: int): int {
    var y := year - if month <= 2 then 1 else 0;
    var era, yoe := y / 400, y % 400;
    var mp := month + if month > 2 then -3 else 9;
    var doy := (153 * mp + 2) / 5 + day - 1;
    era * 146097 + (365 * yoe + yoe / 4 - yoe / 100) + doy
  }

  lemma {:induction false} CopyDiffers(c: Date)
    ensures ValueDays(c.y, c.m, c.d) == DaysFromCivil(c) + 719468
  {
  }

  /** The copies differ by the days between their epochs, so they order dates alike. */
  lemma {:induction false} CopiesAgree(a: Date, b: Date)
    requires Valid(a) && Valid(b)
    ensures ValueDays(a.y, a.m, a.d) == DaysFromCivil(a) + 719468
    ensures Earlier(a, b) <==> ValueDays(a.y, a.m, a.d) < ValueDays(b.y, b.m, b.d)
  {
    CopyDiffers(a);
    CopyDiffers(b);
    if Earlier(a, b) {
      DaysMonotone(a, b);
    } else if Earlier(b, a) {
      DaysMonotone(b, a);
    }
  }
}

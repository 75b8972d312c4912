/**
 The proleptic Gregorian calendar that `java.time.LocalDate` implements, on
 day numbers: a date is its epoch day (0 is 1970-01-01, as in
 `LocalDate.toEpochDay`). `EpochDay` and `CivilOf` convert both ways and are
 proved inverse to each other; `FormatYyyyMMdd` is the fixed
 `DateTimeFormatter.ofPattern("yyyyMMdd")` rendering.
 */
module Calendar {
  import opened Strings

  /** The Gregorian rule, as stated in DateTimeSource.randomLocalDate. */
  predicate IsLeapYear(y: int) {
    (y % 4 == 0 && y % 100 != 0) || y % 400 == 0
  }

  function YearLength(y: int): int {
    if IsLeapYear(y) then 366 else 365
  }

  function MonthLength(y: int, m: int): int
    requires 1 <= m <= 12
  {
    if m == 2 then (if IsLeapYear(y) then 29 else 28)
    else if m == 4 || m == 6 || m == 9 || m == 11 then 30
    else 31
  }

  /** Days of year `y` before the first of month `m` (`m == 13` gives the
      whole year). */
  function DaysBeforeMonth(y: int, m: int): int
    requires 1 <= m <= 13
  {
    [0, 31, 59, 90, 120, 151, 181, 212, 243, 273, 304, 334, 365][m - 1]
      + (if m > 2 && IsLeapYear(y) then 1 else 0)
  }

  lemma MonthStep(y: int, m: int)
    requires 1 <= m <= 12
    ensures DaysBeforeMonth(y, m + 1) == DaysBeforeMonth(y, m) + MonthLength(y, m)
    ensures DaysBeforeMonth(y, 13) == YearLength(y)
  {
  }

  lemma {:induction false} MonthsMonotone(y: int, m1: int, m2: int)
    requires 1 <= m1 < m2 <= 13
    ensures DaysBeforeMonth(y, m1) + MonthLength(y, m1) <= DaysBeforeMonth(y, m2)
    decreases m2 - m1
  {
    MonthStep(y, m1);
    if m1 + 1 < m2 {
      MonthsMonotone(y, m1 + 1, m2);
    }
  }

  /** Days from 0001-01-01 to the first of January of year `y`. */
  function DaysBeforeYear(y: int): int {
    var p := y - 1;
    365 * p + p / 4 - p / 100 + p / 400
  }

  lemma StepBy4(p: int)
    ensures (p + 1) / 4 == p / 4 + (if (p + 1) % 4 == 0 then 1 else 0)
  {
  }

  lemma StepBy100(p: int)
    ensures (p + 1) / 100 == p / 100 + (if (p + 1) % 100 == 0 then 1 else 0)
  {
  }

  lemma StepBy400(p: int)
    ensures (p + 1) / 400 == p / 400 + (if (p + 1) % 400 == 0 then 1 else 0)
  {
  }

  lemma YearStep(y: int)
    ensures DaysBeforeYear(y + 1) == DaysBeforeYear(y) + YearLength(y)
  {
    var p := y - 1;
    var a, b, c := p / 4, p / 100, p / 400;
    var a', b', c' := y / 4, y / 100, y / 400;
    assert a' == a + (if y % 4 == 0 then 1 else 0) by {
      StepBy4(p);
    }
    assert b' == b + (if y % 100 == 0 then 1 else 0) by {
      StepBy100(p);
    }
    assert c' == c + (if y % 400 == 0 then 1 else 0) by {
      StepBy400(p);
    }
    assert DaysBeforeYear(y) == 365 * p + a - b + c;
    assert DaysBeforeYear(y + 1) == 365 * y + a' - b' + c';
    DivisibleChain(y);
  }

  /** A multiple of 400 is a multiple of 100, and that of 4. */
  lemma DivisibleChain(y: int)
    ensures y % 400 == 0 ==> y % 100 == 0
    ensures y % 100 == 0 ==> y % 4 == 0
  {
    if y % 400 == 0 {
      var k := y / 400;
      assert y == 100 * (4 * k);
      ShiftBy100(0, 4 * k);
    }
    if y % 100 == 0 {
      var k := y / 100;
      assert y == 4 * (25 * k);
      ShiftBy4(0, 25 * k);
    }
  }

  lemma {:induction false} YearsMonotone(y1: int, y2: int)
    requires y1 < y2
    ensures DaysBeforeYear(y1) + YearLength(y1) <= DaysBeforeYear(y2)
    decreases y2 - y1
  {
    YearStep(y1);
    if y1 + 1 < y2 {
      YearsMonotone(y1 + 1, y2);
      YearStep(y1 + 1);
    }
  }

  lemma ShiftBy4(p: int, k: int)
    ensures (p + 4 * k) / 4 == p / 4 + k && (p + 4 * k) % 4 == p % 4
  {
    var a, b := p / 4, p % 4;
    assert p + 4 * k == 4 * (a + k) + b;
  }

  lemma ShiftBy100(p: int, k: int)
    ensures (p + 100 * k) / 100 == p / 100 + k && (p + 100 * k) % 100 == p % 100
  {
    var a, b := p / 100, p % 100;
    assert p + 100 * k == 100 * (a + k) + b;
  }

  lemma ShiftBy400(p: int, k: int)
    ensures (p + 400 * k) / 400 == p / 400 + k && (p + 400 * k) % 400 == p % 400
  {
    var a, b := p / 400, p % 400;
    assert p + 400 * k == 400 * (a + k) + b;
  }

  /** The calendar repeats every 400 years, which hold 146097 days. */
  lemma CycleShift(y: int, q: int)
    ensures DaysBeforeYear(y + 400 * q) == DaysBeforeYear(y) + 146097 * q
    ensures YearLength(y + 400 * q) == YearLength(y)
  {
    var p := y - 1;
    var k := 100 * q;
    var h := 4 * q;
    assert 400 * q == 4 * k == 100 * h;
    ShiftBy4(p, k);
    ShiftBy100(p, h);
    ShiftBy400(p, q);
    ShiftBy4(y, k);
    ShiftBy100(y, h);
    ShiftBy400(y, q);
  }

  datatype Civil = Civil(year: int, month: int, day: int)

  /** A date that exists: `LocalDate.of` accepts it (its year limit aside). */
  predicate Valid(c: Civil) {
    1 <= c.month <= 12 && 1 <= c.day <= MonthLength(c.year, c.month)
  }

  /** Days from 0001-01-01 to 1970-01-01. */
  const EpochOffset: int := 719162

  /** `LocalDate.toEpochDay`. */
  function EpochDay(c: Civil): int
    requires Valid(c)
  {
    DaysBeforeYear(c.year) + DaysBeforeMonth(c.year, c.month) + c.day - 1 - EpochOffset
  }

  /** Walks forward from year `y` through `r` days. */
  function FindYear(y: int, r: int): (res: (int, int))
    requires r >= 0
    ensures res.0 >= y && 0 <= res.1 < YearLength(res.0)
    ensures DaysBeforeYear(res.0) + res.1 == DaysBeforeYear(y) + r
    decreases r
  {
    if r < YearLength(y) then (y, r)
    else
      YearStep(y);
      FindYear(y + 1, r - YearLength(y))
  }

  /** Walks forward from month `m` of year `y` through `rem` days. */
  function FindMonth(y: int, m: int, rem: int): (md: (int, int))
    requires 1 <= m <= 12 && 0 <= rem
    requires DaysBeforeMonth(y, m) + rem < YearLength(y)
    ensures m <= md.0 <= 12 && 1 <= md.1 <= MonthLength(y, md.0)
    ensures DaysBeforeMonth(y, md.0) + md.1 - 1 == DaysBeforeMonth(y, m) + rem
    decreases 12 - m
  {
    MonthStep(y, m);
    if rem < MonthLength(y, m) then (m, rem + 1)
    else FindMonth(y, m + 1, rem - MonthLength(y, m))
  }

  /** `LocalDate.ofEpochDay`: the date whose epoch day is `n`. */
  function CivilOf(n: int): (c: Civil)
    ensures Valid(c) && EpochDay(c) == n
  {
    var z := n + EpochOffset;
    var q := z / 146097;
    var r := z % 146097;
    var yr := FindYear(1, r);
    var y := yr.0 + 400 * q;
    CycleShift(yr.0, q);
    var md := FindMonth(y, 1, yr.1);
    Civil(y, md.0, md.1)
  }

  lemma YearUnique(y1: int, r1: int, y2: int, r2: int)
    requires 0 <= r1 < YearLength(y1) && 0 <= r2 < YearLength(y2)
    requires DaysBeforeYear(y1) + r1 == DaysBeforeYear(y2) + r2
    ensures y1 == y2 && r1 == r2
  {
    if y1 < y2 {
      YearsMonotone(y1, y2);
    } else if y2 < y1 {
      YearsMonotone(y2, y1);
    }
  }

  lemma MonthUnique(y: int, m1: int, d1: int, m2: int, d2: int)
    requires 1 <= m1 <= 12 && 1 <= d1 <= MonthLength(y, m1)
    requires 1 <= m2 <= 12 && 1 <= d2 <= MonthLength(y, m2)
    requires DaysBeforeMonth(y, m1) + d1 == DaysBeforeMonth(y, m2) + d2
    ensures m1 == m2 && d1 == d2
  {
    if m1 < m2 {
      MonthsMonotone(y, m1, m2);
    } else if m2 < m1 {
      MonthsMonotone(y, m2, m1);
    }
  }

  /** The day of the year (from 0) of a valid date is within its year. */
  lemma DayOfYearBound(c: Civil)
    requires Valid(c)
    ensures 0 <= DaysBeforeMonth(c.year, c.month) + c.day - 1 < YearLength(c.year)
  {
    MonthStep(c.year, c.month);
    if c.month < 12 {
      MonthsMonotone(c.year, c.month + 1, 13);
    }
  }

  /** Two different dates never share an epoch day. */
  lemma EpochDayInjective(c1: Civil, c2: Civil)
    requires Valid(c1) && Valid(c2)
    requires EpochDay(c1) == EpochDay(c2)
    ensures c1 == c2
  {
    DayOfYearBound(c1);
    DayOfYearBound(c2);
    YearUnique(c1.year, DaysBeforeMonth(c1.year, c1.month) + c1.day - 1,
               c2.year, DaysBeforeMonth(c2.year, c2.month) + c2.day - 1);
    MonthUnique(c1.year, c1.month, c1.day, c2.month, c2.day);
  }

  /** Converting a date to its epoch day and back gives the same date. */
  lemma CivilOfEpochDay(c: Civil)
    requires Valid(c)
    ensures CivilOf(EpochDay(c)) == c
  {
    EpochDayInjective(CivilOf(EpochDay(c)), c);
  }

  function FirstDayOfYear(y: int): int { EpochDay(Civil(y, 1, 1)) }
  function LastDayOfYear(y: int): int { EpochDay(Civil(y, 12, 31)) }

  /** Jan 1 .. Dec 31 of a year are exactly the days whose year is `y`, and
      there are `YearLength(y)` of them. */
  lemma YearOfDay(n: int, y: int)
    ensures LastDayOfYear(y) - FirstDayOfYear(y) == YearLength(y) - 1
    ensures FirstDayOfYear(y) <= n <= LastDayOfYear(y) <==> CivilOf(n).year == y
  {
    var c := CivilOf(n);
    DayOfYearBound(c);
    if FirstDayOfYear(y) <= n <= LastDayOfYear(y) {
      YearUnique(c.year, DaysBeforeMonth(c.year, c.month) + c.day - 1,
                 y, n + EpochOffset - DaysBeforeYear(y));
    }
  }

  /** A later day never falls in an earlier year. */
  lemma YearOfDayMonotone(a: int, b: int)
    requires a <= b
    ensures CivilOf(a).year <= CivilOf(b).year
  {
    var ya, yb := CivilOf(a).year, CivilOf(b).year;
    if ya > yb {
      YearOfDay(a, ya);
      YearOfDay(b, yb);
      YearsMonotone(yb, ya);
      assert false;
    }
  }

  /** `LocalDate.ofEpochDay(0)` is 1970-01-01. */
  lemma EpochOrigin()
    ensures CivilOf(0) == Civil(1970, 1, 1)
  {
    var c := Civil(1970, 1, 1);
    assert EpochDay(c) == 0;
    CivilOfEpochDay(c);
  }

  /** Year of era, as the `y` pattern letter prints it (1 BCE for year 0). */
  function YearOfEra(y: int): (e: nat)
    ensures e >= 1
  {
    if y >= 1 then y else 1 - y
  }

  /** Pattern `yyyy`: at least four digits, zero-padded; a value of five or
      more digits gets a leading '+' (`SignStyle.EXCEEDS_PAD`). */
  function FormatYear(y: int): string {
    var e := YearOfEra(y);
    if e >= 10000 then "+" + NatToString(e) else ZeroPad(e, 4)
  }

  /** `DateTimeFormatter.ofPattern("yyyyMMdd")` applied to epoch day `n`. */
  function FormatYyyyMMdd(n: int): string {
    FormatCivil(CivilOf(n))
  }

  function FormatCivil(c: Civil): string
    requires Valid(c)
  {
    FormatYear(c.year) + ZeroPad(c.month, 2) + ZeroPad(c.day, 2)
  }

  lemma {:induction false} NatToStringShort(n: nat, k: nat)
    requires k >= 1 && n < Pow10(k)
    ensures |NatToString(n)| <= k
  {
    if n >= 10 {
      assert Pow10(k) == 10 * Pow10(k - 1);
      NatToStringShort(n / 10, k - 1);
    }
  }

  lemma PadExact(n: nat, k: nat)
    requires k >= 1 && n < Pow10(k)
    ensures |ZeroPad(n, k)| == k && AllDigits(ZeroPad(n, k)) && DecimalValue(ZeroPad(n, k)) == n
  {
    NatToStringShort(n, k);
    ZeroPadValue(n, k);
  }

  /** For the years 1..9999 the text is eight digits that spell the year,
      month and day of `n`, so reading them back gives `n` again. */
  lemma FormatYyyyMMddFields(n: int)
    requires 1 <= CivilOf(n).year <= 9999
    ensures var s := FormatYyyyMMdd(n); var c := CivilOf(n);
      && |s| == 8 && AllDigits(s)
      && DecimalValue(s[..4]) == c.year
      && DecimalValue(s[4..6]) == c.month
      && DecimalValue(s[6..]) == c.day
      && EpochDay(Civil(DecimalValue(s[..4]), DecimalValue(s[4..6]), DecimalValue(s[6..]))) == n
  {
    FormatCivilFields(CivilOf(n));
  }

  /** The eight digits of a date of the years 1..9999 spell its year,
      month and day. */
  lemma FormatCivilFields(c: Civil)
    requires Valid(c) && 1 <= c.year <= 9999
    ensures var s := FormatCivil(c);
      && |s| == 8 && AllDigits(s)
      && DecimalValue(s[..4]) == c.year
      && DecimalValue(s[4..6]) == c.month
      && DecimalValue(s[6..]) == c.day
  {
    var ys, ms, ds := ZeroPad(c.year, 4), ZeroPad(c.month, 2), ZeroPad(c.day, 2);
    assert |ys| == 4 && AllDigits(ys) && DecimalValue(ys) == c.year by {
      assert Pow10(4) == 10000;
      PadExact(c.year, 4);
    }
    assert |ms| == 2 && AllDigits(ms) && DecimalValue(ms) == c.month
      && |ds| == 2 && AllDigits(ds) && DecimalValue(ds) == c.day by {
      assert Pow10(2) == 100;
      PadExact(c.month, 2);
      PadExact(c.day, 2);
    }
    var s := ys + ms + ds;
    assert FormatCivil(c) == s;
    assert s[..4] == ys && s[4..6] == ms && s[6..] == ds;
    AllDigitsAppend(ys, ms);
    AllDigitsAppend(ys + ms, ds);
  }

}

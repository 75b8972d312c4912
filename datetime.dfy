/**
 The samplers of `DateTimeSource`. Every random draw is a parameter; the
 `requires` clause on it states the range `RandomUtils.nextInt` /
 `nextLong(lo, hi)` draws from, `[lo, hi)` (just `lo` when `lo == hi`).
 Dates are epoch days (module Calendar); a `LocalDateTime` is a date plus a
 time of day, placed on a nanosecond timeline by `Nanos`; timestamps are
 epoch milliseconds at the fixed offset +08:00. `java.time` refuses dates
 outside the years -999999999..999999999 with a `DateTimeException`, and
 the model keeps that limit.
 */
module DateTime {
  import opened Outcomes
  import opened Calendar

  const LongMax: int := 0x7FFF_FFFF_FFFF_FFFF
  const LongMin: int := -0x8000_0000_0000_0000

  /** A value a Java `long` can hold. */
  predicate IsLong(x: int) { LongMin <= x <= LongMax }

  /** `LocalDate.MIN` (-999999999-01-01) and `LocalDate.MAX`
      (+999999999-12-31) as epoch days. */
  const MinEpochDay: int := -365243219162
  const MaxEpochDay: int := 365241780471

  lemma EpochDayLimits()
    ensures EpochDay(Civil(-999999999, 1, 1)) == MinEpochDay
    ensures EpochDay(Civil(999999999, 12, 31)) == MaxEpochDay
    ensures DaysBeforeYear(1000000000) - EpochOffset == MaxEpochDay + 1
  {
  }

  predicate InDateRange(d: int) { MinEpochDay <= d <= MaxEpochDay }

  /** Every date of the years -999999999..999999999 has an epoch day in
      range. */
  lemma CivilWithinLimits(c: Civil)
    requires Valid(c) && -999999999 <= c.year <= 999999999
    ensures InDateRange(EpochDay(c))
  {
    EpochDayLimits();
    if -999999999 < c.year {
      YearsMonotone(-999999999, c.year);
    }
    YearStep(c.year);
    if c.year + 1 < 1000000000 {
      YearsMonotone(c.year + 1, 1000000000);
    }
    DayOfYearBound(c);
  }

  // ---------------------------------------------------------------- dates

  /** `randomLocalDate(int year)`: January 1 plus a draw from
      `[0, 366)` in a leap year and `[0, 365)` otherwise. */
  function RandomLocalDateInYear(year: int, offset: int): (r: Result<int>)
    requires 0 <= offset < YearLength(year)
    ensures r.Success? <==> 1970 <= year <= 9999
    ensures r.Failure? ==> r.error == IllegalArgument
    ensures r.Success? ==> FirstDayOfYear(year) <= r.value <= LastDayOfYear(year)
    ensures r.Success? ==> CivilOf(r.value).year == year
  {
    if !(1970 <= year <= 9999) then Failure(IllegalArgument)
    else
      var d := FirstDayOfYear(year) + offset;
      YearOfDay(d, year);
      Success(d)
  }

  /** Every day of an accepted year, February 29 included, is drawn by
      some offset. */
  lemma InYearReachable(year: int, n: int)
    requires 1970 <= year <= 9999 && CivilOf(n).year == year
    ensures 0 <= n - FirstDayOfYear(year) < YearLength(year)
    ensures RandomLocalDateInYear(year, n - FirstDayOfYear(year)) == Success(n)
  {
    InYearOffset(year, n);
  }

  /** A day of the year lies less than the year's length after January 1. */
  lemma InYearOffset(year: int, n: int)
    requires CivilOf(n).year == year
    ensures 0 <= n - FirstDayOfYear(year) < YearLength(year)
  {
    YearOfDay(n, year);
  }

  /** `randomLocalDate(beginDate, endDate)`: both bounds present and
      `begin` strictly before `end`; then `begin` plus a draw from
      `[0, daysBetween + 1)`, so both ends are included. */
  function RandomLocalDateBetween(beginDate: Option<int>, endDate: Option<int>, offset: int): (r: Result<int>)
    requires beginDate.Some? && endDate.Some? && beginDate.value < endDate.value
      ==> 0 <= offset <= endDate.value - beginDate.value
    ensures r.Success? <==> beginDate.Some? && endDate.Some? && beginDate.value < endDate.value
    ensures r.Failure? ==> r.error == IllegalArgument
    ensures r.Success? ==> beginDate.value <= r.value <= endDate.value
  {
    if beginDate.None? || endDate.None? then Failure(IllegalArgument)
    else if !(beginDate.value < endDate.value) then Failure(IllegalArgument)
    else Success(beginDate.value + offset)
  }

  /** Both ends of the range, and everything between, are drawn by some
      offset. */
  lemma BetweenReachable(b: int, e: int, n: int)
    requires b < e && b <= n <= e
    ensures RandomLocalDateBetween(Some(b), Some(e), n - b) == Success(n)
  {
  }

  /** `randomFutureLocalDate(baseDate)`: a draw from `[1, 99999)` days
      later; a null base throws, and so does a day past `LocalDate.MAX`. */
  function RandomFutureLocalDate(baseDate: Option<int>, offset: int): (r: Result<int>)
    requires baseDate.Some? ==> InDateRange(baseDate.value)
    requires 1 <= offset < 99999
    ensures baseDate.None? ==> r == Failure(NullPointer)
    ensures r.Success? ==> baseDate.Some? && InDateRange(r.value)
    ensures r.Success? ==> baseDate.value < r.value <= baseDate.value + 99998
    ensures baseDate.Some? && baseDate.value + 99998 <= MaxEpochDay ==> r.Success?
    ensures baseDate.Some? && r.Failure? ==> r.error == DateTime
  {
    if baseDate.None? then Failure(NullPointer)
    else
      var d := baseDate.value + offset;
      if d <= MaxEpochDay then Success(d) else Failure(DateTime)
  }

  /** `randomPastLocalDate(baseDate, maxDays)`: `maxDays > 1` is checked
      first; then a draw from `[1, maxDays + 1)` days earlier. At
      `maxDays = Long.MAX_VALUE` the bound `maxDays + 1` wraps to
      `Long.MIN_VALUE` and `nextLong` refuses it; the draw is taken before
      the null base is dereferenced. `plusDays` throws `ArithmeticException`
      when the epoch day minus the draw leaves the `long` range
      (`Math.addExact`), and `DateTimeException` before `LocalDate.MIN`. */
  function RandomPastLocalDate(baseDate: Option<int>, maxDays: int, offset: int): (r: Result<int>)
    requires baseDate.Some? ==> InDateRange(baseDate.value)
    requires IsLong(maxDays)
    requires 1 < maxDays < LongMax ==> 1 <= offset <= maxDays
    ensures maxDays <= 1 || maxDays == LongMax ==> r == Failure(IllegalArgument)
    ensures 1 < maxDays < LongMax && baseDate.None? ==> r == Failure(NullPointer)
    ensures r.Success? ==> 1 < maxDays < LongMax && baseDate.Some? && InDateRange(r.value)
    ensures r.Success? ==> baseDate.value - maxDays <= r.value <= baseDate.value - 1
    ensures 1 < maxDays < LongMax && baseDate.Some? && MinEpochDay <= baseDate.value - maxDays ==> r.Success?
    ensures 1 < maxDays < LongMax && baseDate.Some? && r.Failure? ==>
      r.error == (if IsLong(baseDate.value - offset) then DateTime else Arithmetic)
  {
    if !(maxDays > 1) then Failure(IllegalArgument)
    else if maxDays == LongMax then Failure(IllegalArgument)
    else if baseDate.None? then Failure(NullPointer)
    else
      var d := baseDate.value + -1 * offset;
      if !IsLong(d) then Failure(Arithmetic)
      else if MinEpochDay <= d then Success(d) else Failure(DateTime)
  }

  /** The largest `maxDays` is refused outright, whatever the base. */
  lemma PastLocalDateLongMaxRefused(baseDate: Option<int>, offset: int)
    requires baseDate.Some? ==> InDateRange(baseDate.value)
    ensures RandomPastLocalDate(baseDate, LongMax, offset) == Failure(IllegalArgument)
    ensures RandomPastLocalDate(baseDate, LongMax - 1, 1) != Failure(IllegalArgument)
  {
  }

  /** From `LocalDate.MIN`, the largest draw `maxDays` allows overflows
      `Math.addExact`. */
  lemma PastLocalDateAddExactOverflows()
    ensures RandomPastLocalDate(Some(MinEpochDay), LongMax - 1, LongMax - 1) == Failure(Arithmetic)
    ensures RandomPastLocalDate(Some(MinEpochDay), LongMax - 1, 1) == Failure(DateTime)
  {
  }

  // ----------------------------------------------------------- date-times

  datatype LocalDateTime = LocalDateTime(date: int, hour: int, minute: int, second: int, nano: int)

  predicate ValidTime(t: LocalDateTime) {
    0 <= t.hour < 24 && 0 <= t.minute < 60 && 0 <= t.second < 60 && 0 <= t.nano < NanosPerSecond
  }

  /** A value `java.time.LocalDateTime` can hold. */
  predicate ValidDateTime(t: LocalDateTime) { ValidTime(t) && InDateRange(t.date) }

  const NanosPerMilli: int := 1_000_000
  const NanosPerSecond: int := 1_000_000_000
  const NanosPerMinute: int := 60_000_000_000
  const NanosPerHour: int := 3_600_000_000_000
  const NanosPerDay: int := 86_400_000_000_000

  /** The position of a date-time on the local timeline, in nanoseconds
      from 1970-01-01T00:00. */
  function Nanos(t: LocalDateTime): int {
    t.date * NanosPerDay + t.hour * NanosPerHour + t.minute * NanosPerMinute
      + t.second * NanosPerSecond + t.nano
  }

  /** The positions a `LocalDateTime` can take. */
  predicate InTimeline(n: int) {
    MinEpochDay * NanosPerDay <= n < (MaxEpochDay + 1) * NanosPerDay
  }

  /** The date-time at timeline position `n`. */
  function FromNanos(n: int): (t: LocalDateTime)
    ensures ValidTime(t) && Nanos(t) == n
    ensures ValidDateTime(t) <==> InTimeline(n)
  {
    var day := n / NanosPerDay;
    var ofDay := n % NanosPerDay;
    var h := ofDay / NanosPerHour;
    var r1 := ofDay % NanosPerHour;
    var mi := r1 / NanosPerMinute;
    var r2 := r1 % NanosPerMinute;
    LocalDateTime(day, h, mi, r2 / NanosPerSecond, r2 % NanosPerSecond)
  }

  /** A valid date-time sits on the timeline, and is the only one there. */
  lemma NanosFromNanos(t: LocalDateTime)
    requires ValidDateTime(t)
    ensures InTimeline(Nanos(t))
    ensures FromNanos(Nanos(t)) == t
  {
    var u := FromNanos(Nanos(t));
    assert Nanos(t) - t.date * NanosPerDay < NanosPerDay;
    assert u.date == t.date;
    assert u.hour == t.hour;
    assert u.minute == t.minute;
    assert u.second == t.second;
  }

  /** The millisecond of the second a date-time shows. */
  function MilliOfSecond(t: LocalDateTime): int { t.nano / NanosPerMilli }

  /** `LocalDateTime.of(year, month, dayOfMonth, hour, minute, second,
      nanoOfSecond)`; the time fields are in range by the callers' draws,
      so a year outside -999999999..999999999 or a day the month does not
      have throws. */
  function LocalDateTimeOf(year: int, month: int, dayOfMonth: int, hour: int, minute: int, second: int, nanoOfSecond: int): (r: Result<LocalDateTime>)
    requires 1 <= month <= 12
    requires 0 <= hour < 24 && 0 <= minute < 60 && 0 <= second < 60 && 0 <= nanoOfSecond < NanosPerSecond
    ensures r.Success? <==> -999999999 <= year <= 999999999 && 1 <= dayOfMonth <= MonthLength(year, month)
    ensures r.Failure? ==> r.error == DateTime
    ensures r.Success? ==> ValidDateTime(r.value) && CivilOf(r.value.date) == Civil(year, month, dayOfMonth)
    ensures r.Success? ==> r.value.hour == hour && r.value.minute == minute && r.value.second == second && r.value.nano == nanoOfSecond
  {
    if !(-999999999 <= year <= 999999999 && 1 <= dayOfMonth <= MonthLength(year, month)) then Failure(DateTime)
    else
      var c := Civil(year, month, dayOfMonth);
      CivilOfEpochDay(c);
      CivilWithinLimits(c);
      Success(LocalDateTime(EpochDay(c), hour, minute, second, nanoOfSecond))
  }

  /** `randomTime(year, month, dayOfMonth)` as written: the draw named
      `millisecond`, from `[0, 1000)`, is passed where `LocalDateTime.of`
      expects nano-of-second, so the result never shows a millisecond. */
  function RandomTimeAsWritten(year: int, month: int, dayOfMonth: int, hour: int, minute: int, second: int, millisecond: int): (r: Result<LocalDateTime>)
    requires 0 <= hour < 24 && 0 <= minute < 60 && 0 <= second < 60 && 0 <= millisecond < 1000
    ensures r.Success? <==> 1 <= month <= 12 && -999999999 <= year <= 999999999 && 1 <= dayOfMonth <= MonthLength(year, month)
    ensures r.Success? ==> MilliOfSecond(r.value) == 0
  {
    if !(1 <= month <= 12) then Failure(IllegalArgument)
    else LocalDateTimeOf(year, month, dayOfMonth, hour, minute, second, millisecond)
  }

  /** The draw of 500 ms yields a time 500 ns past the second. */
  lemma RandomTimeLosesMilliseconds()
    ensures var r := RandomTimeAsWritten(2020, 1, 1, 0, 0, 0, 500);
      r.Success? && MilliOfSecond(r.value) == 0 && r.value.nano == 500
  {
  }

  /** `randomTime(year, month, dayOfMonth)` with the millisecond draw scaled
      to nanoseconds: month in 1..12 is checked first; hour is drawn from
      `[0, 24)`, minute and second from `[0, 60)`, millisecond from
      `[0, 1000)`. */
  function RandomTime(year: int, month: int, dayOfMonth: int, hour: int, minute: int, second: int, millisecond: int): (r: Result<LocalDateTime>)
    requires 0 <= hour < 24 && 0 <= minute < 60 && 0 <= second < 60 && 0 <= millisecond < 1000
    ensures r.Success? <==> 1 <= month <= 12 && -999999999 <= year <= 999999999 && 1 <= dayOfMonth <= MonthLength(year, month)
    ensures !(1 <= month <= 12) ==> r == Failure(IllegalArgument)
    ensures 1 <= month <= 12 && r.Failure? ==> r.error == DateTime
    ensures r.Success? ==> ValidDateTime(r.value) && CivilOf(r.value.date) == Civil(year, month, dayOfMonth)
    ensures r.Success? ==> r.value.hour == hour && r.value.minute == minute && r.value.second == second
    ensures r.Success? ==> MilliOfSecond(r.value) == millisecond
  {
    if !(1 <= month <= 12) then Failure(IllegalArgument)
    else LocalDateTimeOf(year, month, dayOfMonth, hour, minute, second, millisecond * NanosPerMilli)
  }

  /** `randomPastTime(base, maxSeconds)`: for `maxSeconds > 1` a second
      draw from `[0, maxSeconds + 1)`, otherwise from `[0, Long.MAX_VALUE)`
      (`nextLong()`, "no limit"); then a millisecond draw from `[0, 1000)`;
      both subtracted from `base`, which throws below `LocalDateTime.MIN`.
      At `maxSeconds = Long.MAX_VALUE` the bound `maxSeconds + 1` wraps to
      `Long.MIN_VALUE` and `nextLong` refuses it. */
  function RandomPastTime(base: Option<LocalDateTime>, maxSeconds: int, secondDraw: int, milliDraw: int): (r: Result<LocalDateTime>)
    requires base.Some? ==> ValidDateTime(base.value)
    requires IsLong(maxSeconds)
    requires 1 < maxSeconds < LongMax ==> 0 <= secondDraw <= maxSeconds
    requires maxSeconds <= 1 ==> 0 <= secondDraw < LongMax
    requires 0 <= milliDraw < 1000
    ensures base.None? ==> r == Failure(IllegalArgument)
    ensures base.Some? && maxSeconds == LongMax ==> r == Failure(IllegalArgument)
    ensures base.Some? && maxSeconds < LongMax && r.Failure? ==> r.error == DateTime
    ensures r.Success? ==> base.Some? && ValidDateTime(r.value)
    ensures r.Success? ==> Nanos(base.value) - Nanos(r.value) == secondDraw * NanosPerSecond + milliDraw * NanosPerMilli
    ensures r.Success? && maxSeconds > 1 ==>
      Nanos(base.value) - Nanos(r.value) <= maxSeconds * NanosPerSecond + 999 * NanosPerMilli
    ensures (base.Some? && 1 < maxSeconds < LongMax
      && InTimeline(Nanos(base.value) - maxSeconds * NanosPerSecond - 999 * NanosPerMilli)) ==> r.Success?
  {
    if base.None? then Failure(IllegalArgument)
    else if maxSeconds == LongMax then Failure(IllegalArgument)
    else
      NanosFromNanos(base.value);
      var n := Nanos(base.value) - secondDraw * NanosPerSecond - milliDraw * NanosPerMilli;
      if InTimeline(n) then Success(FromNanos(n)) else Failure(DateTime)
  }

  /** `randomFutureTime(base, maxSeconds)`: the same draws, added; the sum
      throws past `LocalDateTime.MAX`, and `Long.MAX_VALUE` is refused in
      the same way. */
  function RandomFutureTime(base: Option<LocalDateTime>, maxSeconds: int, secondDraw: int, milliDraw: int): (r: Result<LocalDateTime>)
    requires base.Some? ==> ValidDateTime(base.value)
    requires IsLong(maxSeconds)
    requires 1 < maxSeconds < LongMax ==> 0 <= secondDraw <= maxSeconds
    requires maxSeconds <= 1 ==> 0 <= secondDraw < LongMax
    requires 0 <= milliDraw < 1000
    ensures base.None? ==> r == Failure(IllegalArgument)
    ensures base.Some? && maxSeconds == LongMax ==> r == Failure(IllegalArgument)
    ensures base.Some? && maxSeconds < LongMax && r.Failure? ==> r.error == DateTime
    ensures r.Success? ==> base.Some? && ValidDateTime(r.value)
    ensures r.Success? ==> Nanos(r.value) - Nanos(base.value) == secondDraw * NanosPerSecond + milliDraw * NanosPerMilli
    ensures r.Success? && maxSeconds > 1 ==>
      Nanos(r.value) - Nanos(base.value) <= maxSeconds * NanosPerSecond + 999 * NanosPerMilli
    ensures (base.Some? && 1 < maxSeconds < LongMax
      && InTimeline(Nanos(base.value) + maxSeconds * NanosPerSecond + 999 * NanosPerMilli)) ==> r.Success?
  {
    if base.None? then Failure(IllegalArgument)
    else if maxSeconds == LongMax then Failure(IllegalArgument)
    else
      NanosFromNanos(base.value);
      var n := Nanos(base.value) + secondDraw * NanosPerSecond + milliDraw * NanosPerMilli;
      if InTimeline(n) then Success(FromNanos(n)) else Failure(DateTime)
  }

  /** The "no limit" draw of `2^56` seconds or more (all but 1/128 of the
      range of `nextLong()`) is longer than the whole `LocalDateTime`
      timeline, so from any base it throws, in either direction. */
  lemma UnlimitedDrawOverflows(base: LocalDateTime, maxSeconds: int, secondDraw: int, milliDraw: int)
    requires ValidDateTime(base)
    requires IsLong(maxSeconds) && maxSeconds <= 1 && 0x100_0000_0000_0000 <= secondDraw < LongMax && 0 <= milliDraw < 1000
    ensures RandomPastTime(Some(base), maxSeconds, secondDraw, milliDraw) == Failure(DateTime)
    ensures RandomFutureTime(Some(base), maxSeconds, secondDraw, milliDraw) == Failure(DateTime)
  {
    NanosFromNanos(base);
  }

  predicate IsInt32(x: int) { -0x8000_0000 <= x < 0x8000_0000 }

  /** Java `int` multiplication: the exact product reduced into
      `[-2^31, 2^31)`. */
  function WrapInt32(x: int): (w: int)
    ensures IsInt32(w)
    ensures (w - x) % 0x1_0000_0000 == 0
    ensures IsInt32(x) ==> w == x
  {
    (x + 0x8000_0000) % 0x1_0000_0000 - 0x8000_0000
  }

  /** `randomPastTime(int maxDays)` as written: `maxDays * 86400` is an
      `int` product, widened to `long` only after it has wrapped. */
  function RandomPastTimeInDaysAsWritten(now: LocalDateTime, maxDays: int, secondDraw: int, milliDraw: int): (r: Result<LocalDateTime>)
    requires ValidDateTime(now) && IsInt32(maxDays)
    requires var s := WrapInt32(maxDays * 86400);
      (s > 1 ==> 0 <= secondDraw <= s) && (s <= 1 ==> 0 <= secondDraw < LongMax)
    requires 0 <= milliDraw < 1000
    ensures maxDays < 1 ==> r == Failure(IllegalArgument)
    ensures r.Success? ==> maxDays >= 1 && ValidDateTime(r.value) && Nanos(r.value) <= Nanos(now)
  {
    if !(maxDays >= 1) then Failure(IllegalArgument)
    else RandomPastTime(Some(now), WrapInt32(maxDays * 86400), secondDraw, milliDraw)
  }

  /** From 1970-01-01T00:00 with `maxDays = 24856` the product wraps to a
      negative number, the draw becomes unlimited, and a result more than
      `maxDays` days in the past comes back. */
  lemma PastTimeInDaysOverflows()
    ensures WrapInt32(24856 * 86400) == -2147408896
    ensures var now := LocalDateTime(0, 0, 0, 0, 0);
      var r := RandomPastTimeInDaysAsWritten(now, 24856, 24856 * 86400 + 1, 0);
      r.Success? && Nanos(now) - Nanos(r.value) > 24856 * 86400 * NanosPerSecond
  {
  }

  /** `randomPastTime(int maxDays)` with the product taken in `long`:
      `maxDays >= 1` is required and the result is at most `maxDays` days
      (and under one second more) before `now`. */
  function RandomPastTimeInDays(now: LocalDateTime, maxDays: int, secondDraw: int, milliDraw: int): (r: Result<LocalDateTime>)
    requires ValidDateTime(now) && IsInt32(maxDays)
    requires maxDays >= 1 ==> 0 <= secondDraw <= maxDays * 86400
    requires 0 <= milliDraw < 1000
    ensures maxDays < 1 ==> r == Failure(IllegalArgument)
    ensures r.Success? ==> maxDays >= 1 && ValidDateTime(r.value)
    ensures r.Success? ==> 0 <= Nanos(now) - Nanos(r.value) < (maxDays * 86400 + 1) * NanosPerSecond
    ensures maxDays >= 1 && InTimeline(Nanos(now) - (maxDays * 86400 + 1) * NanosPerSecond) ==> r.Success?
  {
    if !(maxDays >= 1) then Failure(IllegalArgument)
    else RandomPastTime(Some(now), maxDays * 86400, secondDraw, milliDraw)
  }

  /** `randomFutureTime(int maxDays)` as written, with the same `int`
      product. */
  function RandomFutureTimeInDaysAsWritten(now: LocalDateTime, maxDays: int, secondDraw: int, milliDraw: int): (r: Result<LocalDateTime>)
    requires ValidDateTime(now) && IsInt32(maxDays)
    requires var s := WrapInt32(maxDays * 86400);
      (s > 1 ==> 0 <= secondDraw <= s) && (s <= 1 ==> 0 <= secondDraw < LongMax)
    requires 0 <= milliDraw < 1000
    ensures maxDays < 1 ==> r == Failure(IllegalArgument)
    ensures r.Success? ==> maxDays >= 1 && ValidDateTime(r.value) && Nanos(now) <= Nanos(r.value)
  {
    if !(maxDays >= 1) then Failure(IllegalArgument)
    else RandomFutureTime(Some(now), WrapInt32(maxDays * 86400), secondDraw, milliDraw)
  }

  /** With `maxDays = 49711` the product wraps to 63104 seconds, so every
      result lies within the first day although 49711 days were asked for. */
  lemma FutureTimeInDaysOverflows(now: LocalDateTime, secondDraw: int, milliDraw: int)
    requires ValidDateTime(now)
    requires 0 <= secondDraw <= 63104 && 0 <= milliDraw < 1000
    ensures WrapInt32(49711 * 86400) == 63104
    ensures var r := RandomFutureTimeInDaysAsWritten(now, 49711, secondDraw, milliDraw);
      r.Success? ==> Nanos(r.value) - Nanos(now) < 86400 * NanosPerSecond
  {
  }

  /** `randomFutureTime(int maxDays)` with the product taken in `long`. */
  function RandomFutureTimeInDays(now: LocalDateTime, maxDays: int, secondDraw: int, milliDraw: int): (r: Result<LocalDateTime>)
    requires ValidDateTime(now) && IsInt32(maxDays)
    requires maxDays >= 1 ==> 0 <= secondDraw <= maxDays * 86400
    requires 0 <= milliDraw < 1000
    ensures maxDays < 1 ==> r == Failure(IllegalArgument)
    ensures r.Success? ==> maxDays >= 1 && ValidDateTime(r.value)
    ensures r.Success? ==> 0 <= Nanos(r.value) - Nanos(now) < (maxDays * 86400 + 1) * NanosPerSecond
    ensures maxDays >= 1 && InTimeline(Nanos(now) + (maxDays * 86400 + 1) * NanosPerSecond) ==> r.Success?
  {
    if !(maxDays >= 1) then Failure(IllegalArgument)
    else RandomFutureTime(Some(now), maxDays * 86400, secondDraw, milliDraw)
  }

  // ----------------------------------------------------------- timestamps

  /** The fixed zone offset +08:00, in milliseconds. */
  const ZoneOffsetMillis: int := 8 * 3600 * 1000
  const MillisPerDay: int := 86_400_000

  /** `t.toInstant(+08:00).toEpochMilli()`: the instant rounded down to
      the millisecond. */
  function EpochMilli(t: LocalDateTime): int {
    Nanos(t) / NanosPerMilli - ZoneOffsetMillis
  }

  /** `Duration.between(begin, end).toMillis()` of a positive duration:
      the whole milliseconds in it; `Math.multiplyExact` throws when they
      exceed `Long.MAX_VALUE`. */
  function DurationMillis(begin: LocalDateTime, end: LocalDateTime): int {
    (Nanos(end) - Nanos(begin)) / NanosPerMilli
  }

  lemma FloorSum(a: int, d: int)
    ensures a / NanosPerMilli + d / NanosPerMilli <= (a + d) / NanosPerMilli
  {
    var qa, ra := a / NanosPerMilli, a % NanosPerMilli;
    var qd, rd := d / NanosPerMilli, d % NanosPerMilli;
    assert a + d == (qa + qd) * NanosPerMilli + (ra + rd);
  }

  /** Java `long` addition: the exact sum reduced into `[-2^63, 2^63)`. */
  function WrapInt64(x: int): (w: int)
    ensures IsLong(w)
    ensures (w - x) % 0x1_0000_0000_0000_0000 == 0
    ensures IsLong(x) ==> w == x
  {
    (x + 0x8000_0000_0000_0000) % 0x1_0000_0000_0000_0000 - 0x8000_0000_0000_0000
  }

  /** Both instants present, the first strictly before the second. */
  predicate Ordered(begin: Option<LocalDateTime>, end: Option<LocalDateTime>) {
    begin.Some? && end.Some? && Nanos(begin.value) < Nanos(end.value)
  }

  /** `randomTimestamp(begin, end)`: both present and `begin` before
      `end`; `toMillis` and `toEpochMilli` throw `ArithmeticException`
      outside the `long` range; then the epoch millisecond of `begin` plus
      a draw from `[0, millis)`, which is just 0 when the two are less than
      a millisecond apart, summed in `long`. */
  function RandomTimestamp(begin: Option<LocalDateTime>, end: Option<LocalDateTime>, draw: int): (r: Result<int>)
    requires begin.Some? ==> ValidDateTime(begin.value)
    requires end.Some? ==> ValidDateTime(end.value)
    requires begin.Some? && end.Some? && Nanos(begin.value) < Nanos(end.value) ==>
      if DurationMillis(begin.value, end.value) == 0 then draw == 0
      else 0 <= draw < DurationMillis(begin.value, end.value)
    ensures r.Success? <==> (Ordered(begin, end)
      && DurationMillis(begin.value, end.value) <= LongMax && IsLong(EpochMilli(begin.value)))
    ensures r.Failure? ==> r.error == (if Ordered(begin, end) then Arithmetic else IllegalArgument)
    ensures r.Success? ==> IsLong(r.value)
    ensures r.Success? && IsLong(EpochMilli(end.value)) ==>
      EpochMilli(begin.value) <= r.value <= EpochMilli(end.value)
    ensures r.Success? && IsLong(EpochMilli(end.value)) && Nanos(end.value) - Nanos(begin.value) >= NanosPerMilli ==>
      r.value < EpochMilli(end.value)
  {
    if begin.None? || end.None? then Failure(IllegalArgument)
    else if !(Nanos(begin.value) < Nanos(end.value)) then Failure(IllegalArgument)
    else if DurationMillis(begin.value, end.value) > LongMax then Failure(Arithmetic)
    else if !IsLong(EpochMilli(begin.value)) then Failure(Arithmetic)
    else
      FloorSum(Nanos(begin.value), Nanos(end.value) - Nanos(begin.value));
      Success(WrapInt64(EpochMilli(begin.value) + draw))
  }

  /** The end is documented as excluded, yet the end's timestamp comes back
      from the draw 0 exactly when the two instants lie in the same
      millisecond (and that millisecond is a `long`). */
  lemma SameMillisecondReturnsEnd(b: LocalDateTime, e: LocalDateTime)
    requires ValidDateTime(b) && ValidDateTime(e) && Nanos(b) < Nanos(e)
    ensures RandomTimestamp(Some(b), Some(e), 0) == Success(EpochMilli(e))
      <==> IsLong(EpochMilli(b)) && EpochMilli(b) == EpochMilli(e)
  {
    if EpochMilli(b) == EpochMilli(e) {
      assert Nanos(e) - Nanos(b) < NanosPerMilli;
    }
  }

  /** `date.atStartOfDay()` in epoch milliseconds at +08:00. */
  function StartOfDayMillis(date: int): int {
    date * MillisPerDay - ZoneOffsetMillis
  }

  /** `randomTimestamp(LocalDate date)`: an instant of that day in UTC+8;
      `date.plusDays(1)` throws on `LocalDate.MAX`, and `toEpochMilli`
      beyond the `long` range. */
  function RandomTimestampOfDay(date: Option<int>, draw: int): (r: Result<int>)
    requires date.Some? ==> InDateRange(date.value)
    requires 0 <= draw < MillisPerDay
    ensures r.Success? <==> date.Some? && date.value < MaxEpochDay && IsLong(StartOfDayMillis(date.value))
    ensures date.None? ==> r == Failure(IllegalArgument)
    ensures date.Some? && date.value == MaxEpochDay ==> r == Failure(DateTime)
    ensures date.Some? && date.value < MaxEpochDay && r.Failure? ==> r.error == Arithmetic
    ensures r.Success? ==> IsLong(r.value)
    ensures r.Success? && IsLong(StartOfDayMillis(date.value + 1)) ==>
      StartOfDayMillis(date.value) <= r.value < StartOfDayMillis(date.value + 1)
      && (r.value + ZoneOffsetMillis) / MillisPerDay == date.value
  {
    if date.None? then Failure(IllegalArgument)
    else if date.value == MaxEpochDay then Failure(DateTime)
    else
      var b := LocalDateTime(date.value, 0, 0, 0, 0);
      var e := LocalDateTime(date.value + 1, 0, 0, 0, 0);
      assert DurationMillis(b, e) == MillisPerDay;
      assert EpochMilli(b) == StartOfDayMillis(date.value);
      assert EpochMilli(e) == StartOfDayMillis(date.value + 1);
      RandomTimestamp(Some(b), Some(e), draw)
  }

  function Abs(x: int): nat { if x < 0 then -x else x }

  /** `Math.abs(long)`: the magnitude, except for `Long.MIN_VALUE`, whose
      magnitude is no `long` and which comes back unchanged. */
  function LongAbs(x: int): (a: int)
    requires IsLong(x)
    ensures IsLong(a)
    ensures x != LongMin ==> a == Abs(x)
    ensures x == LongMin ==> a < 0
  {
    if x == LongMin then x else Abs(x)
  }

  /** The passed `Math.abs(maxSeconds) > 1` check allows exactly the
      magnitudes 2..`Long.MAX_VALUE`. */
  predicate OffsetAccepted(maxSeconds: int)
    requires IsLong(maxSeconds)
  {
    LongAbs(maxSeconds) > 1
  }

  /** The `long` bound `|maxSeconds| * 1000 + 1` the offset is drawn below;
      it wraps once `|maxSeconds|` passes `Long.MAX_VALUE / 1000`. */
  function OffsetBound(maxSeconds: int): (b: int)
    ensures IsLong(b)
    ensures Abs(maxSeconds) * 1000 < LongMax ==> b == Abs(maxSeconds) * 1000 + 1
  {
    WrapInt64(Abs(maxSeconds) * 1000 + 1)
  }

  /** The base present and `maxSeconds` past both checks and `nextLong`'s
      own, so that the offset is drawn. */
  predicate OffsetDrawn(base: Option<LocalDateTime>, maxSeconds: int)
    requires IsLong(maxSeconds)
  {
    base.Some? && OffsetAccepted(maxSeconds) && OffsetBound(maxSeconds) >= 1
  }

  /** Neither the bound nor `base` moved by `maxSeconds` leaves the `long`
      range of epoch milliseconds. */
  predicate OffsetFits(base: LocalDateTime, maxSeconds: int) {
    Abs(maxSeconds) * 1000 < LongMax && IsLong(EpochMilli(base) + maxSeconds * 1000)
  }

  /** `nextLong(1, bound)`: refused below 1, exactly 1 at 1, otherwise a
      draw from `[1, bound)`. */
  predicate OffsetDraw(bound: int, draw: int) {
    1 <= draw && (draw == 1 || draw < bound)
  }

  /** The private `randomTimestamp(base, maxSeconds)`: `Math.abs(maxSeconds)
      > 1` is required; a positive `maxSeconds` adds a draw from
      `[1, maxSeconds * 1000 + 1)`, a negative one subtracts a draw from
      `[1, |maxSeconds| * 1000 + 1)`, bounds and sum taken in `long`;
      `toEpochMilli` throws beyond the `long` range. */
  function RandomOffsetTimestamp(base: Option<LocalDateTime>, maxSeconds: int, draw: int): (r: Result<int>)
    requires base.Some? ==> ValidDateTime(base.value)
    requires IsLong(maxSeconds)
    requires OffsetDrawn(base, maxSeconds) ==> OffsetDraw(OffsetBound(maxSeconds), draw)
    ensures r.Success? <==> OffsetDrawn(base, maxSeconds) && IsLong(EpochMilli(base.value))
    ensures r.Failure? ==> r.error == (if OffsetDrawn(base, maxSeconds) then Arithmetic else IllegalArgument)
    ensures r.Success? ==> IsLong(r.value)
    ensures r.Success? && maxSeconds > 0 && OffsetFits(base.value, maxSeconds) ==>
      EpochMilli(base.value) < r.value <= EpochMilli(base.value) + maxSeconds * 1000
    ensures r.Success? && maxSeconds < 0 && OffsetFits(base.value, maxSeconds) ==>
      EpochMilli(base.value) + maxSeconds * 1000 <= r.value < EpochMilli(base.value)
  {
    if base.None? then Failure(IllegalArgument)
    else if !OffsetAccepted(maxSeconds) then Failure(IllegalArgument)
    else if OffsetBound(maxSeconds) < 1 then Failure(IllegalArgument)
    else
      var diff := if maxSeconds > 0 then draw else -1 * draw;
      if !IsLong(EpochMilli(base.value)) then Failure(Arithmetic)
      else Success(WrapInt64(EpochMilli(base.value) + diff))
  }

  /** `Math.abs(Long.MIN_VALUE)` is negative, so the smallest `maxSeconds`
      is refused; the largest wraps its bound to -999 and is refused by
      `nextLong`. */
  lemma OffsetTimestampExtremesRefused(base: Option<LocalDateTime>, draw: int)
    requires base.Some? ==> ValidDateTime(base.value)
    ensures RandomOffsetTimestamp(base, LongMin, draw) == Failure(IllegalArgument)
    ensures OffsetBound(LongMax) == -999
    ensures RandomOffsetTimestamp(base, LongMax, draw) == Failure(IllegalArgument)
  {
  }

  /** `randomFutureTimestamp`: the private form unchanged, so a negative
      `maxSeconds` gives a past instant. */
  function RandomFutureTimestamp(base: Option<LocalDateTime>, maxSeconds: int, draw: int): (r: Result<int>)
    requires base.Some? ==> ValidDateTime(base.value)
    requires IsLong(maxSeconds)
    requires OffsetDrawn(base, maxSeconds) ==> OffsetDraw(OffsetBound(maxSeconds), draw)
    ensures r.Success? <==> OffsetDrawn(base, maxSeconds) && IsLong(EpochMilli(base.value))
    ensures r.Failure? ==> r.error == (if OffsetDrawn(base, maxSeconds) then Arithmetic else IllegalArgument)
    ensures maxSeconds == LongMin ==> r == Failure(IllegalArgument)
    ensures r.Success? && maxSeconds > 0 && OffsetFits(base.value, maxSeconds) ==>
      EpochMilli(base.value) < r.value <= EpochMilli(base.value) + maxSeconds * 1000
    ensures r.Success? && maxSeconds < 0 && OffsetFits(base.value, maxSeconds) ==>
      EpochMilli(base.value) + maxSeconds * 1000 <= r.value < EpochMilli(base.value)
  {
    RandomOffsetTimestamp(base, maxSeconds, draw)
  }

  /** `randomPastTimestamp`: a positive `maxSeconds` is negated, so the
      result always lies before `base`, by at most `|maxSeconds|` seconds;
      `Long.MIN_VALUE` is passed on, and refused. */
  function RandomPastTimestamp(base: Option<LocalDateTime>, maxSeconds: int, draw: int): (r: Result<int>)
    requires base.Some? ==> ValidDateTime(base.value)
    requires IsLong(maxSeconds)
    requires OffsetDrawn(base, maxSeconds) ==> OffsetDraw(OffsetBound(maxSeconds), draw)
    ensures r.Success? <==> OffsetDrawn(base, maxSeconds) && IsLong(EpochMilli(base.value))
    ensures r.Failure? ==> r.error == (if OffsetDrawn(base, maxSeconds) then Arithmetic else IllegalArgument)
    ensures maxSeconds == LongMin ==> r == Failure(IllegalArgument)
    ensures r.Success? && OffsetFits(base.value, if maxSeconds > 0 then -1 * maxSeconds else maxSeconds) ==>
      EpochMilli(base.value) - Abs(maxSeconds) * 1000 <= r.value < EpochMilli(base.value)
  {
    RandomOffsetTimestamp(base, if maxSeconds > 0 then -1 * maxSeconds else maxSeconds, draw)
  }
}

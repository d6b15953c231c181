/** The integer arithmetic of the `Date` and `TimeInterval` extensions:
    seconds and days since 1970, the day of the week, the number of week rows
    of a month, and the `DateSpan` enumeration with `Date.add(_ span:)`.
    Swift's `/` and `%` on `Int` truncate toward zero, unlike Dafny's, so
    they are written out here. */
module Dates {
  import Wrappers

  // ---------------------------------------------------------------------
  // Swift integer division

  /** Swift's `a / b` for a positive divisor: the quotient truncated toward
      zero. */
  function TruncDiv(a: int, b: int): (q: int)
    requires b > 0
    ensures a >= 0 ==> q >= 0 && q * b <= a < q * b + b
    ensures a < 0 ==> q <= 0 && q * b - b < a <= q * b
  {
    if a >= 0 then a / b else -((-a) / b)
  }

  /** Swift's `a % b` for a positive divisor: the remainder takes the sign of
      `a`. */
  function TruncRem(a: int, b: int): (r: int)
    requires b > 0
    ensures a == TruncDiv(a, b) * b + r
    ensures a >= 0 ==> 0 <= r < b
    ensures a < 0 ==> -b < r <= 0
  {
    a - TruncDiv(a, b) * b
  }

  // ---------------------------------------------------------------------
  // TimeInterval

  /** `Int(self)` on a `TimeInterval`: the fractional part is dropped, toward
      zero. */
  function Seconds(t: real): (s: int)
    ensures t >= 0.0 ==> 0 <= s && s as real <= t < s as real + 1.0
    ensures t < 0.0 ==> s <= 0 && s as real - 1.0 < t <= s as real
  {
    if t >= 0.0 then t.Floor else -((-t).Floor)
  }

  const SecondsPerDay: int := 86_400

  /** `seconds / 86_400`: whole days, truncated toward zero, so the count
      has the sign of the time and never overshoots it. */
  function Days(t: real): (d: int)
    ensures t >= 0.0 ==> d >= 0 && d * SecondsPerDay <= Seconds(t) < (d + 1) * SecondsPerDay
    ensures t < 0.0 ==> d <= 0 && (d - 1) * SecondsPerDay < Seconds(t) <= d * SecondsPerDay
  {
    TruncDiv(Seconds(t), SecondsPerDay)
  }

  /** For a time at or after 1970, `Days` is the number of whole days that
      have passed. */
  lemma DaysOfNonNegative(t: real)
    requires t >= 0.0
    ensures Days(t) >= 0
    ensures (Days(t) * SecondsPerDay) as real <= t < ((Days(t) + 1) * SecondsPerDay) as real
  {
    var s := Seconds(t);
    assert Days(t) * SecondsPerDay <= s < Days(t) * SecondsPerDay + SecondsPerDay;
  }

  /** Before 1970 the truncation rounds toward zero: the day count is the
      whole days still to go until 1970, negated. */
  lemma DaysOfNegative(t: real)
    requires t < 0.0
    ensures Days(t) <= 0
    ensures ((Days(t) - 1) * SecondsPerDay) as real < t
    ensures t <= (Days(t) * SecondsPerDay) as real
  {
    var s := Seconds(t);
    assert Days(t) * SecondsPerDay - SecondsPerDay < s <= Days(t) * SecondsPerDay;
  }

  // ---------------------------------------------------------------------
  // Day of the week and weeks of a month

  /** `(unixDay + 5) % 7`, the weekday the `Date.weekDay` property reports
      for a given day count since 1970: a number congruent to
      `unixDay + 5` modulo 7, between -6 and 6, never negative from day -5
      on and never positive before it. */
  function WeekDayOfUnixDay(unixDay: int): (w: int)
    ensures -6 <= w <= 6
    ensures unixDay >= -5 ==> w >= 0
    ensures unixDay < -5 ==> w <= 0
    ensures (unixDay + 5 - w) % 7 == 0
  {
    TruncRem(unixDay + 5, 7)
  }

  /** `Date.weekDay` for a time measured in seconds since 1970; from the
      start of day -5 on it lies in 0...6. */
  function WeekDay(t: real): (w: int)
    ensures -6 <= w <= 6
    ensures t > (-6 * SecondsPerDay) as real ==> 0 <= w <= 6
  {
    WeekDayOfUnixDay(Days(t))
  }

  /** From day -5 on, the truncating remainder agrees with the Euclidean one. */
  lemma WeekDayEuclidean(unixDay: int)
    requires unixDay >= -5
    ensures WeekDayOfUnixDay(unixDay) == (unixDay + 5) % 7
  {
    assert TruncDiv(unixDay + 5, 7) == (unixDay + 5) / 7;
  }

  /** From day -5 on, the weekday is in 0...6. */
  lemma WeekDayRange(unixDay: int)
    requires unixDay >= -5
    ensures 0 <= WeekDayOfUnixDay(unixDay) <= 6
  {
  }

  /** From day -5 on, the weekday repeats every seven days. */
  lemma WeekDayPeriodic(unixDay: int)
    requires unixDay >= -5
    ensures WeekDayOfUnixDay(unixDay + 7) == WeekDayOfUnixDay(unixDay)
  {
    WeekDayEuclidean(unixDay);
    WeekDayEuclidean(unixDay + 7);
  }

  /** Consecutive days from day -5 on step through the week, wrapping from
      6 back to 0. */
  lemma WeekDaySuccessor(unixDay: int)
    requires unixDay >= -5
    ensures WeekDayOfUnixDay(unixDay + 1) == (WeekDayOfUnixDay(unixDay) + 1) % 7
  {
    WeekDayEuclidean(unixDay);
    WeekDayEuclidean(unixDay + 1);
  }

  /** Day 0 (1970-01-01 in UTC) is reported as 5. */
  lemma WeekDayOfEpoch()
    ensures WeekDayOfUnixDay(0) == 5
    ensures WeekDay(0.0) == 5
  {
  }

  /** Before day -5 the truncating remainder makes the weekday
      non-positive, and 0 exactly when `unixDay + 5` is a multiple of 7:
      day -6 is reported as -1, not 6, and day -12 as 0. */
  lemma WeekDayBeforeMinusFive(unixDay: int)
    requires unixDay < -5
    ensures -6 <= WeekDayOfUnixDay(unixDay) <= 0
    ensures WeekDayOfUnixDay(unixDay) == 0 <==> (unixDay + 5) % 7 == 0
    ensures WeekDayOfUnixDay(unixDay) == -((-(unixDay + 5)) % 7)
  {
  }


  /** `Date.monthWeeks`: `(days + firstWeekDay + 6) / 7`, where `days` is the
      length of the month (the calendar's difference in days between the
      first of this month and of the next, not modelled) and the first
      weekday is computed from the unix day of the month's first day. */
  function MonthWeeks(days: int, firstUnixDay: int): (n: int)
    ensures days >= 0 ==> n >= 0
    ensures days >= 1 && firstUnixDay >= -5 ==> n >= 1
  {
    TruncDiv(days + WeekDayOfUnixDay(firstUnixDay) + 6, 7)
  }

  /** The week count is the number of seven-day rows holding the month after
      `firstWeekDay` leading blanks: the least n with `7 * n` covering them. */
  lemma MonthWeeksIsRowCount(days: int, firstUnixDay: int)
    requires days >= 0
    ensures var n, cells := MonthWeeks(days, firstUnixDay), days + WeekDayOfUnixDay(firstUnixDay);
      (n - 1) * 7 < cells <= n * 7
  {
  }

  /** For a real month (28 to 31 days) the count is between 4 and 6, also
      for months before 1970, where the first weekday may be negative. */
  lemma MonthWeeksRange(days: int, firstUnixDay: int)
    requires 28 <= days <= 31
    ensures 4 <= MonthWeeks(days, firstUnixDay) <= 6
  {
    MonthWeeksIsRowCount(days, firstUnixDay);
  }

  // ---------------------------------------------------------------------
  // DateSpan

  datatype DateSpan = None | Day | Week | Month | Year

  /** The enumeration's `Int` raw values. */
  function RawValue(s: DateSpan): (r: nat)
    ensures r <= 4
    ensures r == 0 <==> s == None
  {
    match s
    case None => 0
    case Day => 1
    case Week => 2
    case Month => 3
    case Year => 4
  }

  /** `DateSpan.init(_ int:)`: the case with that raw value, and `.none` for
      every value other than 1...4. */
  function FromRaw(n: int): (s: DateSpan)
    ensures 1 <= n <= 4 ==> RawValue(s) == n
    ensures n < 1 || n > 4 ==> s == None
  {
    if n == RawValue(Day) then Day
    else if n == RawValue(Week) then Week
    else if n == RawValue(Month) then Month
    else if n == RawValue(Year) then Year
    else None
  }

  lemma FromRawRawValue(s: DateSpan)
    ensures FromRaw(RawValue(s)) == s
  {
  }

  lemma RawValueInjective(s: DateSpan, u: DateSpan)
    requires RawValue(s) == RawValue(u)
    ensures s == u
  {
    FromRawRawValue(s);
    FromRawRawValue(u);
  }

  lemma FromRawOutOfRange(n: int)
    requires n < 1 || n > 4
    ensures FromRaw(n) == None
  {
  }

  lemma RawValueFromRaw(n: int)
    requires 0 <= n <= 4
    ensures RawValue(FromRaw(n)) == n
  {
  }

  // ---------------------------------------------------------------------
  // Date.add(_ span:)

  /** The calendar units `add(_ span:)` passes to the calendar. */
  datatype CalendarUnit = DayUnit | MonthUnit | YearUnit

  /** A calendar: `date(byAdding:value:to:)`, which may fail. */
  type Calendar<!D> = (CalendarUnit, int, D) -> Wrappers.Option<D>

  /** `Date.add(_:_:)`: the calendar's answer, or the date itself when the
      calendar fails. */
  function AddUnit<D>(date: D, unit: CalendarUnit, value: int, calendar: Calendar<D>): D {
    calendar(unit, value, date).GetOr(date)
  }

  /** `Date.add(_ span:)`: nil for `.none`, otherwise one day, seven days,
      one month or one year later. */
  function AddSpan<D>(date: D, span: DateSpan, calendar: Calendar<D>): (r: Wrappers.Option<D>)
    ensures r.None? <==> span == None
  {
    match span
    case None => Wrappers.None
    case Day => Wrappers.Some(AddUnit(date, DayUnit, 1, calendar))
    case Week => Wrappers.Some(AddUnit(date, DayUnit, 7 * 1, calendar))
    case Month => Wrappers.Some(AddUnit(date, MonthUnit, 1, calendar))
    case Year => Wrappers.Some(AddUnit(date, YearUnit, 1, calendar))
  }

  /** When the calendar cannot add, a span other than `.none` gives back the
      same date. */
  lemma AddSpanWithFailingCalendar<D>(date: D, span: DateSpan, calendar: Calendar<D>)
    requires span != None
    requires forall u, n, d :: calendar(u, n, d) == Wrappers.None
    ensures AddSpan(date, span, calendar) == Wrappers.Some(date)
  {
  }

  /** A week is seven days: with a calendar that counts days by unix day
      number, `add(.week)` moves the date seven days and keeps its weekday. */
  lemma AddWeekKeepsWeekDay(unixDay: int)
    requires unixDay >= -5
    ensures var cal: Calendar<int> := (u, n, d) => if u == DayUnit then Wrappers.Some(d + n) else Wrappers.None;
      AddSpan(unixDay, Week, cal) == Wrappers.Some(unixDay + 7)
      && WeekDayOfUnixDay(AddSpan(unixDay, Week, cal).value) == WeekDayOfUnixDay(unixDay)
  {
    WeekDayPeriodic(unixDay);
  }
}

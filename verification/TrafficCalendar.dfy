/** Hours, days, months and years at a fixed offset from UTC (internal/traffic/time.go). */
module TrafficCalendar {

  /** A half-open range of Unix time. */
  datatype TimeRange = TimeRange(start: int, end: int) {
    predicate Has(t: int) {
      start <= t < end
    }
  }

  const HOUR := 3600
  const DAY := 86400

  // ---------------------------------------------------------------- days and hours

  /** The local day of a moment; day 0 is 1970-01-01. */
  function DayOf(offset: int, at: int): int {
    (at + offset) / DAY
  }

  function DayStart(offset: int, day: int): int {
    day * DAY - offset
  }

  /** HourRange */
  function HourRange(offset: int, at: int): TimeRange {
    var start := (at + offset) / HOUR * HOUR - offset;
    TimeRange(start, start + HOUR)
  }

  function DayWindow(offset: int, day: int): TimeRange {
    TimeRange(DayStart(offset, day), DayStart(offset, day + 1))
  }

  /** DayRange */
  function DayRange(offset: int, at: int): TimeRange {
    DayWindow(offset, DayOf(offset, at))
  }

  // ---------------------------------------------------------------- months, in the proleptic Gregorian calendar

  predicate Leap(year: int) {
    year % 4 == 0 && (year % 100 != 0 || year % 400 == 0)
  }

  /** Days from 0001-01-01 to the first day of a year. */
  function DaysBeforeYear(year: int): int {
    365 * (year - 1) + (year - 1) / 4 - (year - 1) / 100 + (year - 1) / 400
  }

  /** Days of month 0 (January) to 11 (December). */
  function DaysIn(year: int, month: int): int {
    if month == 1 then (if Leap(year) then 29 else 28)
    else if month in {3, 5, 8, 10} then 30
    else 31
  }

  function DaysBeforeMonth(year: int, month: nat): int {
    if month == 0 then 0 else DaysBeforeMonth(year, month - 1) + DaysIn(year, month - 1)
  }

  const EPOCH := 719162

  /** The first day of month `m`, counting months from January of year 0. */
  function MonthFirstDay(m: int): int {
    DaysBeforeYear(m / 12) + DaysBeforeMonth(m / 12, m % 12) - EPOCH
  }

  lemma LeapsOf4(year: int)
    ensures year / 4 - (year - 1) / 4 == if year % 4 == 0 then 1 else 0
  {}

  lemma LeapsOf100(year: int)
    ensures year / 100 - (year - 1) / 100 == if year % 100 == 0 then 1 else 0
  {}

  lemma LeapsOf400(year: int)
    ensures year / 400 - (year - 1) / 400 == if year % 400 == 0 then 1 else 0
  {}

  lemma Multiples(year: int)
    ensures year % 400 == 0 ==> year % 100 == 0
    ensures year % 100 == 0 ==> year % 4 == 0
  {}

  lemma YearLength(year: int)
    ensures DaysBeforeYear(year + 1) - DaysBeforeYear(year) == if Leap(year) then 366 else 365
  {
    LeapsOf4(year);
    LeapsOf100(year);
    LeapsOf400(year);
    Multiples(year);
  }

  lemma DaysBeforeMonths(year: int)
    ensures DaysBeforeMonth(year, 12) == if Leap(year) then 366 else 365
  {
    assert DaysBeforeMonth(year, 1) == 31;
    assert DaysBeforeMonth(year, 2) == 31 + DaysIn(year, 1);
    assert DaysBeforeMonth(year, 4) == DaysBeforeMonth(year, 2) + 61;
    assert DaysBeforeMonth(year, 6) == DaysBeforeMonth(year, 4) + 61;
    assert DaysBeforeMonth(year, 8) == DaysBeforeMonth(year, 6) + 62;
    assert DaysBeforeMonth(year, 10) == DaysBeforeMonth(year, 8) + 61;
  }

  /** Months follow one another without gaps: each first day is as many days after the last as that month has. */
  lemma MonthLength(m: int)
    ensures MonthFirstDay(m + 1) - MonthFirstDay(m) == DaysIn(m / 12, m % 12)
  {
    var year, month := m / 12, m % 12;
    if month < 11 {
      assert (m + 1) / 12 == year && (m + 1) % 12 == month + 1;
    } else {
      assert (m + 1) / 12 == year + 1 && (m + 1) % 12 == 0;
      YearLength(year);
      DaysBeforeMonths(year);
    }
  }

  lemma {:induction false} MonthsAscend(a: int, b: int)
    requires a <= b
    ensures MonthFirstDay(a) + 28 * (b - a) <= MonthFirstDay(b) <= MonthFirstDay(a) + 31 * (b - a)
    decreases b - a
  {
    if a >= b {
    } else {
      MonthsAscend(a, b - 1);
      MonthLength(b - 1);
    }
  }

  function Distance(guess: int, day: int): nat {
    if day < MonthFirstDay(guess) then MonthFirstDay(guess) - day
    else if day >= MonthFirstDay(guess + 1) then day - MonthFirstDay(guess + 1) + 1
    else 0
  }

  lemma GuessCloser(guess: int, day: int)
    ensures day < MonthFirstDay(guess) ==> Distance(guess - 1, day) < Distance(guess, day)
    ensures day >= MonthFirstDay(guess + 1) ==> Distance(guess + 1, day) < Distance(guess, day)
  {
    hide MonthFirstDay;
    MonthLength(guess - 1);
    MonthLength(guess);
    MonthLength(guess + 1);
  }

  /** The month of a day, found from a guess by going back or forth. */
  function MonthFrom(guess: int, day: int): (m: int)
    ensures MonthFirstDay(m) <= day < MonthFirstDay(m + 1)
    decreases Distance(guess, day)
  {
    hide MonthFirstDay;
    GuessCloser(guess, day);
    if day < MonthFirstDay(guess) then MonthFrom(guess - 1, day)
    else if day >= MonthFirstDay(guess + 1) then MonthFrom(guess + 1, day)
    else guess
  }

  /** The month of a day. */
  function MonthOf(day: int): (m: int)
    ensures MonthFirstDay(m) <= day < MonthFirstDay(m + 1)
  {
    MonthFrom(12 * 1970, day)
  }

  lemma MonthIsUnique(day: int, m: int)
    requires MonthFirstDay(m) <= day < MonthFirstDay(m + 1)
    ensures m == MonthOf(day)
  {
    hide MonthFirstDay;
    var n := MonthOf(day);
    if m < n {
      MonthsAscend(m + 1, n);
    } else if n < m {
      MonthsAscend(n + 1, m);
    }
  }

  function MonthWindow(offset: int, m: int): TimeRange {
    TimeRange(DayStart(offset, MonthFirstDay(m)), DayStart(offset, MonthFirstDay(m + 1)))
  }

  /** MonthRange */
  function MonthRange(offset: int, at: int): TimeRange {
    MonthWindow(offset, MonthOf(DayOf(offset, at)))
  }

  /** YearRange */
  function YearRange(offset: int, year: int): TimeRange {
    TimeRange(DayStart(offset, MonthFirstDay(12 * year)), DayStart(offset, MonthFirstDay(12 * (year + 1))))
  }

  /** A year is the twelve months from its January to its December, and has 365 or 366 days. */
  lemma YearIsTwelveMonths(offset: int, year: int)
    ensures var w := YearRange(offset, year);
            && w.start == MonthWindow(offset, 12 * year).start && w.end == MonthWindow(offset, 12 * year + 11).end
            && w.end - w.start == (if Leap(year) then 366 else 365) * DAY
  {
    YearLength(year);
    FirstDayOfYear(year);
    FirstDayOfYear(year + 1);
  }

  lemma FirstDayOfYear(year: int)
    ensures MonthFirstDay(12 * year) == DaysBeforeYear(year) - EPOCH
  {
    assert 12 * year / 12 == year && 12 * year % 12 == 0;
  }

  // ---------------------------------------------------------------- civil dates

  datatype Date = Date(year: int, month: int, day: int)

  const MONTH_DAYS := [31, 28, 31, 30, 31, 30, 31, 31, 30, 31, 30, 31]

  /** The last day of a month, 1 to 12. */
  function LastOf(year: int, month: int): int
    requires 1 <= month <= 12
  {
    if month == 2 && year % 4 == 0 && (year % 100 != 0 || year % 400 == 0) then 29 else MONTH_DAYS[month - 1]
  }

  predicate IsDate(d: Date) {
    1 <= d.month <= 12 && 1 <= d.day <= LastOf(d.year, d.month)
  }

  function NextDate(d: Date): (r: Date)
    requires IsDate(d)
    ensures IsDate(r)
  {
    if d.day < LastOf(d.year, d.month) then d.(day := d.day + 1)
    else if d.month < 12 then Date(d.year, d.month + 1, 1)
    else Date(d.year + 1, 1, 1)
  }

  function PreviousDate(d: Date): (r: Date)
    requires IsDate(d)
    ensures IsDate(r)
  {
    if d.day > 1 then d.(day := d.day - 1)
    else if d.month > 1 then Date(d.year, d.month - 1, LastOf(d.year, d.month - 1))
    else Date(d.year - 1, 12, 31)
  }

  /** The date of a day, counted from 1 January 1970, by going from date to date. */
  function DateOf(day: int): (d: Date)
    ensures IsDate(d)
    decreases if day < 0 then -day else day
  {
    if day == 0 then Date(1970, 1, 1) else if day > 0 then NextDate(DateOf(day - 1)) else PreviousDate(DateOf(day + 1))
  }

  /** The date of a day, by its month. */
  function DateInMonth(day: int): Date {
    var m := MonthOf(day);
    Date(m / 12, m % 12 + 1, day - MonthFirstDay(m) + 1)
  }

  lemma LastOfMonth(m: int)
    ensures LastOf(m / 12, m % 12 + 1) == MonthFirstDay(m + 1) - MonthFirstDay(m) >= 28
  {
    MonthLength(m);
  }

  lemma DatesFollow(day: int)
    ensures IsDate(DateInMonth(day)) && IsDate(DateInMonth(day + 1))
    ensures DateInMonth(day + 1) == NextDate(DateInMonth(day)) && DateInMonth(day) == PreviousDate(DateInMonth(day + 1))
  {
    var m, n := MonthOf(day), MonthOf(day + 1);
    LastOfMonth(m);
    LastOfMonth(m + 1);
    hide MonthFirstDay, LastOf;
    MonthIsUnique(day + 1, if day + 1 < MonthFirstDay(m + 1) then m else m + 1);
    DecemberIsFollowed(m);
  }

  lemma DecemberIsFollowed(m: int)
    ensures m % 12 == 11 ==> (m + 1) / 12 == m / 12 + 1 && (m + 1) % 12 == 0 && LastOf(m / 12, 12) == 31
    ensures m % 12 != 11 ==> (m + 1) / 12 == m / 12 && (m + 1) % 12 == m % 12 + 1
  {}

  lemma EpochIsFirst()
    ensures MonthFirstDay(12 * 1970) == 0 && DateInMonth(0) == Date(1970, 1, 1)
  {
    assert 12 * 1970 / 12 == 1970 && 12 * 1970 % 12 == 0;
    LastOfMonth(12 * 1970);
    hide MonthFirstDay;
    assert MonthFirstDay(12 * 1970) == 0 by {
      FirstDayOfYear(1970);
    }
    MonthIsUnique(0, 12 * 1970);
  }

  /** Months and their first days are those of the civil calendar: every day has the date that counting from
      1 January 1970 gives it. */
  lemma {:induction false} DatesAreCivil(day: int)
    ensures DateOf(day) == DateInMonth(day)
    decreases if day < 0 then -day else day
  {
    hide MonthFirstDay, MonthOf, DateInMonth, NextDate, PreviousDate, LastOf, IsDate;
    if day == 0 {
      EpochIsFirst();
    } else if day > 0 {
      DatesAreCivil(day - 1);
      DatesFollow(day - 1);
    } else {
      DatesAreCivil(day + 1);
      DatesFollow(day);
    }
  }

  /** Local midnight, as Unix time. */
  predicate Midnight(offset: int, t: int) {
    (t + offset) % 86400 == 0
  }

  /** The local date of a moment. */
  function LocalDate(offset: int, t: int): Date {
    DateOf((t + offset) / 86400)
  }

  /** MonthRange goes from midnight of the first of the month of a moment to midnight of the first of the next month. */
  lemma MonthRangeIsCivil(offset: int, at: int)
    ensures var w, today := MonthRange(offset, at), LocalDate(offset, at);
            && w.Has(at) && Midnight(offset, w.start) && Midnight(offset, w.end)
            && LocalDate(offset, w.start) == Date(today.year, today.month, 1)
            && LocalDate(offset, w.end) == if today.month < 12 then Date(today.year, today.month + 1, 1) else Date(today.year + 1, 1, 1)
  {
    var m := MonthOf(DayOf(offset, at));
    MonthStarts(offset, m);
    MonthStarts(offset, m + 1);
    DatesAreCivil(DayOf(offset, at));
    RangesNest(offset, at);
    DecemberIsFollowed(m);
    hide MonthFirstDay, DateOf, MonthOf;
  }

  /** The window of month `m` starts at midnight of the first of that month; the month before starts earlier. */
  lemma MonthStarts(offset: int, m: int)
    ensures var start := MonthWindow(offset, m).start;
            Midnight(offset, start) && LocalDate(offset, start) == Date(m / 12, m % 12 + 1, 1)
  {
    LastOfMonth(m);
    DatesAreCivil(MonthFirstDay(m));
    hide MonthFirstDay, DateOf, LastOf;
    MonthIsUnique(MonthFirstDay(m), m);
    var start := DayStart(offset, MonthFirstDay(m));
    assert start + offset == MonthFirstDay(m) * 86400;
    DayOfMidnight(MonthFirstDay(m));
  }

  lemma DayOfMidnight(day: int)
    ensures day * 86400 / 86400 == day && day * 86400 % 86400 == 0
  {}

  /** The hour and the day of a moment, in seconds. */
  lemma HourAndDayAreCivil(offset: int, at: int)
    ensures var hour, day := HourRange(offset, at), DayRange(offset, at);
            && hour.Has(at) && hour.end == hour.start + 3600 && (hour.start + offset) % 3600 == 0
            && day.Has(at) && day.end == day.start + 86400 && Midnight(offset, day.start)
            && LocalDate(offset, day.start) == LocalDate(offset, at)
  {
    RangesNest(offset, at);
    hide MonthOf, DateOf;
    var day := DayOf(offset, at);
    assert DayStart(offset, day) + offset == day * 86400;
    DayOfMidnight(day);
  }

  /** YearRange goes from 1 January to 1 January. */
  lemma YearRangeIsCivil(offset: int, year: int)
    ensures var w := YearRange(offset, year);
            && Midnight(offset, w.start) && LocalDate(offset, w.start) == Date(year, 1, 1)
            && Midnight(offset, w.end) && LocalDate(offset, w.end) == Date(year + 1, 1, 1)
  {
    MonthStarts(offset, 12 * year);
    MonthStarts(offset, 12 * (year + 1));
    hide MonthFirstDay, DateOf;
    assert 12 * year / 12 == year && 12 * (year + 1) / 12 == year + 1;
  }

  // ---------------------------------------------------------------- tiling

  predicate Overlaps(r: TimeRange, w: TimeRange) {
    r.end > w.start && r.start < w.end
  }

  predicate AtHour(offset: int, t: int) {
    (t + offset) % HOUR == 0
  }

  predicate AtDay(offset: int, t: int) {
    (t + offset) % DAY == 0
  }

  /** An hour overlaps a range of whole days exactly when it starts in it: no hour is split or counted twice. */
  lemma HoursTile(offset: int, t: int, first: int, last: int)
    requires AtHour(offset, t)
    ensures var w := TimeRange(DayStart(offset, first), DayStart(offset, last));
            Overlaps(TimeRange(t, t + HOUR), w) <==> w.Has(t)
  {}

  /** The same for days. */
  lemma DaysTile(offset: int, t: int, first: int, last: int)
    requires AtDay(offset, t)
    ensures var w := TimeRange(DayStart(offset, first), DayStart(offset, last));
            Overlaps(TimeRange(t, t + DAY), w) <==> w.Has(t)
  {}

  /** Every moment lies in its hour, day and month, and these are nested. */
  lemma RangesNest(offset: int, at: int)
    ensures var hour, day, month := HourRange(offset, at), DayRange(offset, at), MonthRange(offset, at);
            && hour.Has(at) && AtHour(offset, hour.start)
            && day.start <= hour.start && hour.end <= day.end
            && month.start <= day.start && day.end <= month.end
  {
    hide MonthFirstDay, MonthOf;
    var local := at + offset;
    assert local / HOUR * HOUR <= local < local / HOUR * HOUR + HOUR;
    assert local / DAY * DAY <= local < local / DAY * DAY + DAY;
    assert DAY == 24 * HOUR;
    assert 24 * (local / DAY) <= local / HOUR < 24 * (local / DAY) + 24;
  }

  // ---------------------------------------------------------------- the previous month

  /** The day after which everything from the start of the previous month on is kept. */
  function PreviousMonthFirstDay(day: int): int {
    MonthFirstDay(MonthOf(day) - 1)
  }

  /** Two months in a row have at most 62 days, so the previous month starts at most 61 days before any day. */
  lemma PreviousMonthIsNear(day: int)
    ensures day - 61 <= PreviousMonthFirstDay(day) < day
  {
    hide MonthFirstDay;
    var m := MonthOf(day);
    MonthLength(m - 1);
    MonthLength(m);
  }

  /** 61 is needed: on 31 August the previous month starts 61 days before. */
  lemma PreviousMonthCanBeFar()
    ensures exists day :: PreviousMonthFirstDay(day) == day - 61
  {
    var august := 12 * 1970 + 7;
    assert DaysIn(august / 12, august % 12) == 31 && DaysIn((august - 1) / 12, (august - 1) % 12) == 31;
    hide MonthFirstDay;
    MonthLength(august - 1);
    MonthLength(august);
    var day := MonthFirstDay(august) + 30;
    MonthIsUnique(day, august);
    assert PreviousMonthFirstDay(day) == day - 61;
  }

  /** Keeping n days keeps the whole previous month on every day exactly when n is at least 61. */
  lemma KeepsPreviousMonthIff(n: int)
    ensures (forall day :: day - n <= PreviousMonthFirstDay(day)) <==> n >= 61
  {
    PreviousMonthCanBeFar();
    forall day
      ensures day - 61 <= PreviousMonthFirstDay(day)
    {
      PreviousMonthIsNear(day);
    }
  }
}

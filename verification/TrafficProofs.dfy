/** What collecting keeps: months add up to their hours, collecting again changes nothing, and counters telescope. */
module TrafficProofs {
  import opened Wrappers
  import opened TrafficCalendar
  import opened TrafficTables
  import opened TrafficRepository
  import opened TrafficStats
  import opened TrafficCollector

  // ---------------------------------------------------------------- aggregates of adjoining windows

  function Combine(x: Option<Data>, y: Option<Data>, end: int): Option<Data> {
    match (x, y)
    case (None, None) => None
    case (Some(a), None) => Some(a.(end := end))
    case (None, Some(b)) => Some(b.(end := end))
    case (Some(a), Some(b)) => Some(Data(a.server, end, AddU64(a.bytes, b.bytes), a.reset || b.reset))
  }

  lemma {:induction false} FirstStartSplits(t: Table, p: Period, s: Series, a: int, m: int, b: int)
    requires a <= m <= b
    ensures var left := FirstStart(t, p, s, a, m);
            FirstStart(t, p, s, a, b) == if left.Some? then left else FirstStart(t, p, s, m, b)
    decreases b - m
  {
    if m >= b {
    } else {
      FirstStartSplits(t, p, s, a, m, b - 1);
    }
  }

  lemma NoFirstNoRows(t: Table, p: Period, s: Series, a: int, b: int)
    requires FirstStart(t, p, s, a, b).None?
    ensures WindowSum(t, p, s, a, b) == 0 && !WindowReset(t, p, s, a, b)
  {
    forall x | a <= x < b
      ensures Key(p, x, s) !in t
    {
      if Key(p, x, s) in t {
        FirstStartIsFirst(t, p, s, a, b, x);
      }
    }
    EmptyWindow(t, p, s, a, b);
  }

  lemma ResetSplits(t: Table, p: Period, s: Series, a: int, m: int, b: int)
    requires a <= m <= b
    ensures WindowReset(t, p, s, a, b) <==> WindowReset(t, p, s, a, m) || WindowReset(t, p, s, m, b)
  {}

  lemma SumsCombine(x: nat, y: nat)
    ensures (x + y) % U64 == AddU64(x % U64, y % U64)
  {}

  lemma AggregateSplits(t: Table, p: Period, s: Series, a: int, m: int, b: int)
    requires a <= m <= b
    ensures Aggregate(t, p, s, TimeRange(a, b)) == Combine(Aggregate(t, p, s, TimeRange(a, m)), Aggregate(t, p, s, TimeRange(m, b)), b)
  {
    hide FirstStart, WindowSum, WindowReset, AddU64;
    SumsCombine(WindowSum(t, p, s, a, m), WindowSum(t, p, s, m, b));
    FirstStartSplits(t, p, s, a, m, b);
    WindowSumSplits(t, p, s, a, m, b);
    ResetSplits(t, p, s, a, m, b);
    if FirstStart(t, p, s, a, m).None? {
      NoFirstNoRows(t, p, s, a, m);
    }
    if FirstStart(t, p, s, m, b).None? {
      NoFirstNoRows(t, p, s, m, b);
    }
  }

  lemma EmptyAggregate(t: Table, p: Period, s: Series, a: int)
    ensures Aggregate(t, p, s, TimeRange(a, a)) == None
  {}

  lemma NoOtherDay(t: Table, offset: int, s: Series, day: int)
    requires Windowed(offset, t)
    ensures forall x :: DayStart(offset, day) < x < DayStart(offset, day + 1) ==> Key(Daily, x, s) !in t
  {
    DayIsNotSplit(offset, day);
    hide AtDay, DayStart;
  }

  /** An aggregate whose rows are all at the start of the window. */
  lemma AggregateOfOneRow(t: Table, p: Period, s: Series, a: int, b: int)
    requires a < b && forall x :: a < x < b ==> Key(p, x, s) !in t
    ensures FirstStart(t, p, s, a, b) == if Key(p, a, s) in t then Some(a) else None
    ensures WindowSum(t, p, s, a, b) == if Key(p, a, s) in t then t[Key(p, a, s)].bytes else 0
  {
    EmptyWindow(t, p, s, a + 1, b);
    FirstStartSplits(t, p, s, a, a + 1, b);
    WindowSumSplits(t, p, s, a, a + 1, b);
    assert FirstStart(t, p, s, a, a) == None && WindowSum(t, p, s, a, a) == 0;
  }

  /** A day has one daily row, so its aggregate is that row. */
  lemma AggregateOfOneDay(t: Table, offset: int, s: Series, day: int)
    requires Windowed(offset, t)
    ensures var d := At(t, Key(Daily, DayStart(offset, day), s));
            Aggregate(t, Daily, s, DayWindow(offset, day)) == if d.Some? then Some(d.value.(bytes := d.value.bytes % U64)) else None
  {
    var start, end := DayStart(offset, day), DayStart(offset, day + 1);
    assert end == start + DAY;
    NoOtherDay(t, offset, s, day);
    hide DayStart, FirstStart, WindowSum;
    AggregateOfOneRow(t, Daily, s, start, end);
  }

  lemma DayIsNotSplit(offset: int, day: int)
    ensures AtDay(offset, DayStart(offset, day))
    ensures forall x :: DayStart(offset, day) < x < DayStart(offset, day + 1) ==> !AtDay(offset, x)
  {}

  // ---------------------------------------------------------------- months are the sums of their hours

  /** If every day has been rolled up, rolling up the days is rolling up the hours. */
  lemma {:induction false} DaysAggregateHours(hours: Table, days: Table, offset: int, s: Series, a: int, b: int)
    requires Windowed(offset, days) && a <= b
    requires forall d :: a <= d < b ==>
               At(days, Key(Daily, DayStart(offset, d), s)) == Aggregate(hours, Hourly, s, DayWindow(offset, d))
    ensures var w := TimeRange(DayStart(offset, a), DayStart(offset, b));
            Aggregate(days, Daily, s, w) == Aggregate(hours, Hourly, s, w)
    decreases b - a
  {
    hide Windowed, DayStart, Aggregate;
    if a == b {
      EmptyAggregate(days, Daily, s, DayStart(offset, a));
      EmptyAggregate(hours, Hourly, s, DayStart(offset, a));
    } else {
      DaysAggregateHours(hours, days, offset, s, a, b - 1);
      AggregateOfOneDay(days, offset, s, b - 1);
      assert At(days, Key(Daily, DayStart(offset, b - 1), s)) == Aggregate(hours, Hourly, s, DayWindow(offset, b - 1));
      AggregateIsU64(hours, Hourly, s, DayWindow(offset, b - 1));
      DaysAscend(offset, a, b - 1);
      DaysAscend(offset, b - 1, b);
      AggregateSplits(days, Daily, s, DayStart(offset, a), DayStart(offset, b - 1), DayStart(offset, b));
      AggregateSplits(hours, Hourly, s, DayStart(offset, a), DayStart(offset, b - 1), DayStart(offset, b));
    }
  }

  lemma DaysAscend(offset: int, a: int, b: int)
    requires a <= b
    ensures DayStart(offset, a) <= DayStart(offset, b)
  {}

  lemma AggregateIsU64(t: Table, p: Period, s: Series, w: TimeRange)
    ensures var d := Aggregate(t, p, s, w);
            d.Some? ==> d.value.bytes < U64 && d.value.end == w.end
  {}

  /** What happens to the table: a daily collection, or anything else. */
  datatype Move = CollectDay(day: int, instances: seq<string>) | OtherMove

  ghost predicate Moves(before: Table, after: Table, offset: int, move: Move) {
    match move
    case CollectDay(day, instances) => RolledUp(before, after, Hourly, Daily, instances, DayWindow(offset, day))
    case OtherMove => Windowed(offset, before) ==> Windowed(offset, after)
  }

  ghost predicate IsRun(states: seq<Table>, moves: seq<Move>, offset: int) {
    |states| == |moves| + 1 && forall i :: 0 <= i < |moves| ==> Moves(states[i], states[i + 1], offset, moves[i])
  }

  /** The hours and the daily row of a series on a day are the same. */
  ghost predicate SameDay(before: Table, after: Table, offset: int, s: Series, day: int) {
    forall k: Key :: k.series == s && (k.period == Hourly || k.period == Daily) && DayWindow(offset, day).Has(k.start) ==>
      At(after, k) == At(before, k)
  }

  /** The day is collected for the series by move `i`, and its rows are not touched after that but by collecting. */
  ghost predicate SettledBy(states: seq<Table>, moves: seq<Move>, offset: int, s: Series, day: int, i: nat) {
    && |states| == |moves| + 1 && i < |moves|
    && moves[i].CollectDay? && moves[i].day == day && Chosen(moves[i].instances, s.instance)
    && forall j :: i < j < |moves| ==> moves[j].CollectDay? || SameDay(states[j], states[j + 1], offset, s, day)
  }

  ghost predicate DaySettled(states: seq<Table>, moves: seq<Move>, offset: int, s: Series, day: int) {
    exists i: nat :: SettledBy(states, moves, offset, s, day, i)
  }

  ghost predicate MonthSettled(states: seq<Table>, moves: seq<Move>, offset: int, s: Series, m: int) {
    forall day :: MonthFirstDay(m) <= day < MonthFirstDay(m + 1) ==> DaySettled(states, moves, offset, s, day)
  }

  /** The daily row of a series is the aggregate of its hours. */
  ghost predicate DayIsCollected(t: Table, offset: int, s: Series, day: int) {
    At(t, Key(Daily, DayStart(offset, day), s)) == Aggregate(t, Hourly, s, DayWindow(offset, day))
  }

  lemma SameDayStaysCollected(before: Table, after: Table, offset: int, s: Series, day: int)
    requires SameDay(before, after, offset, s, day)
    ensures DayIsCollected(after, offset, s, day) <==> DayIsCollected(before, offset, s, day)
  {
    var w := DayWindow(offset, day);
    assert w.Has(DayStart(offset, day));
    forall x | w.start <= x < w.end
      ensures At(after, Key(Hourly, x, s)) == At(before, Key(Hourly, x, s))
    {
      assert w.Has(x) && Key(Hourly, x, s).start == x;
    }
    SameAggregate(after, before, Hourly, s, w);
  }

  lemma CollectingKeepsCollected(before: Table, after: Table, offset: int, s: Series, day: int, move: Move)
    requires move.CollectDay? && Moves(before, after, offset, move)
    requires DayIsCollected(before, offset, s, day) || (move.day == day && Chosen(move.instances, s.instance))
    ensures DayIsCollected(after, offset, s, day)
  {
    hide Aggregate, Chosen;
    var w := DayWindow(offset, day);
    assert forall x :: At(after, Key(Hourly, x, s)) == At(before, Key(Hourly, x, s));
    SameAggregate(after, before, Hourly, s, w);
    assert DayStart(offset, move.day) == DayStart(offset, day) ==> move.day == day;
  }

  lemma {:induction false} SettledDayIsCollected(states: seq<Table>, moves: seq<Move>, offset: int, s: Series, day: int, i: nat, n: nat)
    requires IsRun(states, moves, offset) && SettledBy(states, moves, offset, s, day, i) && i < n <= |moves|
    ensures DayIsCollected(states[n], offset, s, day)
    decreases n
  {
    hide DayIsCollected, SameDay, Moves, Chosen;
    assert Moves(states[n - 1], states[n - 1 + 1], offset, moves[n - 1]);
    if i < n - 1 {
      SettledDayIsCollected(states, moves, offset, s, day, i, n - 1);
    }
    if moves[n - 1].CollectDay? {
      CollectingKeepsCollected(states[n - 1], states[n], offset, s, day, moves[n - 1]);
    } else {
      assert SameDay(states[n - 1], states[n - 1 + 1], offset, s, day);
      SameDayStaysCollected(states[n - 1], states[n], offset, s, day);
    }
  }

  lemma RollingUpKeepsWindows(before: Table, after: Table, offset: int, instances: seq<string>, day: int)
    requires Windowed(offset, before) && RolledUp(before, after, Hourly, Daily, instances, DayWindow(offset, day))
    ensures Windowed(offset, after)
  {
    DayIsNotSplit(offset, day);
    var w := DayWindow(offset, day);
    assert w.end == w.start + DAY && w.start == DayStart(offset, day);
    forall k: Key
      ensures Aggregate(before, Hourly, k.series, w).Some? ==> Aggregate(before, Hourly, k.series, w).value.end == w.end
    {}
    hide DayStart, Chosen, Aggregate, DayWindow, AtDay, AtHour;
    forall k | k in after
      ensures InWindow(k, Daily, instances, w.start) || (k in before && after[k] == before[k])
      ensures InWindow(k, Daily, instances, w.start) ==> after[k].end == w.end
    {
      assert At(after, k) == Some(after[k]);
    }
  }

  lemma MonthlyKeepsWindows(before: Table, after: Table, offset: int, instances: seq<string>, m: int)
    requires Windowed(offset, before) && RolledUp(before, after, Daily, Monthly, instances, MonthWindow(offset, m))
    ensures Windowed(offset, after)
  {
    hide MonthFirstDay;
    var w := MonthWindow(offset, m);
    forall k | k in after
      ensures InWindow(k, Monthly, instances, w.start) || (k in before && after[k] == before[k])
      ensures InWindow(k, Monthly, instances, w.start) ==> after[k].end == w.end
    {
      assert At(after, k) == Some(after[k]);
    }
  }

  lemma {:induction false} RunsKeepWindows(states: seq<Table>, moves: seq<Move>, offset: int, n: nat)
    requires IsRun(states, moves, offset) && n <= |moves| && Windowed(offset, states[0])
    ensures Windowed(offset, states[n])
  {
    hide Windowed;
    if n == 0 {
    } else {
      RunsKeepWindows(states, moves, offset, n - 1);
      var move := moves[n - 1];
      assert Moves(states[n - 1], states[n - 1 + 1], offset, move);
      if move.CollectDay? {
        RollingUpKeepsWindows(states[n - 1], states[n], offset, move.instances, move.day);
      }
    }
  }

  /** After any run in which every day of a month was collected, in any order, once or often, and its rows were not touched
      after that but by collecting, collecting the month gives the series exactly the aggregate of the hours that start in
      it, or no row where there are no such hours. */
  lemma MonthAggregatesItsHours(states: seq<Table>, moves: seq<Move>, after: Table, offset: int, instances: seq<string>, m: int, s: Series)
    requires IsRun(states, moves, offset) && Windowed(offset, states[0]) && MonthSettled(states, moves, offset, s, m)
    requires RolledUp(states[|moves|], after, Daily, Monthly, instances, MonthWindow(offset, m)) && Chosen(instances, s.instance)
    ensures At(after, Key(Monthly, MonthWindow(offset, m).start, s)) == Aggregate(states[|moves|], Hourly, s, MonthWindow(offset, m))
  {
    var last := states[|moves|];
    hide Aggregate, MonthFirstDay, Windowed, Chosen, SettledBy, IsRun;
    RunsKeepWindows(states, moves, offset, |moves|);
    MonthsAscend(m, m + 1);
    forall day | MonthFirstDay(m) <= day < MonthFirstDay(m + 1)
      ensures At(last, Key(Daily, DayStart(offset, day), s)) == Aggregate(last, Hourly, s, DayWindow(offset, day))
    {
      assert DaySettled(states, moves, offset, s, day);
      var i: nat :| SettledBy(states, moves, offset, s, day, i);
      SettledIsBefore(states, moves, offset, s, day, i);
      SettledDayIsCollected(states, moves, offset, s, day, i, |moves|);
    }
    DaysAggregateHours(last, last, offset, s, MonthFirstDay(m), MonthFirstDay(m + 1));
    assert At(after, Key(Monthly, MonthWindow(offset, m).start, s)) == Aggregate(last, Daily, s, MonthWindow(offset, m));
  }

  lemma SettledIsBefore(states: seq<Table>, moves: seq<Move>, offset: int, s: Series, day: int, i: nat)
    requires SettledBy(states, moves, offset, s, day, i)
    ensures i < |moves| && |states| == |moves| + 1
  {}

  /** Conservation: the month's bytes are those of its hours, as long as they fit in 64 bits. */
  lemma MonthConservesBytes(states: seq<Table>, moves: seq<Move>, after: Table, offset: int, instances: seq<string>, m: int, s: Series)
    requires IsRun(states, moves, offset) && Windowed(offset, states[0]) && MonthSettled(states, moves, offset, s, m)
    requires RolledUp(states[|moves|], after, Daily, Monthly, instances, MonthWindow(offset, m)) && Chosen(instances, s.instance)
    ensures var w, hours := MonthWindow(offset, m), states[|moves|];
            var total := WindowSum(hours, Hourly, s, w.start, w.end);
            var row := At(after, Key(Monthly, w.start, s));
            && (row.Some? <==> exists x :: w.Has(x) && Key(Hourly, x, s) in hours)
            && (total < U64 ==> total == if row.Some? then row.value.bytes else 0)
  {
    var w, hours := MonthWindow(offset, m), states[|moves|];
    hide MonthFirstDay, MonthSettled, IsRun, RolledUp, Windowed;
    MonthAggregatesItsHours(states, moves, after, offset, instances, m, s);
    if x :| w.Has(x) && Key(Hourly, x, s) in hours {
      FirstStartIsFirst(hours, Hourly, s, w.start, w.end, x);
    } else {
      EmptyWindow(hours, Hourly, s, w.start, w.end);
    }
  }

  /** Collecting a month touches no day. */
  lemma CollectingMonthLeavesDays(before: Table, after: Table, offset: int, instances: seq<string>, m: int, s: Series, day: int)
    requires RolledUp(before, after, Daily, Monthly, instances, MonthWindow(offset, m))
    ensures SameDay(before, after, offset, s, day)
  {
    hide Aggregate, Chosen, MonthFirstDay;
  }

  /** Collecting a window again changes nothing but ids and creation times. */
  lemma CollectingAgainChangesNothing(before: Table, once: Table, twice: Table, from: Period, p: Period, instances: seq<string>, w: TimeRange)
    requires from != p && RolledUp(before, once, from, p, instances, w) && RolledUp(once, twice, from, p, instances, w)
    ensures twice == once
  {
    hide Aggregate, Chosen;
    forall k
      ensures At(twice, k) == At(once, k)
    {
      assert forall x :: At(once, Key(from, x, k.series)) == At(before, Key(from, x, k.series));
      SameAggregate(once, before, from, k.series, w);
    }
    SameTable(twice, once);
  }

  // ---------------------------------------------------------------- counters

  /** A reading, and the hour in which it is booked. */
  datatype Booking = Booking(reading: Reading, w: TimeRange)

  function BookAll(b: Books, bookings: seq<Booking>): Books {
    if bookings == [] then b
    else
      var n := |bookings| - 1;
      AddReading(BookAll(b, bookings[..n]), bookings[n].reading, bookings[n].w)
  }

  /** The polled values of a series, in order. */
  function Values(bookings: seq<Booking>, s: Series): seq<nat> {
    if bookings == [] then []
    else
      var last := bookings[|bookings| - 1];
      Values(bookings[..|bookings| - 1], s) + if last.reading.Of() == s then [last.reading.counter.value] else []
  }

  function Last(start: nat, values: seq<nat>): nat {
    if values == [] then start else values[|values| - 1]
  }

  /** The sum of the values just before each drop. */
  function Drops(start: nat, values: seq<nat>): nat {
    if values == [] then 0
    else
      var n := |values| - 1;
      var previous := Last(start, values[..n]);
      Drops(start, values[..n]) + if values[n] < previous then previous else 0
  }

  function Baseline(b: Books, s: Series): nat {
    if s in b.baselines then b.baselines[s] else 0
  }

  lemma OneBooking(b: Books, r: Reading, w: TimeRange, s: Series, lo: int, hi: int)
    requires r.Of() == s ==> lo <= w.start < hi
    ensures var after := AddReading(b, r, w);
            && Baseline(after, s) == (if r.Of() == s then r.counter.value else Baseline(b, s))
            && WindowSum(after.table, Hourly, s, lo, hi) == WindowSum(b.table, Hourly, s, lo, hi)
                 + if r.Of() == s then r.counter.value - (if r.counter.value >= Baseline(b, s) then Baseline(b, s) else 0) else 0
  {
    var record := RecordOf(b.baselines, r, Hourly, w, 0);
    var d := AddRecord(b.table, record.key, record.row.data)[record.key];
    WindowSumWith(b.table, record.key, d, Hourly, s, lo, hi);
  }

  /** Telescoping: over any run of polls, the hourly bytes that a series gains are its last value plus the values
      just before each drop, less the baseline that it started from. */
  lemma {:induction false} CountersTelescope(b: Books, bookings: seq<Booking>, s: Series, lo: int, hi: int)
    requires forall x :: x in bookings && x.reading.Of() == s ==> lo <= x.w.start < hi
    ensures var after := BookAll(b, bookings);
            && Baseline(after, s) == Last(Baseline(b, s), Values(bookings, s))
            && WindowSum(after.table, Hourly, s, lo, hi) + Baseline(b, s)
               == WindowSum(b.table, Hourly, s, lo, hi) + Last(Baseline(b, s), Values(bookings, s)) + Drops(Baseline(b, s), Values(bookings, s))
  {
    if bookings == [] {
    } else {
      hide AddReading;
      var n := |bookings| - 1;
      var last := bookings[n];
      assert bookings == bookings[..n] + [last];
      CountersTelescope(b, bookings[..n], s, lo, hi);
      OneBooking(BookAll(b, bookings[..n]), last.reading, last.w, s, lo, hi);
      var values := Values(bookings[..n], s);
      if last.reading.Of() == s {
        assert (values + [last.reading.counter.value])[..|values|] == values;
      } else {
        assert values + [] == values;
      }
    }
  }

  /** One of the bookings of the series in that hour found a value below the one before, and not zero. */
  predicate DropIn(b: Books, bookings: seq<Booking>, s: Series, hour: int) {
    bookings != []
    && var n := |bookings| - 1;
       var last := bookings[n];
       || DropIn(b, bookings[..n], s, hour)
       || (last.reading.Of() == s && last.w.start == hour && 0 < last.reading.counter.value < Baseline(BookAll(b, bookings[..n]), s))
  }

  predicate ShowsReset(t: Table, s: Series, hour: int) {
    Key(Hourly, hour, s) in t && t[Key(Hourly, hour, s)].reset
  }

  /** Resets: an hour of a series shows one exactly when it did before or a poll booked there saw the counter drop. */
  lemma {:induction false} ResetsAreShown(b: Books, bookings: seq<Booking>, s: Series, hour: int)
    ensures ShowsReset(BookAll(b, bookings).table, s, hour) <==> ShowsReset(b.table, s, hour) || DropIn(b, bookings, s, hour)
  {
    if bookings == [] {
    } else {
      ResetsAreShown(b, bookings[..|bookings| - 1], s, hour);
    }
  }

  function Bookings(readings: seq<Reading>, w: TimeRange): seq<Booking> {
    seq(|readings|, k requires 0 <= k < |readings| => Booking(readings[k], w))
  }

  /** Runs of AddHourlyCounters are runs of bookings: each call books its readings one after another. */
  lemma {:induction false} AddReadingsBooks(b: Books, bookings: seq<Booking>, readings: seq<Reading>, w: TimeRange)
    ensures AddReadings(BookAll(b, bookings), readings, w) == BookAll(b, bookings + Bookings(readings, w))
  {
    hide AddReading;
    if readings == [] {
      assert bookings + Bookings(readings, w) == bookings;
    } else {
      var n := |readings| - 1;
      var all := bookings + Bookings(readings, w);
      AddReadingsBooks(b, bookings, readings[..n], w);
      assert all[..|all| - 1] == bookings + Bookings(readings[..n], w);
    }
  }

  lemma BookingKeepsWindows(b: Books, r: Reading, offset: int, at: int)
    requires Windowed(offset, b.table)
    ensures Windowed(offset, AddReading(b, r, HourRange(offset, at)).table)
  {
    RangesNest(offset, at);
    hide DayRange, MonthRange, MonthWindow;
  }

  /** Booking keeps the windows. */
  lemma {:induction false} AddingKeepsWindows(b: Books, readings: seq<Reading>, offset: int, at: int)
    requires Windowed(offset, b.table)
    ensures Windowed(offset, AddReadings(b, readings, HourRange(offset, at)).table)
  {
    if readings == [] {
    } else {
      var n := |readings| - 1;
      hide Windowed, AddReading, HourRange;
      AddingKeepsWindows(b, readings[..n], offset, at);
      BookingKeepsWindows(AddReadings(b, readings[..n], HourRange(offset, at)), readings[n], offset, at);
    }
  }

  /** Polling in an hour touches no day that does not contain it. */
  lemma {:induction false} PollingLeavesOtherDays(b: Books, readings: seq<Reading>, offset: int, at: int, s: Series, day: int)
    requires DayOf(offset, at) != day
    ensures SameDay(b.table, AddReadings(b, readings, HourRange(offset, at)).table, offset, s, day)
  {
    if readings == [] {
    } else {
      var n := |readings| - 1;
      PollingLeavesOtherDays(b, readings[..n], offset, at, s, day);
      var hour := HourRange(offset, at).start;
      RangesNest(offset, at);
      assert !DayWindow(offset, day).Has(hour);
    }
  }

  // ---------------------------------------------------------------- current growth

  /** The same records, shown as current ones. */
  function AsCurrent(rs: seq<Record>): (r: seq<Record>)
    ensures |r| == |rs|
  {
    seq(|rs|, k requires 0 <= k < |rs| => rs[k].(key := rs[k].key.(period := Current)))
  }

  /** A series that is read again reads zero. */
  predicate RepeatsAreZero(rs: seq<Reading>) {
    forall i, j :: 0 <= i < j < |rs| && rs[i].Of() == rs[j].Of() ==> rs[j].counter.value == 0
  }

  lemma {:induction false} UnreadBaseline(b: Books, rs: seq<Reading>, w: TimeRange, s: Series)
    requires forall r :: r in rs ==> r.Of() != s
    ensures var after := AddReadings(b, rs, w).baselines;
            (s in after <==> s in b.baselines) && (s in after ==> after[s] == b.baselines[s])
  {
    if rs == [] {
    } else {
      var n := |rs| - 1;
      assert rs == rs[..n] + [rs[n]];
      UnreadBaseline(b, rs[..n], w, s);
    }
  }

  /** What is shown for a reading is what booking it next would add. */
  ghost predicate ShownIsNext(b: Books, rs: seq<Reading>, w: TimeRange, now: int) {
    CurrentRecords(b.baselines, rs, w, now) == AsCurrent(AddedRecords(b, rs, w, now))
  }

  lemma LastIsNext(b: Books, rs: seq<Reading>, w: TimeRange, now: int)
    requires RepeatsAreZero(rs) && rs != []
    ensures var n := |rs| - 1;
            AsCurrent(RecordsOf(AddReadings(b, rs[..n], w).baselines, rs[n], Hourly, w, now))
            == RecordsOf(b.baselines, rs[n], Current, w, now)
  {
    var n := |rs| - 1;
    hide AddReadings;
    if rs[n].counter.value > 0 {
      UnreadBaseline(b, rs[..n], w, rs[n].Of());
    }
  }

  lemma {:induction false} NoRepeatsMeansNext(b: Books, rs: seq<Reading>, w: TimeRange, now: int)
    requires RepeatsAreZero(rs)
    ensures ShownIsNext(b, rs, w, now)
  {
    if rs == [] {
    } else {
      var n := |rs| - 1;
      NoRepeatsMeansNext(b, rs[..n], w, now);
      LastIsNext(b, rs, w, now);
      hide RecordsOf, AddReadings, AsCurrent;
      AsCurrentOfBoth(AddedRecords(b, rs[..n], w, now), RecordsOf(AddReadings(b, rs[..n], w).baselines, rs[n], Hourly, w, now));
    }
  }

  lemma AsCurrentOfBoth(xs: seq<Record>, ys: seq<Record>)
    ensures AsCurrent(xs + ys) == AsCurrent(xs) + AsCurrent(ys)
  {}

  /** Baselines from which every reading counts in full. */
  ghost predicate CountsInFull(b: Books, rs: seq<Reading>) {
    forall r :: r in rs ==> Delta(b.baselines, r).0 == r.counter.value
  }

  lemma {:induction false} NextIsNoMore(b: Books, rs: seq<Reading>, w: TimeRange, now: int)
    requires CountsInFull(b, rs)
    ensures |AddedRecords(b, rs, w, now)| <= |CurrentRecords(b.baselines, rs, w, now)|
  {
    if rs == [] {
    } else {
      var n := |rs| - 1;
      assert rs[n] in rs && forall r :: r in rs[..n] ==> r in rs;
      NextIsNoMore(b, rs[..n], w, now);
    }
  }

  /** Two lists in two parts, the second of which is nowhere longer: if they agree, so do the parts. */
  lemma PartsAgree(shown: seq<Record>, lastShown: seq<Record>, added: seq<Record>, lastAdded: seq<Record>)
    requires shown + lastShown == AsCurrent(added + lastAdded)
    requires |added| <= |shown| && |lastAdded| <= |lastShown|
    ensures shown == AsCurrent(added) && lastShown == AsCurrent(lastAdded)
  {
    AsCurrentOfBoth(added, lastAdded);
    hide AsCurrent;
    assert shown == (shown + lastShown)[..|shown|] && lastShown == (shown + lastShown)[|shown|..];
  }

  /** If the lists agree they agree on the last reading and on those before it. */
  lemma LastShownIsNext(b: Books, rs: seq<Reading>, w: TimeRange, now: int)
    requires CountsInFull(b, rs) && ShownIsNext(b, rs, w, now) && rs != []
    ensures var n := |rs| - 1;
            && CountsInFull(b, rs[..n]) && ShownIsNext(b, rs[..n], w, now)
            && RecordsOf(b.baselines, rs[n], Current, w, now)
               == AsCurrent(RecordsOf(AddReadings(b, rs[..n], w).baselines, rs[n], Hourly, w, now))
  {
    var n := |rs| - 1;
    assert rs[n] in rs && forall r :: r in rs[..n] ==> r in rs;
    NextIsNoMore(b, rs[..n], w, now);
    hide AsCurrent, AddReadings;
    PartsAgree(CurrentRecords(b.baselines, rs[..n], w, now), RecordsOf(b.baselines, rs[n], Current, w, now),
               AddedRecords(b, rs[..n], w, now), RecordsOf(AddReadings(b, rs[..n], w).baselines, rs[n], Hourly, w, now));
  }

  lemma SameRecordsSameDelta(x: Baselines, y: Baselines, r: Reading, w: TimeRange, now: int)
    requires Delta(y, r).0 > 0
    requires RecordsOf(y, r, Current, w, now) == AsCurrent(RecordsOf(x, r, Hourly, w, now))
    ensures Delta(x, r) == Delta(y, r)
  {
    assert RecordsOf(y, r, Current, w, now)[0] == AsCurrent(RecordsOf(x, r, Hourly, w, now))[0];
  }

  /** So they agree reading by reading. */
  lemma {:induction false} NextStepByStep(b: Books, rs: seq<Reading>, w: TimeRange, now: int, k: nat)
    requires CountsInFull(b, rs) && ShownIsNext(b, rs, w, now) && k < |rs| && rs[k].counter.value > 0
    ensures Delta(AddReadings(b, rs[..k], w).baselines, rs[k]) == Delta(b.baselines, rs[k])
    decreases |rs|
  {
    var n := |rs| - 1;
    LastShownIsNext(b, rs, w, now);
    assert Delta(b.baselines, rs[k]).0 == rs[k].counter.value by { assert rs[k] in rs; }
    hide CountsInFull, ShownIsNext, Delta, AddReadings, RecordsOf, AsCurrent;
    if k < n {
      assert rs[..n][..k] == rs[..k];
      NextStepByStep(b, rs[..n], w, now, k);
    } else {
      SameRecordsSameDelta(AddReadings(b, rs[..n], w).baselines, b.baselines, rs[n], w, now);
    }
  }

  lemma {:induction false} ReadBaseline(b: Books, c: Books, rs: seq<Reading>, w: TimeRange, s: Series)
    requires exists r :: r in rs && r.Of() == s
    ensures s in AddReadings(b, rs, w).baselines && s in AddReadings(c, rs, w).baselines
    ensures AddReadings(b, rs, w).baselines[s] == AddReadings(c, rs, w).baselines[s]
  {
    var n := |rs| - 1;
    assert rs == rs[..n] + [rs[n]];
    if rs[n].Of() != s {
      ReadBaseline(b, c, rs[..n], w, s);
    }
  }

  function HighBaselines(rs: seq<Reading>): Baselines {
    if rs == [] then map[]
    else
      var rest := HighBaselines(rs[1..]);
      var s := rs[0].Of();
      rest[s := rs[0].counter.value + 1 + if s in rest then rest[s] else 0]
  }

  lemma {:induction false} HighBaselinesAreHigh(rs: seq<Reading>)
    ensures forall r :: r in rs ==> r.Of() in HighBaselines(rs) && r.counter.value < HighBaselines(rs)[r.Of()]
  {
    if rs == [] {
    } else {
      HighBaselinesAreHigh(rs[1..]);
      assert rs == [rs[0]] + rs[1..];
    }
  }

  /** CurrentDeltas shows what the next AddHourlyCounters on the same readings adds, whatever the baselines are,
      exactly when no series is read again with a value. */
  lemma ShownIsNextIff(rs: seq<Reading>, w: TimeRange, now: int)
    ensures (forall b :: ShownIsNext(b, rs, w, now)) <==> RepeatsAreZero(rs)
  {
    if RepeatsAreZero(rs) {
      forall b
        ensures ShownIsNext(b, rs, w, now)
      {
        NoRepeatsMeansNext(b, rs, w, now);
      }
    } else if forall b :: ShownIsNext(b, rs, w, now) {
      var i, j :| 0 <= i < j < |rs| && rs[i].Of() == rs[j].Of() && rs[j].counter.value != 0;
      RepeatIsNotShown(rs, w, now, i, j);
    }
  }

  /** With no baselines, and with high ones, every reading counts in full, but not alike. */
  lemma DeltasDiffer(rs: seq<Reading>)
    ensures CountsInFull(Books(map[], map[]), rs) && CountsInFull(Books(map[], HighBaselines(rs)), rs)
    ensures forall r :: r in rs ==> Delta(map[], r) != Delta(HighBaselines(rs), r)
  {
    HighBaselinesAreHigh(rs);
    hide HighBaselines;
  }

  lemma RepeatIsNotShown(rs: seq<Reading>, w: TimeRange, now: int, i: nat, j: nat)
    requires i < j < |rs| && rs[i].Of() == rs[j].Of() && rs[j].counter.value != 0
    ensures !ShownIsNext(Books(map[], map[]), rs, w, now) || !ShownIsNext(Books(map[], HighBaselines(rs)), rs, w, now)
  {
    hide ShownIsNext, AddReadings, HighBaselines, CountsInFull;
    var none, high := Books(map[], map[]), Books(map[], HighBaselines(rs));
    DeltasDiffer(rs);
    assert rs[..j][i].Of() == rs[j].Of() && rs[j] in rs;
    ReadBaseline(none, high, rs[..j], w, rs[j].Of());
    if ShownIsNext(none, rs, w, now) && ShownIsNext(high, rs, w, now) {
      NextStepByStep(none, rs, w, now, j);
      NextStepByStep(high, rs, w, now, j);
    }
  }

  predicate DistinctReadings(rs: seq<Reading>) {
    forall i, j :: 0 <= i < j < |rs| ==> rs[i].Of() != rs[j].Of()
  }

  lemma {:induction false} BaselineIsReading(b: Books, rs: seq<Reading>, w: TimeRange, r: Reading)
    requires DistinctReadings(rs) && r in rs
    ensures r.Of() in AddReadings(b, rs, w).baselines && AddReadings(b, rs, w).baselines[r.Of()] == r.counter.value
  {
    var n := |rs| - 1;
    assert rs == rs[..n] + [rs[n]];
    if r in rs[..n] {
      BaselineIsReading(b, rs[..n], w, r);
    }
  }

  lemma {:induction false} NothingShownAtBaselines(baselines: Baselines, rs: seq<Reading>, w: TimeRange, now: int)
    requires forall r :: r in rs ==> r.Of() in baselines && baselines[r.Of()] == r.counter.value
    ensures CurrentRecords(baselines, rs, w, now) == []
  {
    if rs == [] {
    } else {
      var n := |rs| - 1;
      assert rs[n] in rs && forall r :: r in rs[..n] ==> r in rs;
      NothingShownAtBaselines(baselines, rs[..n], w, now);
    }
  }

  /** Right after booking them, the same readings show no growth. */
  lemma NothingShownAfterBooking(b: Books, rs: seq<Reading>, w: TimeRange, later: TimeRange, now: int)
    requires DistinctReadings(rs)
    ensures CurrentRecords(AddReadings(b, rs, w).baselines, rs, later, now) == []
  {
    forall r | r in rs
      ensures r.Of() in AddReadings(b, rs, w).baselines && AddReadings(b, rs, w).baselines[r.Of()] == r.counter.value
    {
      BaselineIsReading(b, rs, w, r);
    }
    NothingShownAtBaselines(AddReadings(b, rs, w).baselines, rs, later, now);
  }

  /** Targets of different instances, polled for counters as StatsToCounters makes them, read no series twice. */
  lemma {:induction false} PollsAreDistinct(stats: Stats, targets: seq<Target>, f: Filter)
    requires forall i, j :: 0 <= i < j < |targets| ==> targets[i].instance != targets[j].instance
    requires forall t :: t in targets && stats(t).Ok? ==> DistinctCounters(stats(t).value)
    requires Poll(stats, targets, f).Some?
    ensures DistinctReadings(Poll(stats, targets, f).value)
    ensures forall r :: r in Poll(stats, targets, f).value ==> r.target in targets
  {
    if targets == [] {
    } else {
      var n := |targets| - 1;
      assert targets[n] in targets && targets == targets[..n] + [targets[n]];
      PollsAreDistinct(stats, targets[..n], f);
      FilteredAreDistinct(stats(targets[n]).value, targets[n], f);
    }
  }

  lemma {:induction false} FilteredAreDistinct(counters: seq<Counter>, target: Target, f: Filter)
    requires DistinctCounters(counters)
    ensures DistinctCounters(FilterCounters(counters, target, f))
    ensures forall c :: c in FilterCounters(counters, target, f) ==> c in counters
  {
    if counters == [] {
    } else {
      var n := |counters| - 1;
      FilteredAreDistinct(counters[..n], target, f);
      assert counters == counters[..n] + [counters[n]];
      forall c | c in FilterCounters(counters[..n], target, f)
        ensures KeyOf(c) != KeyOf(counters[n])
      {
        assert c in counters[..n];
      }
    }
  }
}

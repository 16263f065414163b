/** Cleaning up old traffic records, and what that does to later collecting (internal/traffic/cleanup.go). */
module TrafficCleanup {
  import opened Wrappers
  import opened TrafficCalendar
  import opened TrafficTables
  import opened TrafficRepository
  import opened TrafficProofs

  /** Retention: days of hourly and daily rows, and months of monthly rows. */
  datatype Options = Options(retentionDays: int, dailyMinRetentionDays: int, monthlyRetentionMonths: int, monthlyRetentionOverride: int)

  /** The days of daily rows that are kept. */
  function DailyDays(o: Options): int {
    if o.retentionDays < o.dailyMinRetentionDays then o.dailyMinRetentionDays else o.retentionDays
  }

  /** cleanupCutoff */
  function Cutoff(p: Period, o: Options, now: int, offset: int): int {
    match p
    case Daily => DayStart(offset, DayOf(offset, now) - DailyDays(o))
    case Monthly =>
      var months := if o.monthlyRetentionOverride > 0 then o.monthlyRetentionOverride else o.monthlyRetentionMonths;
      MonthWindow(offset, MonthOf(DayOf(offset, now)) - months).start
    case _ => DayStart(offset, DayOf(offset, now) - o.retentionDays)
  }

  /** cleanupPeriods */
  function CleanupPeriods(period: string): Result<seq<Period>> {
    if period == "" || period == "all" then Ok([Hourly, Daily, Monthly])
    else if period == "hourly" then Ok([Hourly])
    else if period == "daily" then Ok([Daily])
    else if period == "monthly" then Ok([Monthly])
    else Err
  }

  datatype CleanupResult = CleanupResult(period: Period, count: nat, dryRun: bool, cutoff: int, deleted: bool)

  predicate Old(k: Key, periods: seq<Period>, o: Options, now: int, offset: int) {
    k.period in periods && k.start < Cutoff(k.period, o, now, offset)
  }

  /** The rows that cleaning up leaves. */
  function Cleaned(t: Table, periods: seq<Period>, o: Options, now: int, offset: int): Table {
    map k | k in t && !Old(k, periods, o, now, offset) :: t[k]
  }

  predicate DistinctPeriods(periods: seq<Period>) {
    forall i, j :: 0 <= i < j < |periods| ==> periods[i] != periods[j]
  }

  /** The count that cleaning up reports for a period. */
  function ResultFor(t: Table, p: Period, o: Options, now: int, offset: int, dryRun: bool): CleanupResult {
    var cutoff := Cutoff(p, o, now, offset);
    CleanupResult(p, |Before(t, p, cutoff)|, dryRun, cutoff, !dryRun)
  }

  lemma SelectedAreDistinct(period: string)
    ensures CleanupPeriods(period).Ok? ==> DistinctPeriods(CleanupPeriods(period).value)
  {}

  /** CleanupRecords. A dry run counts the same rows and removes none. */
  method CleanupRecords(repo: Repository, o: Options, period: string, now: int, offset: int, dryRun: bool)
    returns (r: Result<seq<CleanupResult>>)
    modifies repo
    ensures r.Ok? <==> CleanupPeriods(period).Ok?
    ensures repo.Contents() == if r.Ok? && !dryRun then Cleaned(old(repo.Contents()), CleanupPeriods(period).value, o, now, offset)
                               else old(repo.Contents())
    ensures repo.baselines == old(repo.baselines)
    ensures r.Ok? ==> |r.value| == |CleanupPeriods(period).value|
    ensures r.Ok? ==> forall k :: 0 <= k < |r.value| ==>
              r.value[k] == ResultFor(old(repo.Contents()), CleanupPeriods(period).value[k], o, now, offset, dryRun)
  {
    hide CleanupPeriods, DistinctPeriods;
    SelectedAreDistinct(period);
    var selected := CleanupPeriods(period);
    if selected.Err? {
      return Err;
    }
    var periods := selected.value;
    ghost var before := repo.Contents();
    var results: seq<CleanupResult> := [];
    for i := 0 to |periods|
      invariant |results| == i && repo.baselines == old(repo.baselines)
      invariant repo.Contents() == if dryRun then before else Cleaned(before, periods[..i], o, now, offset)
      invariant forall k :: 0 <= k < i ==>
                  results[k] == ResultFor(before, periods[k], o, now, offset, dryRun)
    {
      hide Cutoff, Cleaned;
      var cutoff := Cutoff(periods[i], o, now, offset);
      CleanOneMore(before, periods, i, o, now, offset);
      var count := repo.CountBefore(periods[i], cutoff);
      if !dryRun {
        count := repo.DeleteBefore(periods[i], cutoff);
      }
      results := results + [CleanupResult(periods[i], count, dryRun, cutoff, !dryRun)];
    }
    assert periods[..|periods|] == periods;
    return Ok(results);
  }

  lemma CleanOneMore(t: Table, periods: seq<Period>, i: nat, o: Options, now: int, offset: int)
    requires DistinctPeriods(periods) && i < |periods|
    ensures var cutoff := Cutoff(periods[i], o, now, offset);
            var sofar := Cleaned(t, periods[..i], o, now, offset);
            && Before(sofar, periods[i], cutoff) == Before(t, periods[i], cutoff)
            && Cleaned(t, periods[..i + 1], o, now, offset) == sofar - Before(sofar, periods[i], cutoff)
  {
    hide Cutoff;
    assert periods[..i + 1] == periods[..i] + [periods[i]];
  }

  // ---------------------------------------------------------------- what is kept

  function PeriodName(p: Period): string {
    match p case Hourly => "hourly" case Daily => "daily" case Monthly => "monthly" case Current => "current"
  }

  /** The number of a month, 1 to 12, of a year, among all months. */
  function MonthNumber(d: Date): int {
    12 * d.year + d.month
  }

  /** Months are kept as a calendar counts them. */
  lemma MonthlyCutoffIsCivil(o: Options, now: int, offset: int, m: int)
    ensures var months := if o.monthlyRetentionOverride > 0 then o.monthlyRetentionOverride else o.monthlyRetentionMonths;
            var start := MonthWindow(offset, m).start;
            start < Cutoff(Monthly, o, now, offset)
            <==> MonthNumber(LocalDate(offset, start)) < MonthNumber(LocalDate(offset, now)) - months
  {
    var current := MonthOf(DayOf(offset, now));
    var months := if o.monthlyRetentionOverride > 0 then o.monthlyRetentionOverride else o.monthlyRetentionMonths;
    MonthStarts(offset, m);
    DatesAreCivil(DayOf(offset, now));
    hide MonthFirstDay, MonthOf, DateOf;
    if m < current - months {
      MonthsAscend(m, current - months);
    } else {
      MonthsAscend(current - months, m);
    }
  }

  /** Older than what is kept: hours and days by today's midnight less a number of days, at least the minimum for days;
      months by the calendar. */
  predicate Outlived(p: Period, start: int, o: Options, now: int, offset: int) {
    var age := (now + offset) / 86400 * 86400 - (start + offset);
    match p
    case Hourly => age > o.retentionDays * 86400
    case Daily => age > o.retentionDays * 86400 && age > o.dailyMinRetentionDays * 86400
    case Monthly =>
      MonthNumber(LocalDate(offset, now)) - MonthNumber(LocalDate(offset, start))
      > if o.monthlyRetentionOverride > 0 then o.monthlyRetentionOverride else o.monthlyRetentionMonths
    case Current => false
  }

  lemma SelectedIff(period: string, p: Period)
    requires CleanupPeriods(period).Ok?
    ensures p in CleanupPeriods(period).value <==> p != Current && (period == "" || period == "all" || period == PeriodName(p))
  {}

  lemma CutoffIsCivil(t: Table, o: Options, now: int, offset: int, k: Key)
    requires Windowed(offset, t) && k in t
    ensures k.start < Cutoff(k.period, o, now, offset) <==> Outlived(k.period, k.start, o, now, offset)
  {
    if k.period == Monthly {
      var m :| k.start == MonthWindow(offset, m).start && t[k].end == MonthWindow(offset, m).end;
      MonthlyCutoffIsCivil(o, now, offset, m);
      hide MonthWindow, LocalDate, MonthOf;
    } else {
      hide MonthWindow, LocalDate, MonthOf;
      DaysBackIff(DayOf(offset, now), o.retentionDays, k.start + offset);
      DaysBackIff(DayOf(offset, now), o.dailyMinRetentionDays, k.start + offset);
    }
  }

  /** Of the selected periods cleaning up removes exactly the rows that are older than what is kept. */
  lemma KeptIff(t: Table, o: Options, period: string, now: int, offset: int, k: Key)
    requires CleanupPeriods(period).Ok? && Windowed(offset, t) && k in t
    ensures var kept := Cleaned(t, CleanupPeriods(period).value, o, now, offset);
            && (k in kept ==> kept[k] == t[k])
            && (k !in kept <==> (period == "" || period == "all" || period == PeriodName(k.period))
                                && Outlived(k.period, k.start, o, now, offset))
  {
    SelectedIff(period, k.period);
    CutoffIsCivil(t, o, now, offset, k);
    assert k.period != Current;
    hide Windowed, CleanupPeriods, Cutoff, Outlived, PeriodName;
  }

  lemma DaysBackIff(today: int, days: int, local: int)
    ensures local < (today - days) * DAY <==> today * 86400 - local > days * 86400
  {}

  // ---------------------------------------------------------------- retention and collecting

  const ALL := [Hourly, Daily, Monthly]

  lemma CleanedAt(t: Table, periods: seq<Period>, o: Options, now: int, offset: int, k: Key)
    ensures At(Cleaned(t, periods, o, now, offset), k) == if Old(k, periods, o, now, offset) then None else At(t, k)
  {}

  /** Cleaning up leaves an aggregate alone if its window starts at the cutoff or later. */
  lemma KeptWindow(t: Table, periods: seq<Period>, o: Options, now: int, offset: int, p: Period, s: Series, w: TimeRange)
    requires Cutoff(p, o, now, offset) <= w.start
    ensures Aggregate(Cleaned(t, periods, o, now, offset), p, s, w) == Aggregate(t, p, s, w)
  {
    hide Aggregate, Cutoff;
    forall x | w.start <= x < w.end
      ensures At(Cleaned(t, periods, o, now, offset), Key(p, x, s)) == At(t, Key(p, x, s))
    {
      CleanedAt(t, periods, o, now, offset, Key(p, x, s));
    }
    SameAggregate(Cleaned(t, periods, o, now, offset), t, p, s, w);
  }

  /** Cleaning up touches no day from both cutoffs on. */
  lemma CleaningLeavesKeptDays(t: Table, periods: seq<Period>, o: Options, now: int, offset: int, s: Series, day: int)
    requires day >= DayOf(offset, now) - o.retentionDays && day >= DayOf(offset, now) - DailyDays(o)
    ensures SameDay(t, Cleaned(t, periods, o, now, offset), offset, s, day)
  {
    forall k: Key | k.series == s && (k.period == Hourly || k.period == Daily) && DayWindow(offset, day).Has(k.start)
      ensures At(Cleaned(t, periods, o, now, offset), k) == At(t, k)
    {
      CleanedAt(t, periods, o, now, offset, k);
    }
  }

  /** Cleaning up keeps the windows, so it is a move of a run like any other. */
  lemma CleaningKeepsWindows(t: Table, periods: seq<Period>, o: Options, now: int, offset: int)
    requires Windowed(offset, t)
    ensures Windowed(offset, Cleaned(t, periods, o, now, offset))
    ensures Moves(t, Cleaned(t, periods, o, now, offset), offset, OtherMove)
  {
    hide Old;
    var cleaned := Cleaned(t, periods, o, now, offset);
    forall k | k in cleaned
      ensures k in t && cleaned[k] == t[k]
    {}
  }

  /** A cleanup at `now` does not change what aggregating `w` gives. */
  ghost predicate Unaffected(t: Table, o: Options, now: int, offset: int, p: Period, s: Series, w: TimeRange) {
    Aggregate(Cleaned(t, ALL, o, now, offset), p, s, w) == Aggregate(t, p, s, w)
  }

  function Yesterday(offset: int, at: int): TimeRange {
    DayWindow(offset, DayOf(offset, at) - 1)
  }

  function PreviousMonth(offset: int, at: int): TimeRange {
    MonthWindow(offset, MonthOf(DayOf(offset, at)) - 1)
  }

  /** For every table that the program can hold, a collection of yesterday at the time of a cleanup or later sees the
      same hours as without it. */
  ghost predicate YesterdaySurvives(o: Options, offset: int) {
    forall t: Table, s, now, later :: Windowed(offset, t) && now <= later ==>
      Unaffected(t, o, now, offset, Hourly, s, Yesterday(offset, later))
  }

  /** For every table that the program can hold, a collection of the previous month at the time of a cleanup or later
      sees the same days as without it. */
  ghost predicate PreviousMonthSurvives(o: Options, offset: int) {
    forall t: Table, s, now, later :: Windowed(offset, t) && now <= later ==>
      Unaffected(t, o, now, offset, Daily, s, PreviousMonth(offset, later))
  }

  lemma OneRow(p: Period, start: int, end: int, s: Series, w: TimeRange)
    requires w.start <= start < w.end
    ensures Aggregate(map[Key(p, start, s) := Data("", end, 1, false)], p, s, w).Some?
    ensures Aggregate(map[], p, s, w).None?
  {
    FirstStartIsFirst(map[Key(p, start, s) := Data("", end, 1, false)], p, s, w.start, w.end, start);
    EmptyWindow(map[], p, s, w.start, w.end);
  }

  /** The first hour or day of a day. */
  function FirstRow(p: Period, offset: int, day: int, s: Series): Table {
    var start := DayStart(offset, day);
    map[Key(p, start, s) := Data("", if p == Hourly then start + HOUR else start + DAY, 1, false)]
  }

  lemma FirstRowIsWindowed(p: Period, offset: int, day: int, s: Series)
    requires p in [Hourly, Daily]
    ensures Windowed(offset, FirstRow(p, offset, day, s))
  {
    var start := DayStart(offset, day);
    assert AtHour(offset, start) && AtDay(offset, start);
    hide AtHour, AtDay, DayStart;
  }

  lemma FirstRowIsOld(o: Options, offset: int, p: Period, now: int, day: int, s: Series)
    requires DayStart(offset, day) < Cutoff(p, o, now, offset) && p in [Hourly, Daily]
    ensures Cleaned(FirstRow(p, offset, day, s), ALL, o, now, offset) == map[]
  {
    hide Cutoff, DayStart;
    var t := FirstRow(p, offset, day, s);
    forall k | k in t
      ensures Old(k, ALL, o, now, offset)
    {
      assert k == Key(p, DayStart(offset, day), s) && p in ALL;
    }
  }

  /** A row before the cutoff, such as a collection writes it, makes a difference. */
  lemma LostRow(o: Options, offset: int, p: Period, now: int, day: int, s: Series, w: TimeRange)
    requires w.start <= DayStart(offset, day) < w.end && DayStart(offset, day) < Cutoff(p, o, now, offset) && p in [Hourly, Daily]
    ensures var t := FirstRow(p, offset, day, s); Windowed(offset, t) && !Unaffected(t, o, now, offset, p, s, w)
  {
    hide Cutoff, Aggregate, DayStart, Windowed, Cleaned;
    var start := DayStart(offset, day);
    FirstRowIsWindowed(p, offset, day, s);
    FirstRowIsOld(o, offset, p, now, day, s);
    OneRow(p, start, if p == Hourly then start + HOUR else start + DAY, s, w);
  }

  /** Collecting yesterday is never starved exactly when hours are kept for a day. */
  lemma YesterdaySurvivesIff(o: Options, offset: int)
    ensures YesterdaySurvives(o, offset) <==> o.retentionDays >= 1
  {
    hide Aggregate;
    if o.retentionDays >= 1 {
      forall t: Table, s, now, later | Windowed(offset, t) && now <= later
        ensures Unaffected(t, o, now, offset, Hourly, s, Yesterday(offset, later))
      {
        KeptWindow(t, ALL, o, now, offset, Hourly, s, Yesterday(offset, later));
      }
    } else {
      var now, s := DayStart(offset, 0), Series("", "", "", "");
      assert DayOf(offset, now) == 0;
      hide Unaffected, Windowed, FirstRow;
      LostRow(o, offset, Hourly, now, -1, s, Yesterday(offset, now));
    }
  }

  /** Collecting the previous month is never starved exactly when days are kept for 61 days; the default is 62. */
  lemma PreviousMonthSurvivesIff(o: Options, offset: int)
    ensures PreviousMonthSurvives(o, offset) <==> DailyDays(o) >= 61
  {
    hide Aggregate, MonthOf, MonthFirstDay;
    if DailyDays(o) >= 61 {
      forall t: Table, s, now, later | Windowed(offset, t) && now <= later
        ensures Unaffected(t, o, now, offset, Daily, s, PreviousMonth(offset, later))
      {
        PreviousMonthIsNear(DayOf(offset, later));
        KeptWindow(t, ALL, o, now, offset, Daily, s, PreviousMonth(offset, later));
      }
    } else {
      PreviousMonthCanBeFar();
      var day :| PreviousMonthFirstDay(day) == day - 61;
      var now, s := DayStart(offset, day), Series("", "", "", "");
      assert DayOf(offset, now) == day;
      MonthLength(MonthOf(day) - 1);
      hide Unaffected, Windowed, FirstRow;
      LostRow(o, offset, Daily, now, day - 61, s, PreviousMonth(offset, now));
    }
  }

  /** Collecting a day again after a cleanup: it drops the daily rows whose hours are gone, so the rows of that day
      stay as they were exactly when the day is not before the hourly cutoff, or had no hours to begin with. */
  lemma CollectingAfterCleanupIff(t: Table, once: Table, again: Table, o: Options, now: int, offset: int, day: int, instances: seq<string>)
    requires Windowed(offset, t)
    requires RolledUp(t, once, Hourly, Daily, instances, DayWindow(offset, day))
    requires RolledUp(Cleaned(once, [Hourly], o, now, offset), again, Hourly, Daily, instances, DayWindow(offset, day))
    ensures (forall k: Key :: k.period == Daily ==> At(again, k) == At(once, k))
            <==> || day >= DayOf(offset, now) - o.retentionDays
                 || forall k: Key :: k in t && k.period == Hourly && DayWindow(offset, day).Has(k.start) ==> !Chosen(instances, k.series.instance)
  {
    var w := DayWindow(offset, day);
    var cleaned := Cleaned(once, [Hourly], o, now, offset);
    hide Aggregate, Chosen, Windowed;
    forall k: Key | k.period == Daily
      ensures At(again, k) == if InWindow(k, Daily, instances, w.start) then Aggregate(cleaned, Hourly, k.series, w) else At(once, k)
      ensures InWindow(k, Daily, instances, w.start) ==> At(once, k) == Aggregate(t, Hourly, k.series, w)
    {
      CleanedAt(once, [Hourly], o, now, offset, k);
    }
    forall s: Series
      ensures Aggregate(once, Hourly, s, w) == Aggregate(t, Hourly, s, w)
    {
      assert forall x :: At(once, Key(Hourly, x, s)) == At(t, Key(Hourly, x, s));
      SameAggregate(once, t, Hourly, s, w);
    }
    if day >= DayOf(offset, now) - o.retentionDays {
      forall s: Series
        ensures Aggregate(cleaned, Hourly, s, w) == Aggregate(t, Hourly, s, w)
      {
        KeptWindow(once, [Hourly], o, now, offset, Hourly, s, w);
      }
    } else {
      forall s: Series
        ensures Aggregate(cleaned, Hourly, s, w) == None
      {
        LostDay(once, o, now, offset, day, s);
      }
      forall s: Series
        ensures Aggregate(t, Hourly, s, w).Some? <==> exists x :: w.Has(x) && Key(Hourly, x, s) in t
      {
        AggregateExistsIff(t, Hourly, s, w);
      }
      DroppedIff(t, once, again, day, offset, instances);
    }
  }

  lemma LostDay(t: Table, o: Options, now: int, offset: int, day: int, s: Series)
    requires day < DayOf(offset, now) - o.retentionDays
    ensures Aggregate(Cleaned(t, [Hourly], o, now, offset), Hourly, s, DayWindow(offset, day)) == None
  {
    var w := DayWindow(offset, day);
    assert w.end <= Cutoff(Hourly, o, now, offset);
    EmptyWindow(Cleaned(t, [Hourly], o, now, offset), Hourly, s, w.start, w.end);
  }

  lemma AggregateExistsIff(t: Table, p: Period, s: Series, w: TimeRange)
    ensures Aggregate(t, p, s, w).Some? <==> exists x :: w.Has(x) && Key(p, x, s) in t
  {
    if x :| w.Has(x) && Key(p, x, s) in t {
      FirstStartIsFirst(t, p, s, w.start, w.end, x);
    }
  }

  lemma DroppedIff(t: Table, once: Table, again: Table, day: int, offset: int, instances: seq<string>)
    requires forall k: Key :: k.period == Daily ==>
               At(again, k) == if InWindow(k, Daily, instances, DayStart(offset, day)) then None else At(once, k)
    requires forall k: Key :: InWindow(k, Daily, instances, DayStart(offset, day)) ==>
               (At(once, k).Some? <==> exists x :: DayWindow(offset, day).Has(x) && Key(Hourly, x, k.series) in t)
    ensures (forall k: Key :: k.period == Daily ==> At(again, k) == At(once, k))
            <==> forall k: Key :: k in t && k.period == Hourly && DayWindow(offset, day).Has(k.start) ==> !Chosen(instances, k.series.instance)
  {
    hide Chosen;
    if k: Key :| k in t && k.period == Hourly && DayWindow(offset, day).Has(k.start) && Chosen(instances, k.series.instance) {
      var row := Key(Daily, DayStart(offset, day), k.series);
      assert InWindow(row, Daily, instances, DayStart(offset, day)) && Key(Hourly, k.start, row.series) == k;
      assert At(again, row) == None && At(once, row).Some?;
    }
  }

  /** The rows of a series whose one hour was collected. */
  function OneHour(s: Series): Table {
    map[Key(Hourly, 0, s) := Data("", HOUR, 1, false)]
  }

  /** A day loses its row if it is collected again after its hours were cleaned up. */
  lemma CollectingTooLateLosesTheDay(s: Series)
    ensures var o, now, w := Options(1, 1, 1, 0), DayStart(0, 10), DayWindow(0, 0);
            exists once: Table, again: Table ::
              && RolledUp(OneHour(s), once, Hourly, Daily, [], w)
              && RolledUp(Cleaned(once, [Hourly], o, now, 0), again, Hourly, Daily, [], w)
              && Key(Daily, 0, s) in once && Key(Daily, 0, s) !in again
  {
    var o, now, w := Options(1, 1, 1, 0), DayStart(0, 10), DayWindow(0, 0);
    var t, hour, day := OneHour(s), Key(Hourly, 0, s), Key(Daily, 0, s);
    AggregateExistsIff(t, Hourly, s, w);
    assert w.Has(0) && hour in t;
    var once: Table := t[day := Aggregate(t, Hourly, s, w).value];
    var cleaned := Cleaned(once, [Hourly], o, now, 0);
    var again: Table := map[];
    hide Aggregate;
    forall other: Series | other != s
      ensures Aggregate(t, Hourly, other, w) == None
    {
      AggregateExistsIff(t, Hourly, other, w);
    }
    assert RolledUp(t, once, Hourly, Daily, [], w);
    assert DayOf(0, now) == 10;
    forall x: Series
      ensures Aggregate(cleaned, Hourly, x, w) == None
    {
      LostDay(once, o, now, 0, 0, x);
    }
    assert RolledUp(cleaned, again, Hourly, Daily, [], w);
  }
}

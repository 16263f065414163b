/** Collecting traffic: polled counters into hours, hours into days, days into months (internal/traffic/collector.go). */
module TrafficCollector {
  import opened Wrappers
  import opened Sorting
  import opened TrafficCalendar
  import opened TrafficTables
  import opened TrafficRepository

  // ---------------------------------------------------------------- aggregation of a list

  /** What a list of records gives for a series: the server of its first record there, and the bytes of all. */
  function GroupOf(rs: seq<Record>, s: Series, end: int): Option<Data> {
    if rs == [] then None
    else
      var r := rs[|rs| - 1];
      var earlier := GroupOf(rs[..|rs| - 1], s, end);
      if r.key.series != s then earlier
      else
        var d := if earlier.Some? then earlier.value else Data(r.row.data.server, end, 0, false);
        Some(d.(bytes := AddU64(d.bytes, r.row.data.bytes), reset := d.reset || r.row.data.reset))
  }

  /** AggregateRecords: one record for each series of the list, in stable order. */
  method AggregateRecords(rs: seq<Record>, p: Period, w: TimeRange, now: int) returns (result: seq<Record>)
    ensures Sorted(result, RecordLess) && DistinctKeys(result)
    ensures forall r :: r in result <==> && GroupOf(rs, r.key.series, w.end) == Some(r.row.data)
                                         && r == Record(Key(p, w.start, r.key.series), Row(r.row.data, now, 0))
  {
    var grouped: map<Series, Data> := map[];
    for k := 0 to |rs|
      invariant forall s :: (if s in grouped then Some(grouped[s]) else None) == GroupOf(rs[..k], s, w.end)
    {
      var r := rs[k];
      assert rs[..k + 1][..k] == rs[..k];
      var s := r.key.series;
      var d := if s in grouped then grouped[s] else Data(r.row.data.server, w.end, 0, false);
      grouped := grouped[s := d.(bytes := AddU64(d.bytes, r.row.data.bytes), reset := d.reset || r.row.data.reset)];
    }
    assert rs[..|rs|] == rs;
    result := ListGroups(grouped, p, w.start, now);
  }

  function GroupRecord(s: Series, d: Data, p: Period, start: int, now: int): Record {
    Record(Key(p, start, s), Row(d, now, 0))
  }

  /** The groups of a Go map come in any order; sorting them gives the same list. */
  method ListGroups(grouped: map<Series, Data>, p: Period, start: int, now: int) returns (rs: seq<Record>)
    ensures Sorted(rs, RecordLess) && DistinctKeys(rs)
    ensures forall r :: r in rs <==> r.key.series in grouped && r == GroupRecord(r.key.series, grouped[r.key.series], p, start, now)
  {
    rs := [];
    var remaining := grouped.Keys;
    while remaining != {}
      invariant remaining <= grouped.Keys && DistinctKeys(rs)
      invariant forall r :: r in rs <==> && r.key.series in grouped && r.key.series !in remaining
                                         && r == GroupRecord(r.key.series, grouped[r.key.series], p, start, now)
    {
      var s :| s in remaining;
      remaining := remaining - {s};
      rs := rs + [GroupRecord(s, grouped[s], p, start, now)];
    }
    SortRecords(rs);
    rs := SortStable(rs, RecordLess);
  }

  // ---------------------------------------------------------------- aggregation of a table

  /** `rs` lists the rows of a period in a window, for the chosen instances. */
  ghost predicate Lists(rs: seq<Record>, t: Table, p: Period, instances: seq<string>, w: TimeRange) {
    && Sorted(rs, RecordLess)
    && (forall r :: r in rs ==> r.key in t && r.row.data == t[r.key] && InRange(r.key, p, instances, w))
    && forall k :: k in t && InRange(k, p, instances, w) ==> exists r :: r in rs && r.key == k
  }

  predicate InRange(k: Key, p: Period, instances: seq<string>, w: TimeRange) {
    k.period == p && w.Has(k.start) && Chosen(instances, k.series.instance)
  }

  lemma {:induction false} FirstStartOfLast(t: Table, k: Key, a: int, b: int)
    requires k in t && a <= k.start < b && forall x :: k.start < x < b ==> Key(k.period, x, k.series) !in t
    ensures var first := FirstStart(t - {k}, k.period, k.series, a, b);
            FirstStart(t, k.period, k.series, a, b) == if first.Some? then first else Some(k.start)
    decreases b - a
  {
    if k.start < b - 1 {
      FirstStartOfLast(t, k, a, b - 1);
    } else {
      SameWindow(t, t - {k}, k.period, k.series, a, b - 1);
    }
  }

  /** How the last row of a series counts in its aggregate. */
  lemma AggregateOfLast(t: Table, k: Key, w: TimeRange)
    requires k in t && w.Has(k.start) && forall x :: k.start < x < w.end ==> Key(k.period, x, k.series) !in t
    ensures var before := Aggregate(t - {k}, k.period, k.series, w);
            var d := if before.Some? then before.value else Data(t[k].server, w.end, 0, false);
            Aggregate(t, k.period, k.series, w) == Some(d.(bytes := AddU64(d.bytes, t[k].bytes), reset := d.reset || t[k].reset))
  {
    var rest := t - {k};
    FirstStartOfLast(t, k, w.start, w.end);
    WindowSumWithout(t, k, k.period, k.series, w.start, w.end);
    ResetOfLast(t, k, w);
    if FirstStart(rest, k.period, k.series, w.start, w.end).None? {
      forall x | w.start <= x < w.end
        ensures Key(k.period, x, k.series) !in rest
      {
        if Key(k.period, x, k.series) in rest {
          FirstStartIsFirst(rest, k.period, k.series, w.start, w.end, x);
        }
      }
      EmptyWindow(rest, k.period, k.series, w.start, w.end);
    }
  }

  lemma ResetOfLast(t: Table, k: Key, w: TimeRange)
    requires k in t && w.Has(k.start)
    ensures WindowReset(t, k.period, k.series, w.start, w.end)
            <==> WindowReset(t - {k}, k.period, k.series, w.start, w.end) || t[k].reset
  {
    var rest := t - {k};
    if x :| w.start <= x < w.end && Key(k.period, x, k.series) in t && t[Key(k.period, x, k.series)].reset {
      assert Key(k.period, x, k.series) == k || Key(k.period, x, k.series) in rest;
    }
    if x :| w.start <= x < w.end && Key(k.period, x, k.series) in rest && rest[Key(k.period, x, k.series)].reset {
      assert Key(k.period, x, k.series) in t;
    }
  }

  lemma ListWithoutLast(rs: seq<Record>, t: Table, p: Period, instances: seq<string>, w: TimeRange)
    requires Lists(rs, t, p, instances, w) && rs != []
    ensures var last := rs[|rs| - 1];
            && Lists(rs[..|rs| - 1], t - {last.key}, p, instances, w)
            && last.key in t && last.row.data == t[last.key] && InRange(last.key, p, instances, w)
            && forall x :: last.key.start < x < w.end ==> Key(p, x, last.key.series) !in t
  {
    hide InRange;
    var n := |rs| - 1;
    var last := rs[n];
    assert last in rs && rs == rs[..n] + [last];
    RecordIrreflexive(last);
    forall r | r in rs[..n]
      ensures r.key != last.key
    {
      assert RecordLess(r, last);
    }
    forall k | k in t - {last.key} && InRange(k, p, instances, w)
      ensures exists r :: r in rs[..n] && r.key == k
    {
      var r :| r in rs && r.key == k;
    }
    LastIsLatest(rs);
    assert forall x :: last.key.start < x < w.end ==> InRange(Key(p, x, last.key.series), p, instances, w) by {
      LaterIsInRange(last.key, p, instances, w);
    }
  }

  lemma LaterIsInRange(k: Key, p: Period, instances: seq<string>, w: TimeRange)
    requires InRange(k, p, instances, w)
    ensures forall x :: k.start < x < w.end ==> InRange(Key(p, x, k.series), p, instances, w)
  {}

  lemma RecordIrreflexive(r: Record)
    ensures !RecordLess(r, r)
  {}

  lemma LastIsLatest(rs: seq<Record>)
    requires Sorted(rs, RecordLess) && rs != []
    ensures forall r :: r in rs ==> r.key.start <= rs[|rs| - 1].key.start
  {
    forall i | 0 <= i < |rs|
      ensures rs[i].key.start <= rs[|rs| - 1].key.start
    {}
  }

  /** The aggregate of a listing is the aggregate of the table. */
  lemma {:induction false} ListedAggregate(rs: seq<Record>, t: Table, p: Period, instances: seq<string>, w: TimeRange, s: Series)
    requires Lists(rs, t, p, instances, w) && Chosen(instances, s.instance)
    ensures GroupOf(rs, s, w.end) == Aggregate(t, p, s, w)
    decreases |rs|
  {
    hide Lists, Aggregate, Chosen;
    if rs == [] {
      NothingListed(t, p, instances, w, s);
    } else {
      var last := rs[|rs| - 1];
      var rest := t - {last.key};
      ListWithoutLast(rs, t, p, instances, w);
      ListedAggregate(rs[..|rs| - 1], rest, p, instances, w, s);
      if last.key.series == s {
        AggregateOfLast(t, last.key, w);
      } else {
        assert forall x :: At(t, Key(p, x, s)) == At(rest, Key(p, x, s));
        SameAggregate(t, rest, p, s, w);
      }
    }
  }

  lemma NothingListed(t: Table, p: Period, instances: seq<string>, w: TimeRange, s: Series)
    requires Lists([], t, p, instances, w) && Chosen(instances, s.instance)
    ensures Aggregate(t, p, s, w) == None
  {
    assert forall x :: w.start <= x < w.end ==> InRange(Key(p, x, s), p, instances, w);
    EmptyWindow(t, p, s, w.start, w.end);
  }

  // ---------------------------------------------------------------- rolling up

  lemma {:induction false} PutAt(t: Table, rs: seq<Record>, k: Key)
    requires DistinctKeys(rs)
    ensures forall r :: r in rs && r.key == k ==> At(Put(t, rs), k) == Some(r.row.data)
    ensures (forall r :: r in rs ==> r.key != k) ==> At(Put(t, rs), k) == At(t, k)
  {
    if rs == [] {
    } else {
      var n := |rs| - 1;
      assert rs == rs[..n] + [rs[n]];
      PutAt(t, rs[..n], k);
    }
  }

  /** `rs` are the aggregates over the window of all series that have any. */
  ghost predicate AggregatesOf(rs: seq<Record>, t: Table, from: Period, p: Period, instances: seq<string>, w: TimeRange) {
    && DistinctKeys(rs)
    && (forall r :: r in rs ==> InWindow(r.key, p, instances, w.start) && Aggregate(t, from, r.key.series, w) == Some(r.row.data))
    && forall s: Series :: Chosen(instances, s.instance) && Aggregate(t, from, s, w).Some? ==> exists r :: r in rs && r.key == Key(p, w.start, s)
  }

  /** Replacing a window by its aggregates cannot break the unique index, and rolls the window up. */
  lemma ReplacingRollsUp(rs: seq<Record>, t: Table, from: Period, p: Period, instances: seq<string>, w: TimeRange)
    requires AggregatesOf(rs, t, from, p, instances, w)
    ensures Creatable(Without(t, p, instances, w.start), rs)
    ensures RolledUp(t, Put(Without(t, p, instances, w.start), rs), from, p, instances, w)
  {
    hide Aggregate, Chosen, Put;
    var kept := Without(t, p, instances, w.start);
    forall k
      ensures At(Put(kept, rs), k) == if InWindow(k, p, instances, w.start) then Aggregate(t, from, k.series, w) else At(t, k)
    {
      PutAt(kept, rs, k);
      if r :| r in rs && r.key == k {
        assert At(Put(kept, rs), k) == Some(r.row.data);
      } else if InWindow(k, p, instances, w.start) {
        assert k == Key(p, w.start, k.series);
      }
    }
  }

  lemma ListingAggregates(listed: seq<Record>, result: seq<Record>, t: Table, from: Period, p: Period, instances: seq<string>,
                          w: TimeRange, now: int)
    requires Lists(listed, t, from, instances, w) && DistinctKeys(result)
    requires forall r :: r in result <==> && GroupOf(listed, r.key.series, w.end) == Some(r.row.data)
                                          && r == Record(Key(p, w.start, r.key.series), Row(r.row.data, now, 0))
    ensures AggregatesOf(result, t, from, p, instances, w)
  {
    hide Lists, Aggregate, Chosen, GroupOf;
    forall r | r in result
      ensures InWindow(r.key, p, instances, w.start) && Aggregate(t, from, r.key.series, w) == Some(r.row.data)
    {
      OnlyChosenAreListed(listed, t, from, instances, w, r.key.series);
      ListedAggregate(listed, t, from, instances, w, r.key.series);
    }
    forall s: Series | Chosen(instances, s.instance) && Aggregate(t, from, s, w).Some?
      ensures exists r :: r in result && r.key == Key(p, w.start, s)
    {
      ListedAggregate(listed, t, from, instances, w, s);
      var r := Record(Key(p, w.start, s), Row(Aggregate(t, from, s, w).value, now, 0));
      assert r in result;
    }
  }

  lemma {:induction false} GroupIsListed(rs: seq<Record>, s: Series, end: int)
    requires GroupOf(rs, s, end).Some?
    ensures exists r :: r in rs && r.key.series == s
  {
    var n := |rs| - 1;
    if rs[n].key.series == s {
      assert rs[n] in rs;
    } else {
      GroupIsListed(rs[..n], s, end);
    }
  }

  lemma OnlyChosenAreListed(listed: seq<Record>, t: Table, p: Period, instances: seq<string>, w: TimeRange, s: Series)
    requires Lists(listed, t, p, instances, w) && GroupOf(listed, s, w.end).Some?
    ensures Chosen(instances, s.instance)
  {
    GroupIsListed(listed, s, w.end);
  }

  lemma QueryLists(rs: seq<Record>, records: map<Key, Row>, offset: int, p: Period, instances: seq<string>, first: int, last: int)
    requires Windowed(offset, DataOf(records)) && (p == Hourly || p == Daily) && Sorted(rs, RecordLess)
    requires var w := TimeRange(DayStart(offset, first), DayStart(offset, last));
             forall r :: r in rs <==> Selected(records, p, Filter(instances, "", "", 0), Between(w), r)
    ensures Lists(rs, DataOf(records), p, instances, TimeRange(DayStart(offset, first), DayStart(offset, last)))
  {
    var t := DataOf(records);
    var w := TimeRange(DayStart(offset, first), DayStart(offset, last));
    forall k | k in t && k.period == p
      ensures Overlaps(TimeRange(k.start, t[k].end), w) <==> w.Has(k.start)
    {
      WindowTiles(t, offset, k, first, last);
    }
    hide Windowed, Chosen, Overlaps, DayStart;
    forall k | k in t && InRange(k, p, instances, w)
      ensures exists r :: r in rs && r.key == k
    {
      assert Record(k, records[k]) in rs;
    }
  }

  lemma WindowTiles(t: Table, offset: int, k: Key, first: int, last: int)
    requires Windowed(offset, t) && k in t && (k.period == Hourly || k.period == Daily)
    ensures var w := TimeRange(DayStart(offset, first), DayStart(offset, last));
            Overlaps(TimeRange(k.start, t[k].end), w) <==> w.Has(k.start)
  {
    if k.period == Hourly {
      HoursTile(offset, k.start, first, last);
    } else {
      DaysTile(offset, k.start, first, last);
    }
  }

  // ---------------------------------------------------------------- the collector

  /** FilterCounters keeps a counter. */
  predicate Kept(c: Counter, target: Target, f: Filter) {
    && c.scope in ["user", "inbound", "outbound"]
    && (target.scopes == [] || c.scope in target.scopes)
    && (f.scope == "" || c.scope == f.scope) && (f.name == "" || c.name == f.name)
  }

  function FilterCounters(counters: seq<Counter>, target: Target, f: Filter): (r: seq<Counter>)
    ensures forall c :: c in r <==> c in counters && Kept(c, target, f)
  {
    if counters == [] then []
    else
      assert counters == counters[..|counters| - 1] + [counters[|counters| - 1]];
      var last := counters[|counters| - 1];
      FilterCounters(counters[..|counters| - 1], target, f) + if Kept(last, target, f) then [last] else []
  }

  /** Filtering works part by part: what is kept stays in order, and as often as it was there. */
  lemma {:induction false} FilteredInParts(a: seq<Counter>, b: seq<Counter>, target: Target, f: Filter)
    ensures FilterCounters(a + b, target, f) == FilterCounters(a, target, f) + FilterCounters(b, target, f)
  {
    hide Kept;
    if b == [] {
      assert a + b == a;
    } else {
      var n := |b| - 1;
      FilteredInParts(a, b[..n], target, f);
      assert (a + b)[..|a + b| - 1] == a + b[..n] && (a + b)[|a + b| - 1] == b[n];
    }
  }

  method FilterInPlace(counters: seq<Counter>, target: Target, f: Filter) returns (result: seq<Counter>)
    ensures result == FilterCounters(counters, target, f)
    ensures forall c :: c in result <==>
              && c in counters && c.scope in {"user", "inbound", "outbound"} && (target.scopes == [] || c.scope in target.scopes)
              && (f.scope == "" || c.scope == f.scope) && (f.name == "" || c.name == f.name)
  {
    result := [];
    for k := 0 to |counters|
      invariant result == FilterCounters(counters[..k], target, f)
    {
      assert counters[..k + 1][..k] == counters[..k];
      if Kept(counters[k], target, f) {
        result := result + [counters[k]];
      }
    }
    assert counters[..|counters|] == counters;
  }

  type Stats = Target -> Result<seq<Counter>>

  const NOFILTER := Filter([], "", "", 0)

  /** All readings of the targets; None when a target cannot be polled. */
  function Poll(stats: Stats, targets: seq<Target>, f: Filter): Option<seq<Reading>> {
    if targets == [] then Some([])
    else
      var n := |targets| - 1;
      match (Poll(stats, targets[..n], f), stats(targets[n]))
      case (Some(rs), Ok(counters)) => Some(rs + Readings(targets[n], FilterCounters(counters, targets[n], f)))
      case _ => None
  }

  /** Polling fails exactly when some target cannot be polled. */
  lemma {:induction false} PollFailsIff(stats: Stats, targets: seq<Target>, f: Filter)
    ensures Poll(stats, targets, f).None? <==> exists t :: t in targets && stats(t).Err?
  {
    if targets == [] {
    } else {
      var n := |targets| - 1;
      PollFailsIff(stats, targets[..n], f);
      assert targets == targets[..n] + [targets[n]];
    }
  }

  /** Otherwise the targets are read one after the other. */
  lemma {:induction false} PolledInParts(stats: Stats, a: seq<Target>, b: seq<Target>, f: Filter)
    requires Poll(stats, a + b, f).Some?
    ensures Poll(stats, a, f).Some? && Poll(stats, b, f).Some?
    ensures Poll(stats, a + b, f).value == Poll(stats, a, f).value + Poll(stats, b, f).value
  {
    hide FilterCounters, Readings;
    if b == [] {
      assert a + b == a;
    } else {
      var n := |b| - 1;
      assert (a + b)[..|a + b| - 1] == a + b[..n] && (a + b)[|a + b| - 1] == b[n];
      PolledInParts(stats, a, b[..n], f);
    }
  }

  /** The records that CurrentDeltas makes, in the order of the readings. */
  function CurrentRecords(baselines: Baselines, readings: seq<Reading>, w: TimeRange, now: int): seq<Record> {
    if readings == [] then []
    else
      var n := |readings| - 1;
      CurrentRecords(baselines, readings[..n], w, now) + RecordsOf(baselines, readings[n], Current, w, now)
  }

  lemma {:induction false} AddInTwoParts(b: Books, xs: seq<Reading>, ys: seq<Reading>, w: TimeRange, now: int)
    ensures AddReadings(b, xs + ys, w) == AddReadings(AddReadings(b, xs, w), ys, w)
    ensures AddedRecords(b, xs + ys, w, now) == AddedRecords(b, xs, w, now) + AddedRecords(AddReadings(b, xs, w), ys, w, now)
  {
    if ys == [] {
      assert xs + ys == xs;
    } else {
      var n := |ys| - 1;
      assert (xs + ys)[..|xs + ys| - 1] == xs + ys[..n];
      AddInTwoParts(b, xs, ys[..n], w, now);
    }
  }

  lemma {:induction false} PollsFailTogether(stats: Stats, targets: seq<Target>, f: Filter, k: nat)
    requires k <= |targets| && Poll(stats, targets[..k], f).None?
    ensures Poll(stats, targets, f).None?
    decreases |targets| - k
  {
    if k == |targets| {
      assert targets[..k] == targets;
    } else {
      assert targets[..k + 1][..k] == targets[..k];
      PollsFailTogether(stats, targets, f, k + 1);
    }
  }

  class Collector {
    const repo: Repository
    const stats: Stats
    const offset: int

    constructor (repo: Repository, stats: Stats, offset: int)
      ensures this.repo == repo && this.stats == stats && this.offset == offset
    {
      this.repo, this.stats, this.offset := repo, stats, offset;
    }

    /** CollectHourly: if a target cannot be polled, the targets before it stay booked. */
    method CollectHourly(targets: seq<Target>, at: int) returns (ok: bool, added: seq<Record>)
      modifies repo
      ensures ok <==> Poll(stats, targets, NOFILTER).Some?
      ensures exists k: nat :: k <= |targets| && (if k == |targets| then ok else !ok && stats(targets[k]).Err?)
                && Poll(stats, targets[..k], NOFILTER).Some?
                && var readings := Poll(stats, targets[..k], NOFILTER).value;
                   && repo.Value() == AddReadings(old(repo.Value()), readings, HourRange(offset, at))
                   && multiset(added) == multiset(AddedRecords(old(repo.Value()), readings, HourRange(offset, at), at))
    {
      ghost var before := repo.Value();
      var w := HourRange(offset, at);
      added := [];
      ghost var readings: seq<Reading> := [];
      for k := 0 to |targets|
        invariant Poll(stats, targets[..k], NOFILTER) == Some(readings)
        invariant repo.Value() == AddReadings(before, readings, w)
        invariant multiset(added) == multiset(AddedRecords(before, readings, w, at))
      {
        hide AddReadings, AddedRecords, FilterCounters, HourRange, Readings, SortStable;
        assert targets[..k + 1][..k] == targets[..k];
        var polled := stats(targets[k]);
        if polled.Err? {
          PollsFailTogether(stats, targets, NOFILTER, k + 1);
          return false, added;
        }
        var filtered := FilterInPlace(polled.value, targets[k], NOFILTER);
        var polledNow := Readings(targets[k], filtered);
        AddInTwoParts(before, readings, polledNow, w, at);
        SortPermutes(AddedRecords(AddReadings(before, readings, w), polledNow, w, at), RecordLess);
        var records := repo.AddHourlyCounters(targets[k], filtered, w, at);
        readings := readings + polledNow;
        added := added + records;
      }
      assert targets[..|targets|] == targets;
      SortPermutes(added, RecordLess);
      return true, SortStable(added, RecordLess);
    }

    /** CollectDaily. A record that is there already would make it fail; there is none. */
    method CollectDaily(instances: seq<string>, day: int, now: int) returns (ok: bool, records: seq<Record>)
      requires Windowed(offset, repo.Contents())
      modifies repo
      ensures ok
      ensures RolledUp(old(repo.Contents()), repo.Contents(), Hourly, Daily, instances, DayRange(offset, day))
      ensures AggregatesOf(records, old(repo.Contents()), Hourly, Daily, instances, DayRange(offset, day)) && Sorted(records, RecordLess)
      ensures repo.baselines == old(repo.baselines)
    {
      var w := DayRange(offset, day);
      ghost var before := repo.Contents();
      hide RolledUp, AggregatesOf, Lists, Windowed, Creatable, Put, Without, Sorted, GroupOf;
      var hourly := repo.ListRecords(Hourly, Filter(instances, "", "", 0), Between(w));
      QueryLists(hourly, repo.records, offset, Hourly, instances, DayOf(offset, day), DayOf(offset, day) + 1);
      records := AggregateRecords(hourly, Daily, w, now);
      ListingAggregates(hourly, records, before, Hourly, Daily, instances, w, now);
      ReplacingRollsUp(records, before, Hourly, Daily, instances, w);
      ok := repo.ReplaceWindowRecords(Daily, instances, w.start, records);
    }

    /** CollectMonthly */
    method CollectMonthly(instances: seq<string>, month: int, now: int) returns (ok: bool, records: seq<Record>)
      requires Windowed(offset, repo.Contents())
      modifies repo
      ensures ok
      ensures RolledUp(old(repo.Contents()), repo.Contents(), Daily, Monthly, instances, MonthRange(offset, month))
      ensures AggregatesOf(records, old(repo.Contents()), Daily, Monthly, instances, MonthRange(offset, month)) && Sorted(records, RecordLess)
      ensures repo.baselines == old(repo.baselines)
    {
      var w := MonthRange(offset, month);
      ghost var before := repo.Contents();
      hide RolledUp, AggregatesOf, Lists, Windowed, Creatable, Put, Without, Sorted, GroupOf, MonthFirstDay;
      var daily := repo.ListRecords(Daily, Filter(instances, "", "", 0), Between(w));
      ghost var m := MonthOf(DayOf(offset, month));
      QueryLists(daily, repo.records, offset, Daily, instances, MonthFirstDay(m), MonthFirstDay(m + 1));
      records := AggregateRecords(daily, Monthly, w, now);
      ListingAggregates(daily, records, before, Daily, Monthly, instances, w, now);
      ReplacingRollsUp(records, before, Daily, Monthly, instances, w);
      ok := repo.ReplaceWindowRecords(Monthly, instances, w.start, records);
    }
  }

  /** CurrentDeltas: it reads the baselines and changes nothing. */
  method CurrentDeltas(repo: Repository, stats: Stats, targets: seq<Target>, at: int, offset: int, f: Filter)
    returns (ok: bool, records: seq<Record>)
    ensures ok <==> Poll(stats, targets, f).Some?
    ensures ok ==> records == SortStable(CurrentRecords(repo.baselines, Poll(stats, targets, f).value, HourRange(offset, at), at), RecordLess)
  {
    var w := HourRange(offset, at);
    records := [];
    ghost var readings: seq<Reading> := [];
    for k := 0 to |targets|
      invariant Poll(stats, targets[..k], f) == Some(readings)
      invariant records == CurrentRecords(repo.baselines, readings, w, at)
    {
      assert targets[..k + 1][..k] == targets[..k];
      var polled := stats(targets[k]);
      if polled.Err? {
        PollsFailTogether(stats, targets, f, k + 1);
        return false, records;
      }
      var filtered := FilterInPlace(polled.value, targets[k], f);
      var more := DeltasOfTarget(repo, targets[k], filtered, w, at, readings);
      records := records + more;
      readings := readings + Readings(targets[k], filtered);
    }
    assert targets[..|targets|] == targets;
    return true, SortStable(records, RecordLess);
  }

  method DeltasOfTarget(repo: Repository, target: Target, counters: seq<Counter>, w: TimeRange, at: int, ghost earlier: seq<Reading>)
    returns (records: seq<Record>)
    ensures CurrentRecords(repo.baselines, earlier + Readings(target, counters), w, at)
            == CurrentRecords(repo.baselines, earlier, w, at) + records
  {
    records := [];
    ghost var readings := Readings(target, counters);
    assert earlier + readings[..0] == earlier;
    for k := 0 to |counters|
      invariant CurrentRecords(repo.baselines, earlier + readings[..k], w, at)
                == CurrentRecords(repo.baselines, earlier, w, at) + records
    {
      ghost var upTo := earlier + readings[..k + 1];
      assert upTo[..|upTo| - 1] == earlier + readings[..k];
      var r := Reading(target, counters[k]);
      var baseline, known := repo.GetBaseline(r.Of());
      var delta, reset := r.counter.value, false;
      if known {
        if r.counter.value >= baseline {
          delta := r.counter.value - baseline;
        } else {
          reset := true;
        }
      }
      assert (delta, reset) == Delta(repo.baselines, r) && upTo[|upTo| - 1] == r;
      assert CurrentRecords(repo.baselines, upTo, w, at)
             == CurrentRecords(repo.baselines, earlier + readings[..k], w, at) + RecordsOf(repo.baselines, r, Current, w, at);
      if delta > 0 {
        records := records + [Record(Key(Current, w.start, r.Of()), Row(Data(target.server, w.end, delta, reset), at, 0))];
      }
    }
    assert readings[..|counters|] == readings;
  }
}

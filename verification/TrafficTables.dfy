/** The traffic tables, and what a query and an aggregate of them are (internal/traffic/models.go, repository.go, collector.go). */
module TrafficTables {
  import opened Wrappers
  import opened TrafficCalendar

  datatype Period = Current | Hourly | Daily | Monthly

  /** What is counted: one counter of one instance. */
  datatype Series = Series(instance: string, scope: string, name: string, direction: string)

  /** The columns of the unique index of traffic_records. */
  datatype Key = Key(period: Period, start: int, series: Series)

  /** The columns that an aggregate determines. */
  datatype Data = Data(server: string, end: int, bytes: nat, reset: bool)

  /** A row of traffic_records: `id` and `createdAt` are those of its insertion. */
  datatype Row = Row(data: Data, createdAt: int, id: nat)

  datatype Record = Record(key: Key, row: Row)

  type Table = map<Key, Data>

  /** uint64 */
  const U64: nat := 0x1_0000_0000_0000_0000

  function AddU64(a: nat, b: nat): nat {
    (a + b) % U64
  }

  function At(t: Table, k: Key): Option<Data> {
    if k in t then Some(t[k]) else None
  }

  lemma SameTable(a: Table, b: Table)
    requires forall k :: At(a, k) == At(b, k)
    ensures a == b
  {
    assert forall k :: (k in a <==> k in b) && (k in a ==> a[k] == b[k]) by {
      forall k
        ensures (k in a <==> k in b) && (k in a ==> a[k] == b[k])
      {
        assert At(a, k) == At(b, k);
      }
    }
  }

  /** An empty list of instances selects them all. */
  predicate Chosen(instances: seq<string>, instance: string) {
    instances == [] || instance in instances
  }

  /** Rows have the window of their period. */
  ghost predicate Windowed(offset: int, t: Table) {
    forall k :: k in t ==>
      match k.period
      case Current => false
      case Hourly => AtHour(offset, k.start) && t[k].end == k.start + HOUR
      case Daily => AtDay(offset, k.start) && t[k].end == k.start + DAY
      case Monthly => exists m :: k.start == MonthWindow(offset, m).start && t[k].end == MonthWindow(offset, m).end
  }

  // ---------------------------------------------------------------- aggregates

  /** The first row of a series from `a` to before `b`. */
  function FirstStart(t: Table, p: Period, s: Series, a: int, b: int): (r: Option<int>)
    ensures r.Some? ==> a <= r.value < b && Key(p, r.value, s) in t
    decreases b - a
  {
    if a >= b then None
    else match FirstStart(t, p, s, a, b - 1)
         case Some(x) => Some(x)
         case None => if Key(p, b - 1, s) in t then Some(b - 1) else None
  }

  /** The bytes of a series from `a` to before `b`. */
  function WindowSum(t: Table, p: Period, s: Series, a: int, b: int): nat
    decreases b - a
  {
    if a >= b then 0
    else WindowSum(t, p, s, a, b - 1) + if Key(p, b - 1, s) in t then t[Key(p, b - 1, s)].bytes else 0
  }

  /** Whether a counter reset was seen from `a` to before `b`. */
  ghost predicate WindowReset(t: Table, p: Period, s: Series, a: int, b: int) {
    exists x :: a <= x < b && Key(p, x, s) in t && t[Key(p, x, s)].reset
  }

  /** What aggregating a series over a window gives: nothing if it has no rows there; otherwise the server of the first of them
      and the bytes of all, in uint64 arithmetic. */
  ghost function Aggregate(t: Table, p: Period, s: Series, w: TimeRange): Option<Data> {
    match FirstStart(t, p, s, w.start, w.end)
    case None => None
    case Some(x) =>
      Some(Data(t[Key(p, x, s)].server, w.end, WindowSum(t, p, s, w.start, w.end) % U64, WindowReset(t, p, s, w.start, w.end)))
  }

  /** Rows of `p` over the window replaced by aggregates of rows of `from`, for the chosen instances. */
  ghost predicate RolledUp(before: Table, after: Table, from: Period, p: Period, instances: seq<string>, w: TimeRange) {
    forall k :: At(after, k) ==
                if k.period == p && k.start == w.start && Chosen(instances, k.series.instance) then Aggregate(before, from, k.series, w)
                else At(before, k)
  }

  // ---------------------------------------------------------------- facts about windows

  lemma {:induction false} FirstStartIsFirst(t: Table, p: Period, s: Series, a: int, b: int, x: int)
    requires a <= x < b && Key(p, x, s) in t
    ensures FirstStart(t, p, s, a, b).Some? && FirstStart(t, p, s, a, b).value <= x
    decreases b - a
  {
    if x < b - 1 {
      FirstStartIsFirst(t, p, s, a, b - 1, x);
    }
  }

  lemma {:induction false} WindowSumSplits(t: Table, p: Period, s: Series, a: int, m: int, b: int)
    requires a <= m <= b
    ensures WindowSum(t, p, s, a, b) == WindowSum(t, p, s, a, m) + WindowSum(t, p, s, m, b)
    decreases b - m
  {
    if m >= b {
    } else {
      WindowSumSplits(t, p, s, a, m, b - 1);
    }
  }

  lemma {:induction false} EmptyWindow(t: Table, p: Period, s: Series, a: int, b: int)
    requires forall x :: a <= x < b ==> Key(p, x, s) !in t
    ensures WindowSum(t, p, s, a, b) == 0 && FirstStart(t, p, s, a, b) == None
    decreases b - a
  {
    if a >= b {
    } else {
      EmptyWindow(t, p, s, a, b - 1);
    }
  }

  lemma {:induction false} SameWindow(t: Table, u: Table, p: Period, s: Series, a: int, b: int)
    requires forall x :: a <= x < b ==> At(t, Key(p, x, s)) == At(u, Key(p, x, s))
    ensures WindowSum(t, p, s, a, b) == WindowSum(u, p, s, a, b) && FirstStart(t, p, s, a, b) == FirstStart(u, p, s, a, b)
    decreases b - a
  {
    if a >= b {
    } else {
      SameWindow(t, u, p, s, a, b - 1);
      assert At(t, Key(p, b - 1, s)) == At(u, Key(p, b - 1, s));
    }
  }

  lemma SameAggregate(t: Table, u: Table, p: Period, s: Series, w: TimeRange)
    requires forall x :: w.start <= x < w.end ==> At(t, Key(p, x, s)) == At(u, Key(p, x, s))
    ensures Aggregate(t, p, s, w) == Aggregate(u, p, s, w)
  {
    SameWindow(t, u, p, s, w.start, w.end);
    var first := FirstStart(t, p, s, w.start, w.end);
    if first.Some? {
      assert At(t, Key(p, first.value, s)) == At(u, Key(p, first.value, s));
      assert WindowReset(t, p, s, w.start, w.end) == WindowReset(u, p, s, w.start, w.end) by {
        forall x | w.start <= x < w.end
          ensures (Key(p, x, s) in t && t[Key(p, x, s)].reset) == (Key(p, x, s) in u && u[Key(p, x, s)].reset)
        {
          assert At(t, Key(p, x, s)) == At(u, Key(p, x, s));
        }
      }
    }
  }

  /** An aggregate is that of its rows in the window: it has the server of the earliest, the end of the window, and a reset
      if one of them has; without rows there is none. */
  lemma AggregateIs(t: Table, p: Period, s: Series, w: TimeRange)
    ensures match Aggregate(t, p, s, w)
            case None => forall x :: w.start <= x < w.end ==> Key(p, x, s) !in t
            case Some(d) =>
              && (exists x :: w.start <= x < w.end && Key(p, x, s) in t && d.server == t[Key(p, x, s)].server
                              && forall y :: w.start <= y < x ==> Key(p, y, s) !in t)
              && d.end == w.end && d.bytes == WindowSum(t, p, s, w.start, w.end) % 0x1_0000_0000_0000_0000
              && (d.reset <==> exists x :: w.start <= x < w.end && Key(p, x, s) in t && t[Key(p, x, s)].reset)
    ensures forall x :: WindowSum(t, p, s, x, x + 1) == if Key(p, x, s) in t then t[Key(p, x, s)].bytes else 0
  {
    var first := FirstStart(t, p, s, w.start, w.end);
    forall x | w.start <= x < w.end && Key(p, x, s) in t
      ensures first.Some? && first.value <= x
    {
      FirstStartIsFirst(t, p, s, w.start, w.end, x);
    }
  }

  /** Taking one row away takes its bytes away. */
  lemma {:induction false} WindowSumWithout(t: Table, k: Key, p: Period, s: Series, a: int, b: int)
    requires k in t
    ensures WindowSum(t, p, s, a, b)
            == WindowSum(t - {k}, p, s, a, b) + if k.period == p && k.series == s && a <= k.start < b then t[k].bytes else 0
    decreases b - a
  {
    if a >= b {
    } else {
      WindowSumWithout(t, k, p, s, a, b - 1);
    }
  }

  /** Adding bytes to one row, or a row. */
  lemma {:induction false} WindowSumWith(t: Table, k: Key, d: Data, p: Period, s: Series, a: int, b: int)
    ensures WindowSum(t[k := d], p, s, a, b)
            == WindowSum(t, p, s, a, b)
               + if k.period == p && k.series == s && a <= k.start < b then d.bytes - (if k in t then t[k].bytes else 0) else 0
    decreases b - a
  {
    if a >= b {
    } else {
      WindowSumWith(t, k, d, p, s, a, b - 1);
    }
  }
}

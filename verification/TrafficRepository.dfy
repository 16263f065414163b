/** The traffic store (internal/traffic/repository.go) and the counters read from it and into it. */
module TrafficRepository {
  import opened Wrappers
  import opened Text
  import opened Sorting
  import opened TrafficCalendar
  import opened TrafficTables

  // ---------------------------------------------------------------- counters

  datatype Counter = Counter(scope: string, name: string, direction: string, value: nat)

  datatype Target = Target(instance: string, server: string, scopes: seq<string>)

  /** Without a positive limit there is none. */
  datatype Filter = Filter(instances: seq<string>, scope: string, name: string, limit: int)

  /** One counter polled from one target. */
  datatype Reading = Reading(target: Target, counter: Counter) {
    function Of(): Series {
      Series(target.instance, counter.scope, counter.name, counter.direction)
    }
  }

  type Baselines = map<Series, nat>

  /** How much a counter grew since its baseline, and whether it was reset: a value below the baseline counts in full. */
  function Delta(baselines: Baselines, r: Reading): (nat, bool) {
    if r.Of() !in baselines then (r.counter.value, false)
    else if r.counter.value >= baselines[r.Of()] then (r.counter.value - baselines[r.Of()], false)
    else (r.counter.value, true)
  }

  /** recordFromCounter, with the growth since the baseline. */
  function RecordOf(baselines: Baselines, r: Reading, p: Period, w: TimeRange, now: int): Record {
    var (delta, reset) := Delta(baselines, r);
    Record(Key(p, w.start, r.Of()), Row(Data(r.target.server, w.end, delta, reset), now, 0))
  }

  function RecordsOf(baselines: Baselines, r: Reading, p: Period, w: TimeRange, now: int): seq<Record> {
    if Delta(baselines, r).0 > 0 then [RecordOf(baselines, r, p, w, now)] else []
  }

  /** What a reading shows against the baselines: nothing if it is what the baseline says, or zero without one; else, over the window,
      the growth since the baseline, or the whole value when there is none or the counter was reset below it. */
  lemma RecordsOfAre(baselines: Baselines, r: Reading, p: Period, w: TimeRange, now: int)
    ensures var s := Series(r.target.instance, r.counter.scope, r.counter.name, r.counter.direction);
            var known, value := s in baselines, r.counter.value;
            var rs := RecordsOf(baselines, r, p, w, now);
            && (rs == [] <==> value == if known && value != 0 then baselines[s] else 0)
            && (rs != [] ==>
                  && |rs| == 1 && rs[0].key == Key(p, w.start, s) && rs[0].row.createdAt == now
                  && rs[0].row.data.server == r.target.server && rs[0].row.data.end == w.end
                  && (rs[0].row.data.reset <==> known && value < baselines[s])
                  && (if known && value >= baselines[s] then rs[0].row.data.bytes + baselines[s] == value
                      else rs[0].row.data.bytes == value))
  {}

  /** addRecordTx: the upsert that adds the bytes. */
  function AddRecord(t: Table, k: Key, d: Data): Table {
    if k in t then t[k := Data(d.server, d.end, t[k].bytes + d.bytes, t[k].reset || d.reset)] else t[k := d]
  }

  /** The two tables. */
  datatype Books = Books(table: Table, baselines: Baselines)

  function AddReading(b: Books, r: Reading, w: TimeRange): Books {
    var record := RecordOf(b.baselines, r, Hourly, w, 0);
    Books(if record.row.data.bytes > 0 then AddRecord(b.table, record.key, record.row.data) else b.table,
          b.baselines[r.Of() := r.counter.value])
  }

  function AddReadings(b: Books, readings: seq<Reading>, w: TimeRange): Books {
    if readings == [] then b
    else
      var n := |readings| - 1;
      AddReading(AddReadings(b, readings[..n], w), readings[n], w)
  }

  /** The hourly records that adding the readings makes, in the order of the readings. */
  function AddedRecords(b: Books, readings: seq<Reading>, w: TimeRange, now: int): seq<Record> {
    if readings == [] then []
    else
      var n := |readings| - 1;
      AddedRecords(b, readings[..n], w, now) + RecordsOf(AddReadings(b, readings[..n], w).baselines, readings[n], Hourly, w, now)
  }

  function Readings(target: Target, counters: seq<Counter>): (r: seq<Reading>)
    ensures |r| == |counters|
  {
    seq(|counters|, k requires 0 <= k < |counters| => Reading(target, counters[k]))
  }

  // ---------------------------------------------------------------- order

  predicate SeriesLess(a: Series, b: Series) {
    if a.instance != b.instance then Less(a.instance, b.instance)
    else if a.scope != b.scope then Less(a.scope, b.scope)
    else if a.name != b.name then Less(a.name, b.name)
    else Less(a.direction, b.direction)
  }

  /** The order of stableRecordOrder, and but for the bytes that of ListRecords. */
  predicate RecordLess(a: Record, b: Record) {
    if a.key.start != b.key.start then a.key.start < b.key.start
    else if a.key.series != b.key.series then SeriesLess(a.key.series, b.key.series)
    else a.row.data.bytes < b.row.data.bytes
  }

  /** The first pair of strings that differ decides. */
  predicate LexicographicLess(a: seq<string>, b: seq<string>) {
    |a| == |b| && exists i :: 0 <= i < |a| && a[..i] == b[..i] && Less(a[i], b[i])
  }

  function Columns(s: Series): seq<string> {
    [s.instance, s.scope, s.name, s.direction]
  }

  lemma LexicographicIff(a: seq<string>, b: seq<string>)
    requires |a| == |b| == 4
    ensures LexicographicLess(a, b) <==>
              || Less(a[0], b[0])
              || (a[0] == b[0] && (Less(a[1], b[1]) || (a[1] == b[1] && (Less(a[2], b[2]) || (a[2] == b[2] && Less(a[3], b[3]))))))
  {
    hide Less;
    assert a[..0] == b[..0];
    assert a[..1] == b[..1] <==> a[0] == b[0];
    assert a[..2] == b[..2] <==> a[0] == b[0] && a[1] == b[1];
    assert a[..3] == b[..3] <==> a[0] == b[0] && a[1] == b[1] && a[2] == b[2];
  }

  /** Records come by their start, then by instance, scope, name and direction, then by their bytes. */
  lemma RecordLessIff(a: Record, b: Record)
    ensures RecordLess(a, b) <==>
              var x, y := Columns(a.key.series), Columns(b.key.series);
              || a.key.start < b.key.start
              || (a.key.start == b.key.start && (LexicographicLess(x, y) || (x == y && a.row.data.bytes < b.row.data.bytes)))
  {
    var x, y := Columns(a.key.series), Columns(b.key.series);
    LexicographicIff(x, y);
    LessIrreflexive(a.key.series.instance);
    LessIrreflexive(a.key.series.scope);
    LessIrreflexive(a.key.series.name);
    LessIrreflexive(a.key.series.direction);
    hide Less, LexicographicLess;
    assert x == y <==> a.key.series == b.key.series by {
      assert x[0] == a.key.series.instance && x[1] == a.key.series.scope && x[2] == a.key.series.name && x[3] == a.key.series.direction;
      assert y[0] == b.key.series.instance && y[1] == b.key.series.scope && y[2] == b.key.series.name && y[3] == b.key.series.direction;
    }
  }

  lemma SeriesLessOrders(a: Series, b: Series, c: Series)
    ensures SeriesLess(a, b) && SeriesLess(b, c) ==> SeriesLess(a, c)
    ensures a != b ==> SeriesLess(a, b) || SeriesLess(b, a)
    ensures !SeriesLess(a, a)
  {
    hide Less;
    FieldLessOrders(a.instance, b.instance, c.instance);
    FieldLessOrders(a.scope, b.scope, c.scope);
    FieldLessOrders(a.name, b.name, c.name);
    FieldLessOrders(a.direction, b.direction, c.direction);
  }

  lemma FieldLessOrders(a: string, b: string, c: string)
    ensures Less(a, b) && Less(b, c) ==> Less(a, c)
    ensures a == b || Less(a, b) || Less(b, a)
    ensures !Less(a, a) && (a == c ==> !(Less(a, b) && Less(b, c)))
  {
    hide Less;
    LessIrreflexive(a);
    LessTotal(a, b);
    if Less(a, b) && Less(b, c) {
      LessTransitive(a, b, c);
    }
  }

  lemma RecordLessOrders()
    ensures Transitive(RecordLess)
    ensures forall a: Record, b: Record :: (a.key.start, a.key.series) != (b.key.start, b.key.series) ==> RecordLess(a, b) || RecordLess(b, a)
  {
    hide SeriesLess;
    forall a, b, c | RecordLess(a, b) && RecordLess(b, c)
      ensures RecordLess(a, c)
    {
      SeriesLessOrders(a.key.series, b.key.series, c.key.series);
      SeriesLessOrders(a.key.series, b.key.series, a.key.series);
    }
    forall a: Record, b: Record | (a.key.start, a.key.series) != (b.key.start, b.key.series)
      ensures RecordLess(a, b) || RecordLess(b, a)
    {
      SeriesLessOrders(a.key.series, b.key.series, a.key.series);
    }
  }

  // ---------------------------------------------------------------- queries

  /** The time range of a query, open where an end is missing. */
  datatype Bounds = Bounds(start: Option<int>, end: Option<int>)

  function Between(w: TimeRange): Bounds {
    Bounds(Some(w.start), Some(w.end))
  }

  /** A record of window `r` is selected when it overlaps the time range. */
  predicate Within(r: TimeRange, b: Bounds) {
    (b.start.Some? ==> r.end > b.start.value) && (b.end.Some? ==> r.start < b.end.value)
  }

  /** What ListRecords selects. */
  predicate Selected(records: map<Key, Row>, p: Period, f: Filter, b: Bounds, r: Record) {
    && r.key in records && r.row == records[r.key]
    && r.key.period == p && Within(TimeRange(r.key.start, r.row.data.end), b)
    && Chosen(f.instances, r.key.series.instance)
    && (f.scope == "" || r.key.series.scope == f.scope) && (f.name == "" || r.key.series.name == f.name)
  }

  predicate DistinctKeys(rs: seq<Record>) {
    forall i, j :: 0 <= i < j < |rs| ==> rs[i].key != rs[j].key
  }

  // ---------------------------------------------------------------- writes

  /** The rows that ReplaceWindowRecords and an aggregate replace. */
  predicate InWindow(k: Key, p: Period, instances: seq<string>, start: int) {
    k.period == p && k.start == start && Chosen(instances, k.series.instance)
  }

  function Put(t: Table, rs: seq<Record>): Table {
    if rs == [] then t
    else
      var last := rs[|rs| - 1];
      Put(t, rs[..|rs| - 1])[last.key := last.row.data]
  }

  /** The records can be created one by one without breaking the unique index. */
  ghost predicate Creatable(t: Table, rs: seq<Record>) {
    DistinctKeys(rs) && forall r :: r in rs ==> r.key !in t
  }

  lemma {:induction false} PutKeys(t: Table, rs: seq<Record>, k: Key)
    ensures k in Put(t, rs) <==> k in t || exists r :: r in rs && r.key == k
  {
    if rs == [] {
    } else {
      var n := |rs| - 1;
      assert rs == rs[..n] + [rs[n]];
      PutKeys(t, rs[..n], k);
    }
  }

  lemma OneMoreCreatable(t: Table, rs: seq<Record>, i: nat)
    requires i < |rs|
    ensures Creatable(t, rs[..i + 1]) <==> Creatable(t, rs[..i]) && rs[i].key !in Put(t, rs[..i])
    ensures Creatable(t, rs) ==> Creatable(t, rs[..i + 1])
  {
    PutKeys(t, rs[..i], rs[i].key);
    assert rs[..i + 1] == rs[..i] + [rs[i]];
    if r :| r in rs[..i] && r.key == rs[i].key {
      var j :| 0 <= j < i && rs[..i][j] == r;
      assert rs[..i + 1][j].key == rs[..i + 1][i].key;
    }
  }

  function DataOf(rows: map<Key, Row>): Table {
    map k | k in rows :: rows[k].data
  }

  function Without(t: Table, p: Period, instances: seq<string>, start: int): Table {
    map k | k in t && !InWindow(k, p, instances, start) :: t[k]
  }

  function CreateRow(rows: map<Key, Row>, r: Record, id: nat): (created: map<Key, Row>)
    ensures DataOf(created) == DataOf(rows)[r.key := r.row.data]
    ensures forall k :: k in rows && k != r.key ==> k in created && created[k] == rows[k]
  {
    rows[r.key := r.row.(id := id)]
  }

  function Before(t: Table, p: Period, cutoff: int): set<Key> {
    set k | k in t && k.period == p && k.start < cutoff
  }

  /** No row is lost, and each keeps its id and creation time. */
  predicate KeepsIdentity(before: map<Key, Row>, after: map<Key, Row>) {
    forall k :: k in before ==> k in after && after[k].id == before[k].id && after[k].createdAt == before[k].createdAt
  }

  /** Without a row under its key the record is inserted, under a new id; else its bytes and its reset flag are added to the
      row, which takes its server and its end. */
  predicate Upserted(before: map<Key, Row>, nextId: nat, r: Record, after: map<Key, Row>) {
    if r.key !in before then after == before[r.key := r.row.(id := nextId)]
    else
      var row, d := before[r.key], r.row.data;
      after == before[r.key := row.(data := Data(d.server, d.end, row.data.bytes + d.bytes, row.data.reset || d.reset))]
  }

  class Repository {
    var records: map<Key, Row>
    var baselines: Baselines
    var nextId: nat

    /** An empty database. */
    constructor ()
      ensures Value() == Books(map[], map[])
    {
      records, baselines, nextId := map[], map[], 1;
    }

    function Contents(): Table
      reads this
    {
      DataOf(records)
    }

    function Value(): Books
      reads this
    {
      Books(Contents(), baselines)
    }

    /** getBaselineTx, GetBaseline */
    method GetBaseline(s: Series) returns (value: nat, known: bool)
      ensures known <==> s in baselines
      ensures known ==> value == baselines[s]
    {
      known := s in baselines;
      value := if known then baselines[s] else 0;
    }

    /** addRecordTx: an inserted row gets a new id; an updated one keeps its own and its creation time. */
    method AddRecordTx(r: Record)
      modifies this`records, this`nextId
      ensures Contents() == AddRecord(old(Contents()), r.key, r.row.data)
      ensures Upserted(old(records), old(nextId), r, records)
      ensures KeepsIdentity(old(records), records)
    {
      if r.key in records {
        var row := records[r.key];
        var d := Data(r.row.data.server, r.row.data.end, row.data.bytes + r.row.data.bytes, row.data.reset || r.row.data.reset);
        records := records[r.key := row.(data := d)];
      } else {
        records := records[r.key := r.row.(id := nextId)];
        nextId := nextId + 1;
      }
      assert Contents() == AddRecord(old(Contents()), r.key, r.row.data);
    }

    /** One round of AddHourlyCounters. */
    method AddCounter(target: Target, counter: Counter, w: TimeRange, now: int) returns (added: seq<Record>)
      modifies this
      ensures Value() == AddReading(old(Value()), Reading(target, counter), w)
      ensures added == RecordsOf(old(baselines), Reading(target, counter), Hourly, w, now)
      ensures KeepsIdentity(old(records), records)
    {
      hide Upserted;
      var r := Reading(target, counter);
      var baseline, known := GetBaseline(r.Of());
      var delta, reset := r.counter.value, false;
      if known {
        if r.counter.value >= baseline {
          delta := r.counter.value - baseline;
        } else {
          reset := true;
        }
      }
      added := [];
      if delta > 0 {
        var record := Record(Key(Hourly, w.start, r.Of()), Row(Data(target.server, w.end, delta, reset), now, 0));
        AddRecordTx(record);
        added := [record];
      }
      baselines := baselines[r.Of() := r.counter.value];
    }

    /** AddHourlyCounters */
    method AddHourlyCounters(target: Target, counters: seq<Counter>, w: TimeRange, now: int) returns (added: seq<Record>)
      modifies this
      ensures Value() == AddReadings(old(Value()), Readings(target, counters), w)
      ensures added == SortStable(AddedRecords(old(Value()), Readings(target, counters), w, now), RecordLess)
      ensures KeepsIdentity(old(records), records)
    {
      hide AddReading, RecordsOf, RecordLess;
      ghost var before, readings := Value(), Readings(target, counters);
      added := [];
      for k := 0 to |counters|
        invariant Value() == AddReadings(before, readings[..k], w) && KeepsIdentity(old(records), records)
        invariant added == AddedRecords(before, readings[..k], w, now)
      {
        assert readings[..k + 1][..k] == readings[..k];
        var more := AddCounter(target, counters[k], w, now);
        added := added + more;
      }
      assert readings[..|counters|] == readings;
      added := SortStable(added, RecordLess);
    }

    /** ListRecords: the first of the selected rows, in order, as many as the limit allows. */
    method ListRecords(p: Period, f: Filter, b: Bounds) returns (rs: seq<Record>)
      ensures Sorted(rs, RecordLess) && DistinctKeys(rs)
      ensures forall r :: r in rs ==> Selected(records, p, f, b, r)
      ensures forall r :: Selected(records, p, f, b, r) <==>
                && r.key in records && records[r.key] == r.row && r.key.period == p
                && (b.start.None? || r.row.data.end > b.start.value) && (b.end.None? || r.key.start < b.end.value)
                && (f.instances == [] || r.key.series.instance in f.instances)
                && (f.scope == "" || r.key.series.scope == f.scope) && (f.name == "" || r.key.series.name == f.name)
      ensures f.limit > 0 ==> |rs| <= f.limit
      ensures f.limit <= 0 || |rs| < f.limit ==> forall r :: Selected(records, p, f, b, r) ==> r in rs
      ensures forall r, x :: Selected(records, p, f, b, r) && r !in rs && x in rs ==> RecordLess(x, r)
    {
      rs := [];
      var remaining := records.Keys;
      while remaining != {}
        invariant remaining <= records.Keys && DistinctKeys(rs)
        invariant forall r :: r in rs <==> Selected(records, p, f, b, r) && r.key !in remaining
      {
        var k :| k in remaining;
        remaining := remaining - {k};
        if Selected(records, p, f, b, Record(k, records[k])) {
          rs := rs + [Record(k, records[k])];
        }
      }
      SortRecords(rs);
      rs := SortStable(rs, RecordLess);
      assert forall r :: Selected(records, p, f, b, r) <==> r in rs;
      if f.limit > 0 && |rs| > f.limit {
        hide Selected, RecordLess;
        FirstRecords(rs, f.limit);
        rs := rs[..f.limit];
      }
    }

    /** ReplaceWindowRecords: it fails, and changes nothing, exactly when a record to be created is there already. */
    method ReplaceWindowRecords(p: Period, instances: seq<string>, start: int, rs: seq<Record>) returns (ok: bool)
      modifies this`records, this`nextId
      ensures ok <==> Creatable(Without(old(Contents()), p, instances, start), rs)
      ensures ok ==> Contents() == Put(Without(old(Contents()), p, instances, start), rs)
      ensures !ok ==> records == old(records)
      ensures forall k :: k in old(records) && !InWindow(k, p, instances, start) ==> k in records && records[k] == old(records)[k]
    {
      ghost var kept := Without(Contents(), p, instances, start);
      var rows := map k | k in records && !InWindow(k, p, instances, start) :: records[k];
      var next := nextId;
      assert DataOf(rows) == kept;
      for i := 0 to |rs|
        invariant records == old(records) && nextId == old(nextId)
        invariant DataOf(rows) == Put(kept, rs[..i]) && Creatable(kept, rs[..i])
        invariant forall k :: k in kept ==> k in rows && rows[k] == records[k]
      {
        hide Creatable, InWindow;
        var r := rs[i];
        assert rs[..i + 1][..i] == rs[..i];
        OneMoreCreatable(kept, rs, i);
        if r.key in rows {
          assert r.key in DataOf(rows);
          return false;
        }
        assert r.key !in DataOf(rows) && (r.key in kept ==> r.key in rows);
        rows := CreateRow(rows, r, next);
        next := next + 1;
      }
      assert rs[..|rs|] == rs;
      records, nextId := rows, next;
      return true;
    }

    /** CountBefore */
    method CountBefore(p: Period, cutoff: int) returns (count: nat)
      ensures count == |Before(Contents(), p, cutoff)|
    {
      var keys := set k | k in records && k.period == p && k.start < cutoff;
      assert keys == Before(Contents(), p, cutoff);
      return |keys|;
    }

    /** DeleteBefore */
    method DeleteBefore(p: Period, cutoff: int) returns (count: nat)
      modifies this`records
      ensures records == old(records) - Before(old(Contents()), p, cutoff)
      ensures Contents() == old(Contents()) - Before(old(Contents()), p, cutoff)
      ensures count == |Before(old(Contents()), p, cutoff)|
    {
      count := CountBefore(p, cutoff);
      var keys := set k | k in records && k.period == p && k.start < cutoff;
      assert keys == Before(Contents(), p, cutoff);
      records := records - keys;
    }
  }

  lemma FirstRecords(rs: seq<Record>, n: nat)
    requires Sorted(rs, RecordLess) && DistinctKeys(rs) && n <= |rs|
    ensures Sorted(rs[..n], RecordLess) && DistinctKeys(rs[..n])
    ensures forall r :: r in rs[..n] ==> r in rs
    ensures forall r, x :: r in rs && r !in rs[..n] && x in rs[..n] ==> RecordLess(x, r)
  {
    hide RecordLess;
    forall r, x | r in rs && r !in rs[..n] && x in rs[..n]
      ensures RecordLess(x, r)
    {
      assert rs == rs[..n] + rs[n..];
      var i :| 0 <= i < |rs[n..]| && rs[n..][i] == r;
    }
  }

  lemma SortRecords(rs: seq<Record>)
    requires DistinctKeys(rs) && forall i, j :: 0 <= i < j < |rs| ==> rs[i].key.period == rs[j].key.period
    ensures var sorted := SortStable(rs, RecordLess);
            Sorted(sorted, RecordLess) && DistinctKeys(sorted) && forall r :: r in sorted <==> r in rs
  {
    hide RecordLess;
    RecordLessOrders();
    SortSorts(rs, RecordLess);
    SortPermutes(rs, RecordLess);
    var sorted := SortStable(rs, RecordLess);
    forall r
      ensures r in sorted <==> r in rs
    {
      assert r in multiset(sorted) <==> r in multiset(rs);
    }
    PermutedKeys(rs, sorted);
  }

  lemma PermutedKeys(a: seq<Record>, b: seq<Record>)
    requires DistinctKeys(a) && multiset(a) == multiset(b)
    ensures DistinctKeys(b)
  {
    forall i, j | 0 <= i < j < |b|
      ensures b[i].key != b[j].key
    {
      assert b == b[..i] + [b[i]] + b[i + 1..j] + [b[j]] + b[j + 1..];
      if b[i].key == b[j].key {
        assert b[i] in multiset(a) && b[j] in multiset(a);
        assert b[i] == b[j];
        assert multiset(a)[b[i]] >= 2;
        OnceOnly(a, b[i]);
      }
    }
  }

  lemma {:induction false} OnceOnly(a: seq<Record>, r: Record)
    requires DistinctKeys(a)
    ensures multiset(a)[r] <= 1
  {
    if a == [] {
    } else {
      OnceOnly(a[1..], r);
      assert a == [a[0]] + a[1..];
      assert a[0] !in a[1..];
    }
  }
}

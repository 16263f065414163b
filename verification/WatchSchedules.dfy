/** When the watcher's skipped ticks can be trusted: which schedules of writes are safe (internal/subserver/server.go). */
module WatchSchedules {
  import opened Wrappers
  import opened InputWatcher

  // ---------------------------------------------------------------- runs of the loop

  /** One turn of the loop: writes while it waits for the ticker, the tick, writes during the debounce, the reload. */
  datatype Round = Round(waiting: seq<Dir>, io: bool, debounce: seq<Dir>, loadIo: bool)

  /** A run: the directory that the server loaded, writes before the first snapshot, that snapshot, the turns. */
  datatype Story = Story(dir: Dir, before: seq<Dir>, startIo: bool, rounds: seq<Round>)

  function Writes(dirs: seq<Dir>): seq<Event> {
    seq(|dirs|, k requires 0 <= k < |dirs| => Write(dirs[k]))
  }

  function RoundEvents(r: Round): seq<Event> {
    Writes(r.waiting) + ([Tick(r.io)] + (Writes(r.debounce) + [Reload(r.loadIo)]))
  }

  /** The events before turn `n`. */
  function Past(s: Story, n: nat): seq<Event>
    requires n <= |s.rounds|
  {
    if n == 0 then Writes(s.before) + [Start(s.startIo)] else Past(s, n - 1) + RoundEvents(s.rounds[n - 1])
  }

  /** The machine at tick `n`. */
  ghost function AtTick(env: Env, s: Story, n: nat): Machine
    requires n < |s.rounds| && Initial(env, s.dir).Ok?
  {
    Run(env, Initial(env, s.dir).value, Past(s, n) + Writes(s.rounds[n].waiting))
  }

  /** Whenever a tick skips, the served index is that of the directory as it is. */
  ghost predicate SkipsAreCurrent(env: Env, s: Story)
    requires Initial(env, s.dir).Ok?
  {
    forall n :: 0 <= n < |s.rounds| && Skips(env, AtTick(env, s, n), s.rounds[n].io) ==>
      LoadIndex(env, AtTick(env, s, n).dir) == Ok(AtTick(env, s, n).index)
  }

  // ---------------------------------------------------------------- schedules

  datatype Slots = Slots(waiting: nat, debounce: nat)

  /** When writes happen, and how many, but not what they write nor which reads fail. */
  datatype Schedule = Schedule(before: nat, rounds: seq<Slots>)

  predicate Follows(s: Story, p: Schedule) {
    && |s.before| == p.before && |s.rounds| == |p.rounds|
    && forall n :: 0 <= n < |p.rounds| ==> |s.rounds[n].waiting| == p.rounds[n].waiting && |s.rounds[n].debounce| == p.rounds[n].debounce
  }

  /** Whatever is written and whatever fails, no skipped tick serves a stale index. */
  ghost predicate Trustworthy(p: Schedule) {
    forall env: Env, s: Story :: Injective(env.hash) && Follows(s, p) && Initial(env, s.dir).Ok? ==> SkipsAreCurrent(env, s)
  }

  /** Nothing is written before the first snapshot if there is ever a tick; and if something is written during a debounce,
      nothing is written while waiting for the next tick. */
  predicate Calm(p: Schedule) {
    && (p.before == 0 || p.rounds == [])
    && forall n :: 0 <= n < |p.rounds| - 1 ==> p.rounds[n].debounce == 0 || p.rounds[n + 1].waiting == 0
  }

  /** The same, up to the tick of turn `n`. */
  predicate CalmUntil(p: Schedule, n: nat)
    requires n < |p.rounds|
  {
    p.before == 0 && forall k :: 0 <= k < n ==> p.rounds[k].debounce == 0 || p.rounds[k + 1].waiting == 0
  }

  /** Whatever is written and whatever fails before, if the reads of turn `n` succeed then the index that is served after it
      is that of the directory, unless the directory does not load. */
  ghost predicate CatchesUp(p: Schedule, n: nat)
    requires n < |p.rounds|
  {
    forall env: Env, s: Story :: Injective(env.hash) && Follows(s, p) && Initial(env, s.dir).Ok? && TurnReads(s, n) ==>
      IsUpToDate(env, Run(env, Initial(env, s.dir).value, Past(s, n + 1)))
  }

  predicate TurnReads(s: Story, n: nat) {
    n < |s.rounds| && !s.rounds[n].io && !s.rounds[n].loadIo
  }

  predicate IsUpToDate(env: Env, m: Machine) {
    LoadIndex(env, m.dir).Ok? ==> LoadIndex(env, m.dir) == Ok(m.index)
  }

  // ---------------------------------------------------------------- steps

  lemma {:induction false} RunInTwoParts(env: Env, m: Machine, xs: seq<Event>, ys: seq<Event>)
    ensures Run(env, m, xs + ys) == Run(env, Run(env, m, xs), ys)
  {
    hide Step;
    if ys == [] {
      assert xs + ys == xs;
    } else {
      var n := |ys| - 1;
      assert (xs + ys)[..|xs + ys| - 1] == xs + ys[..n];
      RunInTwoParts(env, m, xs, ys[..n]);
    }
  }

  lemma RunOfOne(env: Env, m: Machine, e: Event)
    ensures Run(env, m, [e]) == Step(env, m, e)
  {
    assert [e][..0] == [];
    assert Run(env, m, []) == m;
  }

  function Written(m: Machine, dirs: seq<Dir>): Machine {
    if dirs == [] then m else m.(dir := dirs[|dirs| - 1])
  }

  lemma {:induction false} RunOfWrites(env: Env, m: Machine, dirs: seq<Dir>)
    ensures Run(env, m, Writes(dirs)) == Written(m, dirs)
  {
    if dirs == [] {
    } else {
      var n := |dirs| - 1;
      assert Writes(dirs)[..n] == Writes(dirs[..n]);
      RunOfWrites(env, m, dirs[..n]);
    }
  }

  lemma RunOfOpening(env: Env, m: Machine, s: Story)
    ensures Run(env, m, Past(s, 0)) == Step(env, Written(m, s.before), Start(s.startIo))
  {
    hide Step;
    RunInTwoParts(env, m, Writes(s.before), [Start(s.startIo)]);
    RunOfWrites(env, m, s.before);
    RunOfOne(env, Written(m, s.before), Start(s.startIo));
  }

  /** One turn. */
  function Turn(env: Env, m: Machine, r: Round): Machine {
    Step(env, Written(Step(env, Written(m, r.waiting), Tick(r.io)), r.debounce), Reload(r.loadIo))
  }

  lemma RunOfRound(env: Env, m: Machine, r: Round)
    ensures Run(env, m, RoundEvents(r)) == Turn(env, m, r)
  {
    hide Step, Run;
    var m1 := Written(m, r.waiting);
    var m2 := Step(env, m1, Tick(r.io));
    RunInTwoParts(env, m, Writes(r.waiting), [Tick(r.io)] + (Writes(r.debounce) + [Reload(r.loadIo)]));
    RunOfWrites(env, m, r.waiting);
    RunInTwoParts(env, m1, [Tick(r.io)], Writes(r.debounce) + [Reload(r.loadIo)]);
    RunOfOne(env, m1, Tick(r.io));
    RunInTwoParts(env, m2, Writes(r.debounce), [Reload(r.loadIo)]);
    RunOfWrites(env, m2, r.debounce);
    RunOfOne(env, Written(m2, r.debounce), Reload(r.loadIo));
  }

  lemma RunOfTurn(env: Env, m: Machine, s: Story, n: nat)
    requires n < |s.rounds|
    ensures Run(env, m, Past(s, n + 1)) == Turn(env, Run(env, m, Past(s, n)), s.rounds[n])
    ensures Run(env, m, Past(s, n) + Writes(s.rounds[n].waiting)) == Written(Run(env, m, Past(s, n)), s.rounds[n].waiting)
  {
    hide Run, Turn;
    RunInTwoParts(env, m, Past(s, n), RoundEvents(s.rounds[n]));
    RunOfRound(env, Run(env, m, Past(s, n)), s.rounds[n]);
    RunInTwoParts(env, m, Past(s, n), Writes(s.rounds[n].waiting));
    RunOfWrites(env, Run(env, m, Past(s, n)), s.rounds[n].waiting);
  }

  // ---------------------------------------------------------------- calm schedules are trustworthy

  /** Between two turns: the index was loaded from `builtFrom` and the snapshot taken of `comparedTo`.  Either these have the
      same inputs, or the next tick cannot skip, or, `still`, it will see just what was loaded. */
  ghost predicate Sound(env: Env, m: Machine, still: bool) {
    && m.started && m.pending.None?
    && LoadIndex(env, m.builtFrom) == Ok(m.index)
    && (m.previous.Some? ==> SnapshotOf(env, m.comparedTo) == Ok(m.previous.value))
    && (m.failed || m.previous.None? || Inputs(env, m.comparedTo) == Inputs(env, m.builtFrom) || (still && m.dir == m.builtFrom))
  }

  lemma SkipIsCurrent(env: Env, m: Machine, r: Round)
    requires Injective(env.hash) && Sound(env, m, r.waiting == []) && Skips(env, Written(m, r.waiting), r.io)
    ensures Inputs(env, Written(m, r.waiting).dir) == Inputs(env, m.builtFrom) == Inputs(env, m.comparedTo)
    ensures LoadIndex(env, Written(m, r.waiting).dir) == Ok(m.index)
  {
    hide Inputs, Injective;
    SnapshotsDecideInputs(env, Written(m, r.waiting).dir, m.comparedTo);
  }

  lemma TurnIsSound(env: Env, m: Machine, r: Round, still: bool)
    requires Injective(env.hash) && Sound(env, m, r.waiting == []) && (r.debounce == [] || still)
    ensures Sound(env, Turn(env, m, r), still)
  {
    hide Inputs, SnapshotOf, LoadIndex, Injective;
    if Skips(env, Written(m, r.waiting), r.io) {
      SkipIsCurrent(env, m, r);
    }
  }

  lemma OpeningIsSound(env: Env, s: Story, still: bool)
    requires Initial(env, s.dir).Ok? && s.before == []
    ensures Sound(env, Run(env, Initial(env, s.dir).value, Past(s, 0)), still)
  {
    hide Inputs, Run;
    RunOfOpening(env, Initial(env, s.dir).value, s);
  }

  lemma {:induction false} CalmIsSound(env: Env, s: Story, p: Schedule, n: nat)
    requires Injective(env.hash) && Follows(s, p) && Initial(env, s.dir).Ok? && n < |p.rounds| && CalmUntil(p, n)
    ensures Sound(env, Run(env, Initial(env, s.dir).value, Past(s, n)), s.rounds[n].waiting == [])
  {
    hide Run, Past, Turn, Sound, Injective, Initial;
    if n == 0 {
      OpeningIsSound(env, s, s.rounds[0].waiting == []);
    } else {
      var m := Initial(env, s.dir).value;
      CalmIsSound(env, s, p, n - 1);
      RunOfTurn(env, m, s, n - 1);
      assert |s.rounds[n - 1].debounce| == 0 || |s.rounds[n - 1 + 1].waiting| == 0;
      TurnIsSound(env, Run(env, m, Past(s, n - 1)), s.rounds[n - 1], s.rounds[n].waiting == []);
    }
  }

  lemma TurnIsUpToDate(env: Env, m: Machine, r: Round)
    requires Injective(env.hash) && Sound(env, m, r.waiting == []) && r.debounce == [] && !r.io && !r.loadIo
    ensures IsUpToDate(env, Turn(env, m, r))
  {
    if Skips(env, Written(m, r.waiting), r.io) {
      SkipIsCurrent(env, m, r);
    }
  }

  lemma CalmCatchesUp(p: Schedule, n: nat)
    requires n < |p.rounds| && p.rounds[n].debounce == 0 && CalmUntil(p, n)
    ensures CatchesUp(p, n)
  {
    forall env: Env, s: Story | Injective(env.hash) && Follows(s, p) && Initial(env, s.dir).Ok? && TurnReads(s, n)
      ensures IsUpToDate(env, Run(env, Initial(env, s.dir).value, Past(s, n + 1)))
    {
      hide Run, Past, Sound, Skips, Turn, IsUpToDate, Injective, Initial;
      var m := Initial(env, s.dir).value;
      CalmIsSound(env, s, p, n);
      RunOfTurn(env, m, s, n);
      TurnIsUpToDate(env, Run(env, m, Past(s, n)), s.rounds[n]);
    }
  }

  lemma CalmIsTrustworthy(p: Schedule)
    requires Calm(p)
    ensures Trustworthy(p)
  {
    forall env: Env, s: Story | Injective(env.hash) && Follows(s, p) && Initial(env, s.dir).Ok?
      ensures SkipsAreCurrent(env, s)
    {
      hide Run, Past, Sound, Skips;
      forall n | 0 <= n < |s.rounds| && Skips(env, AtTick(env, s, n), s.rounds[n].io)
        ensures LoadIndex(env, AtTick(env, s, n).dir) == Ok(AtTick(env, s, n).index)
      {
        var m := Run(env, Initial(env, s.dir).value, Past(s, n));
        CalmIsSound(env, s, p, n);
        RunOfTurn(env, Initial(env, s.dir).value, s, n);
        SkipIsCurrent(env, m, s.rounds[n]);
      }
    }
  }

  // ---------------------------------------------------------------- other schedules are not

  const OLD := Holding("old")
  const NEW := Holding("new")

  function Times(n: nat, d: Dir): seq<Dir> {
    seq(n, _ => d)
  }

  lemma ExampleLoads()
    ensures LoadIndex(EXAMPLE, OLD) == Ok(Index([], ["old"])) && LoadIndex(EXAMPLE, NEW) == Ok(Index([], ["new"]))
    ensures SnapshotOf(EXAMPLE, OLD) == Ok(map["a.yaml" := "old"]) && SnapshotOf(EXAMPLE, NEW) == Ok(map["a.yaml" := "new"])
    ensures Injective(EXAMPLE.hash) && Index([], ["old"]) != Index([], ["new"])
    ensures map["a.yaml" := "old"] != map["a.yaml" := "new"]
  {
    ExampleInputs("old");
    ExampleInputs("new");
    assert "old"[0] != "new"[0];
    assert Index([], ["old"]).nodes[0] != Index([], ["new"]).nodes[0];
    assert map["a.yaml" := "old"]["a.yaml"] != map["a.yaml" := "new"]["a.yaml"];
  }

  lemma StaleSkip(p: Schedule, s: Story, n: nat)
    requires Follows(s, p) && Initial(EXAMPLE, s.dir).Ok? && Injective(EXAMPLE.hash) && n < |s.rounds|
    requires Skips(EXAMPLE, AtTick(EXAMPLE, s, n), s.rounds[n].io)
    requires LoadIndex(EXAMPLE, AtTick(EXAMPLE, s, n).dir) != Ok(AtTick(EXAMPLE, s, n).index)
    ensures !Trustworthy(p)
  {
    hide Skips, LoadIndex, AtTick, Initial, Injective, Follows;
    assert !SkipsAreCurrent(EXAMPLE, s);
  }

  function Early(p: Schedule): Story {
    Story(OLD, Times(p.before, NEW), false,
          seq(|p.rounds|, k requires 0 <= k < |p.rounds| =>
            Round(Times(p.rounds[k].waiting, NEW), false, Times(p.rounds[k].debounce, NEW), false)))
  }

  /** A write before the first snapshot is in the snapshot and not in the index. */
  lemma EarlyWriteIsMissed(p: Schedule)
    requires p.before > 0 && p.rounds != []
    ensures !Trustworthy(p)
  {
    ExampleLoads();
    hide SnapshotOf, LoadIndex, Run, Past, Injective, OLD, NEW, Trustworthy;
    var s := Early(p);
    var m0 := Initial(EXAMPLE, OLD).value;
    RunOfOpening(EXAMPLE, m0, s);
    RunOfTurn(EXAMPLE, m0, s, 0);
    StaleSkip(p, s, 0);
  }

  /** The machine as long as every read has failed: the first index, and an error. */
  function Failing(): Machine {
    Machine(OLD, Index([], ["old"]), true, None, None, true, OLD, OLD, OLD)
  }

  /** A story in which every snapshot fails before turn `n`; there the old content is snapshot and the new one loaded. */
  function Reverted(p: Schedule, n: nat): Story {
    Story(OLD, Times(p.before, OLD), true,
          seq(|p.rounds|, k requires 0 <= k < |p.rounds| =>
            Round(Times(p.rounds[k].waiting, OLD), k < n, Times(p.rounds[k].debounce, if k == n then NEW else OLD), false)))
  }

  lemma {:induction false} FailsUntil(p: Schedule, n: nat, k: nat)
    requires k <= n < |p.rounds|
    ensures Initial(EXAMPLE, OLD).Ok?
    ensures Run(EXAMPLE, Initial(EXAMPLE, OLD).value, Past(Reverted(p, n), k)) == Failing()
  {
    ExampleLoads();
    hide SnapshotOf, LoadIndex, Run, Past, OLD, NEW;
    var s := Reverted(p, n);
    var m0 := Initial(EXAMPLE, OLD).value;
    if k == 0 {
      RunOfOpening(EXAMPLE, m0, s);
    } else {
      FailsUntil(p, n, k - 1);
      RunOfTurn(EXAMPLE, m0, s, k - 1);
    }
  }

  /** Turn `n` of that story loads the new content and compares with the old one from then on. */
  lemma LoadsReverted(p: Schedule, n: nat)
    requires n < |p.rounds| && p.rounds[n].debounce > 0
    ensures Turn(EXAMPLE, Failing(), Reverted(p, n).rounds[n])
            == Machine(NEW, Index([], ["new"]), false, Some(map["a.yaml" := "old"]), None, true, NEW, OLD, OLD)
  {
    ExampleLoads();
    hide SnapshotOf, LoadIndex, OLD, NEW;
  }

  lemma RevertedShape(p: Schedule, n: nat)
    requires n < |p.rounds| - 1 && p.rounds[n + 1].waiting > 0
    ensures var s := Reverted(p, n);
            && Follows(s, p) && s.dir == OLD && !s.rounds[n + 1].io
            && forall m :: Written(m, s.rounds[n + 1].waiting) == m.(dir := OLD)
  {
    hide OLD, NEW;
  }

  lemma AtReverted(p: Schedule, n: nat)
    requires n < |p.rounds| - 1 && p.rounds[n].debounce > 0 && p.rounds[n + 1].waiting > 0
    ensures Initial(EXAMPLE, OLD).Ok? && |Reverted(p, n).rounds| == |p.rounds| && Reverted(p, n).dir == OLD
    ensures AtTick(EXAMPLE, Reverted(p, n), n + 1)
            == Machine(OLD, Index([], ["new"]), false, Some(map["a.yaml" := "old"]), None, true, NEW, OLD, OLD)
  {
    hide SnapshotOf, LoadIndex, Run, Past, OLD, NEW, Turn, Failing, Reverted, Written, Initial;
    FailsUntil(p, n, n);
    LoadsReverted(p, n);
    RevertedShape(p, n);
    var s, m0 := Reverted(p, n), Initial(EXAMPLE, OLD).value;
    RunOfTurn(EXAMPLE, m0, s, n);
    RunOfTurn(EXAMPLE, m0, s, n + 1);
  }

  /** A write during the debounce, reverted while waiting for the next tick, is missed. */
  lemma RevertedDebounceIsMissed(p: Schedule, n: nat)
    requires n < |p.rounds| - 1 && p.rounds[n].debounce > 0 && p.rounds[n + 1].waiting > 0
    ensures !Trustworthy(p)
  {
    ExampleLoads();
    hide SnapshotOf, LoadIndex, AtTick, Injective, OLD, NEW, Trustworthy, Reverted, Initial;
    RevertedShape(p, n);
    AtReverted(p, n);
    StaleSkip(p, Reverted(p, n), n + 1);
  }

  /** The schedules of writes under which skipped ticks can be trusted, whatever is written and whichever reads fail:
      exactly the calm ones. */
  lemma TrustworthyIffCalm(p: Schedule)
    ensures Trustworthy(p) <==> Calm(p)
  {
    if Calm(p) {
      CalmIsTrustworthy(p);
    } else if p.before > 0 && p.rounds != [] {
      EarlyWriteIsMissed(p);
    } else {
      var n :| 0 <= n < |p.rounds| - 1 && p.rounds[n].debounce != 0 && p.rounds[n + 1].waiting != 0;
      RevertedDebounceIsMissed(p, n);
    }
  }

  // ---------------------------------------------------------------- which schedules catch up

  /** Nothing but `d` is written in the round. */
  predicate WritesOnly(r: Round, d: Dir) {
    (forall x :: x in r.waiting ==> x == d) && forall x :: x in r.debounce ==> x == d
  }

  lemma SameWrites(m: Machine, dirs: seq<Dir>)
    requires forall x :: x in dirs ==> x == m.dir
    ensures Written(m, dirs) == m
  {
    if dirs != [] {
      assert dirs[|dirs| - 1] in dirs;
    }
  }

  lemma SkippedTurn(env: Env, before: Machine, m: Machine, r: Round)
    requires Written(before, r.waiting) == m && Skips(env, m, r.io) && WritesOnly(r, m.dir)
    ensures Turn(env, before, r) == m
  {
    hide SnapshotOf, LoadIndex;
    SameWrites(m, r.debounce);
  }

  lemma SkipsOnce(env: Env, m0: Machine, m: Machine, s: Story, n: nat)
    requires n < |s.rounds| && Run(env, m0, Past(s, n)) == m && Skips(env, m, false)
    requires WritesOnly(s.rounds[n], m.dir) && !s.rounds[n].io
    ensures Run(env, m0, Past(s, n + 1)) == m
  {
    SameWrites(m, s.rounds[n].waiting);
    hide Run, Past, Turn, Skips;
    RunOfTurn(env, m0, s, n);
    SkippedTurn(env, m, m, s.rounds[n]);
  }

  /** A machine that skips goes on skipping as long as nothing else is written. */
  lemma {:induction false} GoesOnSkipping(env: Env, m0: Machine, m: Machine, s: Story, from: nat, n: nat)
    requires from <= n <= |s.rounds| && Run(env, m0, Past(s, from)) == m && Skips(env, m, false)
    requires forall k :: from <= k < n ==> WritesOnly(s.rounds[k], m.dir) && !s.rounds[k].io
    ensures Run(env, m0, Past(s, n)) == m
    decreases n
  {
    hide *;
    if from == n {
    } else {
      GoesOnSkipping(env, m0, m, s, from, n - 1);
      SkipsOnce(env, m0, m, s, n - 1);
    }
  }

  lemma Misses(p: Schedule, s: Story, n: nat)
    requires n < |p.rounds| && Follows(s, p) && Initial(EXAMPLE, s.dir).Ok? && Injective(EXAMPLE.hash) && TurnReads(s, n)
    requires !IsUpToDate(EXAMPLE, Run(EXAMPLE, Initial(EXAMPLE, s.dir).value, Past(s, n + 1)))
    ensures !CatchesUp(p, n)
  {}

  lemma EarlyWriteStays(p: Schedule, n: nat)
    requires p.before > 0 && n < |p.rounds|
    ensures !CatchesUp(p, n)
  {
    ExampleLoads();
    hide SnapshotOf, LoadIndex, Run, Past, Injective, OLD, NEW, CatchesUp;
    var s := Early(p);
    var m0 := Initial(EXAMPLE, OLD).value;
    RunOfOpening(EXAMPLE, m0, s);
    var m := Run(EXAMPLE, m0, Past(s, 0));
    GoesOnSkipping(EXAMPLE, m0, m, s, 0, n + 1);
    Misses(p, s, n);
  }

  /** A story in which nothing changes before the debounce of turn `n`. */
  function Late(p: Schedule, n: nat): Story {
    Story(OLD, Times(p.before, OLD), false,
          seq(|p.rounds|, k requires 0 <= k < |p.rounds| =>
            Round(Times(p.rounds[k].waiting, OLD), false, Times(p.rounds[k].debounce, if k == n then NEW else OLD), false)))
  }

  lemma LateWriteStays(p: Schedule, n: nat)
    requires n < |p.rounds| && p.rounds[n].debounce > 0
    ensures !CatchesUp(p, n)
  {
    ExampleLoads();
    hide SnapshotOf, LoadIndex, Run, Past, Injective, OLD, NEW, CatchesUp;
    var s := Late(p, n);
    var m0 := Initial(EXAMPLE, OLD).value;
    RunOfOpening(EXAMPLE, m0, s);
    var m := Run(EXAMPLE, m0, Past(s, 0));
    GoesOnSkipping(EXAMPLE, m0, m, s, 0, n);
    RunOfTurn(EXAMPLE, m0, s, n);
    assert Turn(EXAMPLE, m, s.rounds[n]) == m.(dir := NEW);
    Misses(p, s, n);
  }

  /** The machine of that story once the old content is back. */
  function Stuck(): Machine {
    Machine(OLD, Index([], ["new"]), false, Some(map["a.yaml" := "old"]), None, true, NEW, OLD, OLD)
  }

  lemma StuckSkips()
    ensures Stuck().dir == OLD && Skips(EXAMPLE, Stuck(), false) && !IsUpToDate(EXAMPLE, Stuck())
    ensures Injective(EXAMPLE.hash) && Initial(EXAMPLE, OLD).Ok?
  {
    ExampleLoads();
  }

  lemma StuckAfterRevert(p: Schedule, k: nat)
    requires k < |p.rounds| - 1 && p.rounds[k].debounce > 0 && p.rounds[k + 1].waiting > 0
    ensures Initial(EXAMPLE, OLD).Ok? && |Reverted(p, k).rounds| == |p.rounds|
    ensures Run(EXAMPLE, Initial(EXAMPLE, OLD).value, Past(Reverted(p, k), k + 2)) == Stuck()
  {
    var s := Reverted(p, k);
    RevertedShape(p, k);
    RevertedAfter(p, k, k + 1);
    StuckSkips();
    hide SnapshotOf, LoadIndex, Run, Past, OLD, NEW, Turn, Reverted, Initial, WritesOnly, Skips, IsUpToDate;
    AtReverted(p, k);
    var m0 := Initial(EXAMPLE, OLD).value;
    RunOfTurn(EXAMPLE, m0, s, k + 1);
    SkippedTurn(EXAMPLE, Run(EXAMPLE, m0, Past(s, k + 1)), Stuck(), s.rounds[k + 1]);
  }

  lemma RevertedWriteStays(p: Schedule, k: nat, n: nat)
    requires k < n < |p.rounds| && p.rounds[k].debounce > 0 && p.rounds[k + 1].waiting > 0
    ensures !CatchesUp(p, n)
  {
    hide *;
    var s := Reverted(p, k);
    RevertedShape(p, k);
    RevertedAfter(p, k, n);
    StuckSkips();
    StuckAfterRevert(p, k);
    GoesOnSkipping(EXAMPLE, Initial(EXAMPLE, OLD).value, Stuck(), s, k + 2, n + 1);
    Misses(p, s, n);
  }

  lemma RevertedAfter(p: Schedule, k: nat, n: nat)
    requires k < n < |p.rounds|
    ensures var s := Reverted(p, k); TurnReads(s, n) && forall j :: k < j <= n ==> WritesOnly(s.rounds[j], OLD) && !s.rounds[j].io
  {
    hide OLD, NEW;
  }

  /** When the watcher catches up: after a turn whose reads succeed the index is that of the directory, whatever was written
      and whatever failed before, exactly when nothing was written during its debounce and the schedule was calm until then. */
  lemma CatchesUpIffCalm(p: Schedule, n: nat)
    requires n < |p.rounds|
    ensures CatchesUp(p, n) <==> p.rounds[n].debounce == 0 && CalmUntil(p, n)
  {
    hide CatchesUp;
    if p.rounds[n].debounce != 0 {
      LateWriteStays(p, n);
    } else if CalmUntil(p, n) {
      CalmCatchesUp(p, n);
    } else if p.before > 0 {
      EarlyWriteStays(p, n);
    } else {
      var k :| 0 <= k < n && p.rounds[k].debounce != 0 && p.rounds[k + 1].waiting != 0;
      RevertedWriteStays(p, k, n);
    }
  }
}

/** The reload state machine of the subscription server (internal/subserver/server.go): an index that is
    served, and a watcher that polls the input directory and reloads it while others write to it. */
module InputWatcher {
  import opened Wrappers

  type Bytes = string

  /** The regular files of the input directory, or None when it cannot be read at all. */
  type Dir = Option<map<string, Bytes>>

  /** snapshotInputDir: file names to content hashes. */
  type Snapshot = map<string, string>

  datatype Index = Index(sources: seq<string>, nodes: seq<string>)

  /** What the watcher relies on: which names are inputs (IsInputFileName, not ShouldIgnoreInputName),
      which of them are acceptable (ValidateSubscriptionInputFilename), SHA-256, and decoding,
      validating and indexing a set of inputs. */
  datatype Env = Env(isInput: string -> bool, acceptable: string -> bool, hash: Bytes -> string,
                     build: map<string, Bytes> -> Result<Index>)

  ghost predicate Injective(hash: Bytes -> string) {
    forall a, b :: hash(a) == hash(b) ==> a == b
  }

  /** The inputs in the directory, if it can be read and every input has an acceptable name. */
  function Inputs(env: Env, dir: Dir): Result<map<string, Bytes>> {
    match dir
    case None => Err
    case Some(files) =>
      var inputs := map name | name in files && env.isInput(name) :: files[name];
      if forall name :: name in inputs ==> env.acceptable(name) then Ok(inputs) else Err
  }

  /** snapshotInputDir */
  function SnapshotOf(env: Env, dir: Dir): Result<Snapshot> {
    match Inputs(env, dir)
    case Err => Err
    case Ok(inputs) => Ok(map name | name in inputs :: env.hash(inputs[name]))
  }

  /** LoadIndexFromDir */
  function LoadIndex(env: Env, dir: Dir): Result<Index> {
    match Inputs(env, dir)
    case Err => Err
    case Ok(inputs) => env.build(inputs)
  }

  /** A directory is read exactly when it is there and every input in it has an acceptable name; the snapshot has the hash of each
      input and of nothing else, and the index is built from just these. */
  lemma InputsAre(env: Env, dir: Dir)
    ensures SnapshotOf(env, dir).Ok? <==>
              dir.Some? && forall name :: name in dir.value && env.isInput(name) ==> env.acceptable(name)
    ensures SnapshotOf(env, dir).Ok? ==>
              var s := SnapshotOf(env, dir).value;
              && (forall name :: name in s <==> name in dir.value && env.isInput(name))
              && forall name :: name in s ==> s[name] == env.hash(dir.value[name])
    ensures LoadIndex(env, dir).Ok? ==>
              && SnapshotOf(env, dir).Ok?
              && LoadIndex(env, dir) == env.build(map name | name in dir.value && env.isInput(name) :: dir.value[name])
  {
    if dir.Some? {
      assert Inputs(env, dir).Ok? ==>
               Inputs(env, dir).value == map name | name in dir.value && env.isInput(name) :: dir.value[name];
    }
  }

  /** Equal snapshots mean equal inputs. */
  lemma SnapshotsDecideInputs(env: Env, a: Dir, b: Dir)
    requires Injective(env.hash) && SnapshotOf(env, a).Ok? && SnapshotOf(env, a) == SnapshotOf(env, b)
    ensures Inputs(env, a) == Inputs(env, b)
  {
    var i, j := Inputs(env, a).value, Inputs(env, b).value;
    var s, t := SnapshotOf(env, a).value, SnapshotOf(env, b).value;
    assert i.Keys == s.Keys == t.Keys == j.Keys;
    forall name | name in i
      ensures i[name] == j[name]
    {
      assert s[name] == t[name];
    }
    assert i == j;
  }

  // ---------------------------------------------------------------- the machine

  /** The server and the directory.  `builtFrom` and `comparedTo` are the directory at the moment the
      served index was loaded and at the moment the snapshot in `previous` was taken. */
  datatype Machine = Machine(dir: Dir, index: Index, failed: bool, previous: Option<Snapshot>, pending: Option<Snapshot>,
                             started: bool, builtFrom: Dir, comparedTo: Dir, pendingDir: Dir)

  /** What can happen next.  `io` says that reading the directory fails for some other reason. */
  datatype Event =
    | Write(dir: Dir)       // somebody changes the directory
    | Start(io: bool)       // the first snapshot of watchInputs
    | Tick(io: bool)        // a snapshot; unless nothing changed, the debounce wait begins
    | Reload(io: bool)      // the debounce wait is over

  /** New: the directory is loaded once. */
  function Initial(env: Env, dir: Dir): Result<Machine> {
    match LoadIndex(env, dir)
    case Err => Err
    case Ok(index) => Ok(Machine(dir, index, false, None, None, false, dir, dir, dir))
  }

  function Read<T>(r: Result<T>, io: bool): Result<T> {
    if io then Err else r
  }

  predicate Skips(env: Env, m: Machine, io: bool) {
    var current := Read(SnapshotOf(env, m.dir), io);
    m.started && m.pending.None? && current.Ok? && m.previous == Some(current.value) && !m.failed
  }

  function Step(env: Env, m: Machine, e: Event): Machine {
    match e
    case Write(dir) => m.(dir := dir)
    case Start(io) =>
      if m.started then m
      else (match Read(SnapshotOf(env, m.dir), io)
            case Err => m.(started := true, failed := true)
            case Ok(s) => m.(started := true, previous := Some(s), comparedTo := m.dir))
    case Tick(io) =>
      if !m.started || m.pending.Some? then m
      else (match Read(SnapshotOf(env, m.dir), io)
            case Err => m.(failed := true)
            case Ok(s) => if Skips(env, m, io) then m else m.(pending := Some(s), pendingDir := m.dir))
    case Reload(io) =>
      if m.pending.None? then m
      else (match Read(LoadIndex(env, m.dir), io)
            case Err => m.(failed := true, pending := None)
            case Ok(index) => m.(index := index, failed := false, previous := m.pending, pending := None,
                                 builtFrom := m.dir, comparedTo := m.pendingDir))
  }

  function Run(env: Env, m: Machine, events: seq<Event>): Machine {
    if events == [] then m else Step(env, Run(env, m, events[..|events| - 1]), events[|events| - 1])
  }

  /** Every content that the directory has had. */
  function Contents(m: Machine, events: seq<Event>): set<Dir> {
    {m.dir} + set e | e in events && e.Write? :: e.dir
  }

  // ---------------------------------------------------------------- the imperative form

  /** State: the index and whether the last reload failed. */
  class State {
    var index: Index
    var failed: bool

    constructor (index: Index)
      ensures this.index == index && !failed
    {
      this.index, failed := index, false;
    }

    method Replace(index: Index)
      modifies this
      ensures this.index == index && !failed
    {
      this.index, failed := index, false;
    }

    method MarkReloadError()
      modifies this
      ensures failed && index == old(index)
    {
      failed := true;
    }
  }

  /** The loop of watchInputs, cut at the debounce wait, where other goroutines and programs run. */
  class Watcher {
    const env: Env
    const state: State
    var previous: Option<Snapshot>
    var pending: Option<Snapshot>
    var started: bool

    constructor (env: Env, state: State)
      ensures this.env == env && this.state == state && previous == None && pending == None && !started
    {
      this.env, this.state, previous, pending, started := env, state, None, None, false;
    }

    /** The fields are those of machine `m`. */
    ghost predicate Shows(m: Machine)
      reads this, state
    {
      state.index == m.index && state.failed == m.failed && previous == m.previous && pending == m.pending && started == m.started
    }

    method StartWatching(dir: Dir, io: bool, ghost m: Machine)
      requires Shows(m) && m.dir == dir && !started
      modifies this, state
      ensures Shows(Step(env, m, Start(io)))
    {
      var current := Read(SnapshotOf(env, dir), io);
      if current.Err? {
        state.MarkReloadError();
      } else {
        previous := Some(current.value);
      }
      started := true;
    }

    method OnTick(dir: Dir, io: bool, ghost m: Machine)
      requires Shows(m) && m.dir == dir && started && pending.None?
      modifies this, state
      ensures Shows(Step(env, m, Tick(io)))
    {
      var current := Read(SnapshotOf(env, dir), io);
      if current.Err? {
        state.MarkReloadError();
        return;
      }
      if previous == Some(current.value) && !state.failed {
        return;
      }
      pending := Some(current.value);
    }

    method OnDebounced(dir: Dir, io: bool, ghost m: Machine)
      requires Shows(m) && m.dir == dir && pending.Some?
      modifies this, state
      ensures Shows(Step(env, m, Reload(io)))
    {
      var loaded := Read(LoadIndex(env, dir), io);
      if loaded.Err? {
        state.MarkReloadError();
      } else {
        state.Replace(loaded.value);
        previous := pending;
      }
      pending := None;
    }
  }

  // ---------------------------------------------------------------- properties of every run

  /** What holds after any events: the index was loaded from `builtFrom`, the snapshot was taken of
      `comparedTo`, and the directory really had both. */
  ghost predicate Inv(env: Env, m: Machine, contents: set<Dir>) {
    && m.dir in contents && m.builtFrom in contents && m.comparedTo in contents && m.pendingDir in contents
    && LoadIndex(env, m.builtFrom) == Ok(m.index)
    && (m.previous.Some? ==> SnapshotOf(env, m.comparedTo) == Ok(m.previous.value))
    && (m.pending.Some? ==> SnapshotOf(env, m.pendingDir) == Ok(m.pending.value))
  }

  lemma StepKeepsInv(env: Env, m: Machine, contents: set<Dir>, e: Event)
    requires Inv(env, m, contents)
    ensures Inv(env, Step(env, m, e), contents + if e.Write? then {e.dir} else {})
  {
    hide SnapshotOf, LoadIndex, Inputs;
  }

  lemma {:induction false} RunKeepsInv(env: Env, dir: Dir, events: seq<Event>)
    requires Initial(env, dir).Ok?
    ensures Inv(env, Run(env, Initial(env, dir).value, events), Contents(Initial(env, dir).value, events))
  {
    if events == [] {
    } else {
      hide SnapshotOf, LoadIndex, Inputs, Step, Inv;
      var n := |events| - 1;
      var m := Initial(env, dir).value;
      RunKeepsInv(env, dir, events[..n]);
      StepKeepsInv(env, Run(env, m, events[..n]), Contents(m, events[..n]), events[n]);
      assert events == events[..n] + [events[n]];
      assert Contents(m, events) == Contents(m, events[..n]) + if events[n].Write? then {events[n].dir} else {};
    }
  }

  /** The served index is always a successful load of a content that the directory has had. */
  lemma ServedIndexIsValid(env: Env, dir: Dir, events: seq<Event>)
    requires Initial(env, dir).Ok?
    ensures var m := Initial(env, dir).value;
            exists d :: d in Contents(m, events) && LoadIndex(env, d) == Ok(Run(env, m, events).index)
  {
    RunKeepsInv(env, dir, events);
  }

  /** Only a successful load changes the index, and then it is that load. */
  lemma OnlyLoadsChangeTheIndex(env: Env, m: Machine, e: Event)
    ensures Step(env, m, e).index != m.index ==> e.Reload? && m.pending.Some? && !e.io && LoadIndex(env, m.dir) == Ok(Step(env, m, e).index)
    ensures e.Reload? && m.pending.Some? && Read(LoadIndex(env, m.dir), e.io).Err? ==>
              Step(env, m, e).index == m.index && Step(env, m, e).failed
  {}

  /** A snapshot or a load that the watcher makes does not succeed. */
  predicate Fails(env: Env, m: Machine, e: Event) {
    match e
    case Write(_) => false
    case Start(io) => !m.started && (io || SnapshotOf(env, m.dir).Err?)
    case Tick(io) => m.started && m.pending.None? && (io || SnapshotOf(env, m.dir).Err?)
    case Reload(io) => m.pending.Some? && (io || LoadIndex(env, m.dir).Err?)
  }

  predicate LoadSucceeds(env: Env, m: Machine, e: Event) {
    e.Reload? && m.pending.Some? && !e.io && LoadIndex(env, m.dir).Ok?
  }

  /** Event `k` failed, and no load after it succeeded. */
  ghost predicate ErrorSince(env: Env, m: Machine, events: seq<Event>, k: nat) {
    && k < |events| && Fails(env, Run(env, m, events[..k]), events[k])
    && forall j :: k < j < |events| ==> !LoadSucceeds(env, Run(env, m, events[..j]), events[j])
  }

  lemma ErrorSinceBefore(env: Env, m: Machine, events: seq<Event>, k: nat)
    requires k < |events| - 1
    ensures var n := |events| - 1;
            ErrorSince(env, m, events, k)
            <==> ErrorSince(env, m, events[..n], k) && !LoadSucceeds(env, Run(env, m, events[..n]), events[n])
  {
    hide Run, Fails, LoadSucceeds;
    var n := |events| - 1;
    assert forall j :: 0 <= j < n ==> events[..n][..j] == events[..j] && events[..n][j] == events[j];
  }

  /** Over every run, the state shows an error exactly when something failed and no load has succeeded since. */
  lemma {:induction false} FailedIff(env: Env, m: Machine, events: seq<Event>)
    requires !m.failed
    ensures Run(env, m, events).failed <==> exists k: nat :: ErrorSince(env, m, events, k)
  {
    if events == [] {
    } else {
      var n := |events| - 1;
      FailedIff(env, m, events[..n]);
      FailedStep(env, Run(env, m, events[..n]), events[n]);
      assert ErrorSince(env, m, events, n) <==> Fails(env, Run(env, m, events[..n]), events[n]);
      forall k: nat | k < n
        ensures ErrorSince(env, m, events, k)
                <==> ErrorSince(env, m, events[..n], k) && !LoadSucceeds(env, Run(env, m, events[..n]), events[n])
      {
        ErrorSinceBefore(env, m, events, k);
      }
      assert forall k: nat :: ErrorSince(env, m, events, k) ==> k <= n;
      assert forall k: nat :: ErrorSince(env, m, events[..n], k) ==> k < n;
      hide Fails, LoadSucceeds, Step, ErrorSince;
      assert Run(env, m, events) == Step(env, Run(env, m, events[..n]), events[n]);
    }
  }

  lemma FailedStep(env: Env, m: Machine, e: Event)
    ensures Step(env, m, e).failed <==> Fails(env, m, e) || (m.failed && !LoadSucceeds(env, m, e))
    ensures Fails(env, m, e) ==> !LoadSucceeds(env, m, e)
  {}

  /** After a failure no tick is skipped: whatever the inputs are, a tick whose snapshot can be taken starts a reload. */
  lemma FailureIsRetried(env: Env, m: Machine)
    requires m.failed && m.started && m.pending.None? && SnapshotOf(env, m.dir).Ok?
    ensures var waiting := Step(env, m, Tick(false));
            var after := Step(env, waiting, Reload(false));
            && waiting.pending == Some(SnapshotOf(env, m.dir).value)
            && (LoadIndex(env, m.dir).Ok? ==> !after.failed && after.index == LoadIndex(env, m.dir).value)
  {}

  /** No load from event `from` on succeeds. */
  ghost predicate LoadsFail(env: Env, m: Machine, events: seq<Event>, from: nat) {
    forall k :: from <= k < |events| && events[k].Reload? && Run(env, m, events[..k]).pending.Some? ==>
      Read(LoadIndex(env, Run(env, m, events[..k]).dir), events[k].io).Err?
  }

  /** Over every run, whatever fails after it, the index that was served at some point goes on being served until a load
      succeeds. */
  lemma {:induction false} FailedLoadsKeepTheIndex(env: Env, m: Machine, events: seq<Event>, from: nat)
    requires from <= |events| && LoadsFail(env, m, events, from)
    ensures Run(env, m, events).index == Run(env, m, events[..from]).index
  {
    if from == |events| {
      assert events[..from] == events;
    } else {
      hide LoadIndex, Step;
      var n := |events| - 1;
      forall k | from <= k < n
        ensures events[..n][..k] == events[..k] && events[..n][k] == events[k]
      {}
      FailedLoadsKeepTheIndex(env, m, events[..n], from);
      assert events[..n][..from] == events[..from];
      OnlyLoadsChangeTheIndex(env, Run(env, m, events[..n]), events[n]);
    }
  }

  /** So what is served is the last load that succeeded. */
  lemma LastLoadIsServed(env: Env, m: Machine, events: seq<Event>, last: nat)
    requires last < |events| && events[last].Reload? && Run(env, m, events[..last]).pending.Some?
    requires LoadsFail(env, m, events, last + 1)
    ensures var loaded := Read(LoadIndex(env, Run(env, m, events[..last]).dir), events[last].io);
            loaded.Ok? ==> Run(env, m, events).index == loaded.value
  {
    FailedLoadsKeepTheIndex(env, m, events, last + 1);
    assert events[..last + 1][..last] == events[..last];
    assert Run(env, m, events[..last + 1]) == Step(env, Run(env, m, events[..last]), events[last]);
  }

  /** A tick skips reloading with the inputs that the index was built from, exactly when the inputs at the
      last load were those at the snapshot before it. */
  lemma SkipIsCurrentIff(env: Env, dir: Dir, events: seq<Event>, io: bool)
    requires Injective(env.hash) && Initial(env, dir).Ok?
    requires Skips(env, Run(env, Initial(env, dir).value, events), io)
    ensures var m := Run(env, Initial(env, dir).value, events);
            Inputs(env, m.dir) == Inputs(env, m.builtFrom) <==> Inputs(env, m.comparedTo) == Inputs(env, m.builtFrom)
    ensures var m := Run(env, Initial(env, dir).value, events);
            Inputs(env, m.comparedTo) == Inputs(env, m.builtFrom) ==> LoadIndex(env, m.dir) == Ok(m.index)
  {
    var m := Run(env, Initial(env, dir).value, events);
    RunKeepsInv(env, dir, events);
    SnapshotsDecideInputs(env, m.dir, m.comparedTo);
  }

  /** Nobody writes between a snapshot and the load that follows it, nor before the first snapshot. */
  ghost predicate Quiet(env: Env, m: Machine, events: seq<Event>) {
    forall k :: 0 <= k < |events| && events[k].Write? ==>
      var before := Run(env, m, events[..k]);
      before.started && before.pending.None?
  }

  /** What a quiet run keeps. */
  ghost predicate ComparesWhatItLoads(m: Machine) {
    && (m.previous.Some? ==> m.comparedTo == m.builtFrom)
    && (!m.started ==> m.dir == m.builtFrom && m.previous.None? && m.pending.None?)
    && (m.pending.Some? ==> m.pendingDir == m.dir)
  }

  lemma QuietStep(env: Env, m: Machine, e: Event)
    requires ComparesWhatItLoads(m) && (e.Write? ==> m.started && m.pending.None?)
    ensures ComparesWhatItLoads(Step(env, m, e))
  {
    hide SnapshotOf, LoadIndex;
  }

  lemma {:induction false} QuietRunsCompareWhatTheyLoad(env: Env, dir: Dir, events: seq<Event>)
    requires Initial(env, dir).Ok? && Quiet(env, Initial(env, dir).value, events)
    ensures ComparesWhatItLoads(Run(env, Initial(env, dir).value, events))
  {
    if events == [] {
    } else {
      var n := |events| - 1;
      hide Initial, Step, ComparesWhatItLoads;
      assert forall k :: 0 <= k < n ==> events[..n][..k] == events[..k] && events[..n][k] == events[k];
      QuietRunsCompareWhatTheyLoad(env, dir, events[..n]);
      QuietStep(env, Run(env, Initial(env, dir).value, events[..n]), events[n]);
    }
  }

  /** In a quiet run, a skipped tick means that the served index is that of the directory as it is. */
  lemma QuietSkipIsCurrent(env: Env, dir: Dir, events: seq<Event>, io: bool)
    requires Injective(env.hash) && Initial(env, dir).Ok? && Quiet(env, Initial(env, dir).value, events)
    requires Skips(env, Run(env, Initial(env, dir).value, events), io)
    ensures var m := Run(env, Initial(env, dir).value, events);
            LoadIndex(env, m.dir) == Ok(m.index)
  {
    QuietRunsCompareWhatTheyLoad(env, dir, events);
    SkipIsCurrentIff(env, dir, events, io);
  }

  /** A one-file server whose index is that file. */
  const EXAMPLE := Env(name => true, name => true, bytes => bytes,
                       files => if "a.yaml" in files then Ok(Index([], [files["a.yaml"]])) else Err)

  function Holding(content: Bytes): Dir {
    Some(map["a.yaml" := content])
  }

  /** The inputs change during the debounce wait and change back after the load: the index of the content
      in between is served, and every later tick skips. */
  lemma RevertedWriteIsMissed()
    ensures var m := Run(EXAMPLE, Initial(EXAMPLE, Holding("old")).value,
                         [Start(false), Write(Holding("new")), Tick(false), Write(Holding("draft")), Reload(false), Write(Holding("new"))]);
            Skips(EXAMPLE, m, false) && LoadIndex(EXAMPLE, m.dir) != Ok(m.index)
  {
    var events := [Start(false), Write(Holding("new")), Tick(false), Write(Holding("draft")), Reload(false), Write(Holding("new"))];
    var m0 := Initial(EXAMPLE, Holding("old")).value;
    var m1 := Step(EXAMPLE, m0, events[0]);
    var m2 := Step(EXAMPLE, m1, events[1]);
    var m3 := Step(EXAMPLE, m2, events[2]);
    var m4 := Step(EXAMPLE, m3, events[3]);
    var m5 := Step(EXAMPLE, m4, events[4]);
    var m6 := Step(EXAMPLE, m5, events[5]);
    ExampleInputs("old");
    ExampleInputs("new");
    ExampleInputs("draft");
    assert "old" != "new" && "new" != "draft";
    assert m1.previous == Some(map["a.yaml" := "old"]);
    assert map["a.yaml" := "old"]["a.yaml"] != map["a.yaml" := "new"]["a.yaml"];
    assert m3.pending == Some(map["a.yaml" := "new"]);
    assert m5.previous == m3.pending && m5.index == Index([], ["draft"]);
    RunOfSix(EXAMPLE, m0, events);
    assert LoadIndex(EXAMPLE, m6.dir) == Ok(Index([], ["new"]));
    assert Index([], ["new"]).nodes[0] != Index([], ["draft"]).nodes[0];
  }

  lemma ExampleInputs(content: Bytes)
    ensures Inputs(EXAMPLE, Holding(content)) == Ok(map["a.yaml" := content])
    ensures SnapshotOf(EXAMPLE, Holding(content)) == Ok(map["a.yaml" := content])
  {
    var files := map["a.yaml" := content];
    assert (map name | name in files && EXAMPLE.isInput(name) :: files[name]) == files;
    assert (map name | name in files :: EXAMPLE.hash(files[name])) == files;
  }

  lemma RunOfSix(env: Env, m: Machine, e: seq<Event>)
    requires |e| == 6
    ensures Run(env, m, e)
            == Step(env, Step(env, Step(env, Step(env, Step(env, Step(env, m, e[0]), e[1]), e[2]), e[3]), e[4]), e[5])
  {
    hide Step;
    assert Run(env, m, e[..0]) == m;
    assert e[..1][..0] == e[..0] && Run(env, m, e[..1]) == Step(env, m, e[0]);
    assert e[..2][..1] == e[..1] && Run(env, m, e[..2]) == Step(env, Run(env, m, e[..1]), e[1]);
    assert e[..3][..2] == e[..2] && Run(env, m, e[..3]) == Step(env, Run(env, m, e[..2]), e[2]);
    assert e[..4][..3] == e[..3] && Run(env, m, e[..4]) == Step(env, Run(env, m, e[..3]), e[3]);
    assert e[..5][..4] == e[..4] && Run(env, m, e[..5]) == Step(env, Run(env, m, e[..4]), e[4]);
  }
}

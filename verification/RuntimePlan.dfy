/** Planning: comparing what should be generated with the manifest and the disk (internal/runtime/plan.go). */
module RuntimePlan {
  import opened Wrappers
  import opened Text
  import opened Sorting
  import opened RuntimeManifest

  /** The global configuration: its directories and its stable JSON encoding. */
  datatype Global = Global(dirs: Dirs, encoding: Bytes)

  /** An instance: its name, whether it is enabled, and its stable JSON encoding. */
  datatype Instance = Instance(name: string, enabled: bool, encoding: Bytes)

  /** SHA-256 in hex, and the configuration generator. */
  datatype Env = Env(hash: Bytes -> string, generate: (Global, seq<Instance>, Instance) -> Result<Bytes>)

  ghost predicate GoodHash(env: Env) {
    && (forall a, b :: env.hash(a) == env.hash(b) ==> a == b)
    && forall a :: !Blank(env.hash(a))
  }

  datatype DesiredFile = DesiredFile(entry: ManifestFile, data: Bytes)

  datatype Action = Create | Update | Delete | NoChange

  datatype Change = Change(action: Action, entry: ManifestFile, data: Bytes)

  /** All instances, or the one named by the target. */
  datatype Scope = Full | Only(name: string) {
    predicate Has(instance: string) {
      Full? || name == instance
    }
  }

  datatype PlanValue = PlanValue(dirs: Dirs, configSha: string, instanceSha: map<string, string>, scope: Scope,
                                 existing: Option<Manifest>, desired: seq<DesiredFile>, changes: seq<Change>) {
    /** HasChanges */
    predicate HasChanges() {
      exists c :: c in changes && c.action != NoChange
    }
  }

  /** The managed part of a host: the files, and the manifest beside them. */
  datatype HostValue = HostValue(files: map<string, Bytes>, manifest: Option<Manifest>)

  // ---------------------------------------------------------------- which instances

  function Enabled(instances: seq<Instance>): (r: seq<Instance>)
    ensures forall i :: i in r <==> i in instances && i.enabled
  {
    if instances == [] then []
    else
      assert instances == instances[..|instances| - 1] + [instances[|instances| - 1]];
      var last := instances[|instances| - 1];
      Enabled(instances[..|instances| - 1]) + if last.enabled then [last] else []
  }

  function FindByName(instances: seq<Instance>, name: string): (r: Option<Instance>)
    ensures r.Some? ==> r.value in instances && r.value.name == name
    ensures r.None? ==> forall i :: i in instances ==> i.name != name
  {
    if instances == [] then None
    else if instances[0].name == name then Some(instances[0])
    else FindByName(instances[1..], name)
  }

  /** selectTargetInstances */
  function SelectTargets(instances: seq<Instance>, target: string): Result<(seq<Instance>, Scope)> {
    if target == "" then Ok((Enabled(instances), Full))
    else match FindByName(instances, target)
         case None => Err
         case Some(i) => Ok(([i], Only(target)))
  }

  /** Without a target the enabled instances; with one an instance of that name, enabled or not, if there is one. */
  ghost predicate IsSelection(instances: seq<Instance>, target: string, r: Result<(seq<Instance>, Scope)>) {
    && (target == "" ==> r.Ok? && r.value.1 == Full && forall i :: i in r.value.0 <==> i in instances && i.enabled)
    && (target != "" ==> (r.Err? <==> forall i :: i in instances ==> i.name != target))
    && (target != "" && r.Ok? ==>
          r.value.1 == Only(target) && |r.value.0| == 1 && r.value.0[0] in instances && r.value.0[0].name == target)
  }

  method SelectTargetInstances(instances: seq<Instance>, target: string) returns (r: Result<(seq<Instance>, Scope)>)
    ensures r == SelectTargets(instances, target)
    ensures IsSelection(instances, target, r)
  {
    if target == "" {
      var selected: seq<Instance> := [];
      for k := 0 to |instances|
        invariant selected == Enabled(instances[..k])
      {
        assert instances[..k + 1][..k] == instances[..k];
        if instances[k].enabled {
          selected := selected + [instances[k]];
        }
      }
      assert instances[..|instances|] == instances;
      return Ok((selected, Full));
    }
    for k := 0 to |instances|
      invariant FindByName(instances, target) == FindByName(instances[k..], target)
    {
      if instances[k].name == target {
        return Ok(([instances[k]], Only(target)));
      }
    }
    return Err;
  }

  // ---------------------------------------------------------------- what is desired

  function DesiredOf(env: Env, g: Global, all: seq<Instance>, i: Instance): Result<DesiredFile> {
    match env.generate(g, all, i)
    case Err => Err
    case Ok(data) =>
      var path := PathOf(g.dirs, i.name);
      match RelativeRuntimePath(g.dirs.runtime, path)
      case Err => Err
      case Ok(rel) => Ok(DesiredFile(ManifestFile(i.name, path, rel, env.hash(data), "sbox@" + i.name + ".service"), data))
  }

  function AllDesired(env: Env, g: Global, all: seq<Instance>, targets: seq<Instance>): Result<seq<DesiredFile>> {
    if targets == [] then Ok([])
    else
      var n := |targets| - 1;
      match AllDesired(env, g, all, targets[..n])
      case Err => Err
      case Ok(files) =>
        match DesiredOf(env, g, all, targets[n])
        case Err => Err
        case Ok(d) => Ok(files + [d])
  }

  function InstanceShas(env: Env, targets: seq<Instance>): map<string, string> {
    if targets == [] then map[]
    else
      var n := |targets| - 1;
      InstanceShas(env, targets[..n])[targets[n].name := env.hash(targets[n].encoding)]
  }

  predicate DesiredLess(a: DesiredFile, b: DesiredFile) {
    FileLess(a.entry, b.entry)
  }

  // ---------------------------------------------------------------- the changes

  function Lookup(m: map<string, string>, key: string): string {
    if key in m then m[key] else ""
  }

  /** desiredAction */
  function DesiredAction(env: Env, p: PlanValue, d: DesiredFile, byRelative: FileMap, files: map<string, Bytes>): Action {
    if p.existing.None? || d.entry.relativePath !in byRelative then Create
    else
      var e := byRelative[d.entry.relativePath];
      if e.path !in files then Create
      else if env.hash(files[e.path]) != d.entry.sha256 || e.sha256 != d.entry.sha256 then Update
      else if p.existing.value.configSha != p.configSha then Update
      else if Lookup(p.existing.value.instanceSha, d.entry.instance) != Lookup(p.instanceSha, d.entry.instance) then Update
      else NoChange
  }

  function ExistingFiles(p: PlanValue): seq<ManifestFile> {
    if p.existing.Some? then p.existing.value.files else []
  }

  function DesiredChange(env: Env, p: PlanValue, d: DesiredFile, files: map<string, Bytes>): Change {
    Change(DesiredAction(env, p, d, ByRelative(ExistingFiles(p)), files), d.entry, d.data)
  }

  function DesiredChanges(env: Env, p: PlanValue, desired: seq<DesiredFile>, files: map<string, Bytes>): seq<Change> {
    seq(|desired|, k requires 0 <= k < |desired| => DesiredChange(env, p, desired[k], files))
  }

  function DesiredPaths(desired: seq<DesiredFile>): set<string> {
    set d | d in desired :: d.entry.relativePath
  }

  predicate Stale(p: PlanValue, f: ManifestFile) {
    p.scope.Has(f.instance) && f.relativePath !in DesiredPaths(p.desired)
  }

  function DeleteChanges(p: PlanValue, existing: seq<ManifestFile>): seq<Change> {
    if existing == [] then []
    else
      var last := existing[|existing| - 1];
      DeleteChanges(p, existing[..|existing| - 1]) + if Stale(p, last) then [Change(Delete, last, "")] else []
  }

  function ActionName(a: Action): string {
    match a case Create => "create" case Update => "update" case Delete => "delete" case NoChange => "no-change"
  }

  predicate ChangeLess(a: Change, b: Change) {
    if a.entry.relativePath == b.entry.relativePath then Less(ActionName(a.action), ActionName(b.action))
    else FileLess(a.entry, b.entry)
  }

  /** buildChanges */
  function Changes(env: Env, p: PlanValue, files: map<string, Bytes>): seq<Change> {
    SortStable(DesiredChanges(env, p, p.desired, files) + DeleteChanges(p, ExistingFiles(p)), ChangeLess)
  }

  /** The plan before its changes are computed; the disk plays no part in it. */
  function PlanBase(env: Env, manifest: Option<Manifest>, g: Global, instances: seq<Instance>, target: string): Result<PlanValue> {
    match SelectTargets(instances, target)
    case Err => Err
    case Ok((targets, scope)) =>
      match AllDesired(env, g, instances, targets)
      case Err => Err
      case Ok(desired) =>
        if manifest.Some? && !ManifestAccepted(manifest.value, g.dirs.generated) then Err
        else Ok(PlanValue(g.dirs, env.hash(g.encoding), InstanceShas(env, targets), scope, manifest,
                          SortStable(desired, DesiredLess), []))
  }

  /** BuildPlan */
  function PlanFor(env: Env, h: HostValue, g: Global, instances: seq<Instance>, target: string): Result<PlanValue> {
    match PlanBase(env, h.manifest, g, instances, target)
    case Err => Err
    case Ok(p) => Ok(p.(changes := Changes(env, p, h.files)))
  }

  /** The listed file of a desired one is there but cannot be read. */
  predicate Blocked(p: PlanValue, d: DesiredFile, unreadable: set<string>) {
    var byRelative := ByRelative(ExistingFiles(p));
    d.entry.relativePath in byRelative && byRelative[d.entry.relativePath].path in unreadable
  }

  predicate AllReadable(p: PlanValue, unreadable: set<string>) {
    forall d :: d in p.desired ==> !Blocked(p, d, unreadable)
  }

  // ---------------------------------------------------------------- the imperative form

  lemma OneMoreDesired(env: Env, p: PlanValue, files: map<string, Bytes>, k: nat)
    requires k < |p.desired|
    ensures DesiredPaths(p.desired[..k + 1]) == DesiredPaths(p.desired[..k]) + {p.desired[k].entry.relativePath}
    ensures DesiredChanges(env, p, p.desired[..k + 1], files)
            == DesiredChanges(env, p, p.desired[..k], files) + [DesiredChange(env, p, p.desired[k], files)]
  {
    hide DesiredChange;
    assert p.desired[..k + 1] == p.desired[..k] + [p.desired[k]];
  }

  /** A plan under construction. */
  class Plan {
    const dirs: Dirs
    const configSha: string
    const scope: Scope
    var instanceSha: map<string, string>
    var existing: Option<Manifest>
    var desired: seq<DesiredFile>
    var changes: seq<Change>

    constructor (dirs: Dirs, configSha: string, scope: Scope)
      ensures Value() == PlanValue(dirs, configSha, map[], scope, None, [], [])
    {
      this.dirs, this.configSha, this.scope := dirs, configSha, scope;
      instanceSha, existing, desired, changes := map[], None, [], [];
    }

    function Value(): PlanValue
      reads this
    {
      PlanValue(dirs, configSha, instanceSha, scope, existing, desired, changes)
    }

    /** The loop of BuildPlan: what is desired for each target, and the hash of its input. */
    method AddTargets(env: Env, g: Global, instances: seq<Instance>, targets: seq<Instance>) returns (ok: bool)
      requires instanceSha == map[] && desired == []
      modifies this`instanceSha, this`desired
      ensures ok <==> AllDesired(env, g, instances, targets).Ok?
      ensures ok ==> instanceSha == InstanceShas(env, targets)
                     && desired == SortStable(AllDesired(env, g, instances, targets).value, DesiredLess)
    {
      hide DesiredOf, SortStable;
      for k := 0 to |targets|
        invariant instanceSha == InstanceShas(env, targets[..k])
        invariant AllDesired(env, g, instances, targets[..k]) == Ok(desired)
      {
        var i := targets[k];
        assert targets[..k + 1][..k] == targets[..k];
        instanceSha := instanceSha[i.name := env.hash(i.encoding)];
        var d := DesiredOf(env, g, instances, i);
        if d.Err? {
          ErrorsPersist(env, g, instances, targets, k + 1);
          return false;
        }
        desired := desired + [d.value];
      }
      assert targets[..|targets|] == targets;
      desired := SortStable(desired, DesiredLess);
      return true;
    }

    /** The changes of the desired files; it fails when a listed file cannot be read. */
    method AddDesired(env: Env, files: map<string, Bytes>, unreadable: set<string>) returns (ok: bool, desiredPaths: set<string>)
      requires changes == []
      modifies this`changes
      ensures ok <==> AllReadable(old(Value()), unreadable)
      ensures ok ==> changes == DesiredChanges(env, old(Value()), desired, files) && desiredPaths == DesiredPaths(desired)
    {
      ghost var p := Value();
      assert DesiredChanges(env, p, desired[..0], files) == [] && DesiredPaths(desired[..0]) == {};
      hide DesiredAction, ByRelative, DesiredChanges, DesiredPaths;
      var byRelative := IndexByRelative(if existing.Some? then existing.value.files else []);
      desiredPaths := {};
      for k := 0 to |desired|
        invariant changes == DesiredChanges(env, p, desired[..k], files)
        invariant desiredPaths == DesiredPaths(desired[..k])
        invariant forall j :: 0 <= j < k ==> !Blocked(p, desired[j], unreadable)
      {
        var d := desired[k];
        OneMoreDesired(env, p, files, k);
        if d.entry.relativePath in byRelative && byRelative[d.entry.relativePath].path in unreadable {
          assert Blocked(p, d, unreadable);
          return false, desiredPaths;
        }
        desiredPaths := desiredPaths + {d.entry.relativePath};
        var action := DesiredAction(env, Value().(changes := []), d, byRelative, files);
        changes := changes + [Change(action, d.entry, d.data)];
      }
      assert desired[..|desired|] == desired;
      return true, desiredPaths;
    }

    /** The deletions of existing files that are in scope and not desired. */
    method AddDeletes(desiredPaths: set<string>)
      requires desiredPaths == DesiredPaths(desired)
      modifies this`changes
      ensures changes == old(changes) + DeleteChanges(old(Value()).(changes := []), ExistingFiles(old(Value())))
    {
      ghost var p := Value().(changes := []);
      var listed := if existing.Some? then existing.value.files else [];
      for k := 0 to |listed|
        invariant changes == old(changes) + DeleteChanges(p, listed[..k])
      {
        var f := listed[k];
        assert listed[..k + 1][..k] == listed[..k];
        if scope.Has(f.instance) && f.relativePath !in desiredPaths {
          changes := changes + [Change(Delete, f, "")];
        }
      }
      assert listed[..|listed|] == listed;
    }

    /** buildChanges */
    method BuildChanges(env: Env, files: map<string, Bytes>, unreadable: set<string>) returns (ok: bool)
      requires changes == []
      modifies this`changes
      ensures ok <==> AllReadable(old(Value()), unreadable)
      ensures ok ==> Value() == old(Value()).(changes := Changes(env, old(Value()), files))
    {
      hide DesiredChanges, DeleteChanges, SortStable;
      var desiredPaths;
      ok, desiredPaths := AddDesired(env, files, unreadable);
      if ok {
        AddDeletes(desiredPaths);
        changes := SortStable(changes, ChangeLess);
      }
    }
  }

  method IndexByRelative(files: seq<ManifestFile>) returns (byRelative: FileMap)
    ensures byRelative == ByRelative(files)
  {
    byRelative := map[];
    for k := 0 to |files|
      invariant byRelative == ByRelative(files[..k])
    {
      assert files[..k + 1][..k] == files[..k];
      byRelative := byRelative[files[k].relativePath := files[k]];
    }
    assert files[..|files|] == files;
  }

  /** BuildPlan.  Reading the manifest can fail, and so can reading a file other than by its absence. */
  method BuildPlan(env: Env, files: map<string, Bytes>, unreadable: set<string>, manifest: Result<Option<Manifest>>, g: Global,
                   instances: seq<Instance>, target: string) returns (r: Result<Plan>)
    ensures r.Ok? <==>
              && manifest.Ok? && PlanFor(env, HostValue(files, manifest.value), g, instances, target).Ok?
              && AllReadable(PlanFor(env, HostValue(files, manifest.value), g, instances, target).value, unreadable)
    ensures r.Ok? ==> fresh(r.value) && Ok(r.value.Value()) == PlanFor(env, HostValue(files, manifest.value), g, instances, target)
  {
    hide IsSelection, SelectTargets, AllDesired, InstanceShas, SortStable, Changes, ManifestAccepted;
    var selected := SelectTargetInstances(instances, target);
    if selected.Err? {
      return Err;
    }
    var (targets, scope) := selected.value;
    var plan := new Plan(g.dirs, env.hash(g.encoding), scope);
    var generated := plan.AddTargets(env, g, instances, targets);
    if !generated {
      return Err;
    }
    if manifest.Err? {
      return Err;
    }
    if manifest.value.Some? {
      var accepted := ValidateManifest(manifest.value.value, g.dirs.generated);
      if !accepted {
        return Err;
      }
    }
    plan.existing := manifest.value;
    var ok := plan.BuildChanges(env, files, unreadable);
    return if ok then Ok(plan) else Err;
  }

  lemma {:induction false} ErrorsPersist(env: Env, g: Global, all: seq<Instance>, targets: seq<Instance>, k: nat)
    requires k <= |targets| && AllDesired(env, g, all, targets[..k]).Err?
    ensures AllDesired(env, g, all, targets).Err?
    decreases |targets| - k
  {
    if k < |targets| {
      assert targets[..k + 1][..k] == targets[..k];
      ErrorsPersist(env, g, all, targets, k + 1);
    } else {
      assert targets[..k] == targets;
    }
  }
}

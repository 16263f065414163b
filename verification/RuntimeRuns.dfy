/** What applying establishes: convergence, scope isolation, crash recovery, and the invariant of every run (internal/runtime). */
module RuntimeRuns {
  import opened Wrappers
  import opened Text
  import opened Sorting
  import opened RuntimeManifest
  import opened RuntimePlan
  import opened RuntimeApply
  import opened RuntimeProofs

  // ---------------------------------------------------------------- the applied manifest

  /** The entries after an apply: the existing ones out of scope, and the desired ones. */
  ghost predicate InApplied(p: PlanValue, f: ManifestFile) {
    (f in ExistingFiles(p) && !p.scope.Has(f.instance)) || exists x :: x in p.desired && x.entry == f
  }

  lemma {:induction false} OutOfScopeAre(files: seq<ManifestFile>, scope: Scope, f: ManifestFile)
    ensures f in OutOfScope(files, scope) <==> f in files && !scope.Has(f.instance)
  {
    if files == [] {
    } else {
      var n := |files| - 1;
      OutOfScopeAre(files[..n], scope, f);
      assert files == files[..n] + [files[n]];
    }
  }

  lemma AppliedListAre(p: PlanValue, f: ManifestFile)
    ensures f in OutOfScope(ExistingFiles(p), p.scope) + Entries(p.desired) <==> InApplied(p, f)
  {
    OutOfScopeAre(ExistingFiles(p), p.scope, f);
    if x :| x in p.desired && x.entry == f {
      var k :| 0 <= k < |p.desired| && p.desired[k] == x;
      assert Entries(p.desired)[k] == f;
    }
  }

  lemma AppliedIsFunctional(env: Env, d: Dirs, p: PlanValue, e: ManifestFile, f: ManifestFile)
    requires ValidDirs(d) && PlanOk(env, d, p) && InApplied(p, e) && InApplied(p, f)
    requires e.instance == f.instance || e.path == f.path || e.relativePath == f.relativePath
    ensures e == f
  {
    hide References.SafeName;
    assert e == EntryOf(d, e.instance, e.sha256) && f == EntryOf(d, f.instance, f.sha256);
    if e.instance != f.instance {
      PathsDiffer(d, e.instance, f.instance);
    }
    if e in ExistingFiles(p) && f in ExistingFiles(p) && !p.scope.Has(e.instance) {
      SameEntry(d, p.existing.value, e, f);
    }
  }

  /** The applied manifest lists exactly the applied entries, sorted. */
  lemma AppliedEntries(env: Env, d: Dirs, p: PlanValue, now: string)
    requires ValidDirs(d) && PlanOk(env, d, p)
    ensures StrictlySorted(AppliedManifest(p, now).files)
    ensures forall f :: f in AppliedManifest(p, now).files <==> InApplied(p, f)
  {
    hide PlanOk, InApplied, ByRelative;
    var list := OutOfScope(ExistingFiles(p), p.scope) + Entries(p.desired);
    ByRelativeEntries(list);
    var m := ByRelative(list);
    forall f
      ensures f in AppliedManifest(p, now).files <==> InApplied(p, f)
    {
      AppliedListAre(p, f);
      if f in list {
        var g := m[f.relativePath];
        AppliedListAre(p, g);
        AppliedIsFunctional(env, d, p, f, g);
      }
    }
  }

  lemma {:induction false} DesiredShasAre(kept: map<string, string>, shas: map<string, string>, desired: seq<DesiredFile>, i: string)
    ensures var all := DesiredShas(kept, shas, desired);
            if exists x :: x in desired && x.entry.instance == i then i in all && all[i] == Lookup(shas, i)
            else (i in all <==> i in kept) && (i in kept ==> all[i] == kept[i])
  {
    if desired == [] {
    } else {
      var n := |desired| - 1;
      DesiredShasAre(kept, shas, desired[..n], i);
      assert desired == desired[..n] + [desired[n]];
    }
  }

  lemma AppliedSha(p: PlanValue, now: string, i: string)
    ensures var shas := AppliedManifest(p, now).instanceSha;
            if exists x :: x in p.desired && x.entry.instance == i then i in shas && shas[i] == Lookup(p.instanceSha, i)
            else (i in shas <==> i in KeptShas(p)) && (i in shas ==> shas[i] == KeptShas(p)[i])
  {
    DesiredShasAre(KeptShas(p), p.instanceSha, p.desired, i);
  }

  /** The applied manifest has hashes of exactly the instances that it lists. */
  lemma AppliedShaIsListed(env: Env, d: Dirs, p: PlanValue, now: string, i: string)
    requires ValidDirs(d) && PlanOk(env, d, p)
    ensures i in AppliedManifest(p, now).instanceSha <==> i in Instances(AppliedManifest(p, now).files)
  {
    AppliedEntries(env, d, p, now);
    AppliedSha(p, now, i);
    hide AppliedManifest, DesiredOk, StrictlySorted, EntryOf, References.SafeName;
    var m := AppliedManifest(p, now);
    if x :| x in p.desired && x.entry.instance == i {
      assert InApplied(p, x.entry);
    } else if p.existing.Some? && i in Instances(p.existing.value.files) {
      var f :| f in p.existing.value.files && f.instance == i;
      assert !p.scope.Has(i) ==> InApplied(p, f);
    }
  }

  lemma AppliedEntryShape(env: Env, d: Dirs, p: PlanValue, f: ManifestFile)
    requires GoodHash(env) && ValidDirs(d) && PlanOk(env, d, p) && InApplied(p, f)
    ensures References.SafeName(f.instance) && !Blank(f.sha256) && f == EntryOf(d, f.instance, f.sha256)
  {
    hide Blank, References.SafeName, StrictlySorted, Instances;
  }

  lemma WellFormedFromParts(d: Dirs, m: Manifest)
    requires ValidDirs(d) && m.schema == SCHEMA && m.version == VERSION && !Blank(m.configSha) && !Blank(m.generatedAt)
    requires StrictlySorted(m.files)
    requires forall f :: f in m.files ==> References.SafeName(f.instance) && !Blank(f.sha256) && f == EntryOf(d, f.instance, f.sha256)
    requires forall i :: i in m.instanceSha <==> i in Instances(m.files)
    ensures WellFormed(d, m)
  {
    hide Blank, References.SafeName, StrictlySorted, EntryOf, Instances;
  }

  /** Every manifest that an apply writes is well-formed, so ValidateManifest accepts it. */
  lemma AppliedIsWellFormed(env: Env, d: Dirs, p: PlanValue, now: string)
    requires GoodHash(env) && ValidDirs(d) && PlanOk(env, d, p) && !Blank(now)
    ensures WellFormed(d, AppliedManifest(p, now))
  {
    hide AppliedManifest, Blank, References.SafeName, StrictlySorted, EntryOf, Instances, GoodHash, PlanOk, InApplied, WellFormed;
    var m := AppliedManifest(p, now);
    AppliedHeader(p, now);
    ConfigShaIsNotBlank(env, d, p);
    AppliedEntries(env, d, p, now);
    forall f | f in m.files
      ensures References.SafeName(f.instance) && !Blank(f.sha256) && f == EntryOf(d, f.instance, f.sha256)
    {
      AppliedEntryShape(env, d, p, f);
    }
    forall i
      ensures i in m.instanceSha <==> i in Instances(m.files)
    {
      AppliedShaIsListed(env, d, p, now, i);
    }
    WellFormedFromParts(d, m);
  }

  lemma ConfigShaIsNotBlank(env: Env, d: Dirs, p: PlanValue)
    requires ValidDirs(d) && PlanOk(env, d, p)
    ensures !Blank(p.configSha)
  {}

  // ---------------------------------------------------------------- convergence

  /** The plan, with the changes that it makes on `files`. */
  function Against(env: Env, p: PlanValue, files: map<string, Bytes>): PlanValue {
    p.(changes := Changes(env, p, files))
  }

  lemma ChangesDoNotMatter(env: Env, p: PlanValue, files: map<string, Bytes>, now: string)
    ensures AppliedManifest(Against(env, p, files), now) == AppliedManifest(p, now)
  {
    assert KeptShas(Against(env, p, files)) == KeptShas(p);
  }

  lemma {:induction false} NothingToRun(files: map<string, Bytes>, changes: seq<Change>)
    requires forall c :: c in changes ==> c.action == NoChange
    ensures RunChanges(files, changes) == files
  {
    if changes == [] {
    } else {
      var n := |changes| - 1;
      assert changes == changes[..n] + [changes[n]];
      NothingToRun(files, changes[..n]);
    }
  }

  lemma AppliedRuns(h: HostValue, p: PlanValue, now: string)
    ensures Applied(h, p, now).files == RunChanges(h.files, p.changes)
  {
    if !p.HasChanges() {
      NothingToRun(h.files, p.changes);
    }
  }

  /** A disk and a manifest that leave a plan nothing to do. */
  ghost predicate Settled(p: PlanValue, h: HostValue) {
    && (forall x :: x in p.desired ==>
          && h.manifest.Some? && x.entry in h.manifest.value.files
          && x.entry.path in h.files && h.files[x.entry.path] == x.data
          && h.manifest.value.configSha == p.configSha
          && Lookup(h.manifest.value.instanceSha, x.entry.instance) == Lookup(p.instanceSha, x.entry.instance))
    && (h.manifest.Some? ==> forall f :: f in h.manifest.value.files ==> !Stale(p, f))
  }

  lemma SettledFileIsNoChange(env: Env, d: Dirs, p: PlanValue, h: HostValue, x: DesiredFile)
    requires ValidDirs(d) && PlanOk(env, d, p) && p.existing == h.manifest && Settled(p, h) && x in p.desired
    ensures DesiredChange(env, p, x, h.files).action == NoChange
  {
    var m := h.manifest.value;
    assert WellFormed(d, m);
    hide WellFormed, References.SafeName;
    ByRelativeEntries(m.files);
    SameEntry(d, m, ByRelative(m.files)[x.entry.relativePath], x.entry);
  }

  lemma NoChangesMeanSettled(env: Env, d: Dirs, p: PlanValue, h: HostValue)
    requires GoodHash(env) && ValidDirs(d) && PlanOk(env, d, p) && p.existing == h.manifest
    requires forall c :: c in Changes(env, p, h.files) ==> c.action == NoChange
    ensures Settled(p, h)
  {
    hide GoodHash, PlanOk, Changes, DesiredAction, Stale, ByRelative, Lookup;
    forall x | x in p.desired
      ensures DesiredChange(env, p, x, h.files).action == NoChange
    {
      ChangesAre(env, p, h.files, DesiredChange(env, p, x, h.files));
    }
    forall x | x in p.desired
      ensures h.manifest.Some? && x.entry in h.manifest.value.files && x.entry.path in h.files && h.files[x.entry.path] == x.data
      ensures h.manifest.value.configSha == p.configSha
      ensures Lookup(h.manifest.value.instanceSha, x.entry.instance) == Lookup(p.instanceSha, x.entry.instance)
    {
      NoChangeMeansCurrent(env, d, p, h.files, x);
    }
    forall f | f in ExistingFiles(p)
      ensures !Stale(p, f)
    {
      ChangesAre(env, p, h.files, Change(Delete, f, ""));
    }
  }

  lemma SettledMeansNoChanges(env: Env, d: Dirs, p: PlanValue, h: HostValue)
    requires GoodHash(env) && ValidDirs(d) && PlanOk(env, d, p) && p.existing == h.manifest && Settled(p, h)
    ensures forall c :: c in Changes(env, p, h.files) ==> c.action == NoChange
  {
    hide GoodHash, PlanOk, Changes, DesiredAction, Stale, ByRelative, Lookup;
    forall c | c in Changes(env, p, h.files)
      ensures c.action == NoChange
    {
      ChangesAre(env, p, h.files, c);
      if x :| x in p.desired && c == DesiredChange(env, p, x, h.files) {
        SettledFileIsNoChange(env, d, p, h, x);
      }
    }
  }

  /** A plan has no changes exactly when the manifest and the disk are as it wants them. */
  lemma NoChangesIffSettled(env: Env, d: Dirs, p: PlanValue, h: HostValue)
    requires GoodHash(env) && ValidDirs(d) && PlanOk(env, d, p) && p.existing == h.manifest
    ensures !Against(env, p, h.files).HasChanges() <==> Settled(p, h)
  {
    hide GoodHash, PlanOk, Changes, Settled;
    if Settled(p, h) {
      SettledMeansNoChanges(env, d, p, h);
    } else if !Against(env, p, h.files).HasChanges() {
      NoChangesMeanSettled(env, d, p, h);
    }
  }

  /** The manifest that an apply writes needs no further change. */
  lemma AppliedManifestSettles(env: Env, d: Dirs, p: PlanValue, files: map<string, Bytes>, now: string)
    requires ValidDirs(d) && PlanOk(env, d, p)
    requires forall x :: x in p.desired ==> x.entry.path in files && files[x.entry.path] == x.data
    ensures Settled(p, HostValue(files, Some(AppliedManifest(p, now))))
  {
    hide PlanOk, StrictlySorted, KeptShas, Listing, AppliedFiles, Stale, Lookup;
    AppliedEntries(env, d, p, now);
    var m := AppliedManifest(p, now);
    assert m.configSha == p.configSha;
    hide AppliedManifest;
    forall x | x in p.desired
      ensures x.entry in m.files && Lookup(m.instanceSha, x.entry.instance) == Lookup(p.instanceSha, x.entry.instance)
    {
      assert InApplied(p, x.entry);
      AppliedLookup(p, now, x);
    }
    forall f | f in m.files
      ensures !Stale(p, f)
    {
      AppliedIsNotStale(p, f);
    }
  }

  lemma AppliedLookup(p: PlanValue, now: string, x: DesiredFile)
    requires x in p.desired
    ensures Lookup(AppliedManifest(p, now).instanceSha, x.entry.instance) == Lookup(p.instanceSha, x.entry.instance)
  {
    AppliedSha(p, now, x.entry.instance);
    hide AppliedManifest;
  }

  lemma AppliedIsNotStale(p: PlanValue, f: ManifestFile)
    requires InApplied(p, f)
    ensures !Stale(p, f)
  {}

  /** After an apply there is nothing left to do. */
  lemma AppliedIsSettled(env: Env, d: Dirs, p: PlanValue, h: HostValue, now: string)
    requires GoodHash(env) && ValidDirs(d) && PlanOk(env, d, p) && p.existing == h.manifest
    ensures Settled(p, Applied(h, Against(env, p, h.files), now))
  {
    hide GoodHash, PlanOk, Changes, AppliedManifest, RunChanges, Settled;
    AppliedRuns(h, Against(env, p, h.files), now);
    ChangesReachGoal(env, d, p, h.files);
    ChangesDoNotMatter(env, p, h.files, now);
    if !Against(env, p, h.files).HasChanges() {
      NoChangesIffSettled(env, d, p, h);
    } else {
      AppliedManifestSettles(env, d, p, RunChanges(h.files, Changes(env, p, h.files)), now);
    }
  }

  /** A host whose manifest, if there is one, is well-formed. */
  ghost predicate Sound(d: Dirs, h: HostValue)
    requires ValidDirs(d)
  {
    h.manifest.Some? ==> WellFormed(d, h.manifest.value)
  }

  lemma AppliedIsSound(env: Env, d: Dirs, p: PlanValue, h: HostValue, now: string)
    requires GoodHash(env) && ValidDirs(d) && PlanOk(env, d, p) && p.existing == h.manifest && Sound(d, h) && !Blank(now)
    ensures Sound(d, Applied(h, Against(env, p, h.files), now))
  {
    hide WellFormed, GoodHash, PlanOk, AppliedManifest, Changes;
    AppliedIsWellFormed(env, d, p, now);
    ChangesDoNotMatter(env, p, h.files, now);
  }

  lemma {:induction false} EveryTargetIsDesired(env: Env, g: Global, all: seq<Instance>, targets: seq<Instance>, i: Instance)
    requires AllDesired(env, g, all, targets).Ok? && i in targets
    ensures exists x :: x in AllDesired(env, g, all, targets).value
                        && x.entry.path == PathOf(g.dirs, i.name) && env.generate(g, all, i) == Ok(x.data)
  {
    var n := |targets| - 1;
    var files := AllDesired(env, g, all, targets).value;
    assert files == AllDesired(env, g, all, targets[..n]).value + [DesiredOf(env, g, all, targets[n]).value];
    if i == targets[n] {
      assert files[|files| - 1] in files;
    } else {
      EveryTargetIsDesired(env, g, all, targets[..n], i);
      var x :| x in AllDesired(env, g, all, targets[..n]).value
               && x.entry.path == PathOf(g.dirs, i.name) && env.generate(g, all, i) == Ok(x.data);
      assert x in files;
    }
  }

  lemma TargetIsPlanned(env: Env, manifest: Option<Manifest>, g: Global, instances: seq<Instance>, target: string, i: Instance)
    requires PlanBase(env, manifest, g, instances, target).Ok? && i in SelectTargets(instances, target).value.0
    ensures exists x :: x in PlanBase(env, manifest, g, instances, target).value.desired
                        && x.entry.path == PathOf(g.dirs, i.name) && env.generate(g, instances, i) == Ok(x.data)
  {
    var targets := SelectTargets(instances, target).value.0;
    EveryTargetIsDesired(env, g, instances, targets, i);
    var desired := AllDesired(env, g, instances, targets).value;
    var x :| x in desired && x.entry.path == PathOf(g.dirs, i.name) && env.generate(g, instances, i) == Ok(x.data);
    SortPermutes(desired, DesiredLess);
    assert x in multiset(SortStable(desired, DesiredLess));
  }

  /** What is selected: the enabled instances, or the one of that name, enabled or not. */
  lemma SelectedAre(instances: seq<Instance>, target: string)
    requires forall i, j :: i in instances && j in instances && i.name == j.name ==> i == j
    ensures var r := SelectTargets(instances, target);
            && (r.Err? <==> target != "" && forall i :: i in instances ==> i.name != target)
            && (r.Ok? ==> forall i :: i in r.value.0 <==> i in instances && if target == "" then i.enabled else i.name == target)
            && (r.Ok? ==> r.value.1 == if target == "" then Full else Only(target))
  {}

  lemma PlannedAre(env: Env, d: Dirs, manifest: Option<Manifest>, g: Global, instances: seq<Instance>, target: string)
    requires ValidDirs(d) && ConfigOk(d, g, instances) && PlanBase(env, manifest, g, instances, target).Ok?
    ensures forall x :: x in PlanBase(env, manifest, g, instances, target).value.desired ==>
              exists i :: i in instances && (if target == "" then i.enabled else i.name == target) && i.name == x.entry.instance
  {
    SelectedAre(instances, target);
    hide SelectTargets, AllDesired, SortStable, DesiredOk, References.SafeName;
    var targets := SelectTargets(instances, target).value.0;
    DesiredShape(env, d, g, instances, targets);
    var desired := AllDesired(env, g, instances, targets).value;
    SortPermutes(desired, DesiredLess);
    forall x | x in PlanBase(env, manifest, g, instances, target).value.desired
      ensures x in desired
    {
      assert x in multiset(SortStable(desired, DesiredLess));
    }
  }

  /** Convergence: after an apply, each target's file holds exactly what is generated for it, and planning again finds nothing to do. */
  lemma ApplyConverges(env: Env, d: Dirs, h: HostValue, g: Global, instances: seq<Instance>, target: string, now: string)
    requires GoodHash(env) && ValidDirs(d) && ConfigOk(d, g, instances) && Sound(d, h) && !Blank(now)
    requires PlanFor(env, h, g, instances, target).Ok?
    ensures var after := Applied(h, PlanFor(env, h, g, instances, target).value, now);
            && (forall i :: i in instances && (if target == "" then i.enabled else i.name == target) ==>
                  PathOf(d, i.name) in after.files && env.generate(g, instances, i) == Ok(after.files[PathOf(d, i.name)]))
            && PlanFor(env, after, g, instances, target).Ok? && !PlanFor(env, after, g, instances, target).value.HasChanges()
            && Applied(after, PlanFor(env, after, g, instances, target).value, now) == after
  {
    var p := PlanBase(env, h.manifest, g, instances, target).value;
    var after := Applied(h, Against(env, p, h.files), now);
    assert p.existing == h.manifest && PlanFor(env, h, g, instances, target).value == Against(env, p, h.files);
    PlanShape(env, d, h.manifest, g, instances, target);
    hide GoodHash, PlanOk, Changes, WellFormed, ConfigOk, SelectTargets, Applied, RunChanges;
    AppliedIsSettled(env, d, p, h, now);
    AppliedIsSound(env, d, p, h, now);
    PlanExists(env, d, h.manifest, after.manifest, g, instances, target);
    PlanShape(env, d, after.manifest, g, instances, target);
    var q := p.(existing := after.manifest);
    SettledStays(p, q, after);
    NoChangesIffSettled(env, d, q, after);
    SelectedAre(instances, target);
    hide PlanBase, Settled;
    forall i | i in instances && (if target == "" then i.enabled else i.name == target)
      ensures PathOf(d, i.name) in after.files && env.generate(g, instances, i) == Ok(after.files[PathOf(d, i.name)])
    {
      TargetIsPlanned(env, h.manifest, g, instances, target, i);
      SettledContent(p, after);
    }
    AppliedNothing(after, Against(env, q, after.files), now);
  }

  lemma SettledContent(p: PlanValue, h: HostValue)
    requires Settled(p, h)
    ensures forall x :: x in p.desired ==> x.entry.path in h.files && h.files[x.entry.path] == x.data
  {}

  lemma SettledStays(p: PlanValue, q: PlanValue, h: HostValue)
    requires Settled(p, h) && q == p.(existing := h.manifest)
    ensures Settled(q, h)
  {}

  lemma AppliedNothing(h: HostValue, p: PlanValue, now: string)
    requires !p.HasChanges()
    ensures Applied(h, p, now) == h
  {}

  lemma {:induction false} InstanceShasAre(env: Env, targets: seq<Instance>, i: Instance)
    requires i in targets && forall j :: j in targets && j.name == i.name ==> j == i
    ensures i.name in InstanceShas(env, targets) && InstanceShas(env, targets)[i.name] == env.hash(i.encoding)
  {
    var n := |targets| - 1;
    assert targets == targets[..n] + [targets[n]];
    if targets[n].name != i.name {
      InstanceShasAre(env, targets[..n], i);
    }
  }

  lemma SettledInputs(env: Env, d: Dirs, p: PlanValue, h: HostValue, x: DesiredFile)
    requires ValidDirs(d) && Settled(p, h) && Sound(d, h) && x in p.desired
    ensures h.manifest.Some? && h.manifest.value.configSha == p.configSha && x.entry.instance in h.manifest.value.instanceSha
    ensures h.manifest.value.instanceSha[x.entry.instance] == Lookup(p.instanceSha, x.entry.instance)
  {
    hide StrictlySorted, EntryOf, References.SafeName;
    assert x.entry.instance in Instances(h.manifest.value.files);
  }

  /** After an apply the manifest has the input hashes of the configuration and of each target, so that the next plan
      notices when either changes. */
  lemma AppliedHashesAreTrue(env: Env, d: Dirs, h: HostValue, g: Global, instances: seq<Instance>, target: string, now: string, i: Instance)
    requires GoodHash(env) && ValidDirs(d) && ConfigOk(d, g, instances) && Sound(d, h) && !Blank(now)
    requires PlanFor(env, h, g, instances, target).Ok? && i in instances && if target == "" then i.enabled else i.name == target
    ensures var after := Applied(h, PlanFor(env, h, g, instances, target).value, now);
            && after.manifest.Some? && after.manifest.value.configSha == env.hash(g.encoding)
            && i.name in after.manifest.value.instanceSha && after.manifest.value.instanceSha[i.name] == env.hash(i.encoding)
  {
    var p := PlanBase(env, h.manifest, g, instances, target).value;
    var targets := SelectTargets(instances, target).value.0;
    assert p.existing == h.manifest && p.instanceSha == InstanceShas(env, targets) && p.configSha == env.hash(g.encoding);
    SelectedAre(instances, target);
    InstanceShasAre(env, targets, i);
    PlanShape(env, d, h.manifest, g, instances, target);
    hide GoodHash, Changes, ConfigOk, SelectTargets, Applied, Settled, Sound, InstanceShas, AllDesired;
    AppliedIsSettled(env, d, p, h, now);
    AppliedIsSound(env, d, p, h, now);
    TargetIsPlanned(env, h.manifest, g, instances, target, i);
    var x :| x in p.desired && x.entry.path == PathOf(d, i.name);
    PathsDiffer(d, x.entry.instance, i.name);
    SettledInputs(env, d, p, Applied(h, Against(env, p, h.files), now), x);
  }

  // ---------------------------------------------------------------- isolation

  lemma OnlyTargetIsTouched(env: Env, d: Dirs, p: PlanValue, q: string)
    requires ValidDirs(d) && PlanOk(env, d, p) && p.scope.Only? && q != PathOf(d, p.scope.name)
    ensures !Touched(p, q)
  {}

  lemma SelectedScope(instances: seq<Instance>, target: string)
    requires SelectTargets(instances, target).Ok? && target != ""
    ensures SelectTargets(instances, target).value.1 == Only(target)
  {}

  /** What one instance has in a manifest: its entries and its input hash. */
  ghost predicate SameInstance(a: Option<Manifest>, b: Option<Manifest>, i: string) {
    var filesA, filesB := if a.Some? then a.value.files else [], if b.Some? then b.value.files else [];
    var shasA, shasB := if a.Some? then a.value.instanceSha else map[], if b.Some? then b.value.instanceSha else map[];
    && (forall f: ManifestFile :: f.instance == i ==> (f in filesA <==> f in filesB))
    && (i in shasA <==> i in shasB) && (i in shasA ==> shasA[i] == shasB[i])
  }

  lemma OutOfScopeStays(env: Env, d: Dirs, p: PlanValue, f: ManifestFile)
    requires ValidDirs(d) && PlanOk(env, d, p) && !p.scope.Has(f.instance)
    ensures InApplied(p, f) <==> f in ExistingFiles(p)
  {}

  lemma DesiredIsInScope(env: Env, d: Dirs, p: PlanValue, x: DesiredFile)
    requires ValidDirs(d) && PlanOk(env, d, p) && x in p.desired
    ensures p.scope.Has(x.entry.instance)
  {}

  lemma OthersKeepSha(env: Env, d: Dirs, p: PlanValue, now: string, i: string)
    requires ValidDirs(d) && PlanOk(env, d, p) && !p.scope.Has(i)
    ensures var shas := AppliedManifest(p, now).instanceSha;
            var before := if p.existing.Some? then p.existing.value.instanceSha else map[];
            (i in shas <==> i in before) && (i in shas ==> shas[i] == before[i])
  {
    hide PlanOk, AppliedManifest;
    AppliedSha(p, now, i);
    if x :| x in p.desired && x.entry.instance == i {
      DesiredIsInScope(env, d, p, x);
    }
  }

  lemma OthersStayListed(env: Env, d: Dirs, p: PlanValue, now: string, i: string)
    requires ValidDirs(d) && PlanOk(env, d, p) && !p.scope.Has(i)
    ensures SameInstance(Some(AppliedManifest(p, now)), p.existing, i)
  {
    hide PlanOk, AppliedManifest, StrictlySorted, InApplied;
    AppliedEntries(env, d, p, now);
    OthersKeepSha(env, d, p, now, i);
    forall f: ManifestFile | f.instance == i
      ensures InApplied(p, f) <==> f in ExistingFiles(p)
    {
      OutOfScopeStays(env, d, p, f);
    }
  }

  lemma TargetedFiles(env: Env, d: Dirs, p: PlanValue, files: map<string, Bytes>, k: nat, q: string)
    requires ValidDirs(d) && PlanOk(env, d, p) && p.scope.Only? && q != PathOf(d, p.scope.name) && k <= |Changes(env, p, files)|
    ensures SameAt(RunChanges(files, Changes(env, p, files)[..k]), files, q)
  {
    hide PlanOk, Changes, RunChanges, PathOf, Touched;
    OnlyTargetIsTouched(env, d, p, q);
    PrefixTouches(env, d, p, files, k, q);
  }

  /** However far an apply gets, it has made the first of its changes, and the manifest is the old one or the applied one. */
  lemma InterruptedIsPrefix(env: Env, p: PlanValue, h: HostValue, now: string, after: HostValue)
    requires Interrupted(h, Against(env, p, h.files), now, after) && p.existing == h.manifest
    ensures exists k :: 0 <= k <= |Changes(env, p, h.files)| && after.files == RunChanges(h.files, Changes(env, p, h.files)[..k])
    ensures after.manifest == h.manifest || after.manifest == Some(AppliedManifest(p, now))
  {
    hide Changes, RunChanges, AppliedManifest;
    var full := Against(env, p, h.files);
    AppliedRuns(h, full, now);
    ChangesDoNotMatter(env, p, h.files, now);
    assert full.changes[..|full.changes|] == full.changes;
  }

  /** Isolation: however far a targeted apply gets, no file but the target's changes, and no other instance's entries or hash. */
  lemma TargetedApplyIsIsolated(env: Env, d: Dirs, h: HostValue, g: Global, instances: seq<Instance>, target: string, now: string,
                                after: HostValue)
    requires GoodHash(env) && ValidDirs(d) && ConfigOk(d, g, instances) && Sound(d, h) && target != ""
    requires PlanFor(env, h, g, instances, target).Ok?
    requires Interrupted(h, PlanFor(env, h, g, instances, target).value, now, after)
    ensures forall q :: q != PathOf(d, target) ==> SameAt(after.files, h.files, q)
    ensures forall i :: i != target ==> SameInstance(after.manifest, h.manifest, i)
  {
    var p := PlanBase(env, h.manifest, g, instances, target).value;
    PlanShape(env, d, h.manifest, g, instances, target);
    SelectedScope(instances, target);
    assert p.scope == Only(target) && p.existing == h.manifest;
    hide GoodHash, PlanOk, Changes, WellFormed, ConfigOk, SelectTargets, RunChanges, PathOf, AppliedManifest, PlanBase, Interrupted, SameAt;
    InterruptedIsPrefix(env, p, h, now, after);
    var k :| 0 <= k <= |Changes(env, p, h.files)| && after.files == RunChanges(h.files, Changes(env, p, h.files)[..k]);
    forall q | q != PathOf(d, target)
      ensures SameAt(after.files, h.files, q)
    {
      TargetedFiles(env, d, p, h.files, k, q);
    }
    forall i | i != target
      ensures SameInstance(after.manifest, h.manifest, i)
    {
      OthersStayListed(env, d, p, now, i);
    }
  }

  // ---------------------------------------------------------------- crash recovery

  /** The same manifest, but for the time at which it was written. */
  predicate SameButTime(a: Option<Manifest>, b: Option<Manifest>) {
    match (a, b)
    case (Some(m), Some(n)) => m.(generatedAt := "") == n.(generatedAt := "")
    case (None, None) => true
    case _ => false
  }

  lemma AppliedHeader(p: PlanValue, now: string)
    ensures var m := AppliedManifest(p, now);
            m.schema == SCHEMA && m.version == VERSION && m.configSha == p.configSha && m.generatedAt == now
  {}

  lemma SettledHeader(env: Env, d: Dirs, p: PlanValue, h: HostValue)
    requires ValidDirs(d) && PlanOk(env, d, p) && p.existing == h.manifest && Settled(p, h) && p.desired != []
    ensures h.manifest.Some?
    ensures var m := h.manifest.value;
            m.schema == SCHEMA && m.version == VERSION && m.configSha == p.configSha && StrictlySorted(m.files)
  {
    hide StrictlySorted, Stale, Lookup, EntryOf, References.SafeName;
    assert p.desired[0] in p.desired;
  }

  /** A settled plan with something desired would write the manifest that is already there. */
  lemma SettledMeansApplied(env: Env, d: Dirs, p: PlanValue, h: HostValue, now: string)
    requires ValidDirs(d) && PlanOk(env, d, p) && p.existing == h.manifest && Settled(p, h) && p.desired != []
    ensures SameButTime(h.manifest, Some(AppliedManifest(p, now)))
  {
    hide StrictlySorted, AppliedManifest, PlanOk, Settled, InApplied;
    AppliedHeader(p, now);
    SettledHeader(env, d, p, h);
    AppliedEntries(env, d, p, now);
    var m, n := h.manifest.value, AppliedManifest(p, now);
    forall f
      ensures f in m.files <==> f in n.files
    {
      SettledEntries(env, d, p, h, f);
    }
    SameFilesSameList(m.files, n.files);
    forall i
      ensures (i in m.instanceSha <==> i in n.instanceSha) && (i in m.instanceSha ==> m.instanceSha[i] == n.instanceSha[i])
    {
      SettledSha(env, d, p, h, now, i);
    }
    assert m.instanceSha == n.instanceSha;
  }

  lemma SettledEntries(env: Env, d: Dirs, p: PlanValue, h: HostValue, f: ManifestFile)
    requires ValidDirs(d) && PlanOk(env, d, p) && p.existing == h.manifest && Settled(p, h) && h.manifest.Some?
    ensures f in h.manifest.value.files <==> InApplied(p, f)
  {
    var m := h.manifest.value;
    if f in m.files && p.scope.Has(f.instance) {
      assert !Stale(p, f);
      var x :| x in p.desired && x.entry.relativePath == f.relativePath;
      SameEntry(d, m, f, x.entry);
    }
  }

  lemma SameFilesSameList(a: seq<ManifestFile>, b: seq<ManifestFile>)
    requires StrictlySorted(a) && StrictlySorted(b) && forall f :: f in a <==> f in b
    ensures a == b
  {
    SortedListsItself(a);
    var m := ByRelative(a);
    hide ByRelative;
    forall k | k in m
      ensures m[k] in b
    {
      assert m[k] in a;
    }
    ListingIsUnique(a, b, m);
  }

  lemma SettledSha(env: Env, d: Dirs, p: PlanValue, h: HostValue, now: string, i: string)
    requires ValidDirs(d) && PlanOk(env, d, p) && p.existing == h.manifest && Settled(p, h) && h.manifest.Some?
    ensures var m, n := h.manifest.value.instanceSha, AppliedManifest(p, now).instanceSha;
            (i in m <==> i in n) && (i in m ==> m[i] == n[i])
  {
    AppliedSha(p, now, i);
    hide AppliedManifest;
    var m := h.manifest.value;
    assert m.instanceSha.Keys == Instances(m.files);
    hide WellFormed, DesiredOk;
    if x :| x in p.desired && x.entry.instance == i {
      assert x.entry in m.files && i in m.instanceSha;
    } else if i in m.instanceSha {
      var f :| f in m.files && f.instance == i;
      SettledEntries(env, d, p, h, f);
      assert !p.scope.Has(i);
    }
  }

  lemma SamePrefixSameTouch(env: Env, d: Dirs, p: PlanValue, files: map<string, Bytes>, k: nat)
    requires GoodHash(env) && ValidDirs(d) && PlanOk(env, d, p) && k <= |Changes(env, p, files)|
    ensures var left := RunChanges(files, Changes(env, p, files)[..k]);
            RunChanges(left, Changes(env, p, left)) == RunChanges(files, Changes(env, p, files))
  {
    hide PlanOk, Changes, RunChanges, GoodHash, Reached, Touched;
    var left := RunChanges(files, Changes(env, p, files)[..k]);
    ChangesReachGoal(env, d, p, files);
    ChangesReachGoal(env, d, p, left);
    forall q | !Touched(p, q)
      ensures SameAt(left, files, q)
    {
      PrefixTouches(env, d, p, files, k, q);
    }
    GoalIsUnique(p, files, left, RunChanges(files, Changes(env, p, files)), RunChanges(left, Changes(env, p, left)));
  }

  /** If the rebuilt plan finds less to do than the interrupted one, the manifest needs no writing either. */
  lemma RebuiltManifest(env: Env, d: Dirs, p: PlanValue, h: HostValue, k: nat, now: string, later: string)
    requires GoodHash(env) && ValidDirs(d) && PlanOk(env, d, p) && p.existing == h.manifest && k <= |Changes(env, p, h.files)|
    ensures var left := HostValue(RunChanges(h.files, Changes(env, p, h.files)[..k]), h.manifest);
            SameButTime(Applied(left, Against(env, p, left.files), later).manifest, Applied(h, Against(env, p, h.files), now).manifest)
  {
    var changes := Changes(env, p, h.files);
    var left := HostValue(RunChanges(h.files, changes[..k]), h.manifest);
    var first, second := Against(env, p, h.files), Against(env, p, left.files);
    ChangesDoNotMatter(env, p, h.files, now);
    ChangesDoNotMatter(env, p, left.files, later);
    assert SameButTime(Some(AppliedManifest(p, later)), Some(AppliedManifest(p, now)));
    if !first.HasChanges() {
      NothingToRun(h.files, changes[..k]);
    } else if !second.HasChanges() && p.desired != [] {
      hide GoodHash, PlanOk, Changes, AppliedManifest, RunChanges;
      NoChangesIffSettled(env, d, p, left);
      SettledMeansApplied(env, d, p, left, now);
    }
  }

  /** Crash recovery: wherever an apply stopped, planning again for the same configuration and target and applying that
      leads to the same files and the same manifest, but for its time, as the apply would have done. */
  lemma CrashRecovery(env: Env, d: Dirs, h: HostValue, g: Global, instances: seq<Instance>, target: string, now: string, later: string,
                      after: HostValue)
    requires GoodHash(env) && ValidDirs(d) && ConfigOk(d, g, instances) && Sound(d, h) && !Blank(now) && !Blank(later)
    requires PlanFor(env, h, g, instances, target).Ok?
    requires Interrupted(h, PlanFor(env, h, g, instances, target).value, now, after)
    ensures PlanFor(env, after, g, instances, target).Ok?
    ensures var whole := Applied(h, PlanFor(env, h, g, instances, target).value, now);
            var again := Applied(after, PlanFor(env, after, g, instances, target).value, later);
            again.files == whole.files && SameButTime(again.manifest, whole.manifest)
  {
    var p := PlanBase(env, h.manifest, g, instances, target).value;
    var full := Against(env, p, h.files);
    var whole := Applied(h, full, now);
    if after == whole {
      ApplyConverges(env, d, h, g, instances, target, now);
      ApplyConverges(env, d, h, g, instances, target, later);
      AppliedNothing(after, PlanFor(env, after, g, instances, target).value, later);
    } else {
      var k :| 0 <= k <= |full.changes| && after == HostValue(RunChanges(h.files, full.changes[..k]), h.manifest);
      assert p.existing == h.manifest;
      PlanShape(env, d, h.manifest, g, instances, target);
      hide GoodHash, PlanOk, Changes, WellFormed, ConfigOk, SelectTargets, RunChanges, AppliedManifest, PlanBase, Applied;
      SamePrefixSameTouch(env, d, p, h.files, k);
      RebuiltManifest(env, d, p, h, k, now, later);
      AppliedRuns(h, full, now);
      AppliedRuns(after, Against(env, p, after.files), later);
    }
  }

  // ---------------------------------------------------------------- runs

  function ManifestFiles(manifest: Option<Manifest>): seq<ManifestFile> {
    if manifest.Some? then manifest.value.files else []
  }

  ghost predicate Listed(manifest: Option<Manifest>, q: string) {
    exists f :: f in ManifestFiles(manifest) && f.path == q
  }

  /** The disk has the content that the entry promises. */
  predicate True(env: Env, files: map<string, Bytes>, f: ManifestFile) {
    f.path in files && env.hash(files[f.path]) == f.sha256
  }

  /** The manifest lists exactly the files under the generated directory, each with its true hash. */
  ghost predicate InSync(env: Env, d: Dirs, h: HostValue)
    requires ValidDirs(d)
  {
    && Sound(d, h)
    && (forall f :: f in ManifestFiles(h.manifest) ==> True(env, h.files, f))
    && forall q :: q in h.files && IsPathUnder(d.generated, q) ==> Listed(h.manifest, q)
  }

  /** A generated file that the manifest does not list and the plan does not want. */
  ghost predicate Orphan(p: PlanValue, files: map<string, Bytes>, q: string) {
    && q in files && IsPathUnder(p.dirs.generated, q) && !Listed(p.existing, q)
    && !exists x :: x in p.desired && x.entry.path == q
  }

  lemma AppliedListing(env: Env, d: Dirs, p: PlanValue, h: HostValue, now: string, f: ManifestFile)
    requires GoodHash(env) && ValidDirs(d) && PlanOk(env, d, p) && p.existing == h.manifest
    ensures f in ManifestFiles(Applied(h, Against(env, p, h.files), now).manifest) <==> InApplied(p, f)
  {
    if Against(env, p, h.files).HasChanges() {
      hide PlanOk, AppliedManifest, InApplied, Changes, RunChanges;
      ChangesDoNotMatter(env, p, h.files, now);
      AppliedEntries(env, d, p, now);
    } else {
      hide GoodHash, PlanOk, AppliedManifest, Changes, RunChanges, Stale;
      NoChangesIffSettled(env, d, p, h);
      if h.manifest.Some? {
        SettledEntries(env, d, p, h, f);
      }
    }
  }

  lemma OutOfScopeIsUntouched(env: Env, d: Dirs, p: PlanValue, f: ManifestFile)
    requires ValidDirs(d) && PlanOk(env, d, p) && f in ExistingFiles(p) && !p.scope.Has(f.instance)
    ensures !Touched(p, f.path)
  {
    hide References.SafeName;
    forall x | x in p.desired
      ensures x.entry.path != f.path
    {
      if x.entry.path == f.path {
        PathsDiffer(d, x.entry.instance, f.instance);
      }
    }
    forall g | g in ExistingFiles(p) && Stale(p, g)
      ensures g.path != f.path
    {
      if g.path == f.path {
        SameEntry(d, p.existing.value, f, g);
      }
    }
  }

  /** Each existing entry is kept, replaced by a desired one, or stale. */
  lemma ExistingEntryIs(env: Env, d: Dirs, p: PlanValue, f: ManifestFile)
    requires ValidDirs(d) && PlanOk(env, d, p) && f in ExistingFiles(p)
    ensures InApplied(p, f) || Stale(p, f) || exists x :: x in p.desired && x.entry.path == f.path
  {
    hide References.SafeName;
    if x :| x in p.desired && x.entry.relativePath == f.relativePath {
      PathsDiffer(d, x.entry.instance, f.instance);
    }
  }

  /** After a change of the disk to what the plan wants, exactly the entries out of scope and the orphans can be out of step. */
  lemma ReachedListing(env: Env, d: Dirs, p: PlanValue, files: map<string, Bytes>, after: map<string, Bytes>, q: string)
    requires ValidDirs(d) && PlanOk(env, d, p) && Reached(p, files, after)
    ensures q in after && IsPathUnder(d.generated, q) && !(exists f :: InApplied(p, f) && f.path == q) <==> Orphan(p, files, q)
  {
    hide WellFormed, DesiredOk, Stale;
    if !Touched(p, q) {
      assert SameAt(after, files, q);
    }
    if f :| f in ExistingFiles(p) && f.path == q {
      ExistingEntryIs(env, d, p, f);
    }
    if x :| x in p.desired && x.entry.path == q {
      assert InApplied(p, x.entry);
    }
  }

  lemma ReachedHash(env: Env, d: Dirs, p: PlanValue, files: map<string, Bytes>, after: map<string, Bytes>, f: ManifestFile)
    requires ValidDirs(d) && PlanOk(env, d, p) && Reached(p, files, after) && InApplied(p, f)
    ensures True(env, after, f) <==> True(env, files, f) || p.scope.Has(f.instance)
  {
    if x :| x in p.desired && x.entry == f {
      assert f.sha256 == env.hash(x.data);
    } else {
      OutOfScopeIsUntouched(env, d, p, f);
      assert SameAt(after, files, f.path);
    }
  }

  /** A successful apply leaves manifest and disk in step exactly when no orphan was there before
      and the entries of the instances that it left alone were true. */
  lemma SyncIff(env: Env, d: Dirs, p: PlanValue, h: HostValue, now: string)
    requires GoodHash(env) && ValidDirs(d) && PlanOk(env, d, p) && p.existing == h.manifest && Sound(d, h) && !Blank(now)
    ensures InSync(env, d, Applied(h, Against(env, p, h.files), now)) <==>
              && (forall q :: !Orphan(p, h.files, q))
              && forall f :: f in ExistingFiles(p) && !p.scope.Has(f.instance) ==> True(env, h.files, f)
  {
    var full := Against(env, p, h.files);
    var after := Applied(h, full, now);
    hide GoodHash, PlanOk, Applied, Changes, RunChanges, InApplied, Orphan, True, Sound, Reached;
    AppliedRuns(h, full, now);
    ChangesReachGoal(env, d, p, h.files);
    AppliedIsSound(env, d, p, h, now);
    forall f
      ensures f in ManifestFiles(after.manifest) <==> InApplied(p, f)
    {
      AppliedListing(env, d, p, h, now, f);
    }
    forall q
      ensures q in after.files && IsPathUnder(d.generated, q) && !Listed(after.manifest, q) <==> Orphan(p, h.files, q)
    {
      ReachedListing(env, d, p, h.files, after.files, q);
      ListedAre(p, after.manifest, q);
    }
    forall f | InApplied(p, f)
      ensures True(env, after.files, f) <==> True(env, h.files, f) || p.scope.Has(f.instance)
    {
      ReachedHash(env, d, p, h.files, after.files, f);
    }
    forall f: ManifestFile | !p.scope.Has(f.instance)
      ensures InApplied(p, f) <==> f in ExistingFiles(p)
    {
      OutOfScopeStays(env, d, p, f);
    }
  }

  lemma ListedAre(p: PlanValue, manifest: Option<Manifest>, q: string)
    requires forall f :: f in ManifestFiles(manifest) <==> InApplied(p, f)
    ensures Listed(manifest, q) <==> exists f :: InApplied(p, f) && f.path == q
  {
    hide InApplied;
  }

  lemma PlannedIsListed(env: Env, d: Dirs, p: PlanValue, h: HostValue, now: string, x: DesiredFile)
    requires GoodHash(env) && ValidDirs(d) && PlanOk(env, d, p) && p.existing == h.manifest && x in p.desired
    ensures x.entry in ManifestFiles(Applied(h, Against(env, p, h.files), now).manifest)
  {
    hide PlanOk, Applied, Changes;
    AppliedListing(env, d, p, h, now, x.entry);
  }

  /** Every instance that is served has its generated content, and an entry with its name, path and hash. */
  lemma ServedIsListed(env: Env, d: Dirs, h: HostValue, g: Global, instances: seq<Instance>, target: string, now: string, i: Instance)
    requires GoodHash(env) && ValidDirs(d) && ConfigOk(d, g, instances) && Sound(d, h) && !Blank(now)
    requires PlanFor(env, h, g, instances, target).Ok? && i in instances && if target == "" then i.enabled else i.name == target
    ensures var after, path := Applied(h, PlanFor(env, h, g, instances, target).value, now), PathOf(d, i.name);
            && path in after.files && env.generate(g, instances, i) == Ok(after.files[path])
            && EntryOf(d, i.name, env.hash(after.files[path])) in ManifestFiles(after.manifest)
  {
    var p := PlanBase(env, h.manifest, g, instances, target).value;
    assert p.existing == h.manifest && PlanFor(env, h, g, instances, target).value == Against(env, p, h.files);
    ApplyConverges(env, d, h, g, instances, target, now);
    PlanShape(env, d, h.manifest, g, instances, target);
    SelectedAre(instances, target);
    TargetIsPlanned(env, h.manifest, g, instances, target, i);
    hide GoodHash, PlanFor, PlanBase, Applied, Changes, SelectTargets, PathOf, Sound;
    var x :| x in p.desired && x.entry.path == PathOf(d, i.name) && env.generate(g, instances, i) == Ok(x.data);
    PathsDiffer(d, x.entry.instance, i.name);
    PlannedIsListed(env, d, p, h, now, x);
  }

  /** After a full apply, entries are those of desired files, and listed files of other instances are gone. */
  lemma FullScope(env: Env, d: Dirs, p: PlanValue, h: HostValue, now: string, f: ManifestFile)
    requires GoodHash(env) && ValidDirs(d) && PlanOk(env, d, p) && p.existing == h.manifest && p.scope == Full
    ensures var after := Applied(h, Against(env, p, h.files), now);
            && (f in ManifestFiles(after.manifest) ==> exists x :: x in p.desired && x.entry == f)
            && (f in ManifestFiles(h.manifest) && (forall x :: x in p.desired ==> x.entry.instance != f.instance) ==>
                  f.path !in after.files)
  {
    AppliedListing(env, d, p, h, now, f);
    AppliedRuns(h, Against(env, p, h.files), now);
    ChangesReachGoal(env, d, p, h.files);
    hide GoodHash, Applied, Changes, RunChanges, References.SafeName, PathOf, RelOf, StrictlySorted;
    if f in ManifestFiles(h.manifest) && forall x :: x in p.desired ==> x.entry.instance != f.instance {
      forall x | x in p.desired
        ensures x.entry.relativePath != f.relativePath
      {
        if x.entry.relativePath == f.relativePath {
          PathsDiffer(d, x.entry.instance, f.instance);
        }
      }
      assert Stale(p, f);
    }
  }

  /** A full apply serves exactly the enabled instances: each has its generated content and is listed, nothing else is listed,
      and the files that were listed for other names are gone. */
  lemma FullApplyServesEnabled(env: Env, d: Dirs, h: HostValue, g: Global, instances: seq<Instance>, now: string)
    requires GoodHash(env) && ValidDirs(d) && ConfigOk(d, g, instances) && Sound(d, h) && !Blank(now)
    requires PlanFor(env, h, g, instances, "").Ok?
    ensures var after := Applied(h, PlanFor(env, h, g, instances, "").value, now);
            && (forall i :: i in instances && i.enabled ==>
                  var path := PathOf(d, i.name);
                  && path in after.files && env.generate(g, instances, i) == Ok(after.files[path])
                  && EntryOf(d, i.name, env.hash(after.files[path])) in ManifestFiles(after.manifest))
            && (forall f :: f in ManifestFiles(after.manifest) ==> exists i :: i in instances && i.enabled && i.name == f.instance)
            && (forall f :: f in ManifestFiles(h.manifest) ==>
                  f.path !in after.files || exists i :: i in instances && i.enabled && i.name == f.instance)
  {
    var p := PlanBase(env, h.manifest, g, instances, "").value;
    var after := Applied(h, Against(env, p, h.files), now);
    assert p.existing == h.manifest && p.scope == Full && PlanFor(env, h, g, instances, "").value == Against(env, p, h.files);
    PlanShape(env, d, h.manifest, g, instances, "");
    PlannedAre(env, d, h.manifest, g, instances, "");
    hide *;
    forall i | i in instances && i.enabled
      ensures var path := PathOf(d, i.name);
              && path in after.files && env.generate(g, instances, i) == Ok(after.files[path])
              && EntryOf(d, i.name, env.hash(after.files[path])) in ManifestFiles(after.manifest)
    {
      ServedIsListed(env, d, h, g, instances, "", now, i);
    }
    forall f
      ensures f in ManifestFiles(after.manifest) ==> exists i :: i in instances && i.enabled && i.name == f.instance
      ensures f in ManifestFiles(h.manifest) ==> f.path !in after.files || exists i :: i in instances && i.enabled && i.name == f.instance
    {
      FullScope(env, d, p, h, now, f);
    }
  }

  /** A targeted apply serves the instance of that name, enabled or not; without one there is no plan. */
  lemma TargetedApplyServesNamed(env: Env, d: Dirs, h: HostValue, g: Global, instances: seq<Instance>, target: string, now: string)
    requires GoodHash(env) && ValidDirs(d) && ConfigOk(d, g, instances) && Sound(d, h) && !Blank(now) && target != ""
    ensures PlanFor(env, h, g, instances, target).Ok? ==>
              && (exists i :: i in instances && i.name == target)
              && var after := Applied(h, PlanFor(env, h, g, instances, target).value, now);
                 forall i :: i in instances && i.name == target ==>
                   var path := PathOf(d, target);
                   && path in after.files && env.generate(g, instances, i) == Ok(after.files[path])
                   && EntryOf(d, target, env.hash(after.files[path])) in ManifestFiles(after.manifest)
  {
    SelectedAre(instances, target);
    if PlanFor(env, h, g, instances, target).Ok? {
      hide GoodHash, PlanFor, PlanBase, Applied, Changes, SelectTargets, PathOf, Sound, EntryOf;
      forall i | i in instances && i.name == target
        ensures var after, path := Applied(h, PlanFor(env, h, g, instances, target).value, now), PathOf(d, target);
                && path in after.files && env.generate(g, instances, i) == Ok(after.files[path])
                && EntryOf(d, target, env.hash(after.files[path])) in ManifestFiles(after.manifest)
      {
        ServedIsListed(env, d, h, g, instances, target, now, i);
      }
    }
  }

  /** One call of the program: a configuration, a target, and the time. */
  datatype Request = Request(g: Global, instances: seq<Instance>, target: string, now: string)

  ghost predicate RequestOk(d: Dirs, r: Request) {
    ConfigOk(d, r.g, r.instances) && !Blank(r.now)
  }

  /** BuildPlan and ApplyPlan; without a plan nothing happens. */
  ghost function Serve(env: Env, h: HostValue, r: Request): HostValue {
    match PlanFor(env, h, r.g, r.instances, r.target)
    case Err => h
    case Ok(p) => Applied(h, p, r.now)
  }

  ghost function ServeAll(env: Env, h: HostValue, requests: seq<Request>): HostValue {
    if requests == [] then h
    else Serve(env, ServeAll(env, h, requests[..|requests| - 1]), requests[|requests| - 1])
  }

  lemma ServeKeepsSync(env: Env, d: Dirs, h: HostValue, r: Request)
    requires GoodHash(env) && ValidDirs(d) && RequestOk(d, r) && InSync(env, d, h)
    ensures InSync(env, d, Serve(env, h, r))
  {
    if PlanFor(env, h, r.g, r.instances, r.target).Ok? {
      var p := PlanBase(env, h.manifest, r.g, r.instances, r.target).value;
      assert p.existing == h.manifest;
      PlanShape(env, d, h.manifest, r.g, r.instances, r.target);
      hide GoodHash, PlanOk, Changes, WellFormed, ConfigOk, SelectTargets, Applied, PlanBase;
      SyncIff(env, d, p, h, r.now);
    }
  }

  /** Over every run of full and targeted applies with changing configurations, from a host that has no generated files,
      the manifest lists exactly the files under the generated directory, sorted, each with its true hash,
      and ValidateManifest accepts it. */
  lemma {:induction false} RunsStayInSync(env: Env, d: Dirs, h: HostValue, requests: seq<Request>)
    requires GoodHash(env) && ValidDirs(d) && forall r :: r in requests ==> RequestOk(d, r)
    requires h.manifest == None && forall q :: q in h.files ==> !IsPathUnder(d.generated, q)
    ensures var after := ServeAll(env, h, requests);
            && InSync(env, d, after)
            && (after.manifest.Some? ==> ManifestAccepted(after.manifest.value, d.generated))
  {
    hide WellFormed, GoodHash, RequestOk, Serve, ManifestAccepted;
    if requests != [] {
      var n := |requests| - 1;
      RunsStayInSync(env, d, h, requests[..n]);
      ServeKeepsSync(env, d, ServeAll(env, h, requests[..n]), requests[n]);
    }
    var after := ServeAll(env, h, requests);
    if after.manifest.Some? {
      WellFormedIsAccepted(d, after.manifest.value);
    }
  }

  /** A stopped apply leaves a manifest that the next plan can read, so a later apply of any configuration converges. */
  lemma InterruptedIsSound(env: Env, d: Dirs, h: HostValue, r: Request, after: HostValue)
    requires GoodHash(env) && ValidDirs(d) && RequestOk(d, r) && Sound(d, h)
    requires PlanFor(env, h, r.g, r.instances, r.target).Ok?
    requires Interrupted(h, PlanFor(env, h, r.g, r.instances, r.target).value, r.now, after)
    ensures Sound(d, after)
  {
    var p := PlanBase(env, h.manifest, r.g, r.instances, r.target).value;
    assert p.existing == h.manifest;
    PlanShape(env, d, h.manifest, r.g, r.instances, r.target);
    hide GoodHash, PlanOk, Changes, WellFormed, ConfigOk, SelectTargets, Applied, PlanBase;
    AppliedIsSound(env, d, p, h, r.now);
  }

  /** One call of the program, and the host that it left: without a plan as it was, else wherever the apply ended. */
  datatype Turn = Turn(request: Request, after: HostValue)

  ghost predicate Happens(env: Env, d: Dirs, before: HostValue, t: Turn) {
    && RequestOk(d, t.request)
    && match PlanFor(env, before, t.request.g, t.request.instances, t.request.target)
       case Err => t.after == before
       case Ok(p) => Interrupted(before, p, t.request.now, t.after)
  }

  function HostAfter(h: HostValue, turns: seq<Turn>): HostValue {
    if turns == [] then h else turns[|turns| - 1].after
  }

  /** Calls with changing configurations and targets, each of which may be stopped anywhere. */
  ghost predicate Turns(env: Env, d: Dirs, h: HostValue, turns: seq<Turn>) {
    forall n :: 0 <= n < |turns| ==> Happens(env, d, HostAfter(h, turns[..n]), turns[n])
  }

  /** Disk and manifest agree on path `q`: a generated file there is listed, and what is listed is there with its true hash. */
  ghost predicate InStep(env: Env, d: Dirs, h: HostValue, q: string)
    requires ValidDirs(d)
  {
    && (q in h.files && IsPathUnder(d.generated, q) ==> Listed(h.manifest, q))
    && forall f :: f in ManifestFiles(h.manifest) && f.path == q ==> True(env, h.files, f)
  }

  /** Some apply that was stopped changed the file at `q`, and no whole apply that works on that path has come since. */
  ghost predicate Disturbed(env: Env, h: HostValue, turns: seq<Turn>, q: string) {
    turns != []
    && var t, sofar := turns[|turns| - 1], turns[..|turns| - 1];
       var before := HostAfter(h, sofar);
       match PlanFor(env, before, t.request.g, t.request.instances, t.request.target)
       case Err => Disturbed(env, h, sofar, q)
       case Ok(p) =>
         if t.after == Applied(before, p, t.request.now) then Disturbed(env, h, sofar, q) && !Touched(p, q)
         else Disturbed(env, h, sofar, q) || !SameAt(t.after.files, before.files, q)
  }

  lemma InSyncIsInStep(env: Env, d: Dirs, h: HostValue)
    requires ValidDirs(d)
    ensures InSync(env, d, h) <==> Sound(d, h) && forall q :: InStep(env, d, h, q)
  {
    hide True, Sound, Listed;
    if forall q :: InStep(env, d, h, q) {
      forall f | f in ManifestFiles(h.manifest)
        ensures True(env, h.files, f)
      {
        assert InStep(env, d, h, f.path);
      }
      forall q | q in h.files && IsPathUnder(d.generated, q)
        ensures Listed(h.manifest, q)
      {
        assert InStep(env, d, h, q);
      }
    }
  }

  lemma TouchedIsNoOrphan(p: PlanValue, files: map<string, Bytes>, q: string)
    requires Touched(p, q)
    ensures !Orphan(p, files, q)
  {
    hide Stale;
    assert ExistingFiles(p) == ManifestFiles(p.existing);
  }

  /** A whole apply leaves what it works on in step, and keeps in step what was. */
  lemma WholeIsInStep(env: Env, d: Dirs, p: PlanValue, h: HostValue, now: string, q: string)
    requires GoodHash(env) && ValidDirs(d) && PlanOk(env, d, p) && p.existing == h.manifest
    requires Touched(p, q) || InStep(env, d, h, q)
    ensures InStep(env, d, Applied(h, Against(env, p, h.files), now), q)
  {
    var full := Against(env, p, h.files);
    var after := Applied(h, full, now);
    assert p.dirs == d && ExistingFiles(p) == ManifestFiles(h.manifest);
    hide GoodHash, PlanOk, Applied, Changes, RunChanges, InApplied, True, Reached, Touched, Listed;
    AppliedRuns(h, full, now);
    ChangesReachGoal(env, d, p, h.files);
    forall f
      ensures f in ManifestFiles(after.manifest) <==> InApplied(p, f)
    {
      AppliedListing(env, d, p, h, now, f);
    }
    ReachedListing(env, d, p, h.files, after.files, q);
    ListedAre(p, after.manifest, q);
    if Touched(p, q) {
      TouchedIsNoOrphan(p, h.files, q);
    }
    forall f | InApplied(p, f) && f.path == q
      ensures True(env, after.files, f)
    {
      ReachedHash(env, d, p, h.files, after.files, f);
      if !p.scope.Has(f.instance) {
        OutOfScopeStays(env, d, p, f);
        OutOfScopeIsUntouched(env, d, p, f);
      }
    }
  }

  /** Where the disk did not change and the manifest is the same, nothing gets out of step. */
  lemma UnchangedIsInStep(env: Env, d: Dirs, a: HostValue, b: HostValue, q: string)
    requires ValidDirs(d) && SameAt(b.files, a.files, q) && b.manifest == a.manifest && InStep(env, d, a, q)
    ensures InStep(env, d, b, q)
  {}

  lemma TurnKeepsStep(env: Env, d: Dirs, h: HostValue, t: Turn, q: string)
    requires GoodHash(env) && ValidDirs(d) && Sound(d, h) && Happens(env, d, h, t)
    ensures Sound(d, t.after)
    ensures match PlanFor(env, h, t.request.g, t.request.instances, t.request.target)
            case Err => t.after == h
            case Ok(p) =>
              if t.after == Applied(h, p, t.request.now) then Touched(p, q) || InStep(env, d, h, q) ==> InStep(env, d, t.after, q)
              else SameAt(t.after.files, h.files, q) && InStep(env, d, h, q) ==> InStep(env, d, t.after, q)
  {
    var r := t.request;
    if PlanFor(env, h, r.g, r.instances, r.target).Ok? {
      var p := PlanBase(env, h.manifest, r.g, r.instances, r.target).value;
      assert p.existing == h.manifest;
      PlanShape(env, d, h.manifest, r.g, r.instances, r.target);
      hide GoodHash, PlanOk, Changes, WellFormed, ConfigOk, SelectTargets, Applied, PlanBase, InStep, SameAt;
      InterruptedIsSound(env, d, h, r, t.after);
      var full := Against(env, p, h.files);
      assert Touched(full, q) <==> Touched(p, q) by { SameTouch(env, p, h.files, q); }
      if t.after == Applied(h, full, r.now) {
        if Touched(p, q) || InStep(env, d, h, q) {
          WholeIsInStep(env, d, p, h, r.now, q);
        }
      } else if SameAt(t.after.files, h.files, q) && InStep(env, d, h, q) {
        UnchangedIsInStep(env, d, h, t.after, q);
      }
    }
  }

  lemma SameTouch(env: Env, p: PlanValue, files: map<string, Bytes>, q: string)
    ensures Touched(Against(env, p, files), q) <==> Touched(p, q)
  {
    hide Changes;
    assert forall f :: Stale(Against(env, p, files), f) <==> Stale(p, f);
  }

  /** Over every run of calls with changing configurations and targets, each of which may be stopped anywhere, the manifest
      that is there is always accepted; and a path gets out of step only by an apply that was stopped after changing its
      file, until a whole apply works on it again. */
  lemma {:induction false} OnlyStoppedAppliesDisturb(env: Env, d: Dirs, h: HostValue, turns: seq<Turn>, q: string)
    requires GoodHash(env) && ValidDirs(d) && Sound(d, h) && Turns(env, d, h, turns)
    ensures var now := HostAfter(h, turns);
            && Sound(d, now)
            && (now.manifest.Some? ==> ManifestAccepted(now.manifest.value, d.generated))
            && (InStep(env, d, h, q) && !Disturbed(env, h, turns, q) ==> InStep(env, d, now, q))
  {
    hide WellFormed, GoodHash, ManifestAccepted, InStep, Happens, PlanFor, Applied, SameAt, Touched;
    if turns == [] {
    } else {
      var n := |turns| - 1;
      forall k | 0 <= k < n
        ensures turns[..n][k] == turns[k] && turns[..n][..k] == turns[..k]
      {}
      OnlyStoppedAppliesDisturb(env, d, h, turns[..n], q);
      TurnKeepsStep(env, d, HostAfter(h, turns[..n]), turns[n], q);
    }
    var now := HostAfter(h, turns);
    if now.manifest.Some? {
      WellFormedIsAccepted(d, now.manifest.value);
    }
  }

  /** So, from a host that has no generated files: only a file that a stopped apply wrote can be one that no manifest lists,
      and only an entry whose file a stopped apply changed can have a wrong hash. */
  lemma MixedRunsStayInSync(env: Env, d: Dirs, h: HostValue, turns: seq<Turn>)
    requires GoodHash(env) && ValidDirs(d) && Turns(env, d, h, turns)
    requires h.manifest == None && forall q :: q in h.files ==> !IsPathUnder(d.generated, q)
    ensures var now := HostAfter(h, turns);
            && (now.manifest.Some? ==> ManifestAccepted(now.manifest.value, d.generated))
            && (forall q :: q in now.files && IsPathUnder(d.generated, q) ==> Listed(now.manifest, q) || Disturbed(env, h, turns, q))
            && (forall f :: f in ManifestFiles(now.manifest) ==> True(env, now.files, f) || Disturbed(env, h, turns, f.path))
            && ((forall q :: !Disturbed(env, h, turns, q)) ==> InSync(env, d, now))
  {
    var now := HostAfter(h, turns);
    hide GoodHash, Turns, ManifestAccepted, Disturbed, True, Listed, InSync, HostAfter;
    OnlyStoppedAppliesDisturb(env, d, h, turns, "");
    forall q
      ensures InStep(env, d, now, q) || Disturbed(env, h, turns, q)
    {
      OnlyStoppedAppliesDisturb(env, d, h, turns, q);
    }
    InSyncIsInStep(env, d, now);
    hide Sound, ValidDirs;
    forall f | f in ManifestFiles(now.manifest)
      ensures True(env, now.files, f) || Disturbed(env, h, turns, f.path)
    {
      assert InStep(env, d, now, f.path) || Disturbed(env, h, turns, f.path);
    }
  }

  lemma AppliedLater(h: HostValue, p: PlanValue, now: string, later: string)
    ensures Applied(h, p, later).files == Applied(h, p, now).files
    ensures SameButTime(Applied(h, p, later).manifest, Applied(h, p, now).manifest)
  {}

  /** An apply that was stopped, at some time and with what it left. */
  datatype Try = Try(now: string, after: HostValue)

  function Left(h: HostValue, tries: seq<Try>): HostValue {
    if tries == [] then h else tries[|tries| - 1].after
  }

  /** Each try planned from what the one before had left, and was stopped somewhere, or at its end. */
  ghost predicate Stopped(env: Env, h: HostValue, g: Global, instances: seq<Instance>, target: string, tries: seq<Try>) {
    forall n :: 0 <= n < |tries| ==>
      && !Blank(tries[n].now) && PlanFor(env, Left(h, tries[..n]), g, instances, target).Ok?
      && var before := Left(h, tries[..n]);
         Interrupted(before, PlanFor(env, before, g, instances, target).value, tries[n].now, tries[n].after)
  }

  /** Crash recovery, however often: after any number of stopped tries for the same configuration and target, planning and
      applying leads to the files and the manifest, but for its time, of one whole apply. */
  lemma {:induction false} RecoveryFromManyCrashes(env: Env, d: Dirs, h: HostValue, g: Global, instances: seq<Instance>, target: string,
                                                   tries: seq<Try>, now: string, later: string)
    requires GoodHash(env) && ValidDirs(d) && ConfigOk(d, g, instances) && Sound(d, h) && !Blank(now) && !Blank(later)
    requires PlanFor(env, h, g, instances, target).Ok? && Stopped(env, h, g, instances, target, tries)
    ensures var left := Left(h, tries);
            Sound(d, left) && PlanFor(env, left, g, instances, target).Ok?
    ensures var left := Left(h, tries);
            var whole := Applied(h, PlanFor(env, h, g, instances, target).value, now);
            var again := Applied(left, PlanFor(env, left, g, instances, target).value, later);
            again.files == whole.files && SameButTime(again.manifest, whole.manifest)
  {
    hide GoodHash, ConfigOk, ValidDirs, Sound, PlanFor, Applied, Interrupted, Blank;
    if tries == [] {
      AppliedLater(h, PlanFor(env, h, g, instances, target).value, now, later);
    } else {
      var n := |tries| - 1;
      var last, before := tries[n], Left(h, tries[..n]);
      forall k | 0 <= k < n
        ensures tries[..n][k] == tries[k] && tries[..n][..k] == tries[..k]
      {}
      RecoveryFromManyCrashes(env, d, h, g, instances, target, tries[..n], now, last.now);
      InterruptedIsSound(env, d, before, Request(g, instances, target, last.now), last.after);
      CrashRecovery(env, d, before, g, instances, target, last.now, later, last.after);
    }
  }

  lemma PlanForOneNewInstance(env: Env, d: Dirs, g: Global, i: Instance, data: Bytes)
    requires ValidDirs(d) && g.dirs == d && References.SafeName(i.name) && i.enabled && env.generate(g, [i], i) == Ok(data)
    ensures var r := PlanFor(env, HostValue(map[], None), g, [i], "");
            r.Ok? && r.value.changes == [Change(Create, EntryOf(d, i.name, env.hash(data)), data)]
  {
    RelIsValid(d, i.name);
    hide RelativeRuntimePath, References.SafeName, PathOf, RelOf, IsPathUnder;
    assert [i][..0] == [] && Enabled([i]) == [i];
    var x := DesiredFile(EntryOf(d, i.name, env.hash(data)), data);
    assert AllDesired(env, g, [i], []) == Ok([]) && DesiredOf(env, g, [i], i) == Ok(x);
    var none: seq<DesiredFile> := [];
    assert none + [x] == [x];
    assert AllDesired(env, g, [i], [i]) == Ok([x]);
    assert [x][1..] == [] && SortStable([x], DesiredLess) == [x];
    var p := PlanBase(env, None, g, [i], "").value;
    var c := Change(Create, x.entry, data);
    assert DesiredChanges(env, p, [x], map[]) + DeleteChanges(p, []) == [c];
    assert [c][1..] == [] && SortStable([c], ChangeLess) == [c];
  }

  lemma PlanForNoInstances(env: Env, h: HostValue, g: Global, now: string)
    requires h.manifest == None
    ensures Serve(env, h, Request(g, [], "", now)) == h
  {
    assert Enabled([]) == [] && AllDesired(env, g, [], []) == Ok([]);
    var p := PlanFor(env, h, g, [], "").value;
    assert p.changes == [];
  }

  lemma OneCreate(h: HostValue, p: PlanValue, now: string, e: ManifestFile, data: Bytes)
    requires p.changes == [Change(Create, e, data)]
    ensures Interrupted(h, p, now, HostValue(h.files[e.path := data], h.manifest))
  {
    hide Applied;
    assert p.changes[..1] == p.changes && p.changes[..0] == [];
    assert RunChanges(h.files, p.changes[..1]) == h.files[e.path := data];
  }

  lemma UnlistedIsNotInSync(env: Env, d: Dirs, h: HostValue, path: string)
    requires ValidDirs(d) && h.manifest == None && path in h.files && IsPathUnder(d.generated, path)
    ensures !InSync(env, d, h)
  {
    assert !Listed(h.manifest, path);
  }

  /** Recovery needs the same configuration: if an apply stops before its manifest, and the instance is then removed,
      its file stays and no manifest lists it. */
  lemma RemovalAfterCrashLeavesOrphan(env: Env, d: Dirs, g: Global, i: Instance, data: Bytes, now: string, later: string)
    returns (after: HostValue)
    requires GoodHash(env) && ValidDirs(d) && ConfigOk(d, g, [i]) && !Blank(now) && !Blank(later)
    requires i.enabled && env.generate(g, [i], i) == Ok(data)
    ensures var plan := PlanFor(env, HostValue(map[], None), g, [i], "");
            plan.Ok? && Interrupted(HostValue(map[], None), plan.value, now, after)
    ensures var removed := Serve(env, after, Request(g, [], "", later));
            PathOf(d, i.name) in removed.files && !InSync(env, d, removed)
  {
    var clean := HostValue(map[], None);
    assert References.SafeName(i.name);
    hide RelativeRuntimePath, PathOf, GoodHash, IsPathUnder, ConfigOk, PlanFor, Serve, References.SafeName, Interrupted, InSync, RelOf;
    var entry := EntryOf(d, i.name, env.hash(data));
    after := HostValue(map[entry.path := data], None);
    assert clean.files[entry.path := data] == after.files;
    RelIsValid(d, i.name);
    PlanForOneNewInstance(env, d, g, i, data);
    PlanForNoInstances(env, after, g, later);
    OneCreate(clean, PlanFor(env, clean, g, [i], "").value, now, entry, data);
    UnlistedIsNotInSync(env, d, after, entry.path);
  }
}

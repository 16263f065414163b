/** Convergence, scope isolation, crash recovery, and what every run of applies keeps (internal/runtime). */
module RuntimeProofs {
  import opened Wrappers
  import opened Text
  import opened Sorting
  import opened RuntimeManifest
  import opened RuntimePlan
  import opened RuntimeApply

  // ---------------------------------------------------------------- well-formed plans

  /** What the loader guarantees, and distinct instance names, which it does not. */
  ghost predicate ConfigOk(d: Dirs, g: Global, instances: seq<Instance>) {
    && g.dirs == d
    && (forall i :: i in instances ==> References.SafeName(i.name))
    && forall i, j :: i in instances && j in instances && i.name == j.name ==> i == j
  }

  /** Desired files are entries of safe instances, one for each instance. */
  ghost predicate DesiredOk(env: Env, d: Dirs, desired: seq<DesiredFile>)
    requires ValidDirs(d)
  {
    && (forall x :: x in desired ==> References.SafeName(x.entry.instance)
                                     && x.entry == EntryOf(d, x.entry.instance, env.hash(x.data)))
    && forall x, y :: x in desired && y in desired && x.entry.instance == y.entry.instance ==> x == y
  }

  ghost predicate PlanOk(env: Env, d: Dirs, p: PlanValue)
    requires ValidDirs(d)
  {
    && p.dirs == d && !Blank(p.configSha)
    && DesiredOk(env, d, p.desired)
    && (forall x :: x in p.desired ==> p.scope.Has(x.entry.instance))
    && (p.existing.Some? ==> WellFormed(d, p.existing.value))
  }

  lemma {:induction false} AllDesiredShape(env: Env, d: Dirs, g: Global, all: seq<Instance>, targets: seq<Instance>)
    requires ValidDirs(d) && g.dirs == d && forall i :: i in targets ==> References.SafeName(i.name)
    requires AllDesired(env, g, all, targets).Ok?
    ensures forall x :: x in AllDesired(env, g, all, targets).value ==>
              && (exists i :: i in targets && env.generate(g, all, i) == Ok(x.data) && x.entry.instance == i.name)
              && x.entry == EntryOf(d, x.entry.instance, env.hash(x.data))
  {
    if targets == [] {
    } else {
      var n := |targets| - 1;
      assert targets == targets[..n] + [targets[n]];
      AllDesiredShape(env, d, g, all, targets[..n]);
      RelIsValid(d, targets[n].name);
    }
  }

  lemma DesiredShape(env: Env, d: Dirs, g: Global, all: seq<Instance>, targets: seq<Instance>)
    requires ValidDirs(d) && ConfigOk(d, g, all) && forall i :: i in targets ==> i in all
    requires AllDesired(env, g, all, targets).Ok?
    ensures DesiredOk(env, d, AllDesired(env, g, all, targets).value)
    ensures forall x :: x in AllDesired(env, g, all, targets).value ==> exists i :: i in targets && i.name == x.entry.instance
  {
    hide EntryOf, References.SafeName, AllDesired;
    AllDesiredShape(env, d, g, all, targets);
    var desired := AllDesired(env, g, all, targets).value;
    forall x, y | x in desired && y in desired && x.entry.instance == y.entry.instance
      ensures x == y
    {
      var i :| i in targets && env.generate(g, all, i) == Ok(x.data) && x.entry.instance == i.name;
      var j :| j in targets && env.generate(g, all, j) == Ok(y.data) && y.entry.instance == j.name;
      assert i in all && j in all;
    }
  }

  lemma SameFilesSameShape(env: Env, d: Dirs, a: seq<DesiredFile>, b: seq<DesiredFile>)
    requires ValidDirs(d) && DesiredOk(env, d, a) && forall x :: x in b ==> x in a
    ensures DesiredOk(env, d, b)
  {}

  /** Every plan that BuildPlan makes on a well-formed host is well-formed. */
  lemma PlanShape(env: Env, d: Dirs, manifest: Option<Manifest>, g: Global, instances: seq<Instance>, target: string)
    requires GoodHash(env) && ValidDirs(d) && ConfigOk(d, g, instances)
    requires manifest.Some? ==> WellFormed(d, manifest.value)
    requires PlanBase(env, manifest, g, instances, target).Ok?
    ensures PlanOk(env, d, PlanBase(env, manifest, g, instances, target).value)
  {
    hide EntryOf, References.SafeName, WellFormed, AllDesired, DesiredOk, SortStable, InstanceShas;
    var p := PlanBase(env, manifest, g, instances, target).value;
    var (targets, scope) := SelectTargets(instances, target).value;
    DesiredShape(env, d, g, instances, targets);
    var desired := AllDesired(env, g, instances, targets).value;
    SortPermutes(desired, DesiredLess);
    forall x | x in p.desired
      ensures x in desired
    {
      assert x in multiset(p.desired);
    }
    SameFilesSameShape(env, d, desired, p.desired);
  }

  /** Whether there is a plan does not depend on the disk, nor on which well-formed manifest there is. */
  lemma PlanExists(env: Env, d: Dirs, a: Option<Manifest>, b: Option<Manifest>, g: Global, instances: seq<Instance>, target: string)
    requires ValidDirs(d) && g.dirs == d
    requires PlanBase(env, a, g, instances, target).Ok?
    requires b.Some? ==> WellFormed(d, b.value)
    ensures PlanBase(env, b, g, instances, target) == Ok(PlanBase(env, a, g, instances, target).value.(existing := b))
  {
    if b.Some? {
      WellFormedIsAccepted(d, b.value);
    }
  }

  // ---------------------------------------------------------------- the changes of a plan

  lemma {:induction false} DeleteChangesAre(p: PlanValue, existing: seq<ManifestFile>, c: Change)
    ensures c in DeleteChanges(p, existing) <==> c.action == Delete && c.data == "" && c.entry in existing && Stale(p, c.entry)
  {
    if existing == [] {
    } else {
      var n := |existing| - 1;
      DeleteChangesAre(p, existing[..n], c);
      assert existing == existing[..n] + [existing[n]];
    }
  }

  lemma DesiredChangesAre(env: Env, p: PlanValue, files: map<string, Bytes>, c: Change)
    ensures c in DesiredChanges(env, p, p.desired, files) <==> exists x :: x in p.desired && c == DesiredChange(env, p, x, files)
  {
    hide DesiredChange;
    var changes := DesiredChanges(env, p, p.desired, files);
    if x :| x in p.desired && c == DesiredChange(env, p, x, files) {
      var k :| 0 <= k < |p.desired| && p.desired[k] == x;
      assert changes[k] == c;
    }
  }

  /** A change is that of a desired file or the deletion of a stale one; sorting them does not matter. */
  lemma ChangesAre(env: Env, p: PlanValue, files: map<string, Bytes>, c: Change)
    ensures c in Changes(env, p, files) <==>
            || (exists x :: x in p.desired && c == DesiredChange(env, p, x, files))
            || (c.action == Delete && c.data == "" && c.entry in ExistingFiles(p) && Stale(p, c.entry))
  {
    hide DesiredChange, Stale, DesiredChanges, DeleteChanges, SortStable, ExistingFiles;
    var desired, deleted := DesiredChanges(env, p, p.desired, files), DeleteChanges(p, ExistingFiles(p));
    SortPermutes(desired + deleted, ChangeLess);
    assert c in Changes(env, p, files) <==> c in multiset(desired + deleted);
    DeleteChangesAre(p, ExistingFiles(p), c);
    DesiredChangesAre(env, p, files, c);
  }

  lemma ChangesCompare()
    ensures WeakOrder(ChangeLess)
  {
    hide Less;
    forall a, b | ChangeLess(a, b)
      ensures !ChangeLess(b, a)
    {
      LessAsymmetric(a.entry.relativePath, b.entry.relativePath);
      LessAsymmetric(ActionName(a.action), ActionName(b.action));
    }
    forall a, b, c | !ChangeLess(b, a) && !ChangeLess(c, b)
      ensures !ChangeLess(c, a)
    {
      NotLessIsTransitive(a.entry.relativePath, b.entry.relativePath, c.entry.relativePath);
      NotLessIsTransitive(ActionName(a.action), ActionName(b.action), ActionName(c.action));
      hide ActionName;
    }
  }

  lemma LessAsymmetric(a: string, b: string)
    ensures Less(a, b) ==> !Less(b, a)
  {
    LessIrreflexive(a);
    if Less(a, b) && Less(b, a) {
      LessTransitive(a, b, a);
    }
  }

  lemma NotLessIsTransitive(a: string, b: string, c: string)
    ensures !Less(b, a) && !Less(c, b) ==> !Less(c, a) && (a == c ==> a == b)
  {
    LessTotal(a, b);
    LessTotal(b, c);
    LessIrreflexive(a);
    if Less(c, a) && Less(a, b) {
      LessTransitive(c, a, b);
    }
    if Less(b, c) && Less(c, a) {
      LessTransitive(b, c, a);
    }
  }

  /** Changes are listed by relative path, and those of one path by the name of what is done. */
  lemma ChangesAreInOrder(env: Env, p: PlanValue, files: map<string, Bytes>)
    ensures var changes := Changes(env, p, files);
            forall i, j :: 0 <= i < j < |changes| ==>
              var a, b := changes[i].entry.relativePath, changes[j].entry.relativePath;
              Less(a, b) || (a == b && !Less(ActionName(changes[j].action), ActionName(changes[i].action)))
  {
    ChangesCompare();
    var unsorted := DesiredChanges(env, p, p.desired, files) + DeleteChanges(p, ExistingFiles(p));
    SortOrders(unsorted, ChangeLess);
    var changes := Changes(env, p, files);
    hide Less, Changes, ActionName;
    forall i, j | 0 <= i < j < |changes|
      ensures var a, b := changes[i].entry.relativePath, changes[j].entry.relativePath;
              Less(a, b) || (a == b && !Less(ActionName(changes[j].action), ActionName(changes[i].action)))
    {
      assert !ChangeLess(changes[j], changes[i]);
      LessTotal(changes[i].entry.relativePath, changes[j].entry.relativePath);
    }
  }

  /** Two changes of one path are the same change. */
  ghost predicate Functional(changes: seq<Change>) {
    forall a, b :: a in changes && b in changes && a.entry.path == b.entry.path ==> a == b
  }

  lemma SameEntry(d: Dirs, m: Manifest, e: ManifestFile, f: ManifestFile)
    requires ValidDirs(d) && WellFormed(d, m) && e in m.files && f in m.files
    requires e.instance == f.instance || e.path == f.path || e.relativePath == f.relativePath
    ensures e == f
  {
    if e.instance != f.instance {
      PathsDiffer(d, e.instance, f.instance);
    }
    var j :| 0 <= j < |m.files| && m.files[j] == e;
    var k :| 0 <= k < |m.files| && m.files[k] == f;
    LessIrreflexive(e.relativePath);
  }

  lemma DeletesDesireNothing(env: Env, p: PlanValue, files: map<string, Bytes>, c: Change)
    requires c.action == Delete && c in Changes(env, p, files)
    ensures c.data == "" && c.entry in ExistingFiles(p) && Stale(p, c.entry)
  {
    ChangesAre(env, p, files, c);
    if x :| x in p.desired && c == DesiredChange(env, p, x, files) {
      DesiredIsNotDeleted(env, p, x, files);
    }
  }

  lemma ChangesAreFunctional(env: Env, d: Dirs, p: PlanValue, files: map<string, Bytes>)
    requires ValidDirs(d) && PlanOk(env, d, p)
    ensures Functional(Changes(env, p, files))
  {
    hide Changes, References.SafeName, DesiredAction;
    var changes := Changes(env, p, files);
    forall a, b | a in changes && b in changes && a.entry.path == b.entry.path
      ensures a == b
    {
      ChangesAre(env, p, files, a);
      ChangesAre(env, p, files, b);
      PathsDiffer(d, a.entry.instance, b.entry.instance);
      assert forall x :: x in p.desired ==> x.entry.relativePath in DesiredPaths(p.desired);
      if a.action == Delete && b.action == Delete {
        DeletesDesireNothing(env, p, files, a);
        DeletesDesireNothing(env, p, files, b);
        SameEntry(d, p.existing.value, a.entry, b.entry);
      }
    }
  }

  /** The disks agree at path `q`. */
  predicate SameAt(a: map<string, Bytes>, b: map<string, Bytes>, q: string) {
    (q in a <==> q in b) && (q in a ==> a[q] == b[q])
  }

  /** What one change leaves at its path. */
  predicate Done(before: map<string, Bytes>, after: map<string, Bytes>, c: Change) {
    match c.action
    case Create => c.entry.path in after && after[c.entry.path] == c.data
    case Update => c.entry.path in after && after[c.entry.path] == c.data
    case Delete => c.entry.path !in after
    case NoChange => SameAt(after, before, c.entry.path)
  }

  ghost predicate Changed(changes: seq<Change>, q: string) {
    exists c :: c in changes && c.entry.path == q
  }

  /** Changes of different paths do not interfere, whatever their order. */
  lemma {:induction false} RunEffect(files: map<string, Bytes>, changes: seq<Change>)
    requires Functional(changes)
    ensures var after := RunChanges(files, changes);
            && (forall c :: c in changes ==> Done(files, after, c))
            && forall q :: !Changed(changes, q) ==> SameAt(after, files, q)
  {
    if changes == [] {
    } else {
      var n := |changes| - 1;
      var last := changes[n];
      var before, after := RunChanges(files, changes[..n]), RunChanges(files, changes);
      assert changes == changes[..n] + [last];
      RunEffect(files, changes[..n]);
      forall c | c in changes
        ensures Done(files, after, c)
      {
        if c in changes[..n] {
          assert Done(files, before, c);
        } else {
          assert !Changed(changes[..n], c.entry.path);
          assert SameAt(before, files, c.entry.path);
        }
      }
      forall q | !Changed(changes, q)
        ensures SameAt(after, files, q)
      {
        assert last in changes && !Changed(changes[..n], q);
        assert SameAt(before, files, q);
      }
    }
  }

  // ---------------------------------------------------------------- convergence

  /** The disk that a plan aims at: every desired file has its content, stale files are gone, all else is as it was. */
  ghost predicate Reached(p: PlanValue, before: map<string, Bytes>, after: map<string, Bytes>) {
    && (forall x :: x in p.desired ==> x.entry.path in after && after[x.entry.path] == x.data)
    && (forall f :: f in ExistingFiles(p) && Stale(p, f) ==> f.path !in after)
    && forall q :: !Touched(p, q) ==> SameAt(after, before, q)
  }

  ghost predicate Touched(p: PlanValue, q: string) {
    || (exists x :: x in p.desired && x.entry.path == q)
    || exists f :: f in ExistingFiles(p) && Stale(p, f) && f.path == q
  }

  /** A no-change file is listed as it should be and has the desired content on disk. */
  lemma NoChangeMeansCurrent(env: Env, d: Dirs, p: PlanValue, files: map<string, Bytes>, x: DesiredFile)
    requires GoodHash(env) && ValidDirs(d) && PlanOk(env, d, p) && x in p.desired
    requires DesiredChange(env, p, x, files).action == NoChange
    ensures p.existing.Some? && x.entry in p.existing.value.files
    ensures x.entry.path in files && files[x.entry.path] == x.data
    ensures p.existing.value.configSha == p.configSha
    ensures Lookup(p.existing.value.instanceSha, x.entry.instance) == Lookup(p.instanceSha, x.entry.instance)
  {
    var byRelative := ByRelative(ExistingFiles(p));
    ByRelativeEntries(ExistingFiles(p));
    var e := byRelative[x.entry.relativePath];
    PathsDiffer(d, e.instance, x.entry.instance);
  }

  /** A desired file is created exactly when its instance has no entry yet or the file is missing. */
  lemma CreatedIff(env: Env, d: Dirs, p: PlanValue, files: map<string, Bytes>, x: DesiredFile)
    requires ValidDirs(d) && PlanOk(env, d, p) && x in p.desired
    ensures DesiredChange(env, p, x, files).action == Create
            <==> (forall f :: f in ExistingFiles(p) ==> f.instance != x.entry.instance) || x.entry.path !in files
  {
    hide References.SafeName, StrictlySorted, Instances;
    var byRelative := ByRelative(ExistingFiles(p));
    ByRelativeEntries(ExistingFiles(p));
    if x.entry.relativePath in byRelative {
      PathsDiffer(d, byRelative[x.entry.relativePath].instance, x.entry.instance);
    }
  }

  /** A plan on a well-formed manifest deletes only files under the generated directory, so applying it
      can fail at a failing operation only. */
  lemma PlannedDeletesAreUnder(env: Env, d: Dirs, p: PlanValue, files: map<string, Bytes>)
    requires ValidDirs(d) && PlanOk(env, d, p)
    ensures DeletesUnder(Changes(env, p, files), d.generated)
  {
    hide Changes, Stale, DesiredAction, References.SafeName, IsPathUnder, PathOf;
    forall c | c in Changes(env, p, files) && c.action == Delete
      ensures IsPathUnder(d.generated, c.entry.path)
    {
      DeletesDesireNothing(env, p, files, c);
      PathOfIsUnder(d, c.entry.instance);
    }
  }

  /** Whoever wrote the manifest: once it is accepted, no clean path outside the generated directory is deleted on its word. */
  lemma AcceptedDeletesAreUnder(env: Env, h: HostValue, g: Global, instances: seq<Instance>, target: string)
    requires PlanFor(env, h, g, instances, target).Ok?
    ensures forall c :: c in PlanFor(env, h, g, instances, target).value.changes && c.action == Delete ==>
              g.dirs.generated + "/" <= c.entry.path
  {
    var p := PlanBase(env, h.manifest, g, instances, target).value;
    hide Changes, Stale, SelectTargets, AllDesired;
    forall c | c in Changes(env, p, h.files) && c.action == Delete
      ensures g.dirs.generated + "/" <= c.entry.path
    {
      DeletesDesireNothing(env, p, h.files, c);
      var k :| 0 <= k < |h.manifest.value.files| && h.manifest.value.files[k] == c.entry;
      assert FileOk(h.manifest.value.files[k], g.dirs.generated);
    }
  }

  /** The changes of a plan reach its goal, from any disk. */
  lemma ChangesReachGoal(env: Env, d: Dirs, p: PlanValue, files: map<string, Bytes>)
    requires GoodHash(env) && ValidDirs(d) && PlanOk(env, d, p)
    ensures Reached(p, files, RunChanges(files, Changes(env, p, files)))
  {
    hide PlanOk, Changes, RunChanges, GoodHash, ByRelative, Stale, DesiredAction;
    var changes := Changes(env, p, files);
    var after := RunChanges(files, changes);
    ChangesAreFunctional(env, d, p, files);
    RunEffect(files, changes);
    forall x | x in p.desired
      ensures x.entry.path in after && after[x.entry.path] == x.data
    {
      var c := DesiredChange(env, p, x, files);
      ChangesAre(env, p, files, c);
      assert Done(files, after, c);
      DesiredIsNotDeleted(env, p, x, files);
      if c.action == NoChange {
        NoChangeMeansCurrent(env, d, p, files, x);
      }
    }
    forall f | f in ExistingFiles(p) && Stale(p, f)
      ensures f.path !in after
    {
      ChangesAre(env, p, files, Change(Delete, f, ""));
      assert Done(files, after, Change(Delete, f, ""));
    }
    forall q | !Touched(p, q)
      ensures SameAt(after, files, q)
    {
      UntouchedIsUnchanged(env, p, files, q);
    }
  }

  lemma UntouchedIsUnchanged(env: Env, p: PlanValue, files: map<string, Bytes>, q: string)
    requires !Touched(p, q)
    ensures !Changed(Changes(env, p, files), q)
  {
    hide Changes, Stale, DesiredAction;
    if Changed(Changes(env, p, files), q) {
      var c :| c in Changes(env, p, files) && c.entry.path == q;
      ChangesAre(env, p, files, c);
    }
  }

  lemma DesiredIsNotDeleted(env: Env, p: PlanValue, x: DesiredFile, files: map<string, Bytes>)
    ensures DesiredChange(env, p, x, files).action != Delete
  {}

  /** A prefix of the changes touches nothing but what the plan touches. */
  lemma PrefixTouches(env: Env, d: Dirs, p: PlanValue, files: map<string, Bytes>, k: nat, q: string)
    requires ValidDirs(d) && PlanOk(env, d, p) && k <= |Changes(env, p, files)| && !Touched(p, q)
    ensures SameAt(RunChanges(files, Changes(env, p, files)[..k]), files, q)
  {
    hide PlanOk, Changes, RunChanges, Stale, DesiredAction;
    var changes := Changes(env, p, files);
    ChangesAreFunctional(env, d, p, files);
    assert forall c :: c in changes[..k] ==> c in changes;
    RunEffect(files, changes[..k]);
    UntouchedIsUnchanged(env, p, files, q);
  }

  lemma GoalIsUnique(p: PlanValue, a: map<string, Bytes>, b: map<string, Bytes>, reachedA: map<string, Bytes>, reachedB: map<string, Bytes>)
    requires Reached(p, a, reachedA) && Reached(p, b, reachedB)
    requires forall q :: !Touched(p, q) ==> SameAt(b, a, q)
    ensures reachedA == reachedB
  {
    forall q
      ensures SameAt(reachedA, reachedB, q)
    {
      if !Touched(p, q) {
        assert SameAt(reachedA, a, q) && SameAt(reachedB, b, q) && SameAt(b, a, q);
      }
    }
    assert forall q :: q in reachedA ==> q in reachedB && reachedA[q] == reachedB[q] by {
      forall q | q in reachedA
        ensures q in reachedB && reachedA[q] == reachedB[q]
      {
        assert SameAt(reachedA, reachedB, q);
      }
    }
    assert forall q :: q in reachedB ==> q in reachedA by {
      forall q | q in reachedB
        ensures q in reachedA
      {
        assert SameAt(reachedA, reachedB, q);
      }
    }
  }
}

/** Applying a plan: the changes one by one, and the manifest last (internal/runtime/apply.go). */
module RuntimeApply {
  import opened Wrappers
  import opened Sorting
  import opened RuntimeManifest
  import opened RuntimePlan

  // ---------------------------------------------------------------- what applying does

  function Effect(files: map<string, Bytes>, c: Change): map<string, Bytes> {
    match c.action
    case Create => files[c.entry.path := c.data]
    case Update => files[c.entry.path := c.data]
    case Delete => files - {c.entry.path}
    case NoChange => files
  }

  function RunChanges(files: map<string, Bytes>, changes: seq<Change>): map<string, Bytes> {
    if changes == [] then files
    else Effect(RunChanges(files, changes[..|changes| - 1]), changes[|changes| - 1])
  }

  /** The existing entries that a targeted apply leaves alone. */
  function OutOfScope(files: seq<ManifestFile>, scope: Scope): seq<ManifestFile> {
    if files == [] then []
    else
      var last := files[|files| - 1];
      OutOfScope(files[..|files| - 1], scope) + if scope.Has(last.instance) then [] else [last]
  }

  function Entries(desired: seq<DesiredFile>): seq<ManifestFile> {
    seq(|desired|, k requires 0 <= k < |desired| => desired[k].entry)
  }

  function AppliedFiles(p: PlanValue): FileMap {
    ByRelative(OutOfScope(ExistingFiles(p), p.scope) + Entries(p.desired))
  }

  function KeptShas(p: PlanValue): map<string, string> {
    if p.existing.None? then map[]
    else map i | i in p.existing.value.instanceSha && !p.scope.Has(i) :: p.existing.value.instanceSha[i]
  }

  function DesiredShas(kept: map<string, string>, shas: map<string, string>, desired: seq<DesiredFile>): map<string, string> {
    if desired == [] then kept
    else
      var i := desired[|desired| - 1].entry.instance;
      DesiredShas(kept, shas, desired[..|desired| - 1])[i := Lookup(shas, i)]
  }

  /** The listing of a map, for specifications. */
  ghost function Listing(m: FileMap): (files: seq<ManifestFile>)
    requires Keyed(m)
    ensures Lists(files, m)
  {
    if m == map[] then []
    else
      var k :| k in m;
      var rest := m - {k};
      InsertLists(m, k, Listing(rest));
      Insert(m[k], Listing(rest), FileLess)
  }

  lemma InsertLists(m: FileMap, k: string, files: seq<ManifestFile>)
    requires Keyed(m) && k in m && Lists(files, m - {k})
    ensures Lists(Insert(m[k], files, FileLess), m)
  {
    var all := Insert(m[k], files, FileLess);
    InsertFileKeepsOrder(m[k], files);
    InsertAdds(m[k], files, FileLess);
    forall f | f in all
      ensures f.relativePath in m && m[f.relativePath] == f
    {
      assert f in multiset(all);
      assert f == m[k] || f in files;
    }
    forall j | j in m
      ensures m[j] in all
    {
      assert j != k ==> (m - {k})[j] in files;
      assert m[j] in multiset(all);
    }
  }

  /** buildAppliedManifest */
  ghost function AppliedManifest(p: PlanValue, now: string): Manifest {
    ByRelativeEntries(OutOfScope(ExistingFiles(p), p.scope) + Entries(p.desired));
    Manifest(SCHEMA, VERSION, p.configSha, DesiredShas(KeptShas(p), p.instanceSha, p.desired), now, Listing(AppliedFiles(p)))
  }

  /** ApplyPlan, when nothing fails. */
  ghost function Applied(h: HostValue, p: PlanValue, now: string): HostValue {
    if !p.HasChanges() then h
    else HostValue(RunChanges(h.files, p.changes), Some(AppliedManifest(p, now)))
  }

  /** ApplyPlan, stopped: after any number of changes, and before the manifest unless all were made. */
  ghost predicate Interrupted(h: HostValue, p: PlanValue, now: string, after: HostValue) {
    || after == Applied(h, p, now)
    || exists k :: 0 <= k <= |p.changes| && after == HostValue(RunChanges(h.files, p.changes[..k]), h.manifest)
  }

  // ---------------------------------------------------------------- the imperative form

  /** Every deletion is of a file under the generated directory. */
  predicate DeletesUnder(changes: seq<Change>, generated: string) {
    forall c :: c in changes && c.action == Delete ==> IsPathUnder(generated, c.entry.path)
  }

  /** A write or removal can fail before it took effect, or after (setting the owner, syncing the directory). */
  datatype Fault = NoFault | Before | After

  /** No operation from number `now` on fails. */
  ghost predicate Reliable(faults: nat -> Fault, now: nat) {
    forall k :: k >= now ==> faults(k) == NoFault
  }

  class Host {
    var files: map<string, Bytes>
    var manifest: Option<Manifest>
    var step: nat
    const faults: nat -> Fault

    constructor (files: map<string, Bytes>, manifest: Option<Manifest>, faults: nat -> Fault)
      ensures Value() == HostValue(files, manifest) && step == 0 && this.faults == faults
    {
      this.files, this.manifest, this.faults, step := files, manifest, faults, 0;
    }

    function Value(): HostValue
      reads this
    {
      HostValue(files, manifest)
    }

    /** writeFileAtomic of a generated file */
    method WriteFile(path: string, data: Bytes) returns (ok: bool)
      modifies this
      ensures manifest == old(manifest)
      ensures files == old(files)[path := data] || (!ok && files == old(files))
      ensures step > old(step) && (ok <==> faults(old(step)) == NoFault)
    {
      var fault := faults(step);
      step := step + 1;
      if fault != Before {
        files := files[path := data];
      }
      return fault == NoFault;
    }

    /** removeManagedFile: a path outside the generated directory is refused, a missing file is fine. */
    method RemoveFile(path: string, generated: string) returns (ok: bool)
      modifies this
      ensures manifest == old(manifest)
      ensures files == old(files) - {path} || (!ok && files == old(files))
      ensures step >= old(step) && (ok <==> IsPathUnder(generated, path) && faults(old(step)) == NoFault)
    {
      if !IsPathUnder(generated, path) {
        return false;
      }
      var fault := faults(step);
      step := step + 1;
      if fault != Before {
        files := files - {path};
      }
      return fault == NoFault;
    }

    /** writeManifest */
    method WriteManifest(m: Manifest) returns (ok: bool)
      modifies this
      ensures files == old(files)
      ensures manifest == Some(m) || (!ok && manifest == old(manifest))
      ensures step > old(step) && (ok <==> faults(old(step)) == NoFault)
    {
      var fault := faults(step);
      step := step + 1;
      if fault != Before {
        manifest := Some(m);
      }
      return fault == NoFault;
    }

    /** ApplyPlan */
    method ApplyPlan(plan: Plan, now: string) returns (r: Result<bool>)
      requires this as object != plan
      modifies this
      ensures r.Ok? ==> Value() == Applied(old(Value()), plan.Value(), now) && r.value == plan.Value().HasChanges()
      ensures r.Err? ==> Interrupted(old(Value()), plan.Value(), now, Value())
      ensures Reliable(faults, old(step)) && DeletesUnder(plan.changes, plan.dirs.generated) ==> r.Ok?
    {
      ghost var before, p := Value(), plan.Value();
      var changes := plan.changes;
      if !(exists c :: c in changes && c.action != NoChange) {
        return Ok(false);
      }
      for k := 0 to |changes|
        invariant changes == plan.changes && p == plan.Value()
        invariant files == RunChanges(before.files, changes[..k]) && manifest == before.manifest
        invariant step >= old(step)
      {
        var c := changes[k];
        assert changes[..k + 1][..k] == changes[..k];
        var ok := true;
        match c.action {
          case Create => ok := WriteFile(c.entry.path, c.data);
          case Update => ok := WriteFile(c.entry.path, c.data);
          case Delete => ok := RemoveFile(c.entry.path, plan.dirs.generated);
          case NoChange =>
        }
        if !ok {
          assert Value() == HostValue(RunChanges(before.files, changes[..k]), before.manifest)
              || Value() == HostValue(RunChanges(before.files, changes[..k + 1]), before.manifest);
          return Err;
        }
      }
      assert changes[..|changes|] == changes;
      var m := BuildAppliedManifest(plan, now);
      var ok := WriteManifest(m);
      return if ok then Ok(true) else Err;
    }
  }

  method KeepOutOfScope(files: seq<ManifestFile>, scope: Scope) returns (byRelative: FileMap)
    ensures byRelative == ByRelative(OutOfScope(files, scope))
  {
    byRelative := map[];
    for k := 0 to |files|
      invariant byRelative == ByRelative(OutOfScope(files[..k], scope))
    {
      assert files[..k + 1][..k] == files[..k];
      if !scope.Has(files[k].instance) {
        ghost var sofar := OutOfScope(files[..k], scope);
        assert (sofar + [files[k]])[..|sofar|] == sofar;
        byRelative := byRelative[files[k].relativePath := files[k]];
      } else {
        assert OutOfScope(files[..k + 1], scope) == OutOfScope(files[..k], scope);
      }
    }
    assert files[..|files|] == files;
  }

  lemma EntriesAppend(kept: seq<ManifestFile>, desired: seq<DesiredFile>, k: nat)
    requires k < |desired|
    ensures ByRelative(kept + Entries(desired[..k + 1]))
            == ByRelative(kept + Entries(desired[..k]))[desired[k].entry.relativePath := desired[k].entry]
  {
    var all := kept + Entries(desired[..k + 1]);
    assert all[..|all| - 1] == kept + Entries(desired[..k]);
  }

  /** The existing entries and hashes that stay. */
  method KeepExisting(plan: Plan) returns (byRelative: FileMap, shas: map<string, string>)
    ensures byRelative == ByRelative(OutOfScope(ExistingFiles(plan.Value()), plan.scope)) && shas == KeptShas(plan.Value())
  {
    byRelative, shas := map[], map[];
    if plan.existing.Some? && !plan.scope.Full? {
      var existing := plan.existing.value;
      shas := map i | i in existing.instanceSha && !plan.scope.Has(i) :: existing.instanceSha[i];
      byRelative := KeepOutOfScope(existing.files, plan.scope);
    } else {
      NothingOutOfFullScope(ExistingFiles(plan.Value()), plan.scope);
    }
  }

  method BuildAppliedManifest(plan: Plan, now: string) returns (m: Manifest)
    ensures m == AppliedManifest(plan.Value(), now)
  {
    hide ByRelative, OutOfScope, KeptShas;
    ghost var p := plan.Value();
    ghost var kept, keptShas := OutOfScope(ExistingFiles(p), p.scope), KeptShas(p);
    var byRelative, shas := KeepExisting(plan);
    var desired := plan.desired;
    assert kept + Entries(desired[..0]) == kept;
    for k := 0 to |desired|
      invariant byRelative == ByRelative(kept + Entries(desired[..k]))
      invariant shas == DesiredShas(keptShas, p.instanceSha, desired[..k])
    {
      assert desired[..k + 1][..k] == desired[..k];
      EntriesAppend(kept, desired, k);
      var d := desired[k];
      byRelative := byRelative[d.entry.relativePath := d.entry];
      shas := shas[d.entry.instance := Lookup(plan.instanceSha, d.entry.instance)];
    }
    assert desired[..|desired|] == desired;
    ByRelativeEntries(kept + Entries(desired));
    var files := ListFiles(byRelative);
    ListingIsUnique(files, Listing(byRelative), byRelative);
    return Manifest(SCHEMA, VERSION, plan.configSha, shas, now, files);
  }

  lemma {:induction false} NothingOutOfFullScope(files: seq<ManifestFile>, scope: Scope)
    requires scope.Full? || files == []
    ensures OutOfScope(files, scope) == []
  {
    if files == [] {
    } else {
      NothingOutOfFullScope(files[..|files| - 1], scope);
    }
  }

  /** The entries of a Go map come in any order; sorting them gives the one listing. */
  method ListFiles(m: FileMap) returns (files: seq<ManifestFile>)
    requires Keyed(m)
    ensures Lists(files, m)
  {
    files := [];
    var remaining := m.Keys;
    while remaining != {}
      invariant remaining <= m.Keys && DistinctPaths(files)
      invariant forall f :: f in files ==> f.relativePath in m.Keys - remaining && m[f.relativePath] == f
      invariant forall k :: k in m.Keys - remaining ==> m[k] in files
    {
      var k :| k in remaining;
      remaining := remaining - {k};
      files := files + [m[k]];
    }
    ghost var unsorted := files;
    SortFilesSorts(files);
    SortPermutes(files, FileLess);
    files := SortFiles(files);
    forall f
      ensures f in files <==> f in unsorted
    {
      assert f in multiset(files) <==> f in multiset(unsorted);
    }
  }
}

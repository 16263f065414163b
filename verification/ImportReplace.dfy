/** The multi-file replacement of a configuration import, with rollback (internal/backup/backup.go). */
module ImportReplace {
  import opened Wrappers
  import opened FileSystem

  datatype ImportFile = ImportFile(target: string, data: Bytes, temp: Option<Path>, backup: Option<Path>, installed: bool)

  function NewImportFile(target: string, data: Bytes): ImportFile {
    ImportFile(target, data, None, None, false)
  }

  /** The last operation before `now` failed, or the one before it, after which only a placeholder was removed. */
  ghost predicate FailedJustBefore(faulty: nat -> bool, start: nat, now: nat) {
    FailedAt(faulty, start, now) || (now > 0 && FailedAt(faulty, start, now - 1))
  }

  // ---------------------------------------------------------------- what one file looks like on disk

  /** `p` is as it was, except that an empty backup placeholder may have been left behind. */
  predicate Kept(disk: Disk, orig: Disk, p: Path) {
    if p in orig then p in disk && disk[p] == orig[p] else p in disk ==> p.Backup? && disk[p] == ""
  }

  /** The scratch names of `f` are its own and were free. */
  predicate OwnScratch(orig: Disk, f: ImportFile) {
    && (f.temp.Some? ==> f.temp.value.Temp? && f.temp.value.name == f.target && f.temp.value !in orig)
    && (f.backup.Some? ==> f.backup.value.Backup? && f.backup.value.name == f.target && f.backup.value !in orig)
  }

  /** A path of file `f` that is neither its target nor its scratch. */
  predicate Bystander(f: ImportFile, p: Path) {
    p.name == f.target && p != Plain(f.target) && Some(p) != f.temp && Some(p) != f.backup
  }

  ghost predicate Framed(disk: Disk, orig: Disk, f: ImportFile) {
    OwnScratch(orig, f) && forall p :: Bystander(f, p) ==> SameAt(disk, orig, p)
  }

  ghost predicate Restored(disk: Disk, orig: Disk, target: string) {
    forall p: Path :: p.name == target ==> Kept(disk, orig, p)
  }

  ghost predicate Untouched(disk: Disk, orig: Disk, target: string) {
    forall p: Path :: p.name == target ==> SameAt(disk, orig, p)
  }

  /** At most a temporary file has been made. */
  ghost predicate Prepared(disk: Disk, orig: Disk, f: ImportFile) {
    && OwnScratch(orig, f) && !f.installed && f.backup.None?
    && forall p: Path :: p.name == f.target && Some(p) != f.temp ==> SameAt(disk, orig, p)
  }

  /** New content waits in the temporary file. */
  ghost predicate Staged(disk: Disk, orig: Disk, f: ImportFile) {
    && Framed(disk, orig, f) && !f.installed && f.backup.None?
    && f.temp.Some? && f.temp.value in disk && disk[f.temp.value] == f.data
    && SameAt(disk, orig, Plain(f.target))
  }

  /** New content is in place and the original, if there was one, is at the backup. */
  ghost predicate Installed(disk: Disk, orig: Disk, f: ImportFile) {
    && Framed(disk, orig, f) && f.installed && f.temp.None?
    && Plain(f.target) in disk && disk[Plain(f.target)] == f.data
    && (f.backup.Some? <==> Plain(f.target) in orig)
    && (f.backup.Some? ==> f.backup.value in disk && disk[f.backup.value] == orig[Plain(f.target)])
  }

  /** The target is free: its original, if there was one, is at the backup. */
  ghost predicate SetAside(disk: Disk, orig: Disk, f: ImportFile) {
    && Framed(disk, orig, f) && !f.installed && Plain(f.target) !in disk
    && (f.backup.Some? <==> Plain(f.target) in orig)
    && (f.backup.Some? ==> f.backup.value in disk && disk[f.backup.value] == orig[Plain(f.target)])
  }

  /** New content is in place; of the rest of the file only the backup may still be there. */
  ghost predicate Cleaned(disk: Disk, orig: Disk, f: ImportFile) {
    && Plain(f.target) in disk && disk[Plain(f.target)] == f.data
    && (f.backup.Some? ==> f.backup.value.Backup?)
    && forall p: Path :: p.name == f.target && p != Plain(f.target) && Some(p) != f.backup ==> SameAt(disk, orig, p)
  }

  /** What rollback can restore: the original is at the target, or at the backup and not at the target
      unless the target is the installed file. */
  ghost predicate Recoverable(disk: Disk, orig: Disk, f: ImportFile) {
    var target := Plain(f.target);
    && OwnScratch(orig, f) && (forall p :: Bystander(f, p) ==> Kept(disk, orig, p))
    && (f.installed ==> f.temp.None?)
    && if f.backup.Some? && f.backup.value in disk
       then target in orig && disk[f.backup.value] == orig[target] && (f.installed || target !in disk)
       else if f.installed then f.backup.None? && target !in orig
       else SameAt(disk, orig, target)
  }

  /** The original of `target`, if there was one, is at the target or at its own backup. */
  ghost predicate OriginalSafe(disk: Disk, orig: Disk, target: string, backup: Option<Path>) {
    Plain(target) in orig ==>
      || (Plain(target) in disk && disk[Plain(target)] == orig[Plain(target)])
      || (backup.Some? && backup.value.Backup? && backup.value.name == target
          && backup.value in disk && disk[backup.value] == orig[Plain(target)])
  }

  // ---------------------------------------------------------------- staging one file

  /** The disks agree everywhere but at `scratch`. */
  ghost predicate OnlyAt(a: Disk, b: Disk, scratch: Option<Path>) {
    forall p: Path :: Some(p) != scratch ==> SameAt(a, b, p)
  }

  ghost predicate AllOnlyAt(history: seq<Disk>, from: nat, start: Disk, scratch: Option<Path>) {
    forall h :: from <= h < |history| ==> OnlyAt(history[h], start, scratch)
  }

  /** The second half of prepareImportTemp: the temporary file is written, given its mode and closed. */
  method FillImportTemp(fs: Files, temp: Path, data: Bytes) returns (ok: bool)
    requires temp in fs.disk
    modifies fs
    ensures ok ==> temp in fs.disk && fs.disk[temp] == data
    ensures OnlyAt(fs.disk, old(fs.disk), Some(temp))
    ensures old(fs.history) <= fs.history && AllOnlyAt(fs.history, |old(fs.history)|, old(fs.disk), Some(temp))
    ensures !ok ==> FailedAt(fs.faulty, old(fs.clock), fs.clock)
    ensures fs.clock >= old(fs.clock)
  {
    ok := fs.Write(temp, data);
    if ok {
      ok := fs.Touch();
    }
    if ok {
      ok := fs.Touch();
    }
  }

  lemma OnlyAtOnward(history: seq<Disk>, from: nat, to: nat, start: Disk, middle: Disk, scratch: Option<Path>)
    requires from <= to <= |history| && OnlyAt(middle, start, scratch)
    requires (forall h :: from <= h < to ==> OnlyAt(history[h], start, scratch)) && AllOnlyAt(history, to, middle, scratch)
    ensures AllOnlyAt(history, from, start, scratch)
  {
    forall h | to <= h < |history|
      ensures OnlyAt(history[h], start, scratch)
    {
      assert OnlyAt(history[h], middle, scratch);
    }
  }

  /** prepareImportTemp */
  method PrepareImportTemp(fs: Files, files: array<ImportFile>, k: nat) returns (ok: bool)
    requires k < files.Length && files[k].temp.None?
    modifies fs, files
    ensures files[..] == old(files[..])[k := old(files[k]).(temp := files[k].temp)]
    ensures var temp := files[k].temp;
            && (temp.Some? ==> temp.value.Temp? && temp.value.name == files[k].target && temp.value !in old(fs.disk))
            && OnlyAt(fs.disk, old(fs.disk), temp)
            && old(fs.history) <= fs.history && AllOnlyAt(fs.history, |old(fs.history)|, old(fs.disk), temp)
            && (ok ==> temp.Some? && temp.value in fs.disk && fs.disk[temp.value] == files[k].data)
    ensures !ok ==> FailedAt(fs.faulty, old(fs.clock), fs.clock)
    ensures fs.clock >= old(fs.clock)
  {
    ghost var start, h0 := fs.disk, |fs.history|;
    ok := fs.Touch();
    if !ok {
      return;
    }
    ghost var free := FreeNumber(fs.disk.Keys);
    assert Temp(files[k].target, free) !in fs.disk;
    var n: nat :| Temp(files[k].target, n) !in fs.disk;
    var temp := Temp(files[k].target, n);
    ok := fs.Create(temp);
    if !ok {
      return;
    }
    files[k] := files[k].(temp := Some(temp));
    ghost var created, h1 := fs.disk, |fs.history|;
    assert OnlyAt(created, start, Some(temp));
    assert forall h :: h0 <= h < h1 ==> OnlyAt(fs.history[h], start, Some(temp));
    hide OnlyAt, AllOnlyAt;
    ok := FillImportTemp(fs, temp, files[k].data);
    OnlyAtOnward(fs.history, h0, h1, start, created, Some(temp));
    OnlyAtTwice(fs.disk, created, start, Some(temp));
  }

  lemma OnlyAtTwice(a: Disk, b: Disk, c: Disk, scratch: Option<Path>)
    requires OnlyAt(a, b, scratch) && OnlyAt(b, c, scratch)
    ensures OnlyAt(a, c, scratch)
  {}

  // ---------------------------------------------------------------- replacing one file

  /** reserveImportBackupName.  When removing the placeholder fails it stays behind, empty. */
  method ReserveBackupName(fs: Files, target: string) returns (r: Option<Path>, ghost placeholder: Path)
    modifies fs
    ensures placeholder.Backup? && placeholder.name == target && placeholder !in old(fs.disk)
    ensures OnlyAt(fs.disk, old(fs.disk), Some(placeholder))
    ensures placeholder in fs.disk ==> fs.disk[placeholder] == ""
    ensures old(fs.history) <= fs.history && AllOnlyAt(fs.history, |old(fs.history)|, old(fs.disk), Some(placeholder))
    ensures r.Some? ==> r.value == placeholder && fs.disk == old(fs.disk)
    ensures r.None? ==> FailedJustBefore(fs.faulty, old(fs.clock), fs.clock)
    ensures fs.clock >= old(fs.clock)
  {
    ghost var free := FreeNumber(fs.disk.Keys);
    assert Backup(target, free) !in fs.disk;
    var n: nat :| Backup(target, n) !in fs.disk;
    var name := Backup(target, n);
    placeholder := name;
    var ok := fs.Create(name);
    if !ok {
      return None, placeholder;
    }
    ok := fs.Touch();
    if !ok {
      var _ := fs.Remove(name);
      return None, placeholder;
    }
    var removed := fs.Remove(name);
    if removed != Removed {
      return None, placeholder;
    }
    return Some(name), placeholder;
  }

  /** A placeholder at most is new: everything of the file is as it was. */
  lemma PlaceholderIsHarmless(disk: Disk, start: Disk, orig: Disk, f: ImportFile, placeholder: Path)
    requires Staged(start, orig, f)
    requires placeholder.Backup? && placeholder.name == f.target && placeholder !in start
    requires OnlyAt(disk, start, Some(placeholder)) && (placeholder in disk ==> disk[placeholder] == "")
    ensures Recoverable(disk, orig, f)
  {
    forall p | Bystander(f, p)
      ensures Kept(disk, orig, p)
    {
      assert SameAt(start, orig, p);
      assert p != placeholder ==> SameAt(disk, start, p);
    }
    assert SameAt(disk, start, Plain(f.target)) && SameAt(disk, start, f.temp.value);
  }

  lemma BackedUp(disk: Disk, start: Disk, orig: Disk, f: ImportFile, backup: Path)
    requires Staged(start, orig, f) && Plain(f.target) in start
    requires backup.Backup? && backup.name == f.target && backup !in start
    requires disk == Moved(start, Plain(f.target), backup)
    ensures SetAside(disk, orig, f.(backup := Some(backup))) && OriginalSafe(disk, orig, f.target, Some(backup))
    ensures f.temp.value in disk && disk[f.temp.value] == f.data
  {
    var g := f.(backup := Some(backup));
    forall p | Bystander(g, p)
      ensures SameAt(disk, orig, p)
    {
      assert Bystander(f, p) && SameAt(start, orig, p);
    }
    assert backup == Backup(f.target, backup.n);
    assert Bystander(f, backup) && SameAt(start, orig, backup);
  }

  lemma NothingToBackUp(disk: Disk, orig: Disk, f: ImportFile)
    requires Staged(disk, orig, f) && Plain(f.target) !in disk
    ensures SetAside(disk, orig, f)
  {}

  lemma SetAsideIsRecoverable(disk: Disk, orig: Disk, f: ImportFile)
    requires SetAside(disk, orig, f) && f.temp.Some?
    ensures Recoverable(disk, orig, f)
  {
    forall p | Bystander(f, p)
      ensures Kept(disk, orig, p)
    {
      assert SameAt(disk, orig, p);
    }
  }

  lemma NotBackedUp(disk: Disk, orig: Disk, f: ImportFile, backup: Path)
    requires Staged(disk, orig, f)
    requires backup.Backup? && backup.name == f.target && backup !in disk
    ensures Recoverable(disk, orig, f.(backup := Some(backup)))
  {
    assert Bystander(f, backup) && SameAt(disk, orig, backup);
    forall p | Bystander(f, p)
      ensures Kept(disk, orig, p)
    {
      assert SameAt(disk, orig, p);
    }
  }

  lemma PutInPlace(disk: Disk, start: Disk, orig: Disk, f: ImportFile)
    requires SetAside(start, orig, f)
    requires f.temp.Some? && f.temp.value in start && start[f.temp.value] == f.data
    requires disk == Moved(start, f.temp.value, Plain(f.target))
    ensures Installed(disk, orig, f.(temp := None, installed := true)) && OriginalSafe(disk, orig, f.target, f.backup)
  {
    var g := f.(temp := None, installed := true);
    forall p | Bystander(g, p)
      ensures SameAt(disk, orig, p)
    {
      assert Some(p) != f.temp ==> Bystander(f, p) && SameAt(start, orig, p);
    }
    if f.backup.Some? {
      assert f.backup.value == Backup(f.target, f.backup.value.n);
    }
  }

  /** Every recorded disk from `from` on differs from `start` only in files of `target`, whose original it has. */
  ghost predicate SafeHistory(history: seq<Disk>, from: nat, start: Disk, orig: Disk, target: string, backup: Option<Path>) {
    forall h :: from <= h < |history| ==>
      OriginalSafe(history[h], orig, target, backup) && forall p: Path :: p.name != target ==> SameAt(history[h], start, p)
  }

  lemma PlaceholderHistory(history: seq<Disk>, from: nat, start: Disk, orig: Disk, f: ImportFile, placeholder: Path, backup: Option<Path>)
    requires Staged(start, orig, f) && placeholder.Backup? && placeholder.name == f.target
    requires AllOnlyAt(history, from, start, Some(placeholder))
    ensures SafeHistory(history, from, start, orig, f.target, backup)
  {
    forall h | from <= h < |history|
      ensures OriginalSafe(history[h], orig, f.target, backup)
      ensures forall p: Path :: p.name != f.target ==> SameAt(history[h], start, p)
    {
      assert SameAt(history[h], start, Plain(f.target)) && SameAt(start, orig, Plain(f.target));
    }
  }

  /** The middle of replaceOneImportFile: what is at the target goes to a backup of its own. */
  method BackUpTarget(fs: Files, files: array<ImportFile>, k: nat, ghost orig: Disk) returns (ok: bool)
    requires k < files.Length && Staged(fs.disk, orig, files[k]) && Plain(files[k].target) in fs.disk
    modifies fs, files
    ensures files[..] == old(files[..])[k := old(files[k]).(backup := files[k].backup)]
    ensures forall p: Path :: p.name != files[k].target ==> SameAt(fs.disk, old(fs.disk), p)
    ensures old(fs.history) <= fs.history
    ensures SafeHistory(fs.history, |old(fs.history)|, old(fs.disk), orig, files[k].target, files[k].backup)
    ensures if ok then SetAside(fs.disk, orig, files[k]) else Recoverable(fs.disk, orig, files[k])
    ensures ok ==> files[k].temp.value in fs.disk && fs.disk[files[k].temp.value] == files[k].data
    ensures !ok ==> FailedJustBefore(fs.faulty, old(fs.clock), fs.clock)
    ensures fs.clock >= old(fs.clock)
  {
    hide Staged, SetAside, Recoverable, OriginalSafe;
    ghost var start, h0 := fs.disk, |fs.history|;
    ghost var f := files[k];
    var target := Plain(files[k].target);
    StagedFacts(start, orig, f);
    var backup, placeholder := ReserveBackupName(fs, files[k].target);
    PlaceholderIsHarmless(fs.disk, start, orig, f, placeholder);
    PlaceholderHistory(fs.history, h0, start, orig, f, placeholder, backup);
    if backup.None? {
      return false;
    }
    files[k] := files[k].(backup := backup);
    ok := fs.Rename(target, backup.value);
    if !ok {
      NotBackedUp(start, orig, f, backup.value);
      return;
    }
    BackedUp(fs.disk, start, orig, f, backup.value);
  }

  /** replaceOneImportFile */
  method ReplaceOneImportFile(fs: Files, files: array<ImportFile>, k: nat, ghost orig: Disk) returns (ok: bool)
    requires k < files.Length && Staged(fs.disk, orig, files[k])
    modifies fs, files
    ensures files[..] == old(files[..])[k := files[k]]
    ensures files[k].target == old(files[k].target) && files[k].data == old(files[k].data)
    ensures forall p: Path :: p.name != files[k].target ==> SameAt(fs.disk, old(fs.disk), p)
    ensures old(fs.history) <= fs.history
    ensures SafeHistory(fs.history, |old(fs.history)|, old(fs.disk), orig, files[k].target, files[k].backup)
    ensures if ok then Installed(fs.disk, orig, files[k]) else Recoverable(fs.disk, orig, files[k])
    ensures !ok ==> FailedJustBefore(fs.faulty, old(fs.clock), fs.clock)
    ensures fs.clock >= old(fs.clock)
  {
    hide Staged, SetAside, Recoverable, Installed, OriginalSafe;
    var target := Plain(files[k].target);
    StagedFacts(fs.disk, orig, files[k]);
    var present := fs.Exists(target);
    if present.Err? {
      return false;
    }
    if present.value {
      ok := BackUpTarget(fs, files, k, orig);
      if !ok {
        return;
      }
    } else {
      NothingToBackUp(fs.disk, orig, files[k]);
    }
    ghost var aside := fs.disk;
    SetAsideIsRecoverable(aside, orig, files[k]);
    RecoverableIsSafe(aside, orig, files[k]);
    ok := fs.Rename(files[k].temp.value, target);
    if !ok {
      return;
    }
    PutInPlace(fs.disk, aside, orig, files[k]);
    files[k] := files[k].(temp := None, installed := true);
  }

  lemma StagedFacts(disk: Disk, orig: Disk, f: ImportFile)
    requires Staged(disk, orig, f)
    ensures Recoverable(disk, orig, f) && forall b :: OriginalSafe(disk, orig, f.target, b)
    ensures f.temp.Some? && f.temp.value in disk && disk[f.temp.value] == f.data
    ensures f.temp.value.name == f.target && !f.installed && f.backup.None?
  {
    forall p | Bystander(f, p)
      ensures Kept(disk, orig, p)
    {
      assert SameAt(disk, orig, p);
    }
  }

  // ---------------------------------------------------------------- rolling back and cleaning up

  /** One round of rollbackImportFiles.  A rename of a backup that was never made fails and changes nothing. */
  method RollbackOne(fs: Files, f: ImportFile, ghost orig: Disk)
    requires Recoverable(fs.disk, orig, f)
    modifies fs
    ensures Reliable(fs.faulty, old(fs.clock)) ==> Restored(fs.disk, orig, f.target)
    ensures OriginalSafe(fs.disk, orig, f.target, f.backup) && fs.clock >= old(fs.clock)
    ensures forall p: Path :: p.name != f.target ==> SameAt(fs.disk, old(fs.disk), p)
    ensures old(fs.history) <= fs.history
    ensures SafeHistory(fs.history, |old(fs.history)|, old(fs.disk), orig, f.target, f.backup)
  {
    ghost var start := fs.disk;
    if f.temp.Some? {
      var _ := fs.Remove(f.temp.value);
    }
    if f.installed {
      var _ := fs.Remove(Plain(f.target));
    }
    if f.backup.Some? {
      var _ := fs.Rename(f.backup.value, Plain(f.target));
    }
    if Reliable(fs.faulty, old(fs.clock)) {
      forall p: Path | p.name == f.target
        ensures Kept(fs.disk, orig, p)
      {
        if Bystander(f, p) {
          assert Kept(start, orig, p);
        }
      }
    }
  }

  lemma RecoverableIsSafe(disk: Disk, orig: Disk, f: ImportFile)
    requires Recoverable(disk, orig, f)
    ensures OriginalSafe(disk, orig, f.target, f.backup)
  {}

  lemma InstalledIsRecoverable(disk: Disk, orig: Disk, f: ImportFile)
    requires Installed(disk, orig, f)
    ensures Recoverable(disk, orig, f)
  {
    forall p | Bystander(f, p)
      ensures Kept(disk, orig, p)
    {
      assert SameAt(disk, orig, p);
    }
  }

  /** What is known of a file on disk `a` is known on `b`. */
  ghost predicate StillKnown(a: Disk, b: Disk, orig: Disk, f: ImportFile) {
    && (Staged(a, orig, f) ==> Staged(b, orig, f))
    && (Installed(a, orig, f) ==> Installed(b, orig, f))
    && (Prepared(a, orig, f) ==> Prepared(b, orig, f))
    && (Untouched(a, orig, f.target) ==> Untouched(b, orig, f.target))
    && (Cleaned(a, orig, f) ==> Cleaned(b, orig, f))
    && (Recoverable(a, orig, f) ==> Recoverable(b, orig, f))
    && (Restored(a, orig, f.target) ==> Restored(b, orig, f.target))
    && (OriginalSafe(a, orig, f.target, f.backup) ==> OriginalSafe(b, orig, f.target, f.backup))
  }

  /** What a file looks like depends on its own paths only. */
  lemma OwnPathsDecide(a: Disk, b: Disk, orig: Disk, f: ImportFile)
    requires forall p: Path :: p.name == f.target ==> SameAt(a, b, p)
    ensures StillKnown(a, b, orig, f)
  {
    StagedDecided(a, b, orig, f);
    PreparedDecided(a, b, orig, f);
    RecoverableDecided(a, b, orig, f);
    assert SameAt(a, b, Plain(f.target));
    if Restored(a, orig, f.target) {
      forall p: Path | p.name == f.target
        ensures Kept(b, orig, p)
      {
        assert Kept(a, orig, p) && SameAt(a, b, p);
      }
    }
    assert f.backup.Some? && f.backup.value.name == f.target ==> SameAt(a, b, f.backup.value);
  }

  lemma StagedDecided(a: Disk, b: Disk, orig: Disk, f: ImportFile)
    requires forall p: Path :: p.name == f.target ==> SameAt(a, b, p)
    ensures Staged(a, orig, f) ==> Staged(b, orig, f)
    ensures Installed(a, orig, f) ==> Installed(b, orig, f)
  {
    if Framed(a, orig, f) {
      forall p | Bystander(f, p)
        ensures SameAt(b, orig, p)
      {
        assert SameAt(a, orig, p) && SameAt(a, b, p);
      }
      assert SameAt(a, b, Plain(f.target));
      assert f.temp.Some? ==> SameAt(a, b, f.temp.value);
      assert f.backup.Some? ==> SameAt(a, b, f.backup.value);
    }
  }

  lemma PreparedDecided(a: Disk, b: Disk, orig: Disk, f: ImportFile)
    requires forall p: Path :: p.name == f.target ==> SameAt(a, b, p)
    ensures Prepared(a, orig, f) ==> Prepared(b, orig, f)
    ensures Untouched(a, orig, f.target) ==> Untouched(b, orig, f.target)
    ensures Cleaned(a, orig, f) ==> Cleaned(b, orig, f)
  {
    forall p: Path | p.name == f.target && SameAt(a, orig, p)
      ensures SameAt(b, orig, p)
    {
      assert SameAt(a, b, p);
    }
    assert SameAt(a, b, Plain(f.target));
  }

  lemma RecoverableDecided(a: Disk, b: Disk, orig: Disk, f: ImportFile)
    requires forall p: Path :: p.name == f.target ==> SameAt(a, b, p)
    ensures Recoverable(a, orig, f) ==> Recoverable(b, orig, f)
  {
    if Recoverable(a, orig, f) {
      forall p | Bystander(f, p)
        ensures Kept(b, orig, p)
      {
        assert Kept(a, orig, p) && SameAt(a, b, p);
      }
      assert SameAt(a, b, Plain(f.target));
      assert f.backup.Some? ==> SameAt(a, b, f.backup.value);
    }
  }

  predicate DistinctTargets(files: seq<ImportFile>) {
    forall i, j :: 0 <= i < j < |files| ==> files[i].target != files[j].target
  }

  /** The original of every file is safe. */
  ghost predicate AllSafe(disk: Disk, orig: Disk, files: seq<ImportFile>) {
    forall k :: 0 <= k < |files| ==> OriginalSafe(disk, orig, files[k].target, files[k].backup)
  }

  ghost predicate AllSafeSince(history: seq<Disk>, from: nat, orig: Disk, files: seq<ImportFile>) {
    forall h :: from <= h < |history| ==> AllSafe(history[h], orig, files)
  }

  /** Nothing outside the files of the import was touched. */
  ghost predicate OthersSame(disk: Disk, orig: Disk, files: seq<ImportFile>) {
    forall p: Path :: (forall k :: 0 <= k < |files| ==> files[k].target != p.name) ==> SameAt(disk, orig, p)
  }

  /** Working on file `k` keeps what is known of the other files. */
  lemma OtherFilesDecided(a: Disk, b: Disk, orig: Disk, files: seq<ImportFile>, k: nat)
    requires k < |files| && DistinctTargets(files)
    requires forall p: Path :: p.name != files[k].target ==> SameAt(b, a, p)
    ensures OthersSame(a, orig, files) ==> OthersSame(b, orig, files)
    ensures forall j :: 0 <= j < |files| && j != k ==> StillKnown(a, b, orig, files[j])
  {
    hide Staged, Installed, Prepared, Untouched, Cleaned, Recoverable, Restored, OriginalSafe;
    forall j | 0 <= j < |files| && j != k
      ensures StillKnown(a, b, orig, files[j])
    {
      assert files[j].target != files[k].target;
      OwnPathsDecide(a, b, orig, files[j]);
    }
  }

  lemma SafeHistoryForAll(history: seq<Disk>, from: nat, start: Disk, orig: Disk, files: seq<ImportFile>, k: nat)
    requires k < |files| && DistinctTargets(files) && AllSafe(start, orig, files)
    requires SafeHistory(history, from, start, orig, files[k].target, files[k].backup)
    ensures AllSafeSince(history, from, orig, files)
  {
    hide Staged, Installed, Prepared, Untouched, Cleaned, Recoverable, Restored, OriginalSafe;
    forall h | from <= h < |history|
      ensures AllSafe(history[h], orig, files)
    {
      OtherFilesDecided(start, history[h], orig, files, k);
    }
  }

  /** Working on file `k` keeps the record safe. */
  lemma SafeStep(before: seq<Disk>, history: seq<Disk>, from: nat, start: Disk, now: Disk, orig: Disk, files: seq<ImportFile>, k: nat)
    requires k < |files| && DistinctTargets(files) && before <= history
    requires OthersSame(start, orig, files) && AllSafe(start, orig, files) && AllSafeSince(before, from, orig, files)
    requires SafeHistory(history, |before|, start, orig, files[k].target, files[k].backup)
    requires OriginalSafe(now, orig, files[k].target, files[k].backup)
    requires forall p: Path :: p.name != files[k].target ==> SameAt(now, start, p)
    ensures OthersSame(now, orig, files) && AllSafe(now, orig, files) && AllSafeSince(history, from, orig, files)
  {
    hide Staged, Installed, Prepared, Untouched, Cleaned, Recoverable, Restored, OriginalSafe;
    OtherFilesDecided(start, now, orig, files, k);
    SafeHistoryForAll(history, |before|, start, orig, files, k);
  }

  /** The same files, further on: a backup may have been named. */
  predicate Further(a: seq<ImportFile>, b: seq<ImportFile>) {
    SameJob(a, b) && forall k :: 0 <= k < |a| ==> a[k].backup.None? || a[k].backup == b[k].backup
  }

  lemma FurtherIsSafe(disk: Disk, history: seq<Disk>, from: nat, orig: Disk, a: seq<ImportFile>, b: seq<ImportFile>)
    requires Further(a, b)
    ensures OthersSame(disk, orig, a) <==> OthersSame(disk, orig, b)
    ensures AllSafe(disk, orig, a) ==> AllSafe(disk, orig, b)
    ensures AllSafeSince(history, from, orig, a) ==> AllSafeSince(history, from, orig, b)
  {
    assert forall d, k :: 0 <= k < |a| && OriginalSafe(d, orig, a[k].target, a[k].backup) ==> OriginalSafe(d, orig, b[k].target, b[k].backup);
    hide OriginalSafe;
    assert forall d :: AllSafe(d, orig, a) ==> AllSafe(d, orig, b);
  }

  /** rollbackImportFiles: from the last file to the first.  Whatever fails, no original is lost. */
  method RollbackImportFiles(fs: Files, files: array<ImportFile>, ghost orig: Disk)
    requires DistinctTargets(files[..]) && OthersSame(fs.disk, orig, files[..])
    requires forall k :: 0 <= k < files.Length ==> Recoverable(fs.disk, orig, files[k])
    modifies fs
    ensures OthersSame(fs.disk, orig, files[..])
    ensures Reliable(fs.faulty, old(fs.clock)) ==> forall k :: 0 <= k < files.Length ==> Restored(fs.disk, orig, files[k].target)
    ensures old(fs.history) <= fs.history && AllSafeSince(fs.history, |old(fs.history)|, orig, files[..])
    ensures fs.clock >= old(fs.clock)
  {
    hide Staged, Installed, Prepared, Untouched, Cleaned, Recoverable, Restored, OriginalSafe, OthersSame;
    var k := files.Length;
    ghost var h0 := |fs.history|;
    ghost var all := files[..];
    ghost var reliable := Reliable(fs.faulty, fs.clock);
    SafeBecauseRecoverable(fs.disk, orig, all);
    while k > 0
      invariant 0 <= k <= files.Length && files[..] == all && fs.clock >= old(fs.clock)
      invariant OthersSame(fs.disk, orig, all)
      invariant forall j :: 0 <= j < k ==> Recoverable(fs.disk, orig, all[j])
      invariant reliable ==> forall j :: k <= j < |all| ==> Restored(fs.disk, orig, all[j].target)
      invariant AllSafe(fs.disk, orig, all)
      invariant old(fs.history) <= fs.history && AllSafeSince(fs.history, h0, orig, all)
    {
      k := k - 1;
      ghost var start, h1 := fs.disk, |fs.history|;
      RollbackOne(fs, files[k], orig);
      OtherFilesDecided(start, fs.disk, orig, all, k);
      SafeHistoryForAll(fs.history, h1, start, orig, all, k);
    }
  }

  lemma SafeBecauseRecoverable(disk: Disk, orig: Disk, files: seq<ImportFile>)
    requires forall k :: 0 <= k < |files| ==> Recoverable(disk, orig, files[k])
    ensures AllSafe(disk, orig, files)
  {
    forall k | 0 <= k < |files|
      ensures OriginalSafe(disk, orig, files[k].target, files[k].backup)
    {
      RecoverableIsSafe(disk, orig, files[k]);
    }
  }

  /** cleanupImportTemps, once staging has failed. */
  method CleanupImportTemps(fs: Files, files: array<ImportFile>, ghost orig: Disk)
    requires DistinctTargets(files[..]) && OthersSame(fs.disk, orig, files[..])
    requires forall k :: 0 <= k < files.Length ==> Prepared(fs.disk, orig, files[k])
    modifies fs
    ensures OthersSame(fs.disk, orig, files[..])
    ensures Reliable(fs.faulty, old(fs.clock)) ==> forall k :: 0 <= k < files.Length ==> Untouched(fs.disk, orig, files[k].target)
    ensures old(fs.history) <= fs.history && AllSafeSince(fs.history, |old(fs.history)|, orig, files[..])
    ensures fs.clock >= old(fs.clock)
  {
    hide Staged, Installed, Prepared, Untouched, Cleaned, Recoverable, Restored, OriginalSafe, OthersSame;
    ghost var h0 := |fs.history|;
    ghost var all := files[..];
    ghost var reliable := Reliable(fs.faulty, fs.clock);
    SafeBecausePrepared(fs.disk, orig, all);
    for k := 0 to files.Length
      invariant files[..] == all && fs.clock >= old(fs.clock)
      invariant OthersSame(fs.disk, orig, all)
      invariant reliable ==> forall j :: 0 <= j < k ==> Untouched(fs.disk, orig, all[j].target)
      invariant forall j :: 0 <= j < |all| ==> Prepared(fs.disk, orig, all[j])
      invariant AllSafe(fs.disk, orig, all)
      invariant old(fs.history) <= fs.history && AllSafeSince(fs.history, h0, orig, all)
    {
      ghost var start, h1 := fs.disk, |fs.history|;
      PreparedTempIsOwn(start, orig, all[k]);
      if files[k].temp.Some? {
        var _ := fs.Remove(files[k].temp.value);
      }
      TempRemoved(fs.disk, start, orig, all[k]);
      OtherFilesDecided(start, fs.disk, orig, all, k);
      SafeHistoryForAll(fs.history, h1, start, orig, all, k);
    }
  }

  lemma PreparedTempIsOwn(disk: Disk, orig: Disk, f: ImportFile)
    requires Prepared(disk, orig, f)
    ensures f.temp.Some? ==> f.temp.value.Temp? && f.temp.value.name == f.target
    ensures OriginalSafe(disk, orig, f.target, f.backup)
  {
    assert SameAt(disk, orig, Plain(f.target));
  }

  lemma TempRemoved(disk: Disk, start: Disk, orig: Disk, f: ImportFile)
    requires Prepared(start, orig, f)
    requires disk == start || (f.temp.Some? && disk == start - {f.temp.value})
    ensures Prepared(disk, orig, f) && OriginalSafe(disk, orig, f.target, f.backup)
    ensures (f.temp.Some? && f.temp.value in disk) || Untouched(disk, orig, f.target)
  {
    forall p: Path | p.name == f.target && Some(p) != f.temp
      ensures SameAt(disk, orig, p)
    {
      assert SameAt(start, orig, p);
    }
    assert SameAt(disk, orig, Plain(f.target));
  }

  lemma SafeBecausePrepared(disk: Disk, orig: Disk, files: seq<ImportFile>)
    requires forall k :: 0 <= k < |files| ==> Prepared(disk, orig, files[k])
    ensures AllSafe(disk, orig, files)
  {
    forall k | 0 <= k < |files|
      ensures OriginalSafe(disk, orig, files[k].target, files[k].backup)
    {
      PreparedTempIsOwn(disk, orig, files[k]);
    }
  }

  /** Every target holds its data. */
  predicate InPlace(disk: Disk, files: seq<ImportFile>) {
    forall k :: 0 <= k < |files| ==> Plain(files[k].target) in disk && disk[Plain(files[k].target)] == files[k].data
  }

  ghost predicate InPlaceSince(history: seq<Disk>, from: nat, files: seq<ImportFile>) {
    forall h :: from <= h < |history| ==> InPlace(history[h], files)
  }

  lemma InstalledIsInPlace(disk: Disk, orig: Disk, files: seq<ImportFile>)
    requires forall k :: 0 <= k < |files| ==> Installed(disk, orig, files[k])
    ensures InPlace(disk, files)
  {}

  /** cleanupImportBackups: a backup that cannot be removed stays, without an error. */
  method CleanupImportBackups(fs: Files, files: array<ImportFile>, ghost orig: Disk)
    requires DistinctTargets(files[..]) && OthersSame(fs.disk, orig, files[..])
    requires forall k :: 0 <= k < files.Length ==> Installed(fs.disk, orig, files[k])
    modifies fs
    ensures OthersSame(fs.disk, orig, files[..])
    ensures forall k :: 0 <= k < files.Length ==> Cleaned(fs.disk, orig, files[k])
    ensures Reliable(fs.faulty, old(fs.clock)) ==>
              forall k :: 0 <= k < files.Length ==> Cleaned(fs.disk, orig, files[k].(backup := None))
    ensures InPlace(fs.disk, files[..]) && InPlaceSince(fs.history, |old(fs.history)|, files[..])
    ensures old(fs.history) <= fs.history && fs.clock >= old(fs.clock)
  {
    hide Staged, Installed, Prepared, Untouched, Cleaned, Recoverable, Restored, OriginalSafe, OthersSame;
    ghost var all := files[..];
    InstalledIsInPlace(fs.disk, orig, all);
    ghost var bare := WithoutBackups(all);
    ghost var reliable := Reliable(fs.faulty, fs.clock);
    for k := 0 to files.Length
      invariant files[..] == all
      invariant OthersSame(fs.disk, orig, all)
      invariant fs.clock >= old(fs.clock)
      invariant forall j :: 0 <= j < k ==> Cleaned(fs.disk, orig, all[j])
      invariant reliable ==> forall j :: 0 <= j < k ==> Cleaned(fs.disk, orig, bare[j])
      invariant forall j :: k <= j < |all| ==> Installed(fs.disk, orig, all[j])
      invariant InPlace(fs.disk, all)
      invariant old(fs.history) <= fs.history && InPlaceSince(fs.history, |old(fs.history)|, all)
    {
      ghost var start := fs.disk;
      InstalledBackupIsOwn(start, orig, all[k]);
      if files[k].backup.Some? {
        var _ := fs.Remove(files[k].backup.value);
      }
      BackupRemoved(fs.disk, start, orig, all[k]);
      OtherFilesDecided(start, fs.disk, orig, all, k);
      OtherFilesDecided(start, fs.disk, orig, bare, k);
    }
  }

  ghost function WithoutBackups(files: seq<ImportFile>): (r: seq<ImportFile>)
    ensures |r| == |files| && forall k :: 0 <= k < |files| ==> r[k] == files[k].(backup := None)
  {
    seq(|files|, k requires 0 <= k < |files| => files[k].(backup := None))
  }

  lemma OthersSameBare(disk: Disk, orig: Disk, files: seq<ImportFile>)
    requires OthersSame(disk, orig, files)
    ensures OthersSame(disk, orig, WithoutBackups(files))
  {
    assert forall k :: 0 <= k < |files| ==> WithoutBackups(files)[k].target == files[k].target;
  }

  lemma InstalledBackupIsOwn(disk: Disk, orig: Disk, f: ImportFile)
    requires Installed(disk, orig, f)
    ensures f.backup.Some? ==> f.backup.value.Backup? && f.backup.value.name == f.target && f.backup.value in disk
  {}

  lemma BackupRemoved(disk: Disk, start: Disk, orig: Disk, f: ImportFile)
    requires Installed(start, orig, f)
    requires disk == start || (f.backup.Some? && f.backup.value in start && disk == start - {f.backup.value})
    ensures Cleaned(disk, orig, f)
    ensures f.backup.None? || disk != start ==> Cleaned(disk, orig, f.(backup := None))
  {
    forall p: Path | p.name == f.target && p != Plain(f.target) && Some(p) != f.backup
      ensures SameAt(disk, orig, p)
    {
      assert Bystander(f, p) && SameAt(start, orig, p);
    }
  }

  // ---------------------------------------------------------------- the whole import

  lemma NewFilesAreUntouched(disk: Disk, files: seq<ImportFile>)
    requires forall k :: 0 <= k < |files| ==> files[k] == NewImportFile(files[k].target, files[k].data)
    ensures forall k :: 0 <= k < |files| ==> Prepared(disk, disk, files[k])
  {}

  /** What preparing a temporary file leads to. */
  lemma PreparedNow(disk: Disk, start: Disk, orig: Disk, f: ImportFile, temp: Option<Path>)
    requires Prepared(start, orig, f) && f.temp.None?
    requires temp.Some? ==> temp.value.Temp? && temp.value.name == f.target && temp.value !in start
    requires OnlyAt(disk, start, temp)
    ensures Prepared(disk, orig, f.(temp := temp)) && OriginalSafe(disk, orig, f.target, f.backup)
    ensures temp.Some? && temp.value in disk && disk[temp.value] == f.data ==> Staged(disk, orig, f.(temp := temp))
    ensures forall p: Path :: p.name != f.target ==> SameAt(disk, start, p)
  {
    if temp.Some? {
      assert SameAt(start, orig, temp.value);
    }
    forall p: Path | p.name == f.target && Some(p) != temp
      ensures SameAt(disk, orig, p)
    {
      assert SameAt(start, orig, p) && SameAt(disk, start, p);
    }
    assert SameAt(disk, orig, Plain(f.target));
  }

  lemma PreparedHistory(history: seq<Disk>, from: nat, start: Disk, orig: Disk, f: ImportFile, temp: Option<Path>)
    requires Prepared(start, orig, f) && f.temp.None?
    requires temp.Some? ==> temp.value.Temp? && temp.value.name == f.target && temp.value !in start
    requires AllOnlyAt(history, from, start, temp)
    ensures SafeHistory(history, from, start, orig, f.target, f.backup)
  {
    hide OriginalSafe, Prepared, Staged;
    forall h | from <= h < |history|
      ensures OriginalSafe(history[h], orig, f.target, f.backup) && forall p: Path :: p.name != f.target ==> SameAt(history[h], start, p)
    {
      PreparedNow(history[h], start, orig, f, temp);
    }
  }

  lemma NoneSince(history: seq<Disk>, orig: Disk, files: seq<ImportFile>)
    ensures AllSafeSince(history, |history|, orig, files)
  {}

  lemma NothingYet(disk: Disk, history: seq<Disk>, files: seq<ImportFile>)
    ensures OthersSame(disk, disk, files) && AllSafeSince(history, |history|, disk, files)
  {}

  /** The first loop of replaceImportFiles. */
  method StageAll(fs: Files, files: array<ImportFile>) returns (ok: bool)
    requires DistinctTargets(files[..])
    requires forall k :: 0 <= k < files.Length ==> files[k] == NewImportFile(files[k].target, files[k].data)
    modifies fs, files
    ensures Further(old(files[..]), files[..]) && OthersSame(fs.disk, old(fs.disk), files[..])
    ensures if ok then forall k :: 0 <= k < files.Length ==> Staged(fs.disk, old(fs.disk), files[k])
            else forall k :: 0 <= k < files.Length ==> Prepared(fs.disk, old(fs.disk), files[k])
    ensures !ok ==> FailedAt(fs.faulty, old(fs.clock), fs.clock)
    ensures AllSafe(fs.disk, old(fs.disk), files[..]) && fs.clock >= old(fs.clock)
    ensures old(fs.history) <= fs.history && AllSafeSince(fs.history, |old(fs.history)|, old(fs.disk), files[..])
  {
    hide Staged, Installed, Prepared, Untouched, Cleaned, Recoverable, Restored, OriginalSafe, OnlyAt, OthersSame, AllSafe,
         AllSafeSince, SafeHistory;
    ghost var orig, h0, all := fs.disk, |fs.history|, files[..];
    NewFilesAreUntouched(orig, all);
    SafeBecausePrepared(orig, orig, all);
    NothingYet(orig, fs.history, all);
    for k := 0 to files.Length
      invariant Further(all, files[..]) && OthersSame(fs.disk, orig, all)
      invariant forall j :: 0 <= j < k ==> Staged(fs.disk, orig, files[j])
      invariant forall j :: 0 <= j < files.Length ==> Prepared(fs.disk, orig, files[j])
      invariant forall j :: k <= j < files.Length ==> files[j].temp.None?
      invariant fs.clock >= old(fs.clock)
      invariant AllSafe(fs.disk, orig, all)
      invariant old(fs.history) <= fs.history && AllSafeSince(fs.history, h0, orig, all)
    {
      ghost var start, sofar, before := fs.disk, fs.history, files[..];
      PreparedHasNoBackup(start, orig, before[k]);
      ok := PrepareImportTemp(fs, files, k);
      PreparedNow(fs.disk, start, orig, before[k], files[k].temp);
      PreparedHistory(fs.history, |sofar|, start, orig, before[k], files[k].temp);
      SafeStep(sofar, fs.history, h0, start, fs.disk, orig, all, k);
      FurtherIsSafe(fs.disk, fs.history, h0, orig, all, files[..]);
      OtherFilesDecided(start, fs.disk, orig, before, k);
      assert forall j :: 0 <= j < files.Length && j != k ==> files[j] == files[..][j] == before[j];
      if !ok {
        return;
      }
    }
    FurtherIsSafe(fs.disk, fs.history, h0, orig, all, files[..]);
    return true;
  }

  lemma PreparedHasNoBackup(disk: Disk, orig: Disk, f: ImportFile)
    requires Prepared(disk, orig, f)
    ensures f.backup.None?
  {}

  /** Progress fields aside, the files are the same. */
  predicate SameJob(a: seq<ImportFile>, b: seq<ImportFile>) {
    |a| == |b| && forall k :: 0 <= k < |a| ==> a[k].target == b[k].target && a[k].data == b[k].data
  }

  lemma StagedIsRecoverable(disk: Disk, orig: Disk, files: seq<ImportFile>)
    requires forall k :: 0 <= k < |files| ==> Staged(disk, orig, files[k])
    ensures forall k :: 0 <= k < |files| ==> Recoverable(disk, orig, files[k])
  {
    forall k | 0 <= k < |files|
      ensures Recoverable(disk, orig, files[k])
    {
      StagedFacts(disk, orig, files[k]);
    }
  }

  /** The second loop of replaceImportFiles: install every file, or leave everything recoverable. */
  method InstallAll(fs: Files, files: array<ImportFile>, ghost orig: Disk) returns (ok: bool)
    requires DistinctTargets(files[..]) && OthersSame(fs.disk, orig, files[..])
    requires forall k :: 0 <= k < files.Length ==> Staged(fs.disk, orig, files[k])
    modifies fs, files
    ensures Further(old(files[..]), files[..]) && OthersSame(fs.disk, orig, files[..])
    ensures if ok then forall k :: 0 <= k < files.Length ==> Installed(fs.disk, orig, files[k])
            else forall k :: 0 <= k < files.Length ==> Recoverable(fs.disk, orig, files[k])
    ensures !ok ==> FailedJustBefore(fs.faulty, old(fs.clock), fs.clock)
    ensures old(fs.history) <= fs.history && AllSafeSince(fs.history, |old(fs.history)|, orig, files[..])
    ensures fs.clock >= old(fs.clock)
  {
    hide Staged, Installed, Prepared, Untouched, Cleaned, Recoverable, Restored, OriginalSafe, OthersSame, AllSafe,
         AllSafeSince, SafeHistory;
    ghost var h0, all := |fs.history|, files[..];
    StagedIsRecoverable(fs.disk, orig, all);
    SafeBecauseRecoverable(fs.disk, orig, all);
    NoneSince(fs.history, orig, all);
    for k := 0 to files.Length
      invariant Further(all, files[..]) && OthersSame(fs.disk, orig, files[..])
      invariant fs.clock >= old(fs.clock)
      invariant forall j :: 0 <= j < k ==> Installed(fs.disk, orig, files[j])
      invariant forall j :: k <= j < files.Length ==> Staged(fs.disk, orig, files[j])
      invariant forall j :: 0 <= j < files.Length ==> Recoverable(fs.disk, orig, files[j])
      invariant AllSafe(fs.disk, orig, files[..])
      invariant old(fs.history) <= fs.history && AllSafeSince(fs.history, h0, orig, files[..])
    {
      ghost var start, sofar, before := fs.disk, fs.history, files[..];
      StagedFacts(start, orig, files[k]);
      ok := ReplaceOneImportFile(fs, files, k, orig);
      if ok {
        InstalledIsRecoverable(fs.disk, orig, files[k]);
      }
      RecoverableIsSafe(fs.disk, orig, files[k]);
      ghost var after := files[..];
      assert forall j :: 0 <= j < |after| && j != k ==> after[j] == before[j];
      FurtherIsSafe(start, sofar, h0, orig, before, after);
      SafeStep(sofar, fs.history, h0, start, fs.disk, orig, after, k);
      OtherFilesDecided(start, fs.disk, orig, before, k);
      if !ok {
        return;
      }
    }
    return true;
  }

  predicate IsTarget(files: seq<ImportFile>, p: Path) {
    exists k :: 0 <= k < |files| && p == Plain(files[k].target)
  }

  /** replaceImportFiles.  `last` is the clock when undoing, or the cleanup after a success, begins, and `cleanup` the
      number of disks recorded before backups are deleted.  Undoing begins right after the step that failed.  An error means
      that every path is as it was (an empty placeholder aside), if nothing fails while undoing, hence whenever only one
      operation fails; success means that all data is in place, and nothing else is on the disk unless deleting a backup
      failed.  Whatever fails, and even while undoing, every original is at its target or at its own backup until a success
      is cleaned up, and from then on all data is in place. */
  method ReplaceImportFiles(fs: Files, files: array<ImportFile>) returns (ok: bool, ghost last: nat, ghost cleanup: nat)
    requires DistinctTargets(files[..])
    requires forall k :: 0 <= k < files.Length ==> files[k] == NewImportFile(files[k].target, files[k].data)
    modifies fs, files
    ensures SameJob(old(files[..]), files[..]) && old(fs.clock) <= last <= fs.clock
    ensures Reliable(fs.faulty, old(fs.clock)) ==> ok
    ensures !ok ==> FailedJustBefore(fs.faulty, old(fs.clock), last)
    ensures !ok && Reliable(fs.faulty, last) ==> forall p :: Kept(fs.disk, old(fs.disk), p)
    ensures !ok && SingleFault(fs.faulty) ==> forall p :: Kept(fs.disk, old(fs.disk), p)
    ensures ok ==> InPlace(fs.disk, files[..]) && InPlaceSince(fs.history, cleanup, files[..])
    ensures ok ==> forall p :: !IsTarget(files[..], p) && !p.Backup? ==> SameAt(fs.disk, old(fs.disk), p)
    ensures ok && Reliable(fs.faulty, last) ==> forall p :: !IsTarget(files[..], p) ==> SameAt(fs.disk, old(fs.disk), p)
    ensures OthersSame(fs.disk, old(fs.disk), files[..])
    ensures |old(fs.history)| <= cleanup <= |fs.history| && (!ok ==> cleanup == |fs.history|)
    ensures AllSafeSince(fs.history[..cleanup], |old(fs.history)|, old(fs.disk), files[..])
  {
    hide Staged, Installed, Prepared, Untouched, Cleaned, Recoverable, Restored, OriginalSafe, OthersSame;
    ghost var orig, h0 := fs.disk, |fs.history|;
    ok := StageAll(fs, files);
    last := fs.clock;
    if !ok {
      CleanupImportTemps(fs, files, orig);
      cleanup := |fs.history|;
      if Reliable(fs.faulty, last) {
        AllUntouched(fs.disk, orig, files[..]);
      }
      return;
    }
    ghost var staged, h1 := files[..], fs.history;
    ok := InstallAll(fs, files, orig);
    FurtherIsSafe(orig, h1, h0, orig, staged, files[..]);
    last := fs.clock;
    if !ok {
      RollbackImportFiles(fs, files, orig);
      cleanup := |fs.history|;
      if Reliable(fs.faulty, last) {
        AllRestored(fs.disk, orig, files[..]);
      }
      return;
    }
    cleanup := |fs.history|;
    CleanupImportBackups(fs, files, orig);
    AllCleaned(fs.disk, orig, files[..]);
    if Reliable(fs.faulty, last) {
      OthersSameBare(fs.disk, orig, files[..]);
      AllCleaned(fs.disk, orig, WithoutBackups(files[..]));
      assert forall p :: IsTarget(WithoutBackups(files[..]), p) ==> IsTarget(files[..], p);
    }
  }

  lemma AllUntouched(disk: Disk, orig: Disk, files: seq<ImportFile>)
    requires OthersSame(disk, orig, files)
    requires forall k :: 0 <= k < |files| ==> Untouched(disk, orig, files[k].target)
    ensures forall p :: Kept(disk, orig, p)
  {
    forall p
      ensures Kept(disk, orig, p)
    {
      if k :| 0 <= k < |files| && files[k].target == p.name {
        assert Untouched(disk, orig, files[k].target);
        assert SameAt(disk, orig, p);
      } else {
        assert SameAt(disk, orig, p);
      }
    }
  }

  lemma AllRestored(disk: Disk, orig: Disk, files: seq<ImportFile>)
    requires OthersSame(disk, orig, files)
    requires forall k :: 0 <= k < |files| ==> Restored(disk, orig, files[k].target)
    ensures forall p :: Kept(disk, orig, p)
  {
    forall p
      ensures Kept(disk, orig, p)
    {
      if k :| 0 <= k < |files| && files[k].target == p.name {
        assert Restored(disk, orig, files[k].target);
      } else {
        assert SameAt(disk, orig, p);
      }
    }
  }

  lemma AllCleaned(disk: Disk, orig: Disk, files: seq<ImportFile>)
    requires OthersSame(disk, orig, files)
    requires forall k :: 0 <= k < |files| ==> Cleaned(disk, orig, files[k])
    ensures forall p :: !IsTarget(files, p) && !p.Backup? ==> SameAt(disk, orig, p)
    ensures (forall k :: 0 <= k < |files| ==> files[k].backup.None?) ==>
              forall p :: !IsTarget(files, p) ==> SameAt(disk, orig, p)
  {
    forall p | !IsTarget(files, p) && (p.Backup? ==> forall k :: 0 <= k < |files| ==> files[k].backup.None?)
      ensures SameAt(disk, orig, p)
    {
      if k :| 0 <= k < |files| && files[k].target == p.name {
        assert Cleaned(disk, orig, files[k]);
        assert p != Plain(files[k].target);
      }
    }
  }
}

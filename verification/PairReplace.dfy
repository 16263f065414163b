/** Replacing the sing-box binary together with its managed marker (internal/install/installer.go). */
module PairReplace {
  import opened Wrappers
  import opened FileSystem

  /** Every disk recorded from `from` on is one of the two. */
  ghost predicate Between(history: seq<Disk>, from: nat, a: Disk, b: Disk) {
    forall h :: from <= h < |history| ==> history[h] == a || history[h] == b
  }

  /** renameIfExists: whether something was moved aside. */
  method RenameIfExists(fs: Files, path: Path, backup: Path) returns (existed: Result<bool>)
    modifies fs
    ensures existed.Ok? ==> (existed.value <==> path in old(fs.disk))
    ensures fs.disk == if existed == Ok(true) then Moved(old(fs.disk), path, backup) else old(fs.disk)
    ensures existed.Err? ==> FailedAt(fs.faulty, old(fs.clock), fs.clock)
    ensures fs.clock >= old(fs.clock) && old(fs.history) <= fs.history
    ensures Between(fs.history, |old(fs.history)|, old(fs.disk), fs.disk)
  {
    var present := fs.Exists(path);
    if present.Err? {
      return Err;
    }
    if present.value {
      var ok := fs.Rename(path, backup);
      return if ok then Ok(true) else Err;
    }
    return Ok(false);
  }

  function RestoredDisk(disk: Disk, backup: Path, path: Path, existed: bool): Disk {
    if !existed then disk - {path} else if backup in disk then Moved(disk, backup, path) else disk
  }

  /** restoreFile: it may fail, silently. */
  method RestoreFile(fs: Files, backup: Path, path: Path, existed: bool)
    modifies fs
    ensures fs.disk == old(fs.disk) || fs.disk == RestoredDisk(old(fs.disk), backup, path, existed)
    ensures Reliable(fs.faulty, old(fs.clock)) ==> fs.disk == RestoredDisk(old(fs.disk), backup, path, existed)
    ensures fs.clock >= old(fs.clock) && old(fs.history) <= fs.history
    ensures Between(fs.history, |old(fs.history)|, old(fs.disk), fs.disk)
  {
    if existed {
      var _ := fs.Rename(backup, path);
      return;
    }
    var _ := fs.Remove(path);
  }

  /** A file being replaced: where it is, where its new content waits, and where the old content goes. */
  datatype Member = Member(path: Path, temp: Path, previous: Path) {
    predicate Has(p: Path) {
      p == path || p == temp || p == previous
    }
  }

  /** The six paths are different. */
  predicate Separate(t: Member, m: Member) {
    && t.path != t.temp && t.path != t.previous && t.temp != t.previous
    && m.path != m.temp && m.path != m.previous && m.temp != m.previous
    && !m.Has(t.path) && !m.Has(t.temp) && !m.Has(t.previous)
  }

  /** What the path held, if anything, is at ".previous". */
  predicate Held(disk: Disk, orig: Disk, m: Member, existed: bool) {
    (existed <==> m.path in orig) && (existed ==> m.previous in disk && disk[m.previous] == orig[m.path])
  }

  /** And the path is free. */
  predicate MovedAside(disk: Disk, orig: Disk, m: Member, existed: bool) {
    m.path !in disk && Held(disk, orig, m, existed)
  }

  /** The old content, if there was one, is at its path or at ".previous". */
  predicate OldSafe(disk: Disk, orig: Disk, m: Member) {
    m.path in orig ==>
      || (m.path in disk && disk[m.path] == orig[m.path])
      || (m.previous in disk && disk[m.previous] == orig[m.path])
  }

  /** Neither old content was lost in any disk recorded from `from` on. */
  ghost predicate SafeSince(history: seq<Disk>, from: nat, orig: Disk, t: Member, m: Member) {
    forall h :: from <= h < |history| ==> OldSafe(history[h], orig, t) && OldSafe(history[h], orig, m)
  }

  ghost predicate OthersSame(disk: Disk, orig: Disk, t: Member, m: Member) {
    forall p :: !t.Has(p) && !m.Has(p) ==> SameAt(disk, orig, p)
  }

  ghost predicate TempsSame(disk: Disk, orig: Disk, t: Member, m: Member) {
    SameAt(disk, orig, t.temp) && SameAt(disk, orig, m.temp)
  }

  predicate OldPair(disk: Disk, orig: Disk, t: Member, m: Member) {
    SameAt(disk, orig, t.path) && SameAt(disk, orig, m.path)
  }

  /** The old pair is back, and at most one of the temporary files is left. */
  predicate Undone(disk: Disk, orig: Disk, t: Member, m: Member) {
    OldPair(disk, orig, t, m) && (t.temp !in disk || m.temp !in disk)
  }

  /** Both paths have what waited in the temporary files of `before`. */
  predicate NewPair(disk: Disk, before: Disk, t: Member, m: Member)
    requires t.temp in before && m.temp in before
  {
    && t.path in disk && disk[t.path] == before[t.temp] && t.temp !in disk
    && m.path in disk && disk[m.path] == before[m.temp] && m.temp !in disk
  }

  /** Both are new in every disk recorded from `from` on. */
  ghost predicate NewSince(history: seq<Disk>, from: nat, before: Disk, t: Member, m: Member)
    requires t.temp in before && m.temp in before
  {
    forall h :: from <= h < |history| ==> NewPair(history[h], before, t, m)
  }

  /** Removes two files, as far as that works. */
  method RemoveTwo(fs: Files, p: Path, q: Path) returns (ghost gone: set<Path>)
    modifies fs
    ensures gone <= {p, q} && fs.disk == old(fs.disk) - gone
    ensures Reliable(fs.faulty, old(fs.clock)) ==> p !in fs.disk && q !in fs.disk
    ensures fs.clock >= old(fs.clock) && old(fs.history) <= fs.history
    ensures forall h :: |old(fs.history)| <= h < |fs.history| ==>
              fs.history[h].Keys <= old(fs.disk).Keys && forall r :: r in old(fs.disk) && r != p && r != q ==>
                r in fs.history[h] && fs.history[h][r] == old(fs.disk)[r]
  {
    var r := fs.Remove(p);
    gone := if r == Removed then {p} else {};
    r := fs.Remove(q);
    gone := gone + if r == Removed then {q} else {};
  }

  /** The disks agree everywhere but at the member's path and ".previous". */
  ghost predicate OnlyAt(a: Disk, b: Disk, m: Member) {
    forall p :: p != m.path && p != m.previous ==> SameAt(a, b, p)
  }

  /** Every disk recorded from `from` on differs from `start` in this member only, whose old content it has. */
  ghost predicate MemberSince(history: seq<Disk>, from: nat, start: Disk, orig: Disk, m: Member) {
    forall h :: from <= h < |history| ==> OnlyAt(history[h], start, m) && OldSafe(history[h], orig, m)
  }

  /** Work on one member leaves the other alone. */
  lemma OtherMember(a: Disk, b: Disk, orig: Disk, t: Member, m: Member)
    requires Separate(t, m) && OnlyAt(b, a, t)
    ensures SameAt(b, a, t.temp) && SameAt(b, a, m.temp)
    ensures OldSafe(a, orig, m) ==> OldSafe(b, orig, m)
    ensures SameAt(a, orig, m.path) ==> SameAt(b, orig, m.path)
    ensures forall existed :: Held(a, orig, m, existed) ==> Held(b, orig, m, existed)
    ensures forall existed :: MovedAside(a, orig, m, existed) ==> MovedAside(b, orig, m, existed)
    ensures OthersSame(a, orig, t, m) ==> OthersSame(b, orig, t, m)
    ensures TempsSame(a, orig, t, m) ==> TempsSame(b, orig, t, m)
  {
    assert SameAt(b, a, m.path) && SameAt(b, a, m.previous) && SameAt(b, a, t.temp) && SameAt(b, a, m.temp);
    forall p | !t.Has(p) && !m.Has(p) && SameAt(a, orig, p)
      ensures SameAt(b, orig, p)
    {
      assert SameAt(b, a, p);
    }
  }

  lemma BothSince(history: seq<Disk>, from: nat, start: Disk, orig: Disk, t: Member, m: Member)
    requires Separate(t, m) && MemberSince(history, from, start, orig, t) && OldSafe(start, orig, m)
    ensures SafeSince(history, from, orig, t, m) && SafeSince(history, from, orig, m, t)
  {
    hide OldSafe, OnlyAt;
    forall h | from <= h < |history|
      ensures OldSafe(history[h], orig, m)
    {
      OtherMember(start, history[h], orig, t, m);
    }
  }

  /** renameIfExists for one member. */
  method MoveOne(fs: Files, m: Member, ghost orig: Disk) returns (existed: Result<bool>)
    requires m.path != m.previous && SameAt(fs.disk, orig, m.path)
    modifies fs
    ensures OnlyAt(fs.disk, old(fs.disk), m) && fs.clock >= old(fs.clock)
    ensures if existed.Ok? then MovedAside(fs.disk, orig, m, existed.value) else fs.disk == old(fs.disk)
    ensures existed.Err? ==> FailedAt(fs.faulty, old(fs.clock), fs.clock)
    ensures old(fs.history) <= fs.history && MemberSince(fs.history, |old(fs.history)|, old(fs.disk), orig, m)
  {
    existed := RenameIfExists(fs, m.path, m.previous);
  }

  /** restoreFile for one member. */
  method RestoreOne(fs: Files, m: Member, existed: bool, ghost orig: Disk)
    requires m.path != m.previous && Held(fs.disk, orig, m, existed)
    modifies fs
    ensures OnlyAt(fs.disk, old(fs.disk), m) && fs.clock >= old(fs.clock) && OldSafe(fs.disk, orig, m)
    ensures Reliable(fs.faulty, old(fs.clock)) ==> SameAt(fs.disk, orig, m.path)
    ensures old(fs.history) <= fs.history && MemberSince(fs.history, |old(fs.history)|, old(fs.disk), orig, m)
  {
    RestoreFile(fs, m.previous, m.path, existed);
  }

  /** Removing files that are at no member's path keeps what is at the paths. */
  method RemoveBeside(fs: Files, p: Path, q: Path, t: Member, m: Member, ghost orig: Disk)
    requires p !in {t.path, m.path} && q !in {t.path, m.path} && (t.Has(p) || m.Has(p)) && (t.Has(q) || m.Has(q))
    requires OthersSame(fs.disk, orig, t, m)
    requires if p in {t.previous, m.previous} || q in {t.previous, m.previous} then OldPair(fs.disk, orig, t, m)
             else OldSafe(fs.disk, orig, t) && OldSafe(fs.disk, orig, m)
    modifies fs
    ensures OthersSame(fs.disk, orig, t, m) && fs.clock >= old(fs.clock)
    ensures OldPair(old(fs.disk), orig, t, m) ==> OldPair(fs.disk, orig, t, m)
    ensures forall r :: r != p && r != q ==> SameAt(fs.disk, old(fs.disk), r)
    ensures Reliable(fs.faulty, old(fs.clock)) ==> p !in fs.disk && q !in fs.disk
    ensures old(fs.history) <= fs.history && SafeSince(fs.history, |old(fs.history)|, orig, t, m)
  {
    ghost var start, h0 := fs.disk, |fs.history|;
    ghost var _ := RemoveTwo(fs, p, q);
    forall r | !t.Has(r) && !m.Has(r)
      ensures SameAt(fs.disk, orig, r)
    {
      assert SameAt(start, orig, r);
    }
  }

  /** The marker aside after the target; or, if nothing fails from `undo` on, right after the step that failed, the target
      back where it was. */
  method MoveMarkerAside(fs: Files, t: Member, m: Member, targetExisted: bool, ghost orig: Disk)
    returns (markerExisted: bool, ok: bool, ghost undo: nat)
    requires Separate(t, m) && OthersSame(fs.disk, orig, t, m) && TempsSame(fs.disk, orig, t, m)
    requires MovedAside(fs.disk, orig, t, targetExisted) && SameAt(fs.disk, orig, m.path)
    modifies fs
    ensures OthersSame(fs.disk, orig, t, m) && old(fs.clock) <= undo <= fs.clock
    ensures !ok ==> FailedAt(fs.faulty, old(fs.clock), undo)
    ensures ok ==> TempsSame(fs.disk, orig, t, m)
                   && MovedAside(fs.disk, orig, t, targetExisted) && MovedAside(fs.disk, orig, m, markerExisted)
    ensures !ok && Reliable(fs.faulty, undo) ==> OldPair(fs.disk, orig, t, m) && t.temp !in fs.disk && m.temp !in fs.disk
    ensures old(fs.history) <= fs.history && SafeSince(fs.history, |old(fs.history)|, orig, t, m)
  {
    markerExisted, ok := false, false;
    MovedIsHeld(fs.disk, orig, t, targetExisted);
    assert OldSafe(fs.disk, orig, m);
    hide OnlyAt, OthersSame, TempsSame, MovedAside, OldSafe, Held;
    ghost var start, h1 := fs.disk, |fs.history|;
    var moved := MoveOne(fs, m, orig);
    undo := fs.clock;
    OtherMember(start, fs.disk, orig, m, t);
    SymmetricFrames(start, fs.disk, orig, t, m);
    BothSince(fs.history, h1, start, orig, m, t);
    if moved.Err? {
      start, h1 := fs.disk, |fs.history|;
      RestoreOne(fs, t, targetExisted, orig);
      OtherMember(start, fs.disk, orig, t, m);
      BothSince(fs.history, h1, start, orig, t, m);
      RemoveBeside(fs, t.temp, m.temp, t, m, orig);
      return;
    }
    markerExisted := moved.value;
    ok := true;
  }

  /** The first half of replacePair: both old files aside; or, if nothing fails from `undo` on, right after the step that
      failed, both where they were. */
  method MoveAside(fs: Files, t: Member, m: Member) returns (targetExisted: bool, markerExisted: bool, ok: bool, ghost undo: nat)
    requires Separate(t, m)
    modifies fs
    ensures OthersSame(fs.disk, old(fs.disk), t, m) && old(fs.clock) <= undo <= fs.clock
    ensures !ok ==> FailedAt(fs.faulty, old(fs.clock), undo)
    ensures ok ==> TempsSame(fs.disk, old(fs.disk), t, m)
                   && MovedAside(fs.disk, old(fs.disk), t, targetExisted) && MovedAside(fs.disk, old(fs.disk), m, markerExisted)
    ensures !ok && Reliable(fs.faulty, undo) ==>
              OldPair(fs.disk, old(fs.disk), t, m) && t.temp !in fs.disk && m.temp !in fs.disk
    ensures old(fs.history) <= fs.history && SafeSince(fs.history, |old(fs.history)|, old(fs.disk), t, m)
  {
    ghost var orig, h0 := fs.disk, |fs.history|;
    targetExisted, markerExisted, ok := false, false, false;
    RemoveBeside(fs, t.previous, m.previous, t, m, orig);
    assert TempsSame(fs.disk, orig, t, m);
    hide OnlyAt, OthersSame, TempsSame, MovedAside, OldSafe, Held;
    ghost var start, h1 := fs.disk, |fs.history|;
    var moved := MoveOne(fs, t, orig);
    undo := fs.clock;
    OtherMember(start, fs.disk, orig, t, m);
    BothSince(fs.history, h1, start, orig, t, m);
    if moved.Err? {
      RemoveBeside(fs, t.temp, m.temp, t, m, orig);
      return;
    }
    targetExisted := moved.value;
    markerExisted, ok, undo := MoveMarkerAside(fs, t, m, targetExisted, orig);
  }

  lemma MovedIsHeld(disk: Disk, orig: Disk, m: Member, existed: bool)
    requires MovedAside(disk, orig, m, existed)
    ensures Held(disk, orig, m, existed) && OldSafe(disk, orig, m)
  {}

  lemma SymmetricFrames(a: Disk, b: Disk, orig: Disk, t: Member, m: Member)
    ensures OthersSame(a, orig, t, m) <==> OthersSame(a, orig, m, t)
    ensures OthersSame(b, orig, t, m) <==> OthersSame(b, orig, m, t)
    ensures TempsSame(a, orig, t, m) <==> TempsSame(a, orig, m, t)
    ensures TempsSame(b, orig, t, m) <==> TempsSame(b, orig, m, t)
  {}

  method RestoreBoth(fs: Files, t: Member, m: Member, targetExisted: bool, markerExisted: bool, ghost orig: Disk)
    requires Separate(t, m) && OthersSame(fs.disk, orig, t, m)
    requires Held(fs.disk, orig, t, targetExisted) && Held(fs.disk, orig, m, markerExisted)
    modifies fs
    ensures OthersSame(fs.disk, orig, t, m) && fs.clock >= old(fs.clock)
    ensures Reliable(fs.faulty, old(fs.clock)) ==> OldPair(fs.disk, orig, t, m)
    ensures OldSafe(fs.disk, orig, t) && OldSafe(fs.disk, orig, m) && SameAt(fs.disk, old(fs.disk), t.temp)
    ensures old(fs.history) <= fs.history && SafeSince(fs.history, |old(fs.history)|, orig, t, m)
  {
    hide OnlyAt, OthersSame, MovedAside;
    ghost var start, h0 := fs.disk, |fs.history|;
    RestoreOne(fs, t, targetExisted, orig);
    OtherMember(start, fs.disk, orig, t, m);
    BothSince(fs.history, h0, start, orig, t, m);
    ghost var half, h1 := fs.disk, |fs.history|;
    RestoreOne(fs, m, markerExisted, orig);
    OtherMember(half, fs.disk, orig, m, t);
    SymmetricFrames(half, fs.disk, orig, t, m);
    BothSince(fs.history, h1, half, orig, m, t);
  }

  /** A rename of a temporary file onto the path. */
  lemma RenamedInto(a: Disk, b: Disk, orig: Disk, t: Member, m: Member, existedT: bool, existedM: bool)
    requires Separate(t, m) && t.temp in a && b == Moved(a, t.temp, t.path)
    requires Held(a, orig, t, existedT) && Held(a, orig, m, existedM)
    ensures Held(b, orig, t, existedT) && Held(b, orig, m, existedM) && OldSafe(b, orig, t) && OldSafe(b, orig, m)
    ensures OthersSame(a, orig, t, m) ==> OthersSame(b, orig, t, m)
    ensures t.path in b && b[t.path] == a[t.temp] && t.temp !in b && SameAt(b, a, m.temp) && SameAt(b, a, m.path)
  {
    forall p | !t.Has(p) && !m.Has(p) && SameAt(a, orig, p)
      ensures SameAt(b, orig, p)
    {}
  }

  /** The second half: both new files in place; or, if nothing fails from `undo` on, right after the step that failed,
      both old files back. */
  method Install(fs: Files, t: Member, m: Member, targetExisted: bool, markerExisted: bool, ghost orig: Disk)
    returns (ok: bool, ghost undo: nat)
    requires Separate(t, m) && t.temp in fs.disk && m.temp in fs.disk
    requires OthersSame(fs.disk, orig, t, m)
    requires MovedAside(fs.disk, orig, t, targetExisted) && MovedAside(fs.disk, orig, m, markerExisted)
    modifies fs
    ensures OthersSame(fs.disk, orig, t, m) && old(fs.clock) <= undo <= fs.clock
    ensures !ok ==> FailedAt(fs.faulty, old(fs.clock), undo)
    ensures ok ==> NewPair(fs.disk, old(fs.disk), t, m) && undo == fs.clock
    ensures !ok && Reliable(fs.faulty, undo) ==> Undone(fs.disk, orig, t, m)
    ensures old(fs.history) <= fs.history && SafeSince(fs.history, |old(fs.history)|, orig, t, m)
  {
    hide OthersSame;
    ghost var start := fs.disk;
    MovedIsHeld(start, orig, t, targetExisted);
    MovedIsHeld(start, orig, m, markerExisted);
    ok := fs.Rename(t.temp, t.path);
    undo := fs.clock;
    if !ok {
      RestoreBoth(fs, t, m, targetExisted, markerExisted, orig);
      DropMarkerTemp(fs, t, m, orig);
      return;
    }
    ghost var half := fs.disk;
    RenamedInto(start, half, orig, t, m, targetExisted, markerExisted);
    ok := fs.Rename(m.temp, m.path);
    undo := fs.clock;
    if !ok {
      DropTarget(fs, t, m, targetExisted, markerExisted, orig);
      RestoreBoth(fs, t, m, targetExisted, markerExisted, orig);
      return;
    }
    RenamedInto(half, fs.disk, orig, m, t, markerExisted, targetExisted);
    SymmetricFrames(half, fs.disk, orig, t, m);
  }

  method DropMarkerTemp(fs: Files, t: Member, m: Member, ghost orig: Disk)
    requires Separate(t, m) && OthersSame(fs.disk, orig, t, m) && OldSafe(fs.disk, orig, t) && OldSafe(fs.disk, orig, m)
    modifies fs
    ensures OthersSame(fs.disk, orig, t, m) && fs.clock >= old(fs.clock)
    ensures OldPair(old(fs.disk), orig, t, m) ==> OldPair(fs.disk, orig, t, m)
    ensures Reliable(fs.faulty, old(fs.clock)) ==> m.temp !in fs.disk
    ensures old(fs.history) <= fs.history && SafeSince(fs.history, |old(fs.history)|, orig, t, m)
  {
    var _ := fs.Remove(m.temp);
  }

  /** The new target goes again; the old one is at ".previous". */
  method DropTarget(fs: Files, t: Member, m: Member, targetExisted: bool, markerExisted: bool, ghost orig: Disk)
    requires Separate(t, m) && OthersSame(fs.disk, orig, t, m)
    requires Held(fs.disk, orig, t, targetExisted) && Held(fs.disk, orig, m, markerExisted)
    modifies fs
    ensures OthersSame(fs.disk, orig, t, m) && fs.clock >= old(fs.clock)
    ensures Held(fs.disk, orig, t, targetExisted) && Held(fs.disk, orig, m, markerExisted)
    ensures SameAt(fs.disk, old(fs.disk), t.temp)
    ensures old(fs.history) <= fs.history && SafeSince(fs.history, |old(fs.history)|, orig, t, m)
  {
    var _ := fs.Remove(t.path);
  }

  /** replacePair.  `last` is the clock when restoring, or the cleanup after a success, begins, and `cleanup` the number of
      disks recorded before that cleanup.  Restoring begins right after the step that failed.  On an error the pair on disk
      is the old one, if nothing fails while restoring, hence whenever only one operation fails, and at most one temporary
      file is left; otherwise it is the new one, and nothing is left beside it unless its cleanup failed.  Whatever fails,
      even while restoring, each old content is at its path or at ".previous" until a success is cleaned up, and from then
      on both new contents are in place. */
  method ReplacePair(fs: Files, t: Member, m: Member) returns (ok: bool, ghost last: nat, ghost cleanup: nat)
    requires Separate(t, m) && t.temp in fs.disk && m.temp in fs.disk
    modifies fs
    ensures old(fs.clock) <= last <= fs.clock
    ensures Reliable(fs.faulty, old(fs.clock)) ==> ok
    ensures !ok ==> FailedAt(fs.faulty, old(fs.clock), last)
    ensures ok ==> NewPair(fs.disk, old(fs.disk), t, m)
    ensures ok && Reliable(fs.faulty, last) ==> t.previous !in fs.disk && m.previous !in fs.disk
    ensures !ok && Reliable(fs.faulty, last) ==> Undone(fs.disk, old(fs.disk), t, m)
    ensures !ok && SingleFault(fs.faulty) ==> Undone(fs.disk, old(fs.disk), t, m)
    ensures OthersSame(fs.disk, old(fs.disk), t, m)
    ensures |old(fs.history)| <= cleanup <= |fs.history| && (!ok ==> cleanup == |fs.history|)
    ensures SafeSince(fs.history[..cleanup], |old(fs.history)|, old(fs.disk), t, m)
    ensures ok ==> NewSince(fs.history, cleanup, old(fs.disk), t, m)
  {
    ghost var orig := fs.disk;
    var targetExisted, markerExisted, aside, undo := MoveAside(fs, t, m);
    last, cleanup := undo, |fs.history|;
    if !aside {
      return false, last, cleanup;
    }
    ok, undo := Install(fs, t, m, targetExisted, markerExisted, orig);
    last, cleanup := undo, |fs.history|;
    if ok {
      ghost var _ := RemoveTwo(fs, t.previous, m.previous);
    }
  }
}

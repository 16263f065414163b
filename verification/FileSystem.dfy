/** A file system in which any operation can fail, and a record of every content it passed through. */
module FileSystem {
  import opened Wrappers

  type Bytes = string

  /** A path.  Temp and Backup are the names os.CreateTemp makes from the patterns ".NAME.tmp-*" and
      ".NAME.bak-*" beside the file NAME; files of the configuration never have such names. */
  datatype Path = Plain(name: string) | Temp(name: string, n: nat) | Backup(name: string, n: nat)

  type Disk = map<Path, Bytes>

  /** Both disks have the same thing, or nothing, at `p`. */
  predicate SameAt(a: Disk, b: Disk, p: Path) {
    (p in a <==> p in b) && (p in a ==> a[p] == b[p])
  }

  /** No operation from number `now` on fails. */
  ghost predicate Reliable(faulty: nat -> bool, now: nat) {
    forall k :: k >= now ==> !faulty(k)
  }

  /** The last operation before `now` failed; its number is at least `start`. */
  ghost predicate FailedAt(faulty: nat -> bool, start: nat, now: nat) {
    now > start && faulty(now - 1)
  }

  /** At most one operation fails. */
  ghost predicate SingleFault(faulty: nat -> bool) {
    forall j, k :: faulty(j) && faulty(k) ==> j == k
  }

  function Moved(disk: Disk, from: Path, to: Path): Disk
    requires from in disk
  {
    (disk - {from})[to := disk[from]]
  }

  /** A number that no temporary or backup file on the disk has: os.CreateTemp finds a free name. */
  lemma {:induction false} FreeNumber(paths: set<Path>) returns (n: nat)
    ensures forall p :: p in paths && !p.Plain? ==> p.n < n
  {
    if p :| p in paths {
      n := FreeNumber(paths - {p});
      if !p.Plain? && p.n >= n {
        n := p.n + 1;
      }
    } else {
      n := 0;
    }
  }

  datatype RemoveResult = Removed | Missing | Failed

  class Files {
    var disk: Disk
    /** The number of the next operation; it fails when `faulty` says so. */
    var clock: nat
    const faulty: nat -> bool
    /** The disk after each operation so far. */
    ghost var history: seq<Disk>

    constructor (disk: Disk, faulty: nat -> bool)
      ensures this.disk == disk && this.faulty == faulty && clock == 0 && history == []
    {
      this.disk, this.faulty, this.clock, this.history := disk, faulty, 0, [];
    }

    /** An operation that changes no content: mkdir, chmod, close. */
    method Touch() returns (ok: bool)
      modifies this
      ensures clock == old(clock) + 1 && history == old(history) + [disk]
      ensures ok <==> !faulty(old(clock))
      ensures disk == old(disk)
    {
      ok := !faulty(clock);
      clock := clock + 1;
      history := history + [disk];
    }

    /** os.Stat, os.Lstat */
    method Exists(p: Path) returns (r: Result<bool>)
      modifies this
      ensures clock == old(clock) + 1 && history == old(history) + [disk]
      ensures disk == old(disk)
      ensures r == if faulty(old(clock)) then Err else Ok(p in disk)
    {
      r := if faulty(clock) then Err else Ok(p in disk);
      clock := clock + 1;
      history := history + [disk];
    }

    /** os.Rename: all or nothing. */
    method Rename(from: Path, to: Path) returns (ok: bool)
      modifies this
      ensures clock == old(clock) + 1 && history == old(history) + [disk]
      ensures ok <==> !faulty(old(clock)) && from in old(disk)
      ensures disk == if ok then Moved(old(disk), from, to) else old(disk)
    {
      ok := !faulty(clock) && from in disk;
      if ok {
        disk := Moved(disk, from, to);
      }
      clock := clock + 1;
      history := history + [disk];
    }

    /** os.Remove */
    method Remove(p: Path) returns (r: RemoveResult)
      modifies this
      ensures clock == old(clock) + 1 && history == old(history) + [disk]
      ensures r == if faulty(old(clock)) then Failed else if p in old(disk) then Removed else Missing
      ensures disk == if r == Removed then old(disk) - {p} else old(disk)
    {
      r := if faulty(clock) then Failed else if p in disk then Removed else Missing;
      if r == Removed {
        disk := disk - {p};
      }
      clock := clock + 1;
      history := history + [disk];
    }

    /** os.CreateTemp: an empty file under a name that nothing has. */
    method Create(p: Path) returns (ok: bool)
      requires p !in disk
      modifies this
      ensures clock == old(clock) + 1 && history == old(history) + [disk]
      ensures ok <==> !faulty(old(clock))
      ensures disk == if ok then old(disk)[p := ""] else old(disk)
    {
      ok := !faulty(clock);
      if ok {
        disk := disk[p := ""];
      }
      clock := clock + 1;
      history := history + [disk];
    }

    /** File.Write: a failed write may leave a part of the data. */
    method Write(p: Path, data: Bytes) returns (ok: bool)
      requires p in disk
      modifies this
      ensures clock == old(clock) + 1 && history == old(history) + [disk]
      ensures ok <==> !faulty(old(clock))
      ensures p in disk && disk == old(disk)[p := disk[p]]
      ensures ok ==> disk[p] == data
    {
      ok := !faulty(clock);
      var written := data;
      if !ok {
        var length :| 0 <= length <= |data|;
        written := data[..length];
      }
      disk := disk[p := written];
      clock := clock + 1;
      history := history + [disk];
    }
  }
}

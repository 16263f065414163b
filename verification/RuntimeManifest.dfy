/** The runtime manifest, the managed files it lists, and their paths (internal/runtime/manifest.go, plan.go). */
module RuntimeManifest {
  import opened Wrappers
  import opened Text
  import opened Sorting
  import References

  type Bytes = string

  /** paths.runtime and paths.generated, as the loader leaves them: absolute and clean. */
  datatype Dirs = Dirs(runtime: string, generated: string)

  datatype ManifestFile = ManifestFile(instance: string, path: string, relativePath: string, sha256: string, service: string)

  datatype Manifest = Manifest(schema: string, version: int, configSha: string, instanceSha: map<string, string>,
                               generatedAt: string, files: seq<ManifestFile>)

  const SCHEMA := "sbox.runtime-manifest"
  const VERSION := 1

  // ---------------------------------------------------------------- paths

  /** The parts of a path between its slashes. */
  function Segments(s: string): (r: seq<string>)
    ensures r != []
  {
    if s == "" then [""]
    else
      var rest := Segments(s[1..]);
      if s[0] == '/' then [""] + rest else [[s[0]] + rest[0]] + rest[1..]
  }

  /** validateRelativePath: path.Clean leaves the path alone and it does not climb out. */
  predicate ValidRelativePath(s: string) {
    '\\' !in s && forall x :: x in Segments(s) ==> x != "" && x != "." && x != ".."
  }

  /** isPathUnder, for clean paths. */
  predicate IsPathUnder(parent: string, target: string) {
    parent + "/" <= target
  }

  /** relativeRuntimePath, for clean paths: a path outside the runtime directory starts with ".." and is refused. */
  function RelativeRuntimePath(runtime: string, path: string): Result<string> {
    if IsPathUnder(runtime, path) && ValidRelativePath(path[|runtime| + 1..]) then Ok(path[|runtime| + 1..]) else Err
  }

  /** validatePaths: the generated directory lies under the runtime directory. */
  predicate ValidDirs(d: Dirs) {
    IsPathUnder(d.runtime, d.generated) && ValidRelativePath(d.generated[|d.runtime| + 1..])
  }

  const SUBDIR := "/sing-box/"
  const EXTENSION := ".json"

  function PathOf(d: Dirs, name: string): string {
    d.generated + SUBDIR + name + EXTENSION
  }

  function RelOf(d: Dirs, name: string): string
    requires ValidDirs(d)
  {
    d.generated[|d.runtime| + 1..] + SUBDIR + name + EXTENSION
  }

  /** The manifest entry of an instance whose generated file has hash `sha`. */
  function EntryOf(d: Dirs, name: string, sha: string): ManifestFile
    requires ValidDirs(d)
  {
    ManifestFile(name, PathOf(d, name), RelOf(d, name), sha, "sbox@" + name + ".service")
  }

  /** The entry of an instance: its file is NAME.json in the directory sing-box of the generated directory, which its relative path
      reaches from the runtime directory, and its service is the unit instance of that name. */
  lemma EntryIs(d: Dirs, name: string, sha: string)
    requires ValidDirs(d)
    ensures var e := EntryOf(d, name, sha);
            && e.instance == name && e.sha256 == sha && e.service == "sbox@" + name + ".service"
            && e.path == d.generated + "/sing-box/" + name + ".json" && e.path == d.runtime + "/" + e.relativePath
  {
    assert d.generated == d.runtime + "/" + d.generated[|d.runtime| + 1..] by {
      assert d.generated[..|d.runtime| + 1] == d.runtime + "/";
    }
  }

  lemma {:induction false} SegmentsOfJoin(a: string, b: string)
    ensures Segments(a + "/" + b) == Segments(a) + Segments(b)
  {
    var joined := a + "/" + b;
    if a == "" {
      assert joined[1..] == b;
    } else {
      SegmentsOfJoin(a[1..], b);
      assert joined[1..] == a[1..] + "/" + b && joined[0] == a[0];
      HeadOfConcat(a[0], Segments(a[1..]), Segments(b));
    }
  }

  /** One more character in front of the first segment, or of the first of two lists of segments. */
  lemma HeadOfConcat(c: char, first: seq<string>, rest: seq<string>)
    requires first != []
    ensures [""] + (first + rest) == [""] + first + rest
    ensures [[c] + (first + rest)[0]] + (first + rest)[1..] == [[c] + first[0]] + first[1..] + rest
  {
    assert (first + rest)[1..] == first[1..] + rest;
  }

  lemma {:induction false} SegmentsOfOne(a: string)
    requires '/' !in a
    ensures Segments(a) == [a]
  {
    if a == "" {
    } else {
      SegmentsOfOne(a[1..]);
      assert Segments(a[1..])[1..] == [];
      assert [a[0]] + a[1..] == a;
    }
  }

  lemma JoinIsValid(a: string, b: string)
    requires ValidRelativePath(a) && ValidRelativePath(b)
    ensures ValidRelativePath(a + "/" + b)
  {
    SegmentsOfJoin(a, b);
  }

  lemma OneSegmentIsValid(a: string)
    requires '/' !in a && '\\' !in a && a != "" && a != "." && a != ".."
    ensures ValidRelativePath(a)
  {
    SegmentsOfOne(a);
  }

  lemma FileNameIsValid(name: string)
    requires References.SafeName(name)
    ensures ValidRelativePath(name + EXTENSION) && ValidRelativePath("sing-box")
  {
    OneSegmentIsValid("sing-box");
    var file := name + EXTENSION;
    forall c | c in file
      ensures c != '/' && c != '\\'
    {
      assert c in name || c in EXTENSION;
    }
    assert |file| > 5;
    OneSegmentIsValid(file);
  }

  lemma PathOfIsUnder(d: Dirs, name: string)
    requires ValidDirs(d)
    ensures IsPathUnder(d.generated, PathOf(d, name)) && IsPathUnder(d.runtime, PathOf(d, name))
    ensures PathOf(d, name)[|d.runtime| + 1..] == RelOf(d, name)
  {
    var path := PathOf(d, name);
    assert path[..|d.generated| + 1] == d.generated + "/";
    assert d.runtime + "/" == d.generated[..|d.runtime| + 1] == path[..|d.runtime| + 1];
    var base := d.generated[|d.runtime| + 1..];
    assert path == d.generated[..|d.runtime| + 1] + (base + SUBDIR + name + EXTENSION);
  }

  /** A safe instance name gives a valid relative path, the one that relativeRuntimePath computes. */
  lemma RelIsValid(d: Dirs, name: string)
    requires ValidDirs(d) && References.SafeName(name)
    ensures ValidRelativePath(RelOf(d, name)) && RelativeRuntimePath(d.runtime, PathOf(d, name)) == Ok(RelOf(d, name))
    ensures IsPathUnder(d.generated, PathOf(d, name))
  {
    hide ValidRelativePath, References.SafeName;
    var base := d.generated[|d.runtime| + 1..];
    FileNameIsValid(name);
    JoinIsValid(base, "sing-box");
    JoinIsValid(base + "/" + "sing-box", name + EXTENSION);
    assert base + "/" + "sing-box" + "/" + (name + EXTENSION) == RelOf(d, name);
    PathOfIsUnder(d, name);
  }

  lemma PathsDiffer(d: Dirs, a: string, b: string)
    requires ValidDirs(d) && (PathOf(d, a) == PathOf(d, b) || RelOf(d, a) == RelOf(d, b))
    ensures a == b
  {
    var p, q := PathOf(d, a), PathOf(d, b);
    var r, s := RelOf(d, a), RelOf(d, b);
    var n, m := |d.generated + SUBDIR|, |d.generated[|d.runtime| + 1..] + SUBDIR|;
    assert p[n..|p| - |EXTENSION|] == a && r[m..|r| - |EXTENSION|] == a;
    assert q[n..|q| - |EXTENSION|] == b && s[m..|s| - |EXTENSION|] == b;
  }

  // ---------------------------------------------------------------- validation

  /** validateManifestFile */
  predicate FileOk(f: ManifestFile, generated: string) {
    && !Blank(f.instance) && !Blank(f.path) && !Blank(f.relativePath) && !Blank(f.sha256) && !Blank(f.service)
    && ValidRelativePath(f.relativePath) && IsPathUnder(generated, f.path)
  }

  /** ValidateManifest: what LoadManifest demands of a manifest it reads. */
  predicate ManifestAccepted(m: Manifest, generated: string) {
    && m.schema == SCHEMA && m.version == VERSION && !Blank(m.configSha) && !Blank(m.generatedAt)
    && (forall k :: 0 <= k < |m.files| ==> FileOk(m.files[k], generated))
    && forall k :: 0 < k < |m.files| ==> !Less(m.files[k].relativePath, m.files[k - 1].relativePath)
  }

  method ValidateManifest(m: Manifest, generated: string) returns (ok: bool)
    ensures ok <==> ManifestAccepted(m, generated)
  {
    hide FileOk, Less, Blank;
    if m.schema != SCHEMA || m.version != VERSION || Blank(m.configSha) || Blank(m.generatedAt) {
      return false;
    }
    for k := 0 to |m.files|
      invariant forall j :: 0 <= j < k ==> FileOk(m.files[j], generated)
      invariant forall j :: 0 < j < k ==> !Less(m.files[j].relativePath, m.files[j - 1].relativePath)
    {
      if !FileOk(m.files[k], generated) {
        return false;
      }
      if k > 0 && Less(m.files[k].relativePath, m.files[k - 1].relativePath) {
        return false;
      }
    }
    return true;
  }

  /** A file has all its texts, a relative path that stays below where it starts, and a path below the generated directory. */
  ghost predicate GoodFile(f: ManifestFile, generated: string) {
    && !Blank(f.instance) && !Blank(f.path) && !Blank(f.relativePath) && !Blank(f.sha256) && !Blank(f.service)
    && '\\' !in f.relativePath && "" !in Segments(f.relativePath) && "." !in Segments(f.relativePath)
    && ".." !in Segments(f.relativePath) && generated + "/" <= f.path
  }

  /** What a manifest must say to be read: the right schema and version, good files, and these by relative path. */
  lemma AcceptedIff(m: Manifest, generated: string)
    ensures ManifestAccepted(m, generated) <==>
              && m.schema == "sbox.runtime-manifest" && m.version == 1 && !Blank(m.configSha) && !Blank(m.generatedAt)
              && (forall f :: f in m.files ==> GoodFile(f, generated))
              && forall k :: 0 < k < |m.files| ==> !Less(m.files[k].relativePath, m.files[k - 1].relativePath)
  {
    hide Blank, Less, Segments;
    assert forall f :: FileOk(f, generated) <==> GoodFile(f, generated);
    hide FileOk, GoodFile;
    if ManifestAccepted(m, generated) {
      forall f | f in m.files
        ensures GoodFile(f, generated)
      {
        var k :| 0 <= k < |m.files| && m.files[k] == f;
        assert FileOk(m.files[k], generated);
      }
    }
  }

  // ---------------------------------------------------------------- listings

  /** Files in strict order of their relative paths. */
  predicate StrictlySorted(files: seq<ManifestFile>) {
    forall i, j :: 0 <= i < j < |files| ==> Less(files[i].relativePath, files[j].relativePath)
  }

  type FileMap = map<string, ManifestFile>

  /** Every file is stored under its own relative path. */
  predicate Keyed(m: FileMap) {
    forall k :: k in m ==> m[k].relativePath == k
  }

  /** The files by relative path; of two with one path the later wins. */
  function ByRelative(files: seq<ManifestFile>): FileMap {
    if files == [] then map[]
    else
      var last := files[|files| - 1];
      ByRelative(files[..|files| - 1])[last.relativePath := last]
  }

  lemma {:induction false} ByRelativeEntries(files: seq<ManifestFile>)
    ensures var m := ByRelative(files);
            && Keyed(m) && (forall k :: k in m ==> m[k] in files)
            && forall f :: f in files ==> f.relativePath in m
  {
    if files == [] {
    } else {
      ByRelativeEntries(files[..|files| - 1]);
      assert files == files[..|files| - 1] + [files[|files| - 1]];
    }
  }

  lemma {:induction false} ByRelativeOfSorted(files: seq<ManifestFile>, k: nat)
    requires StrictlySorted(files) && k < |files|
    ensures files[k].relativePath in ByRelative(files) && ByRelative(files)[files[k].relativePath] == files[k]
  {
    var n := |files| - 1;
    if k >= n {
    } else {
      ByRelativeOfSorted(files[..n], k);
      LessIrreflexive(files[n].relativePath);
    }
  }

  /** `files` lists the map in strict order. */
  predicate Lists(files: seq<ManifestFile>, m: FileMap) {
    && StrictlySorted(files) && Keyed(m)
    && (forall f :: f in files ==> f.relativePath in m && m[f.relativePath] == f)
    && forall k :: k in m ==> m[k] in files
  }

  lemma SortedListsItself(files: seq<ManifestFile>)
    requires StrictlySorted(files)
    ensures Lists(files, ByRelative(files))
  {
    ByRelativeEntries(files);
    forall f | f in files
      ensures ByRelative(files)[f.relativePath] == f
    {
      var k :| 0 <= k < |files| && files[k] == f;
      ByRelativeOfSorted(files, k);
    }
  }

  predicate FileLess(a: ManifestFile, b: ManifestFile) {
    Less(a.relativePath, b.relativePath)
  }

  /** SortManifestFiles */
  function SortFiles(files: seq<ManifestFile>): seq<ManifestFile> {
    SortStable(files, FileLess)
  }

  lemma FileLessOrders()
    ensures Transitive(FileLess) && forall a: ManifestFile, b: ManifestFile :: a.relativePath != b.relativePath ==> FileLess(a, b) || FileLess(b, a)
  {
    forall a, b, c | FileLess(a, b) && FileLess(b, c)
      ensures FileLess(a, c)
    {
      LessTransitive(a.relativePath, b.relativePath, c.relativePath);
    }
    forall a: ManifestFile, b: ManifestFile | a.relativePath != b.relativePath
      ensures FileLess(a, b) || FileLess(b, a)
    {
      LessTotal(a.relativePath, b.relativePath);
    }
  }

  lemma InsertFileKeepsOrder(f: ManifestFile, files: seq<ManifestFile>)
    requires StrictlySorted(files) && forall g :: g in files ==> g.relativePath != f.relativePath
    ensures StrictlySorted(Insert(f, files, FileLess))
  {
    FileLessOrders();
    InsertKeepsOrder(f, files, FileLess);
  }

  predicate DistinctPaths(files: seq<ManifestFile>) {
    forall i, j :: 0 <= i < j < |files| ==> files[i].relativePath != files[j].relativePath
  }

  lemma SortFilesSorts(files: seq<ManifestFile>)
    requires DistinctPaths(files)
    ensures StrictlySorted(SortFiles(files))
  {
    FileLessOrders();
    SortSorts(files, FileLess);
  }

  /** A map has one listing, whatever the order in which its entries were visited. */
  lemma {:induction false} ListingIsUnique(a: seq<ManifestFile>, b: seq<ManifestFile>, m: FileMap)
    requires Lists(a, m) && Lists(b, m)
    ensures a == b
    decreases |a|
  {
    hide *;
    if a == [] || b == [] {
      EmptyListing(a, m);
      EmptyListing(b, m);
    } else {
      SameFirst(a, b, m);
      TailLists(a, m);
      TailLists(b, m);
      ListingIsUnique(a[1..], b[1..], m - {a[0].relativePath});
      assert a == [a[0]] + a[1..] && b == [b[0]] + b[1..];
    }
  }

  lemma EmptyListing(a: seq<ManifestFile>, m: FileMap)
    requires Lists(a, m)
    ensures a == [] <==> m == map[]
  {
    if a != [] {
      assert a[0] in a;
    }
  }

  lemma FirstIsLeast(a: seq<ManifestFile>, b: seq<ManifestFile>, m: FileMap)
    requires Lists(a, m) && Lists(b, m) && a != [] && b != []
    ensures !Less(b[0].relativePath, a[0].relativePath)
  {
    assert b[0] in b;
    var k :| 0 <= k < |a| && a[k] == b[0];
    if k > 0 && Less(b[0].relativePath, a[0].relativePath) {
      LessTransitive(a[0].relativePath, a[k].relativePath, a[0].relativePath);
    }
    LessIrreflexive(a[0].relativePath);
  }

  lemma SameFirst(a: seq<ManifestFile>, b: seq<ManifestFile>, m: FileMap)
    requires Lists(a, m) && Lists(b, m) && a != [] && b != []
    ensures a[0] == b[0]
  {
    FirstIsLeast(a, b, m);
    FirstIsLeast(b, a, m);
    LessTotal(a[0].relativePath, b[0].relativePath);
    assert a[0] in a && b[0] in b;
    hide Less;
  }

  lemma TailLists(a: seq<ManifestFile>, m: FileMap)
    requires Lists(a, m) && a != []
    ensures Lists(a[1..], m - {a[0].relativePath})
  {
    var rest := m - {a[0].relativePath};
    forall f | f in a[1..]
      ensures f.relativePath in rest && rest[f.relativePath] == f
    {
      var k :| 0 < k < |a| && a[k] == f;
      assert f in a;
      LessIrreflexive(f.relativePath);
    }
    forall k | k in rest
      ensures rest[k] in a[1..]
    {
      assert m[k] in a;
      assert a[0] in a;
      var j :| 0 <= j < |a| && a[j] == m[k];
      assert j > 0 ==> a[j] == a[1..][j - 1];
    }
  }

  // ---------------------------------------------------------------- the invariant of manifests

  /** Every manifest that the program writes: it lists entries of safe instances, once each and in order,
      and has an input hash for exactly those instances. */
  predicate WellFormed(d: Dirs, m: Manifest)
    requires ValidDirs(d)
  {
    && m.schema == SCHEMA && m.version == VERSION && !Blank(m.configSha) && !Blank(m.generatedAt)
    && StrictlySorted(m.files)
    && (forall f :: f in m.files ==> References.SafeName(f.instance) && !Blank(f.sha256) && f == EntryOf(d, f.instance, f.sha256))
    && m.instanceSha.Keys == Instances(m.files)
  }

  function Instances(files: seq<ManifestFile>): set<string> {
    set f | f in files :: f.instance
  }

  lemma {:induction false} NotBlank(s: string, k: nat)
    requires k < |s| && !IsSpace(s[k])
    ensures !Blank(s)
  {
    if IsSpace(s[0]) {
      assert s[1..][k - 1] == s[k];
      NotBlank(s[1..], k - 1);
    } else {
      TrimRightKeepsFirst(s);
    }
  }

  lemma {:induction false} TrimRightKeepsFirst(s: string)
    requires s != "" && !IsSpace(s[0])
    ensures TrimRight(s) != ""
  {
    if IsSpace(s[|s| - 1]) {
      TrimRightKeepsFirst(s[..|s| - 1]);
    }
  }

  /** ValidateManifest accepts every well-formed manifest. */
  lemma WellFormedIsAccepted(d: Dirs, m: Manifest)
    requires ValidDirs(d) && WellFormed(d, m)
    ensures ManifestAccepted(m, d.generated)
  {
    forall k | 0 <= k < |m.files|
      ensures FileOk(m.files[k], d.generated)
    {
      var f := m.files[k];
      assert f in m.files;
      RelIsValid(d, f.instance);
      NotBlank(f.instance, 0);
      NotBlank(f.path, |f.path| - 1);
      NotBlank(f.relativePath, |f.relativePath| - 1);
      NotBlank(f.service, 0);
    }
    forall k | 0 < k < |m.files|
      ensures !Less(m.files[k].relativePath, m.files[k - 1].relativePath)
    {
      if Less(m.files[k].relativePath, m.files[k - 1].relativePath) {
        LessTransitive(m.files[k].relativePath, m.files[k - 1].relativePath, m.files[k].relativePath);
      }
      LessIrreflexive(m.files[k].relativePath);
    }
  }
}

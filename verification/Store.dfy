/** The files and directories below a user's directory as a map from paths to bytes. */
module Stores {
  import opened Bytes
  import opened Paths
  import opened Disks
  import opened Transfer
  import opened Soundness
  import opened Chunks
  import opened Pruning

  datatype Store = Store(files: map<Path, bytes>, dirs: set<Path>)

  predicate BlockedIn(a: Store, p: Path) {
    exists k | 1 <= k < |p| :: p[..k] in a.files
  }

  /** The directories on the way to `p`, fewer than `depth` names long, are added. */
  function WithParents(dirs: set<Path>, p: Path, depth: nat): set<Path> {
    dirs + set k | 1 <= k < |p| && k < depth :: p[..k]
  }

  /** `d` is on the way to `p` and leads to no other file and no other directory. */
  predicate LeadsOnlyTo(a: Store, d: Path, p: Path) {
    && Under(d, p)
    && (forall q <- a.files.Keys :: Under(d, q) ==> q == p)
    && (forall e <- a.dirs :: Under(d, e) ==> Under(e, p))
  }

  /** The concrete state stands for the store: below the user's directory there are exactly its
      files and directories, the index lists exactly its files as synced, and no stream is open. */
  ghost predicate Represents(hash: Hasher, st: Local, a: Store) {
    && st.disk.InodesOk() && st.disk.TreeOk() && st.handle.Absent? && [st.home] in st.disk.dirs
    && ShowsFiles(st, a.files) && ShowsDirs(st, a.dirs)
    && Lists(hash, st.index, a)
  }

  /** The index lists exactly the files of the store, as synced. */
  ghost predicate Lists(hash: Hasher, index: Index, a: Store) {
    && index.Keys == a.files.Keys
    && (forall p <- a.files :: index[p] == Resource(true, hash(p, a.files[p])))
  }

  /** A user whose directory is empty stands for the empty store. */
  lemma EmptyUser(hash: Hasher, home: bytes)
    ensures Represents(hash, Local(home, Disk(map[], map[], {[home]}, map[]), Absent, map[]), Store(map[], {}))
  {
    var st := Local(home, Disk(map[], map[], {[home]}, map[]), Absent, map[]);
    AbsInjective(st);
    assert st.Abs([]) == [home];
    assert Front([home]) == [];
  }

  lemma AbsPrefix(st: Local, p: Path, k: nat)
    requires k < |p|
    ensures |Front(st.Abs(p))| == |p| && Front(st.Abs(p))[..k + 1] == st.Abs(p[..k])
  {
  }

  lemma BlockedAlike(hash: Hasher, st: Local, a: Store, p: Path)
    requires Represents(hash, st, a) && p != []
    ensures BlockedIn(a, p) <==> st.disk.Blocked(Front(st.Abs(p)))
  {
    hide Disk.InodesOk, ShowsDirs;
    var q := Front(st.Abs(p));
    if k :| 1 <= k < |p| && p[..k] in a.files {
      AbsPrefix(st, p, k);
      assert q[..k + 1] in st.disk.files;
    }
    if k :| 1 <= k <= |q| && q[..k] in st.disk.files {
      AbsPrefix(st, p, k - 1);
      HomeIsNoFile(st, p, k);
      assert p[..k - 1] in a.files;
    }
  }

  lemma HomeIsNoFile(st: Local, p: Path, k: nat)
    requires st.disk.TreeOk() && [st.home] in st.disk.dirs && 1 <= k <= |p|
    requires Front(st.Abs(p))[..k] in st.disk.files
    ensures k > 1
  {
    AbsPrefix(st, p, 0);
    assert st.Abs(p[..0]) == [st.home];
  }

  lemma NewFileInodes(st: Local, path: Path, content: bytes)
    requires st.disk.InodesOk() && path != [] && path[0] == st.home
    ensures var disk := WithNewFile(st, path, content);
      && disk.InodesOk() && disk.RemoveFile(path).InodesOk()
      && (forall q :: disk.Read(q) == if q == path then content else st.disk.Read(q))
  {
  }

  lemma InodesIgnoreDirs(disk: Disk, dirs: set<Path>)
    ensures disk.(dirs := dirs).InodesOk() <==> disk.InodesOk()
  {
  }

  lemma NewDirsTree(st: Local, p: Path, depth: nat)
    requires st.disk.TreeOk() && CanReceive(st, p)
    ensures WithDirs(st, p, depth).TreeOk()
  {
    var path, disk := st.Abs(p), WithDirs(st, p, depth);
    forall d | d in disk.dirs ensures d != [] && disk.IsDir(Front(d)) && d !in disk.files {
      if d !in st.disk.dirs {
        var k :| 1 <= k <= |Front(path)| && k <= depth && d == Front(path)[..k];
        assert Front(d) == Front(path)[..k - 1];
        assert k > 1 ==> Front(path)[..k - 1] in disk.dirs;
      }
    }
  }

  lemma NewFileTree(st: Local, p: Path, content: bytes)
    requires st.disk.TreeOk() && CanCreate(st, p)
    ensures CreatedDisk(st, p, content).TreeOk()
    ensures CreatedDisk(st, p, content).RemoveFile(st.Abs(p)).TreeOk()
  {
    hide Disk.Blocked, Prefixes;
    NewDirsTree(st, p, |p|);
    ParentIsDir(st.disk, st.Abs(p));
    NotItsOwnPrefix(st.Abs(p), |p|);
  }

  /** The store's files are those below the user's directory. */
  ghost predicate ShowsFiles(st: Local, files: map<Path, bytes>) {
    && [] !in files
    && (forall p: Path :: p != [] ==> (p in files <==> st.Abs(p) in st.disk.files))
    && (forall p <- files :: !IsTemp(p) && st.disk.Read(st.Abs(p)) == files[p])
  }

  /** And so are its directories. */
  ghost predicate ShowsDirs(st: Local, dirs: set<Path>) {
    && [] !in dirs
    && (forall d: Path :: d != [] ==> (d in dirs <==> st.Abs(d) in st.disk.dirs))
  }

  /** The disk has the bytes at `path`, if any are given, and is otherwise as before. */
  ghost predicate OneFileChanged(before: Disk, after: Disk, path: Path, content: Option<bytes>) {
    && after.files.Keys == (if content.Some? then before.files.Keys + {path} else before.files.Keys - {path})
    && (forall q :: q != path ==> after.Read(q) == before.Read(q))
    && (content.Some? ==> after.Read(path) == content.value)
  }

  lemma FileShown(st: Local, st': Local, files: map<Path, bytes>, p: Path, content: Option<bytes>)
    requires ShowsFiles(st, files) && p != [] && !IsTemp(p) && st'.home == st.home
    requires OneFileChanged(st.disk, st'.disk, st.Abs(p), content)
    ensures ShowsFiles(st', if content.Some? then files[p := content.value] else files - {p})
  {
    hide Disk.Read, IsTemp;
    AbsInjective(st);
  }

  /** A new file in the place of whatever bore its name, kept or removed again. */
  lemma NewFileChanges(st: Local, path: Path, content: bytes, dirs: set<Path>)
    requires st.disk.InodesOk() && path != [] && path[0] == st.home
    ensures OneFileChanged(st.disk, WithNewFile(st, path, content).(dirs := dirs), path, Some(content))
    ensures OneFileChanged(st.disk, WithNewFile(st, path, content).RemoveFile(path).(dirs := dirs), path, None)
  {
    NewFileInodes(st, path, content);
    var w := WithNewFile(st, path, content);
    hide Disk.InodesOk;
    forall q | q != path ensures w.(dirs := dirs).Read(q) == w.Read(q) == w.RemoveFile(path).(dirs := dirs).Read(q) {
    }
    assert w.(dirs := dirs).Read(path) == w.Read(path);
    assert w.files.Keys == st.disk.files.Keys + {path};
    assert w.RemoveFile(path).files.Keys == st.disk.files.Keys - {path};
    hide WithNewFile, Disk.Read;
  }

  /** What a whole CREATE means to the user: the file with these bytes and a synced entry, or neither;
      every other file reads as before and keeps its entry, and no stream is left. */
  lemma CreatedMeaning(st: Local, p: Path, digest: bytes, content: bytes, good: bool)
    requires st.disk.InodesOk() && CanCreate(st, p)
    ensures var after := Created(st, p, digest, content, good);
      && OneFileChanged(st.disk, after.disk, st.Abs(p), if good then Some(content) else None)
      && after.index == (if good then st.index[p := Resource(true, digest)] else st.index)
      && after.handle.Absent?
  {
    NewFileChanges(st, st.Abs(p), content, CreatedDisk(st, p, content).dirs);
    hide OneFileChanged;
  }

  /** What a whole UPDATE means to the user: the new bytes under a synced entry, or neither file nor
      entry; every other file reads as before, the temporary file is gone, no stream is left. */
  lemma UpdatedMeaning(st: Local, p: Path, digest: bytes, content: bytes, good: bool)
    requires st.disk.InodesOk() && CanUpdate(st, p, digest)
    ensures var after := Updated(st, p, digest, content, good);
      && OneFileChanged(st.disk, after.disk, st.Abs(p), if good then Some(content) else None)
      && after.index == (if good then st.index[p := Resource(true, digest)] else st.index - {p})
      && after.handle.Absent? && st.Abs(TempOf(p)) !in after.disk.files
  {
    NewFileChanges(st, st.Abs(p), content, st.disk.dirs);
    TempIsTemp(p);
    AbsInjective(st);
    var w := WithNewFile(st, st.Abs(p), content);
    assert w.(dirs := st.disk.dirs) == w && w.RemoveFile(st.Abs(p)).(dirs := st.disk.dirs) == w.RemoveFile(st.Abs(p));
    hide OneFileChanged;
  }

  lemma CreatedDirs(st: Local, st': Local, dirs: set<Path>, p: Path, depth: nat)
    requires ShowsDirs(st, dirs) && p != [] && st'.home == st.home
    requires st'.disk.dirs == st.disk.dirs + Prefixes(Front(st.Abs(p)), depth)
    ensures ShowsDirs(st', WithParents(dirs, p, depth))
  {
    hide Prefixes;
    var dirs' := WithParents(dirs, p, depth);
    forall d: Path | d != [] ensures d in dirs' <==> st'.Abs(d) in st'.disk.dirs {
      ParentsAlike(st, p, d, depth);
      assert d in dirs' <==> d in dirs || exists k | 1 <= k < |p| && k < depth :: d == p[..k];
    }
  }

  lemma ParentsAlike(st: Local, p: Path, d: Path, depth: nat)
    requires p != [] && d != []
    ensures st.Abs(d) in Prefixes(Front(st.Abs(p)), depth) <==> exists k | 1 <= k < |p| && k < depth :: d == p[..k]
  {
    var q := Front(st.Abs(p));
    if st.Abs(d) in Prefixes(q, depth) {
      var k :| 1 <= k <= |q| && k <= depth && st.Abs(d) == q[..k];
      AbsPrefix(st, p, k - 1);
      AbsInjective(st);
      assert d == p[..k - 1];
    }
    if k :| 1 <= k < |p| && k < depth && d == p[..k] {
      AbsPrefix(st, p, k);
      assert q[..k + 1] == st.Abs(d);
    }
  }

  /** Directories made on the way to a file that never came. */
  lemma DirsMade(hash: Hasher, st: Local, a: Store, p: Path, depth: nat)
    requires Represents(hash, st, a) && CanReceive(st, p)
    ensures Represents(hash, st.(disk := WithDirs(st, p, depth)), Store(a.files, WithParents(a.dirs, p, depth)))
  {
    hide ShowsDirs, Disk.TreeOk, Disk.InodesOk, Disk.Blocked, IsTemp;
    var st' := st.(disk := WithDirs(st, p, depth));
    NewDirsTree(st, p, depth);
    CreatedDirs(st, st', a.dirs, p, depth);
    InodesIgnoreDirs(st.disk, st'.disk.dirs);
    assert forall q :: st'.disk.Read(q) == st.disk.Read(q);
  }

  lemma PutCreates(hash: Hasher, st: Local, a: Store, p: Path, digest: bytes, content: bytes, good: bool)
    requires Represents(hash, st, a) && CanCreate(st, p) && !IsTemp(p) && (good ==> hash(p, content) == digest)
    ensures Represents(hash, Created(st, p, digest, content, good),
                       Store(if good then a.files[p := content] else a.files, WithParents(a.dirs, p, |p|)))
  {
    hide ShowsFiles, ShowsDirs, OneFileChanged, Disk.TreeOk, Disk.InodesOk;
    var path, disk, after := st.Abs(p), CreatedDisk(st, p, content), Created(st, p, digest, content, good);
    NewFileChanges(st, path, content, disk.dirs);
    CreatedDirs(st, after, a.dirs, p, |p|);
    NewFileInodes(st, path, content);
    InodesIgnoreDirs(WithNewFile(st, path, content), disk.dirs);
    InodesIgnoreDirs(WithNewFile(st, path, content).RemoveFile(path), disk.dirs);
    NewFileTree(st, p, content);
    FileShown(st, after, a.files, p, if good then Some(content) else None);
    assert a.files - {p} == a.files;
  }

  lemma SwapUpdates(hash: Hasher, st: Local, a: Store, p: Path, digest: bytes, content: bytes, good: bool)
    requires Represents(hash, st, a) && CanUpdate(st, p, digest) && !IsTemp(p) && (good ==> hash(p, content) == digest)
    ensures Represents(hash, Updated(st, p, digest, content, good),
                       a.(files := if good then a.files[p := content] else a.files - {p}))
  {
    hide ShowsFiles, OneFileChanged, Disk.InodesOk, Disk.TreeOk;
    var path, after := st.Abs(p), Updated(st, p, digest, content, good);
    var w := WithNewFile(st, path, content);
    NewFileChanges(st, path, content, st.disk.dirs);
    NewFileInodes(st, path, content);
    ReplacedTree(st, path, content);
    assert w.(dirs := st.disk.dirs) == w && w.RemoveFile(path).(dirs := st.disk.dirs) == w.RemoveFile(path);
    FileShown(st, after, a.files, p, if good then Some(content) else None);
  }

  lemma ReplacedTree(st: Local, path: Path, content: bytes)
    requires st.disk.TreeOk() && path in st.disk.files
    ensures WithNewFile(st, path, content).TreeOk() && WithNewFile(st, path, content).RemoveFile(path).TreeOk()
  {
  }

  lemma UnderAbs(st: Local, d: Path, q: Path)
    ensures Under(st.Abs(d), st.Abs(q)) <==> Under(d, q)
    ensures Under(st.Abs(d), q) ==> q == st.Abs(q[1..])
  {
    if Under(d, q) {
      assert st.Abs(q)[..|d| + 1] == st.Abs(d);
    }
    if Under(st.Abs(d), st.Abs(q)) {
      assert q[..|d|] == st.Abs(q)[..|d| + 1][1..] == st.Abs(d)[1..] == d;
    }
    if Under(st.Abs(d), q) {
      assert q[..|d| + 1][0] == st.home;
    }
  }

  /** Seen from the user's directory, the pruned directories are those that led only to `p`. */
  lemma DesertedAlike(st: Local, a: Store, d: Path, p: Path)
    requires ShowsFiles(st, a.files) && ShowsDirs(st, a.dirs) && d != [] && p != []
    ensures Deserted(st.disk.RemoveFile(st.Abs(p)), st.Abs(d), Front(st.Abs(p))) <==> LeadsOnlyTo(a, d, p)
  {
    UnderAbs(st, d, p);
    UnderParent(st.Abs(d), st.Abs(p));
    FilesUnder(st, a, d, p);
    DirsUnder(st, a, d, p);
  }

  lemma FilesUnder(st: Local, a: Store, d: Path, p: Path)
    requires ShowsFiles(st, a.files) && p != []
    ensures (forall q <- st.disk.RemoveFile(st.Abs(p)).files.Keys :: !Under(st.Abs(d), q))
       <==> (forall q <- a.files.Keys :: Under(d, q) ==> q == p)
  {
    AbsInjective(st);
    var files := st.disk.RemoveFile(st.Abs(p)).files;
    if q :| q in files.Keys && Under(st.Abs(d), q) {
      UnderAbs(st, d, q);
      UnderAbs(st, d, q[1..]);
      assert q[1..] in a.files.Keys && Under(d, q[1..]) && q[1..] != p;
    }
    if q :| q in a.files.Keys && Under(d, q) && q != p {
      UnderAbs(st, d, q);
      assert st.Abs(q) in files.Keys;
    }
  }

  lemma DirsUnder(st: Local, a: Store, d: Path, p: Path)
    requires ShowsDirs(st, a.dirs) && p != []
    ensures (forall e <- st.disk.dirs :: Under(st.Abs(d), e) ==> e == Front(st.Abs(p)) || Under(e, Front(st.Abs(p))))
       <==> (forall e <- a.dirs :: Under(d, e) ==> Under(e, p))
  {
    forall e ensures e == Front(st.Abs(p)) || Under(e, Front(st.Abs(p))) <==> Under(e, st.Abs(p)) {
      UnderParent(e, st.Abs(p));
    }
    if e :| e in st.disk.dirs && Under(st.Abs(d), e) && !Under(e, st.Abs(p)) {
      UnderAbs(st, d, e);
      UnderAbs(st, d, e[1..]);
      UnderAbs(st, e[1..], p);
      assert e[1..] in a.dirs && Under(d, e[1..]) && !Under(e[1..], p);
    }
    if e :| e in a.dirs && Under(d, e) && !Under(e, p) {
      UnderAbs(st, d, e);
      UnderAbs(st, e, p);
      assert st.Abs(e) in st.disk.dirs;
    }
  }

  /** What an ERASE leaves of the directories, when the operating system lets `prunable` of them be
      removed. */
  function Pruned(a: Store, p: Path, prunable: nat): set<Path> {
    set d | d in a.dirs && !(LeadsOnlyTo(a, d, p) && |p| <= |d| + prunable)
  }

  lemma DeleteErases(hash: Hasher, st: Local, a: Store, p: Path, digest: bytes, f: Faults)
    requires Represents(hash, st, a) && p in a.files && hash(p, a.files[p]) == digest && !f.removeFails
    ensures var r := EraseFile(st, p, digest, f);
      && r.Next? && r.status == Ok
      && Represents(hash, r.st, Store(a.files - {p}, Pruned(a, p, f.prunable)))
  {
    hide Prune, OneFileChanged, Disk.InodesOk, Disk.TreeOk, Disk.IsEmptyDir;
    var path := st.Abs(p);
    var disk := st.disk.RemoveFile(path);
    var r := EraseFile(st, p, digest, f);
    RemovedChanges(st.disk, path);
    RemovedTree(st.disk, path);
    PruneExactly(disk, Front(path), f.prunable);
    assert r.st.disk == Prune(disk, Front(path), f.prunable);
    hide Deserted, EraseFile, ShowsFiles;
    InodesIgnoreDirs(disk, r.st.disk.dirs);
    PrunedDirs(st, a, p, f.prunable, r.st);
    TooShort(disk, [st.home], Front(path));
    FileShown(st, r.st, a.files, p, None);
  }

  lemma PrunedDirs(st: Local, a: Store, p: Path, prunable: nat, after: Local)
    requires ShowsFiles(st, a.files) && ShowsDirs(st, a.dirs) && p != [] && after.home == st.home
    requires after.disk.dirs <= st.disk.dirs
    requires forall d <- st.disk.dirs ::
               d !in after.disk.dirs
               <==> Deserted(st.disk.RemoveFile(st.Abs(p)), d, Front(st.Abs(p))) && |p| < |d| + prunable
    ensures ShowsDirs(after, Pruned(a, p, prunable))
  {
    hide Deserted, LeadsOnlyTo, ShowsFiles;
    forall d: Path | d != []
      ensures Deserted(st.disk.RemoveFile(st.Abs(p)), st.Abs(d), Front(st.Abs(p))) <==> LeadsOnlyTo(a, d, p)
    {
      DesertedAlike(st, a, d, p);
    }
  }

  lemma RemovedTree(disk: Disk, path: Path)
    requires disk.TreeOk() && path in disk.files
    ensures disk.RemoveFile(path).TreeOk() && disk.RemoveFile(path).IsDir(Front(path))
  {
  }

  lemma RemovedChanges(disk: Disk, path: Path)
    requires disk.InodesOk()
    ensures disk.RemoveFile(path).InodesOk()
    ensures forall dirs :: OneFileChanged(disk, disk.RemoveFile(path).(dirs := dirs), path, None)
  {
  }
}

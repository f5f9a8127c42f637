/** The file system under the backup root: directory entries, inodes and their bytes. Entries and
    inodes are kept apart because a stream goes on writing to an inode after its entry was removed
    or renamed. Paths are absolute: the first name is a user's directory. */
module Disks {
  import opened Bytes
  import opened Paths

  /** Only the identity of an inode matters; numbering them per top-level directory makes the
      numbers one user sees independent of what others do. */
  datatype Inode = Inode(home: bytes, n: nat)

  datatype Disk = Disk(files: map<Path, Inode>, data: map<Inode, bytes>, dirs: set<Path>, next: map<bytes, nat>) {
    function NextInode(home: bytes): nat {
      if home in next then next[home] else 0
    }

    /** The backup root itself always exists. */
    predicate IsDir(p: Path) { p == [] || p in dirs }

    /** The bytes a reader of `p` gets. */
    function Read(p: Path): bytes {
      if p in files && files[p] in data then data[files[p]] else []
    }

    /** Nothing lies below `p`. */
    predicate IsEmptyDir(p: Path) {
      && (forall q <- files.Keys :: !Under(p, q))
      && (forall q <- dirs :: !Under(p, q))
    }

    /** Opening for appending: the entry is created when it is missing and its parent exists. */
    function OpenAppend(p: Path, allowed: bool): (Disk, Option<Inode>)
      requires p != []
    {
      if !allowed then (this, None)
      else if p in files then (this, Some(files[p]))
      else if p in dirs || !IsDir(Front(p)) then (this, None)
      else
        var i := Inode(p[0], NextInode(p[0]));
        (this.(files := files[p := i], data := data[i := []], next := next[p[0] := i.n + 1]), Some(i))
    }

    /** Streams are in append mode: nothing is ever truncated. */
    function Append(i: Inode, content: bytes): Disk {
      this.(data := data[i := (if i in data then data[i] else []) + content])
    }

    function RemoveFile(p: Path): Disk {
      this.(files := files - {p})
    }

    function RemoveDir(p: Path): Disk {
      this.(dirs := dirs - {p})
    }

    /** `remove`: a file or an empty directory goes, a missing name is no error, a directory with
        something in it is. */
    function Remove(p: Path): Option<Disk> {
      if p in files then Some(RemoveFile(p))
      else if p !in dirs then Some(this)
      else if IsEmptyDir(p) then Some(RemoveDir(p))
      else None
    }

    /** A file can take the name of a file or a name that is free. */
    predicate CanRename(from: Path, to: Path) {
      from in files && to !in dirs
    }

    /** `rename` of a file, replacing one that may bear the new name. */
    function Rename(from: Path, to: Path): Disk
      requires from in files
    {
      this.(files := (files - {from})[to := files[from]])
    }

    /** Some name on the way to `p`, or `p` itself, is a file. */
    predicate Blocked(p: Path) {
      exists k | 1 <= k <= |p| :: p[..k] in files
    }

    /** `create_directories`; the operating system may refuse after the first `levels` names. */
    function MakeDirs(p: Path, refused: Option<nat>): (Disk, bool) {
      if Blocked(p) then (this, false)
      else match refused
        case None => (this.(dirs := dirs + Prefixes(p, |p|)), true)
        case Some(levels) => (this.(dirs := dirs + Prefixes(p, levels)), false)
    }

    // The file system's own invariants.

    /** Entries name allocated inodes, each its own, numbered below the next free one. */
    ghost predicate InodesOk() {
      && (forall p <- files :: p != [] && files[p] in data && files[p].home == p[0])
      && (forall p <- files, q <- files :: files[p] == files[q] ==> p == q)
      && (forall i <- data :: i.n < NextInode(i.home))
    }

    /** Entries form a tree. */
    ghost predicate TreeOk() {
      && files.Keys !! dirs
      && (forall p <- files :: p != [] && IsDir(Front(p)))
      && (forall p <- dirs :: p != [] && IsDir(Front(p)))
    }

    /** The other disk has the same entries, inodes and bytes below `home`. */
    ghost predicate Agrees(other: Disk, home: bytes) {
      && (forall p: Path :: p != [] && p[0] == home ==>
            && (p in files <==> p in other.files)
            && (p in files ==> files[p] == other.files[p])
            && (p in dirs <==> p in other.dirs))
      && (forall i: Inode :: i.home == home ==>
            && (i in data <==> i in other.data)
            && (i in data ==> data[i] == other.data[i]))
      && NextInode(home) == other.NextInode(home)
    }
  }

  /** The names on the way to `p`, `p` included, down to the given depth. */
  function Prefixes(p: Path, depth: nat): set<Path> {
    set k | 1 <= k <= |p| && k <= depth :: p[..k]
  }

  lemma AgreesTransitive(a: Disk, b: Disk, c: Disk, home: bytes)
    requires a.Agrees(b, home) && b.Agrees(c, home)
    ensures a.Agrees(c, home)
  {
  }

  lemma AgreesSymmetric(a: Disk, b: Disk, home: bytes)
    requires a.Agrees(b, home)
    ensures b.Agrees(a, home)
  {
  }
}

/** ERASE removes exactly the directories it left empty (core/request_handler.cpp:364-381). */
module Pruning {
  import opened Bytes
  import opened Paths
  import opened Disks
  import opened Transfer

  /** `d` is `q` or on the way to it, below the user's directory, and leads to nothing else. */
  ghost predicate Deserted(disk: Disk, d: Path, q: Path) {
    && 2 <= |d|
    && (d == q || Under(d, q))
    && (forall p <- disk.files.Keys :: !Under(d, p))
    && (forall e <- disk.dirs :: Under(d, e) ==> e == q || Under(e, q))
  }

  /** The loop removes the deserted part of the way to `q`, as far up as the operating system lets
      it, all of it and nothing else, and leaves a tree. */
  lemma {:induction false} PruneExactly(disk: Disk, q: Path, prunable: nat)
    requires disk.TreeOk() && disk.IsDir(q)
    ensures forall d <- disk.dirs ::
              d !in Prune(disk, q, prunable).dirs <==> Deserted(disk, d, q) && |q| < |d| + prunable
    ensures Prune(disk, q, prunable).dirs <= disk.dirs
    ensures Prune(disk, q, prunable) == disk.(dirs := Prune(disk, q, prunable).dirs)
    ensures Prune(disk, q, prunable).TreeOk()
    decreases prunable
  {
    hide Deserted, Disk.TreeOk, Disk.IsEmptyDir;
    if prunable == 0 {
      forall d | d in disk.dirs && Deserted(disk, d, q) ensures |d| <= |q| {
        OnTheWay(disk, d, q);
      }
    } else if |q| <= 1 {
      forall d | d in disk.dirs ensures !Deserted(disk, d, q) {
        TooShort(disk, d, q);
      }
    } else if !disk.IsEmptyDir(q) {
      forall d | d in disk.dirs ensures !Deserted(disk, d, q) {
        NotDeserted(disk, d, q);
      }
    } else {
      var disk1 := disk.RemoveDir(q);
      LeafRemoved(disk, q);
      PruneExactly(disk1, Front(q), prunable - 1);
      forall d | d in disk.dirs
        ensures d !in Prune(disk1, Front(q), prunable - 1).dirs <==> Deserted(disk, d, q) && |q| < |d| + prunable
      {
        DesertedStep(disk, d, q);
      }
    }
  }

  lemma OnTheWay(disk: Disk, d: Path, q: Path)
    ensures Deserted(disk, d, q) ==> |d| <= |q|
  {
  }

  lemma TooShort(disk: Disk, d: Path, q: Path)
    requires |q| <= 1 || |d| <= 1
    ensures !Deserted(disk, d, q)
  {
  }

  lemma NotDeserted(disk: Disk, d: Path, q: Path)
    requires !disk.IsEmptyDir(q)
    ensures !Deserted(disk, d, q)
  {
    if Deserted(disk, d, q) {
      if p :| p in disk.files.Keys && Under(q, p) {
        if d != q { UnderTransitive(d, q, p); }
        assert false;
      } else {
        var e :| e in disk.dirs && Under(q, e);
        if d != q { UnderTransitive(d, q, e); }
        assert false;
      }
    }
  }

  lemma LeafRemoved(disk: Disk, q: Path)
    requires disk.TreeOk() && q in disk.dirs && disk.IsEmptyDir(q)
    ensures disk.RemoveDir(q).TreeOk() && disk.RemoveDir(q).IsDir(Front(q))
  {
    forall p: Path | p != [] && Front(p) == q ensures Under(q, p) {
      UnderParent(q, p);
    }
  }

  lemma DesertedStep(disk: Disk, d: Path, q: Path)
    requires q in disk.dirs && 2 <= |q| && disk.IsEmptyDir(q)
    ensures Deserted(disk, d, q) <==> d == q || (d != q && Deserted(disk.RemoveDir(q), d, Front(q)))
  {
    UnderParent(d, q);
    forall e | e in disk.dirs ensures Under(e, q) <==> e == Front(q) || Under(e, Front(q)) {
      UnderParent(e, q);
    }
  }

  /** Every directory below a user's own has something in it. */
  ghost predicate NoEmptyDirs(disk: Disk) {
    forall d <- disk.dirs :: 2 <= |d| ==> !disk.IsEmptyDir(d)
  }

  ghost function DirsUnder(disk: Disk, d: Path): set<Path> {
    set e | e in disk.dirs && Under(d, e)
  }

  /** In such a tree every directory leads to a file. */
  lemma FileBelow(disk: Disk, d: Path) returns (p: Path)
    requires NoEmptyDirs(disk) && d in disk.dirs && 2 <= |d|
    ensures p in disk.files && Under(d, p)
    decreases DirsUnder(disk, d)
  {
    if q :| q in disk.files.Keys && Under(d, q) {
      p := q;
    } else {
      var e :| e in disk.dirs && Under(d, e);
      forall x | x in DirsUnder(disk, e) ensures x in DirsUnder(disk, d) {
        UnderTransitive(d, e, x);
      }
      assert e in DirsUnder(disk, d) && e !in DirsUnder(disk, e);
      p := FileBelow(disk, e);
      UnderTransitive(d, e, p);
    }
  }

  /** `p` is the only file below `d`. */
  ghost predicate OnlyFile(disk: Disk, d: Path, p: Path) {
    Under(d, p) && forall q <- disk.files.Keys :: Under(d, q) ==> q == p
  }

  /** A successful ERASE in a tree without empty directories: the file goes, with exactly those
      directories below the user's own in which it was the only file, as far up as the operating
      system lets them be removed; every other file and directory stays, and if it lets all of them
      be removed, again no directory is empty. */
  lemma EraseExactly(st: Local, p: Path, digest: bytes, f: Faults)
    requires st.disk.TreeOk() && NoEmptyDirs(st.disk)
    requires p != [] && p in st.index && st.index[p].digest == digest && st.Abs(p) in st.disk.files
    requires !f.removeFails
    ensures var r := EraseFile(st, p, digest, f);
      && r.Next? && r.status == Ok && r.st.index == st.index - {p} && r.st.handle == st.handle
      && r.st.disk == st.disk.(files := st.disk.files - {st.Abs(p)}, dirs := r.st.disk.dirs)
      && r.st.disk.dirs <= st.disk.dirs
      && (forall d <- st.disk.dirs ::
            d !in r.st.disk.dirs <==> 2 <= |d| && OnlyFile(st.disk, d, st.Abs(p)) && |p| < |d| + f.prunable)
      && r.st.disk.TreeOk() && (f.prunable >= |p| ==> NoEmptyDirs(r.st.disk))
  {
    hide Deserted, OnlyFile, Disk.IsEmptyDir, Prune;
    var path := st.Abs(p);
    var disk := st.disk.RemoveFile(path);
    PruneExactly(disk, Front(path), f.prunable);
    forall d | d in st.disk.dirs ensures Deserted(disk, d, Front(path)) <==> 2 <= |d| && OnlyFile(st.disk, d, path) {
      DesertedIsOnly(st.disk, d, path);
      OnTheWay(disk, d, Front(path));
    }
    var pruned := Prune(disk, Front(path), f.prunable);
    forall d | d in pruned.dirs && 2 <= |d| && f.prunable >= |p| ensures !pruned.IsEmptyDir(d) {
      StillBusy(st.disk, pruned, d, path);
    }
  }

  lemma StillBusy(disk: Disk, pruned: Disk, d: Path, path: Path)
    requires NoEmptyDirs(disk) && d in disk.dirs && 2 <= |d|
    requires pruned.files == disk.files - {path} && !OnlyFile(disk, d, path)
    ensures !pruned.IsEmptyDir(d)
  {
    var x := FileBelow(disk, d);
    if x == path {
      var y :| y in disk.files.Keys && Under(d, y) && y != path;
      assert y in pruned.files.Keys;
    } else {
      assert x in pruned.files.Keys;
    }
  }

  lemma DesertedIsOnly(disk: Disk, d: Path, path: Path)
    requires NoEmptyDirs(disk) && path in disk.files && path != [] && d in disk.dirs
    ensures Deserted(disk.RemoveFile(path), d, Front(path)) <==> 2 <= |d| && OnlyFile(disk, d, path)
  {
    var disk', q := disk.RemoveFile(path), Front(path);
    UnderParent(d, path);
    if 2 <= |d| && OnlyFile(disk, d, path) {
      forall e | e in disk.dirs && Under(d, e) ensures e == q || Under(e, q) {
        var x := FileBelow(disk, e);
        UnderTransitive(d, e, x);
        UnderParent(e, path);
      }
    }
    if Deserted(disk', d, q) {
      forall x | x in disk.files.Keys && Under(d, x) ensures x == path {
        assert x in disk'.files.Keys || x == path;
      }
    }
  }
}

/** One user's chunks neither touch nor depend on what lies below another user's directory. */
module Isolation {
  import opened Bytes
  import opened Paths
  import opened Disks
  import opened Transfer
  import opened Soundness

  /** The two states look the same to their user, and hold the same elsewhere below `other`. */
  ghost predicate Alike(a: Local, b: Local) {
    && a.home == b.home && a.handle == b.handle && a.index == b.index
    && a.disk.Agrees(b.disk, a.home)
  }

  ghost predicate StepsAlike(a: Step, b: Step) {
    match (a, b)
    case (Halt, Halt) => true
    case (Next(s, x), Next(t, y)) => x == y && Alike(s, t)
    case _ => false
  }

  lemma OpenAlike(a: Disk, b: Disk, p: Path, allowed: bool)
    requires p != [] && a.Agrees(b, p[0])
    ensures a.OpenAppend(p, allowed).1 == b.OpenAppend(p, allowed).1
    ensures a.OpenAppend(p, allowed).0.Agrees(b.OpenAppend(p, allowed).0, p[0])
  {
    if |p| > 1 {
      assert Front(p)[0] == p[0];
    }
  }

  lemma AppendAlike(a: Disk, b: Disk, i: Inode, content: bytes)
    requires a.Agrees(b, i.home)
    ensures a.Append(i, content).Agrees(b.Append(i, content), i.home)
  {
  }

  lemma EmptyAlike(a: Disk, b: Disk, p: Path)
    requires p != [] && a.Agrees(b, p[0])
    ensures a.IsEmptyDir(p) <==> b.IsEmptyDir(p)
  {
    assert forall q: Path :: Under(p, q) ==> q != [] && q[0] == p[0];
  }

  lemma DropAlike(a: Disk, b: Disk, p: Path)
    requires p != [] && a.Agrees(b, p[0])
    ensures a.RemoveDir(p).Agrees(b.RemoveDir(p), p[0])
    ensures a.RemoveFile(p).Agrees(b.RemoveFile(p), p[0])
  {
  }

  lemma RemoveAlike(a: Disk, b: Disk, p: Path)
    requires p != [] && a.Agrees(b, p[0])
    ensures a.Remove(p).Some? <==> b.Remove(p).Some?
    ensures a.Remove(p).Some? ==> a.Remove(p).value.Agrees(b.Remove(p).value, p[0])
  {
    EmptyAlike(a, b, p);
    DropAlike(a, b, p);
    hide Disk.IsEmptyDir;
  }

  lemma RenameAlike(a: Disk, b: Disk, from: Path, to: Path)
    requires from != [] && to != [] && from[0] == to[0] && a.Agrees(b, from[0])
    requires from in a.files
    ensures a.Rename(from, to).Agrees(b.Rename(from, to), from[0])
  {
  }

  lemma MakeDirsAlike(a: Disk, b: Disk, p: Path, refused: Option<nat>)
    requires p != [] && a.Agrees(b, p[0])
    ensures a.MakeDirs(p, refused).1 == b.MakeDirs(p, refused).1
    ensures a.MakeDirs(p, refused).0.Agrees(b.MakeDirs(p, refused).0, p[0])
  {
    assert forall k | 1 <= k <= |p| :: p[..k] != [] && p[..k][0] == p[0];
    assert a.Blocked(p) <==> b.Blocked(p);
  }

  lemma {:induction false} PruneAlike(a: Disk, b: Disk, q: Path, prunable: nat)
    requires q != [] && a.Agrees(b, q[0])
    ensures Prune(a, q, prunable).Agrees(Prune(b, q, prunable), q[0])
    decreases prunable
  {
    EmptyAlike(a, b, q);
    if !(prunable == 0 || |q| <= 1 || q !in a.dirs || !a.IsEmptyDir(q)) {
      DropAlike(a, b, q);
      PruneAlike(a.RemoveDir(q), b.RemoveDir(q), Front(q), prunable - 1);
    }
  }

  lemma WriteAlike(a: Local, b: Local, path: Path, content: bytes, open: OpenOutcome)
    requires Alike(a, b) && HandleOk(a) && a.disk.InodesOk() && path != [] && path[0] == a.home
    ensures var x, y := WriteChunk(a, path, content, open), WriteChunk(b, path, content, open);
      && Alike(x.st, y.st)
      && x.Written? == y.Written?
      && (x.Written? ==> x.first == y.first)
  {
    if !open.Throws? {
      OpenAlike(a.disk, b.disk, path, open.Allowed?);
      var (da, i) := a.disk.OpenAppend(path, open.Allowed?);
      var handle := WriteChunk(a, path, content, open).st.handle;
      if handle.Opened? {
        assert handle.inode.home == a.home;
        AppendAlike(da, b.disk.OpenAppend(path, open.Allowed?).0, handle.inode, content);
      }
    }
  }

  lemma SettleAlike(hash: Hasher, a: Local, b: Local, p: Path, digest: bytes, f: Faults, noMatch: nat, failed: nat)
    requires Alike(a, b) && a.disk.InodesOk()
    ensures StepsAlike(Settle(hash, a, p, digest, f, noMatch, failed), Settle(hash, b, p, digest, f, noMatch, failed))
  {
    DropAlike(a.disk, b.disk, a.Abs(p));
    assert a.Abs(p)[0] == a.home;
    assert a.Abs(p) in a.disk.files ==> a.disk.files[a.Abs(p)].home == a.home;
    assert a.disk.Read(a.Abs(p)) == b.disk.Read(a.Abs(p));
  }

  lemma CreateAlike(
    hash: Hasher, a: Local, b: Local, p: Path, digest: bytes, content: bytes, last: bool, f: Faults)
    requires Alike(a, b) && HandleOk(a) && a.disk.InodesOk() && p != []
    ensures StepsAlike(
              CreateChunk(hash, a, p, digest, content, last, f), CreateChunk(hash, b, p, digest, content, last, f))
  {
    if p in a.index && a.index[p].synced { return; }
    MakeDirsAlike(a.disk, b.disk, Front(a.Abs(p)), f.mkdir);
    var (da, made) := a.disk.MakeDirs(Front(a.Abs(p)), f.mkdir);
    var (db, _) := b.disk.MakeDirs(Front(a.Abs(p)), f.mkdir);
    if !made { return; }
    var a0, b0 := a.(disk := da), b.(disk := db);
    WriteAlike(a0, b0, a.Abs(p), content, f.open);
    WriteInodes(a0, a.Abs(p), content, f.open);
    match (WriteChunk(a0, a.Abs(p), content, f.open), WriteChunk(b0, a.Abs(p), content, f.open))
    case (Written(a1, _), Written(b1, _)) =>
      if last {
        SettleAlike(hash,
          a1.(index := a1.index[p := Resource(true, digest)], handle := Absent),
          b1.(index := b1.index[p := Resource(true, digest)], handle := Absent),
          p, digest, f, ERR_CREATE_NO_MATCH, ERR_CREATE_FAILED);
      }
    case _ =>
  }

  lemma WriteInodes(st: Local, path: Path, content: bytes, open: OpenOutcome)
    requires HandleOk(st) && st.disk.InodesOk() && path != [] && path[0] == st.home
    ensures var w := WriteChunk(st, path, content, open);
      w.st.disk.InodesOk() && HandleOk(w.st) && w.st.home == st.home && w.st.index == st.index
  {
    if !open.Throws? {
      OpenKeepsInodes(st.disk, path, open.Allowed?);
      var handle := WriteChunk(st, path, content, open).st.handle;
      if handle.Opened? {
        AppendKeepsInodes(st.disk.OpenAppend(path, open.Allowed?).0, handle.inode, content);
      }
    }
  }

  lemma ReplaceAlike(a: Local, b: Local, p: Path, f: Faults)
    requires Alike(a, b) && a.disk.InodesOk() && p != []
    ensures var x, y := Replace(a, p, f), Replace(b, p, f);
      && x.Some? == y.Some?
      && (x.Some? ==> Alike(x.value, y.value) && x.value.disk.InodesOk())
  {
    var path, temp := a.Abs(p), a.Abs(TempOf(p));
    RemoveAlike(a.disk, b.disk, path);
    if !f.removeFails && a.disk.Remove(path).Some? {
      var da, db := a.disk.Remove(path).value, b.disk.Remove(path).value;
      RemoveKeepsInodes(a.disk, path);
      assert temp in da.files <==> temp in db.files;
      if temp in da.files {
        RenameAlike(da, db, temp, path);
        RenameKeepsInodes(da, temp, path);
      }
    }
  }

  lemma UpdateAlike(
    hash: Hasher, a: Local, b: Local, p: Path, digest: bytes, content: bytes, last: bool, f: Faults)
    requires Alike(a, b) && HandleOk(a) && a.disk.InodesOk() && p != []
    ensures StepsAlike(
              UpdateChunk(hash, a, p, digest, content, last, f), UpdateChunk(hash, b, p, digest, content, last, f))
  {
    if p !in a.index || a.index[p].digest == digest { return; }
    var temp := a.Abs(TempOf(p));
    WriteAlike(a, b, temp, content, f.open);
    WriteInodes(a, temp, content, f.open);
    match (WriteChunk(a, temp, content, f.open), WriteChunk(b, temp, content, f.open))
    case (Written(a1, _), Written(b1, _)) =>
      if last {
        var a2 := a1.(index := a1.index[p := Resource(true, digest)], handle := Absent);
        var b2 := b1.(index := b1.index[p := Resource(true, digest)], handle := Absent);
        ReplaceAlike(a2, b2, p, f);
        if Replace(a2, p, f).Some? {
          SettleAlike(hash, Replace(a2, p, f).value, Replace(b2, p, f).value,
            p, digest, f, ERR_UPDATE_NO_MATCH, ERR_UPDATE_FAILED);
        }
      }
    case _ =>
  }

  lemma EraseAlike(a: Local, b: Local, p: Path, digest: bytes, f: Faults)
    requires Alike(a, b) && p != []
    ensures StepsAlike(EraseFile(a, p, digest, f), EraseFile(b, p, digest, f))
  {
    RemoveAlike(a.disk, b.disk, a.Abs(p));
    if a.disk.Remove(a.Abs(p)).Some? {
      PruneAlike(a.disk.Remove(a.Abs(p)).value, b.disk.Remove(a.Abs(p)).value, Front(a.Abs(p)), f.prunable);
    }
  }

  /** A chunk served on two disks that agree below the user's directory has the same outcome. */
  lemma ServeAlike(hash: Hasher, a: Local, b: Local, r: Request, f: Faults)
    requires Alike(a, b) && HandleOk(a) && a.disk.InodesOk() && r.path != []
    ensures StepsAlike(Serve(hash, a, r, f), Serve(hash, b, r, f))
  {
    match r
    case Create(p, digest, content, last) => CreateAlike(hash, a, b, p, digest, content, last, f);
    case Update(p, digest, content, last) => UpdateAlike(hash, a, b, p, digest, content, last, f);
    case Erase(p, digest) => EraseAlike(a, b, p, digest, f);
  }

  // The frame: nothing changes below another user's directory.

  lemma WriteFrame(st: Local, path: Path, content: bytes, open: OpenOutcome, other: bytes)
    requires HandleOk(st) && st.disk.InodesOk() && path != [] && path[0] == st.home != other
    ensures st.disk.Agrees(WriteChunk(st, path, content, open).st.disk, other)
  {
    hide Disk.Agrees, Disk.InodesOk, Disk.OpenAppend;
    var w := WriteChunk(st, path, content, open);
    DropFrame(st.disk, path, other);
    if !open.Throws? {
      OpenKeepsInodes(st.disk, path, open.Allowed?);
      OpenFrame(st.disk, path, open.Allowed?, other);
      var d := st.disk.OpenAppend(path, open.Allowed?).0;
      if w.st.handle.Opened? {
        AppendFrame(d, w.st.handle.inode, content, other);
        AgreesTransitive(st.disk, d, d.Append(w.st.handle.inode, content), other);
      }
    }
  }

  lemma OpenFrame(disk: Disk, p: Path, allowed: bool, other: bytes)
    requires p != [] && p[0] != other
    ensures disk.Agrees(disk.OpenAppend(p, allowed).0, other)
  {
  }

  lemma AppendFrame(disk: Disk, i: Inode, content: bytes, other: bytes)
    requires i.home != other
    ensures disk.Agrees(disk.Append(i, content), other)
  {
  }

  lemma {:induction false} PruneFrame(disk: Disk, q: Path, prunable: nat, other: bytes)
    requires q != [] && q[0] != other
    ensures disk.Agrees(Prune(disk, q, prunable), other)
    decreases prunable
  {
    if !(prunable == 0 || |q| <= 1 || q !in disk.dirs || !disk.IsEmptyDir(q)) {
      PruneFrame(disk.RemoveDir(q), Front(q), prunable - 1, other);
    }
  }

  lemma DropFrame(disk: Disk, p: Path, other: bytes)
    requires p != [] && p[0] != other
    ensures disk.Agrees(disk, other)
    ensures disk.Agrees(disk.RemoveFile(p), other)
    ensures disk.Remove(p).Some? ==> disk.Agrees(disk.Remove(p).value, other)
  {
  }

  lemma RenameFrame(disk: Disk, from: Path, to: Path, other: bytes)
    requires from in disk.files && from != [] && to != [] && from[0] != other && to[0] != other
    ensures disk.Agrees(disk.Rename(from, to), other)
  {
  }

  lemma MakeDirsInodes(disk: Disk, p: Path, refused: Option<nat>)
    requires disk.InodesOk()
    ensures var made := disk.MakeDirs(p, refused).0;
      made.InodesOk() && made == disk.(dirs := made.dirs)
  {
  }

  lemma MakeDirsFrame(disk: Disk, p: Path, refused: Option<nat>, other: bytes)
    requires p != [] && p[0] != other
    ensures disk.Agrees(disk.MakeDirs(p, refused).0, other)
  {
    assert forall k | 1 <= k <= |p| :: p[..k] != [] && p[..k][0] == p[0];
  }

  lemma CreateFrame(
    hash: Hasher, st: Local, p: Path, digest: bytes, content: bytes, last: bool, f: Faults, other: bytes)
    requires HandleOk(st) && st.disk.InodesOk() && p != [] && st.home != other
    ensures var r := CreateChunk(hash, st, p, digest, content, last, f);
      r.Next? ==> st.disk.Agrees(r.st.disk, other)
  {
    hide Disk.Agrees, Disk.InodesOk, WriteChunk, Disk.MakeDirs;
    var dirs := Front(st.Abs(p));
    var st0 := st.(disk := st.disk.MakeDirs(dirs, f.mkdir).0);
    MakeDirsFrame(st.disk, dirs, f.mkdir, other);
    MakeDirsInodes(st.disk, dirs, f.mkdir);
    WriteFrame(st0, st.Abs(p), content, f.open, other);
    WriteInodes(st0, st.Abs(p), content, f.open);
    var st1 := WriteChunk(st0, st.Abs(p), content, f.open).st;
    AgreesTransitive(st.disk, st0.disk, st1.disk, other);
    DropFrame(st1.disk, st.Abs(p), other);
    DropFrame(st.disk, st.Abs(p), other);
    AgreesTransitive(st.disk, st1.disk, st1.disk.RemoveFile(st.Abs(p)), other);
  }

  lemma UpdateFrame(
    hash: Hasher, st: Local, p: Path, digest: bytes, content: bytes, last: bool, f: Faults, other: bytes)
    requires HandleOk(st) && st.disk.InodesOk() && p != [] && st.home != other
    ensures var r := UpdateChunk(hash, st, p, digest, content, last, f);
      r.Next? ==> st.disk.Agrees(r.st.disk, other)
  {
    hide Disk.Agrees, Disk.InodesOk, WriteChunk;
    var path, temp := st.Abs(p), st.Abs(TempOf(p));
    WriteFrame(st, temp, content, f.open, other);
    WriteInodes(st, temp, content, f.open);
    DropFrame(st.disk, path, other);
    var st1 := WriteChunk(st, temp, content, f.open).st;
    DropFrame(st1.disk, path, other);
    if st1.disk.Remove(path).Some? {
      var removed := st1.disk.Remove(path).value;
      AgreesTransitive(st.disk, st1.disk, removed, other);
      if temp in removed.files {
        var renamed := removed.Rename(temp, path);
        RenameFrame(removed, temp, path, other);
        AgreesTransitive(st.disk, removed, renamed, other);
        DropFrame(renamed, path, other);
        AgreesTransitive(st.disk, renamed, renamed.RemoveFile(path), other);
      }
    }
  }

  lemma EraseFrame(st: Local, p: Path, digest: bytes, f: Faults, other: bytes)
    requires p != [] && st.home != other
    ensures var r := EraseFile(st, p, digest, f);
      r.Next? ==> st.disk.Agrees(r.st.disk, other)
  {
    var removed := st.disk.Remove(st.Abs(p));
    if removed.Some? {
      PruneFrame(removed.value, Front(st.Abs(p)), f.prunable, other);
      assert st.disk.Agrees(removed.value, other);
      AgreesTransitive(st.disk, removed.value, Prune(removed.value, Front(st.Abs(p)), f.prunable), other);
    }
  }

  lemma ServeFrame(hash: Hasher, st: Local, r: Request, f: Faults, other: bytes)
    requires HandleOk(st) && st.disk.InodesOk() && r.path != [] && st.home != other
    ensures var s := Serve(hash, st, r, f);
      s.Next? ==> st.disk.Agrees(s.st.disk, other)
  {
    match r
    case Create(p, digest, content, last) => CreateFrame(hash, st, p, digest, content, last, f, other);
    case Update(p, digest, content, last) => UpdateFrame(hash, st, p, digest, content, last, f, other);
    case Erase(p, digest) => EraseFrame(st, p, digest, f, other);
  }

  // What every chunk keeps of the file system and of the stream, whatever clients send.

  lemma SettleInodes(hash: Hasher, st: Local, p: Path, digest: bytes, f: Faults, noMatch: nat, failed: nat)
    requires st.disk.InodesOk() && HandleOk(st)
    ensures var r := Settle(hash, st, p, digest, f, noMatch, failed);
      r.Next? ==> r.st.disk.InodesOk() && HandleOk(r.st) && r.st.home == st.home
  {
    RemoveKeepsInodes(st.disk, st.Abs(p));
  }

  lemma ReplaceInodes(st: Local, p: Path, f: Faults)
    requires st.disk.InodesOk() && HandleOk(st) && p != []
    ensures var r := Replace(st, p, f);
      r.Some? ==>
        && r.value.disk.InodesOk() && HandleOk(r.value)
        && r.value.home == st.home && r.value.disk.data == st.disk.data
  {
    hide Disk.InodesOk, Disk.IsEmptyDir;
    RemoveKeepsInodes(st.disk, st.Abs(p));
    var removed := st.disk.Remove(st.Abs(p));
    if removed.Some? && st.Abs(TempOf(p)) in removed.value.files {
      RenameKeepsInodes(removed.value, st.Abs(TempOf(p)), st.Abs(p));
    }
  }

  lemma EraseInodes(st: Local, p: Path, digest: bytes, f: Faults)
    requires st.disk.InodesOk() && HandleOk(st) && p != []
    ensures var r := EraseFile(st, p, digest, f);
      r.Next? ==> r.st.disk.InodesOk() && HandleOk(r.st) && r.st.home == st.home
  {
    RemoveKeepsInodes(st.disk, st.Abs(p));
    var removed := st.disk.Remove(st.Abs(p));
    if removed.Some? {
      PruneKeepsFiles(removed.value, Front(st.Abs(p)), f.prunable);
    }
  }

  lemma ServeInodes(hash: Hasher, st: Local, r: Request, f: Faults)
    requires st.disk.InodesOk() && HandleOk(st) && r.path != []
    ensures var s := Serve(hash, st, r, f);
      s.Next? ==> s.st.disk.InodesOk() && HandleOk(s.st) && s.st.home == st.home
  {
    hide Disk.InodesOk, WriteChunk, Settle, Replace, EraseFile, Disk.MakeDirs;
    var path := st.Abs(r.path);
    match r
    case Create(p, digest, content, last) =>
      var st0 := st.(disk := st.disk.MakeDirs(Front(path), f.mkdir).0);
      MakeDirsInodes(st.disk, Front(path), f.mkdir);
      WriteInodes(st0, path, content, f.open);
      var st1 := WriteChunk(st0, path, content, f.open).st;
      var st2 := st1.(index := st1.index[p := Resource(true, digest)], handle := Absent);
      SettleInodes(hash, st2, p, digest, f, ERR_CREATE_NO_MATCH, ERR_CREATE_FAILED);
    case Update(p, digest, content, last) =>
      WriteInodes(st, st.Abs(TempOf(p)), content, f.open);
      var st1 := WriteChunk(st, st.Abs(TempOf(p)), content, f.open).st;
      var st2 := st1.(index := st1.index[p := Resource(true, digest)], handle := Absent);
      ReplaceInodes(st2, p, f);
      if Replace(st2, p, f).Some? {
        SettleInodes(hash, Replace(st2, p, f).value, p, digest, f, ERR_UPDATE_NO_MATCH, ERR_UPDATE_FAILED);
      }
    case Erase(p, digest) =>
      EraseInodes(st, p, digest, f);
  }
}

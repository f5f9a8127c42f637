/** The index agrees with the disk after any run of chunks, in any interleaving. */
module Soundness {
  import opened Bytes
  import opened Paths
  import opened Disks
  import opened Transfer
  import opened StreamDiscipline

  /** The index tells the truth about the disk: every entry has a file, an entry whose digest is
      not TEMP has the digest of that file, and a synced entry is one of those. The rest is what
      keeps it so: no stream writes to the file of such an entry. */
  ghost predicate Sound(hash: Hasher, st: Local) {
    && st.disk.InodesOk()
    && HandleOk(st)
    && (forall p <- st.index :: p != [] && st.EntryOk(hash, p))
  }

  ghost predicate HandleOk(st: Local) {
    st.handle.Opened? ==> st.handle.inode in st.disk.data && st.handle.inode.home == st.home
  }

  lemma OpenKeepsInodes(disk: Disk, p: Path, allowed: bool)
    requires disk.InodesOk() && p != []
    ensures var (disk', i) := disk.OpenAppend(p, allowed);
      && disk'.InodesOk()
      && (i.Some? ==> i.value in disk'.data && i.value.home == p[0] && p in disk'.files && disk'.files[p] == i.value)
      && (forall q <- disk.files :: q in disk'.files && disk'.files[q] == disk.files[q])
      && (forall q <- disk'.files :: q in disk.files || q == p)
      && (forall j <- disk.data :: j in disk'.data && disk'.data[j] == disk.data[j])
  {
  }

  lemma AppendKeepsInodes(disk: Disk, i: Inode, content: bytes)
    requires disk.InodesOk() && i in disk.data
    ensures disk.Append(i, content).InodesOk()
  {
  }

  lemma RemoveKeepsInodes(disk: Disk, p: Path)
    requires disk.InodesOk()
    ensures disk.RemoveFile(p).InodesOk()
    ensures disk.RemoveDir(p).InodesOk()
  {
  }

  lemma RenameKeepsInodes(disk: Disk, from: Path, to: Path)
    requires disk.InodesOk() && from in disk.files && to != [] && from[0] == to[0]
    ensures disk.Rename(from, to).InodesOk()
  {
  }

  lemma {:induction false} PruneKeepsFiles(disk: Disk, q: Path, prunable: nat)
    ensures Prune(disk, q, prunable) == disk.(dirs := Prune(disk, q, prunable).dirs)
    decreases prunable
  {
    if !(prunable == 0 || |q| <= 1 || q !in disk.dirs || !disk.IsEmptyDir(q)) {
      PruneKeepsFiles(disk.RemoveDir(q), Front(q), prunable - 1);
    }
  }

  /** The index tells the truth, except perhaps about `p`. */
  ghost predicate SoundBut(hash: Hasher, st: Local, p: Path) {
    && st.disk.InodesOk()
    && HandleOk(st)
    && (forall q <- st.index :: q != [] && (q != p ==> st.EntryOk(hash, q)))
  }

  lemma OpenKeepsSound(hash: Hasher, st: Local, path: Path, allowed: bool)
    requires Sound(hash, st) && path != []
    ensures Sound(hash, st.(disk := st.disk.OpenAppend(path, allowed).0))
  {
    OpenKeepsInodes(st.disk, path, allowed);
    var st' := st.(disk := st.disk.OpenAppend(path, allowed).0);
    forall q | q in st.index ensures st'.EntryOk(hash, q) {
      assert st.EntryOk(hash, q);
    }
  }

  /** Appending reaches only the stream's own file, which no trusted entry names. */
  lemma AppendKeepsSound(hash: Hasher, st: Local, p: Path, content: bytes)
    requires SoundBut(hash, st, p) && st.handle.Opened?
    ensures SoundBut(hash, st.(disk := st.disk.Append(st.handle.inode, content)), p)
    ensures Sound(hash, st) ==> Sound(hash, st.(disk := st.disk.Append(st.handle.inode, content)))
  {
    AppendKeepsInodes(st.disk, st.handle.inode, content);
    var st' := st.(disk := st.disk.Append(st.handle.inode, content));
    forall q | q in st.index && st.EntryOk(hash, q) ensures st'.EntryOk(hash, q) {
    }
  }

  /** What a write leaves true: everything when it goes to a stream that was open already or to a
      name outside the index, and otherwise everything but the entry of that name. */
  lemma WriteKeepsOthers(hash: Hasher, st: Local, path: Path, p: Path, content: bytes, open: OpenOutcome)
    requires Sound(hash, st) && path != [] && path[0] == st.home
    requires forall q <- st.index :: q != p ==> st.Abs(q) != path
    ensures var w := WriteChunk(st, path, content, open);
      && w.st.home == st.home && w.st.index == st.index
      && SoundBut(hash, w.st, p)
      && (p in st.index ==> w.st.Abs(p) in w.st.disk.files)
      && ((w.NotWritten? || !w.first || st.Abs(p) != path) ==> Sound(hash, w.st))
      && (w.Written? ==> w.st.handle.Opened?)
      && (w.Written? && w.first ==> path in w.st.disk.files)
  {
    if !open.Throws? {
      OpenKeepsInodes(st.disk, path, open.Allowed?);
      OpenKeepsSound(hash, st, path, open.Allowed?);
      var ready := st.(disk := st.disk.OpenAppend(path, open.Allowed?).0);
      assert p in st.index ==> ready.EntryOk(hash, p);
      HandOver(hash, ready, path, p, WriteChunk(st, path, content, open).st.handle);
      var st2 := ready.(handle := WriteChunk(st, path, content, open).st.handle);
      if st2.handle.Opened? {
        AppendKeepsSound(hash, st2, p, content);
      }
    }
  }

  /** Giving the user a stream on `path` harms no entry of another name. */
  lemma HandOver(hash: Hasher, st: Local, path: Path, p: Path, handle: Handle)
    requires Sound(hash, st)
    requires forall q <- st.index :: q != p ==> st.Abs(q) != path
    requires handle == st.handle || handle == Bad
          || (path in st.disk.files && handle == Opened(st.disk.files[path]) && path[0] == st.home)
    ensures SoundBut(hash, st.(handle := handle), p)
    ensures handle == st.handle || handle == Bad || st.Abs(p) != path ==> Sound(hash, st.(handle := handle))
  {
    var st' := st.(handle := handle);
    forall q | q in st.index && (q != p || st.Abs(p) != path || handle == st.handle || handle == Bad)
      ensures st'.EntryOk(hash, q)
    {
      assert st.EntryOk(hash, q);
    }
  }

  /** The last chunk: whatever the index was told about `p`, what remains is the truth. */
  lemma SettleKeepsSound(hash: Hasher, st: Local, p: Path, digest: bytes, f: Faults, noMatch: nat, failed: nat)
    requires SoundBut(hash, st, p) && st.handle.Absent?
    requires p != [] && p in st.index && st.index[p] == Resource(true, digest)
    ensures var r := Settle(hash, st, p, digest, f, noMatch, failed);
      r.Next? ==> Sound(hash, r.st) && r.st.home == st.home
  {
    RemoveKeepsInodes(st.disk, st.Abs(p));
    var r := Settle(hash, st, p, digest, f, noMatch, failed);
    if r.Next? {
      forall q | q in r.st.index ensures r.st.EntryOk(hash, q) {
        if q != p {
          assert st.EntryOk(hash, q);
          assert st.Abs(q)[1..] == q && st.Abs(p)[1..] == p;
        }
      }
    }
  }

  lemma DirsKeepSound(hash: Hasher, st: Local, dirs: set<Path>)
    requires Sound(hash, st)
    ensures Sound(hash, st.(disk := st.disk.(dirs := dirs)))
  {
    var st' := st.(disk := st.disk.(dirs := dirs));
    forall q | q in st.index ensures st'.EntryOk(hash, q) {
      assert st.EntryOk(hash, q);
    }
  }

  lemma CreateKeepsSound(
    hash: Hasher, st: Local, p: Path, digest: bytes, content: bytes, last: bool, f: Faults)
    requires Sound(hash, st) && p != []
    ensures var r := CreateChunk(hash, st, p, digest, content, last, f);
      r.Next? ==> Sound(hash, r.st) && r.st.home == st.home
  {
    if p in st.index && st.index[p].synced { return; }
    var (disk, made) := st.disk.MakeDirs(Front(st.Abs(p)), f.mkdir);
    DirsKeepSound(hash, st, disk.dirs);
    var st0 := st.(disk := disk);
    if !made { return; }
    AbsInjective(st);
    WriteKeepsOthers(hash, st0, st.Abs(p), p, content, f.open);
    match WriteChunk(st0, st.Abs(p), content, f.open)
    case NotWritten(_) =>
    case Written(st1, first) =>
      if last {
        var st2 := st1.(index := st1.index[p := Resource(true, digest)], handle := Absent);
        IndexEdit(hash, st1, p, Resource(true, digest), Absent);
        SettleKeepsSound(hash, st2, p, digest, f, ERR_CREATE_NO_MATCH, ERR_CREATE_FAILED);
      } else if first {
        IndexEdit(hash, st1, p, Resource(false, TEMP), st1.handle);
      }
  }

  lemma AbsInjective(st: Local)
    ensures forall p, q :: st.Abs(p) == st.Abs(q) ==> p == q
  {
    forall p, q | st.Abs(p) == st.Abs(q) ensures p == q {
      assert st.Abs(p)[1..] == p && st.Abs(q)[1..] == q;
    }
  }

  /** Writing an entry disturbs no other. */
  lemma IndexEdit(hash: Hasher, st: Local, p: Path, r: Resource, handle: Handle)
    requires SoundBut(hash, st, p) && p != []
    requires handle == st.handle || handle == Absent
    ensures var st' := st.(index := st.index[p := r], handle := handle);
      SoundBut(hash, st', p) && (st'.EntryOk(hash, p) ==> Sound(hash, st'))
  {
    var st' := st.(index := st.index[p := r], handle := handle);
    forall q | q in st'.index && q != p ensures st'.EntryOk(hash, q) {
      assert st.EntryOk(hash, q);
    }
  }

  /** Dropping one name and giving another to its file leaves every other entry as it was. */
  lemma SwapKeepsOthers(hash: Hasher, st: Local, p: Path, temp: Path, removed: Disk)
    requires SoundBut(hash, st, p) && st.handle.Absent? && p != []
    requires removed == st.disk.RemoveFile(st.Abs(p)) || removed == st.disk.RemoveDir(st.Abs(p)) || removed == st.disk
    requires temp in removed.files && temp[0] == st.home && forall q <- st.index :: q != p ==> st.Abs(q) != temp
    ensures SoundBut(hash, st.(disk := removed.Rename(temp, st.Abs(p))), p)
  {
    AbsInjective(st);
    var path := st.Abs(p);
    RemoveKeepsInodes(st.disk, path);
    assert removed.InodesOk();
    RenameKeepsInodes(removed, temp, path);
    hide Disk.InodesOk;
    var st' := st.(disk := removed.Rename(temp, path));
    forall q | q in st.index && q != p ensures st'.EntryOk(hash, q) {
      assert st.EntryOk(hash, q);
      assert st.Abs(q) != path && st.Abs(q) != temp;
      assert st'.disk.files[st.Abs(q)] == st.disk.files[st.Abs(q)];
    }
  }

  lemma ReplaceKeepsSound(hash: Hasher, st: Local, p: Path, f: Faults)
    requires SoundBut(hash, st, p) && st.handle.Absent? && p != [] && TempOf(p) !in st.index
    ensures var r := Replace(st, p, f);
      r.Some? ==> SoundBut(hash, r.value, p) && r.value == st.(disk := r.value.disk)
  {
    TempIsTemp(p);
    AbsInjective(st);
    var r := Replace(st, p, f);
    if r.Some? {
      SwapKeepsOthers(hash, st, p, st.Abs(TempOf(p)), st.disk.Remove(st.Abs(p)).value);
    }
  }

  lemma UpdateKeepsSound(
    hash: Hasher, st: Local, p: Path, digest: bytes, content: bytes, last: bool, f: Faults)
    requires Sound(hash, st) && p != [] && TempOf(p) !in st.index
    ensures var r := UpdateChunk(hash, st, p, digest, content, last, f);
      r.Next? ==> Sound(hash, r.st) && r.st.home == st.home
  {
    if p !in st.index || st.index[p].digest == digest { return; }
    AbsInjective(st);
    TempIsTemp(p);
    WriteKeepsOthers(hash, st, st.Abs(TempOf(p)), p, content, f.open);
    match WriteChunk(st, st.Abs(TempOf(p)), content, f.open)
    case NotWritten(_) =>
    case Written(st1, first) =>
      if last {
        var st2 := st1.(index := st1.index[p := Resource(true, digest)], handle := Absent);
        IndexEdit(hash, st1, p, Resource(true, digest), Absent);
        ReplaceKeepsSound(hash, st2, p, f);
        var r := Replace(st2, p, f);
        if r.Some? {
          SettleKeepsSound(hash, r.value, p, digest, f, ERR_UPDATE_NO_MATCH, ERR_UPDATE_FAILED);
        }
      } else if first {
        assert st1.EntryOk(hash, p);
        IndexEdit(hash, st1, p, Resource(false, st.index[p].digest), st1.handle);
      }
  }

  lemma EraseKeepsSound(hash: Hasher, st: Local, p: Path, digest: bytes, f: Faults)
    requires Sound(hash, st) && p != []
    ensures var r := EraseFile(st, p, digest, f);
      r.Next? ==> Sound(hash, r.st) && r.st.home == st.home
  {
    hide Disk.InodesOk, Disk.IsEmptyDir, Prune;
    if p !in st.index || st.index[p].digest != digest || f.removeFails { return; }
    match st.disk.Remove(st.Abs(p))
    case None =>
    case Some(disk) =>
      RemoveKeepsInodes(st.disk, st.Abs(p));
      AbsInjective(st);
      var st1 := st.(disk := disk, index := st.index - {p});
      forall q | q in st1.index ensures st1.EntryOk(hash, q) {
        assert st.EntryOk(hash, q);
      }
      PruneKeepsFiles(disk, Front(st.Abs(p)), f.prunable);
      DirsKeepSound(hash, st1, Prune(disk, Front(st.Abs(p)), f.prunable).dirs);
  }

  lemma ServeKeepsSound(hash: Hasher, st: Local, r: Request, f: Faults)
    requires Sound(hash, st) && r.path != []
    requires r.Update? ==> TempOf(r.path) !in st.index
    ensures var s := Serve(hash, st, r, f);
      s.Next? ==> Sound(hash, s.st) && s.st.home == st.home
  {
    match r
    case Create(p, digest, content, last) => CreateKeepsSound(hash, st, p, digest, content, last, f);
    case Update(p, digest, content, last) => UpdateKeepsSound(hash, st, p, digest, content, last, f);
    case Erase(p, digest) => EraseKeepsSound(hash, st, p, digest, f);
  }

  // Exactly which updates leave the index true.

  /** The last chunk takes the file away from an entry under the temporary name; the first one
      starts to write to it, which harms an entry that promises a digest. */
  predicate UpdateSafe(st: Local, p: Path, last: bool)
    requires p != []
  {
    var temp := TempOf(p);
    if last then temp !in st.index
    else st.handle.Absent? && temp in st.index ==> st.index[temp].digest == TEMP
  }

  /** A request that is no update, is turned down, or is safe. */
  predicate Safe(st: Local, r: Request, f: Faults)
    requires r.path != []
  {
    r.Update? && Writes(st, r, f) ==> UpdateSafe(st, r.path, r.last)
  }

  /** A chunk of an update, whichever it is, leaves a true index exactly when it is not written or
      breaks no promise about the temporary file. */
  lemma UpdateSoundExactly(
    hash: Hasher, st: Local, p: Path, digest: bytes, content: bytes, last: bool, f: Faults)
    requires Sound(hash, st) && p != []
    ensures var r := UpdateChunk(hash, st, p, digest, content, last, f);
      r.Next? ==> (Sound(hash, r.st) <==> Safe(st, Update(p, digest, content, last), f))
  {
    TempIsTemp(p);
    if TempOf(p) !in st.index {
      UpdateKeepsSound(hash, st, p, digest, content, last, f);
    } else if !Writes(st, Update(p, digest, content, last), f) {
      RefusedKeepsSound(hash, st, p, digest, content, last, f);
    } else if last {
      TempLost(hash, st, p, digest, content, f);
    } else {
      EarlierChunk(hash, st, p, digest, content, f);
    }
  }

  lemma RefusedKeepsSound(
    hash: Hasher, st: Local, p: Path, digest: bytes, content: bytes, last: bool, f: Faults)
    requires Sound(hash, st) && p != [] && !Writes(st, Update(p, digest, content, last), f)
    ensures var r := UpdateChunk(hash, st, p, digest, content, last, f);
      r.Next? && Sound(hash, r.st)
  {
    AbsInjective(st);
    WriteKeepsOthers(hash, st, st.Abs(TempOf(p)), TempOf(p), content, f.open);
    hide WriteChunk, Sound;
  }

  lemma EarlierChunk(hash: Hasher, st: Local, p: Path, digest: bytes, content: bytes, f: Faults)
    requires Sound(hash, st) && p != [] && Writes(st, Update(p, digest, content, false), f) && TempOf(p) in st.index
    ensures var r := UpdateChunk(hash, st, p, digest, content, false, f);
      r.Next? && (Sound(hash, r.st) <==> UpdateSafe(st, p, false))
  {
    hide WriteChunk, Disk.InodesOk, Disk.Read;
    TempIsTemp(p);
    AbsInjective(st);
    var temp := TempOf(p);
    WriteKeepsOthers(hash, st, st.Abs(temp), temp, content, f.open);
    var w := WriteChunk(st, st.Abs(temp), content, f.open);
    var r := UpdateChunk(hash, st, p, digest, content, false, f);
    if w.first {
      StartsOnItsOwnFile(st, st.Abs(temp), content, f.open);
      assert w.st.EntryOk(hash, p);
      assert r.st.EntryOk(hash, p);
      assert r.st.EntryOk(hash, temp) <==> UpdateSafe(st, p, false);
      forall q | q in r.st.index && q != temp && q != p ensures r.st.EntryOk(hash, q) {
        assert w.st.EntryOk(hash, q);
      }
    }
  }

  lemma TempLost(hash: Hasher, st: Local, p: Path, digest: bytes, content: bytes, f: Faults)
    requires p != [] && p in st.index && st.index[p].digest != digest && TempOf(p) in st.index
    ensures var r := UpdateChunk(hash, st, p, digest, content, true, f);
      r.Next? && WriteChunk(st, st.Abs(TempOf(p)), content, f.open).Written? ==> !Sound(hash, r.st)
  {
    hide WriteChunk, Disk.Remove, Disk.InodesOk;
    TempIsTemp(p);
    AbsInjective(st);
    var r := UpdateChunk(hash, st, p, digest, content, true, f);
    var w := WriteChunk(st, st.Abs(TempOf(p)), content, f.open);
    if r.Next? && w.Written? {
      var st2 := w.st.(index := st.index[p := Resource(true, digest)], handle := Absent);
      var st3 := Replace(st2, p, f).value;
      assert st.Abs(TempOf(p)) != st.Abs(p);
      assert st3.home == st.home && st.Abs(TempOf(p)) !in st3.disk.files;
      assert TempOf(p) in r.st.index && r.st.Abs(TempOf(p)) !in r.st.disk.files;
      assert !r.st.EntryOk(hash, TempOf(p));
    }
  }

  /** Of all requests, whatever the operating system does, exactly the unsafe updates leave an
      index that is not true. */
  lemma ServeSoundExactly(hash: Hasher, st: Local, r: Request, f: Faults)
    requires Sound(hash, st) && r.path != []
    ensures var s := Serve(hash, st, r, f);
      s.Next? ==> (Sound(hash, s.st) <==> Safe(st, r, f))
  {
    hide Sound, CreateChunk, UpdateChunk, EraseFile, Writes;
    if r.Update? {
      UpdateSoundExactly(hash, st, r.path, r.digest, r.content, r.last, f);
    } else {
      ServeKeepsSound(hash, st, r, f);
    }
  }
}

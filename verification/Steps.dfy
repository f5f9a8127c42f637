/** The handlers operation by operation: what a thread does between two points at which the threads
    of other users may run. An operation is one call to the file system, or one to the stream map
    while its mutex is held (core/request_handler.cpp:136-382, core/open_streams.cpp:16-38). */
module Steps {
  import opened Bytes
  import opened Paths
  import opened Disks
  import opened Transfer
  import opened Soundness
  import opened Isolation

  /** The operation a thread that serves a request is about to perform. `Looking` and `Unmaking` are the
      two halves of the loop that removes empty directories. */
  datatype Pc =
    | Checking
    | MakingDirs
    | Opening
    | Writing(inode: Inode, first: bool)
    | Closing
    | Removing
    | Renaming
    | Reading
    | Discarding(code: nat)
    | Looking(dir: Path, left: nat)
    | Unmaking(dir: Path, left: nat)

  /** The process ends, the request is answered, or the thread goes on. */
  datatype Tick = Ended | Answered(st: Local, status: Status) | More(st: Local, pc: Pc)

  /** The operation is one of those that serve such a request. */
  predicate Fits(r: Request, pc: Pc) {
    if r.Erase? then pc.Checking? || pc.Removing? || pc.Looking? || pc.Unmaking?
    else !pc.Looking? && !pc.Unmaking?
  }

  function FailedOf(r: Request): nat { if r.Update? then ERR_UPDATE_FAILED else ERR_CREATE_FAILED }

  function NoMatchOf(r: Request): nat { if r.Update? then ERR_UPDATE_NO_MATCH else ERR_CREATE_NO_MATCH }

  /** The name a chunk is written under. */
  function TargetOf(st: Local, r: Request): Path
    requires r.path != []
  {
    if r.Update? then st.Abs(TempOf(r.path)) else st.Abs(r.path)
  }

  /** The look at the thread's own index, before anything shared is touched. */
  function Check(st: Local, r: Request): (t: Tick)
    ensures !t.Ended? && t.st == st
    ensures t.More? ==> t.pc.MakingDirs? || t.pc.Opening? || t.pc.Removing?
    ensures t.More? && r.Erase? ==> t.pc.Removing?
  {
    var p := r.path;
    match r
    case Create(_, _, _, _) =>
      if p in st.index && st.index[p].synced then Answered(st, Err(ERR_CREATE_ALREADY_EXIST))
      else More(st, MakingDirs)
    case Update(_, digest, _, _) =>
      if p !in st.index then Answered(st, Err(ERR_UPDATE_NOT_EXIST))
      else if st.index[p].digest == digest then Answered(st, Err(ERR_UPDATE_ALREADY_UPDATED))
      else More(st, Opening)
    case Erase(_, digest) =>
      if p !in st.index || st.index[p].digest != digest then Answered(st, Err(ERR_ERASE_NO_MATCH))
      else More(st, Removing)
  }

  /** get_stream, under the mutex: the file is opened, and the map keeps an older stream. */
  function GetStream(st: Local, r: Request, open: OpenOutcome): (t: Tick)
    requires r.path != []
    ensures !t.Ended? && t.st.home == st.home && (t.More? ==> t.pc.Writing?)
  {
    if open.Throws? then Answered(st, Err(FailedOf(r)))
    else
      var (disk, inode) := st.disk.OpenAppend(TargetOf(st, r), open.Allowed?);
      var handle :=
        if !st.handle.Absent? then st.handle
        else match inode case Some(i) => Opened(i) case None => Bad;
      var st1 := st.(disk := disk, handle := handle);
      if handle.Bad? then Answered(st1, Err(FailedOf(r))) else More(st1, Writing(handle.inode, st.handle.Absent?))
  }

  /** The write, and the entry of the thread's own index. */
  function WriteContent(st: Local, r: Request, inode: Inode, first: bool): (t: Tick)
    requires !r.Erase?
    ensures !t.Ended? && t.st.home == st.home && (t.More? ==> t.pc.Closing?)
  {
    var p, st1 := r.path, st.(disk := st.disk.Append(inode, r.content));
    if r.last then More(st1.(index := st.index[p := Resource(true, r.digest)]), Closing)
    else if !first then Answered(st1, Ok)
    else
      var digest := if r.Update? && p in st.index then st.index[p].digest else TEMP;
      Answered(st1.(index := st.index[p := Resource(false, digest)]), Ok)
  }

  function RemoveOld(st: Local, r: Request, f: Faults): (t: Tick)
    requires r.path != []
    ensures !t.Ended? ==> t.st.home == st.home
    ensures t.More? ==> t.pc == if r.Erase? then Looking(Front(st.Abs(r.path)), f.prunable) else Renaming
  {
    var removed := if f.removeFails then None else st.disk.Remove(st.Abs(r.path));
    match removed
    case None => if r.Erase? then Answered(st, Err(ERR_NONE)) else Ended
    case Some(disk) =>
      if r.Erase? then
        More(st.(disk := disk, index := st.index - {r.path}), Looking(Front(st.Abs(r.path)), f.prunable))
      else More(st.(disk := disk), Renaming)
  }

  function ReadDigest(hash: Hasher, st: Local, r: Request, f: Faults): (t: Tick)
    ensures !t.Ended? ==> t.st == st
    ensures t.More? ==> t.pc.Discarding?
  {
    var p, path := r.path, st.Abs(r.path);
    if path !in st.disk.files || p in f.unreadable then Ended
    else if f.hashThrows || hash(p, st.disk.Read(path)) != r.digest then
      More(st, Discarding(if f.hashThrows then FailedOf(r) else NoMatchOf(r)))
    else Answered(st, Ok)
  }

  function MakeParents(st: Local, r: Request, f: Faults): (t: Tick)
    ensures !t.Ended? && t.st.home == st.home && (t.More? ==> t.pc.Opening?)
  {
    var (disk, made) := st.disk.MakeDirs(Front(st.Abs(r.path)), f.mkdir);
    if made then More(st.(disk := disk), Opening) else Answered(st.(disk := disk), Err(ERR_CREATE_FAILED))
  }

  function RenameTemp(st: Local, r: Request, f: Faults): (t: Tick)
    requires r.path != []
    ensures !t.Ended? ==> t.More? && t.st.home == st.home && t.pc.Reading?
  {
    var temp, path := TargetOf(st, r), st.Abs(r.path);
    if !st.disk.CanRename(temp, path) || f.renameFails then Ended
    else More(st.(disk := st.disk.Rename(temp, path)), Reading)
  }

  function Discard(st: Local, r: Request, f: Faults, code: nat): (t: Tick)
    ensures !t.Ended? ==> t.Answered? && t.st.home == st.home
  {
    if f.discardFails then Ended
    else Answered(st.(disk := st.disk.RemoveFile(st.Abs(r.path)), index := st.index - {r.path}), Err(code))
  }

  /** A directory below the user's own in which nothing is left. */
  predicate Vacant(st: Local, dir: Path) {
    |dir| > 1 && dir in st.disk.dirs && st.disk.IsEmptyDir(dir)
  }

  /** One operation of a thread. */
  function TickOnce(hash: Hasher, st: Local, r: Request, f: Faults, pc: Pc): (t: Tick)
    requires r.path != [] && Fits(r, pc)
    ensures !t.Ended? ==> t.st.home == st.home
    ensures t.More? ==> Fits(r, t.pc)
  {
    match pc
    case Checking => Check(st, r)
    case MakingDirs => MakeParents(st, r, f)
    case Opening => GetStream(st, r, f.open)
    case Writing(inode, first) => WriteContent(st, r, inode, first)
    case Closing => More(st.(handle := Absent), if r.Update? then Removing else Reading)
    case Removing => RemoveOld(st, r, f)
    case Renaming => RenameTemp(st, r, f)
    case Reading => ReadDigest(hash, st, r, f)
    case Discarding(code) => Discard(st, r, f, code)
    case Looking(dir, left) => if Vacant(st, dir) then More(st, Unmaking(dir, left)) else Answered(st, Ok)
    case Unmaking(dir, left) =>
      if left == 0 || !Vacant(st, dir) then Answered(st, Ok)
      else More(st.(disk := st.disk.RemoveDir(dir)), Looking(Front(dir), left - 1))
  }

  /** How much a thread has still to do at most. */
  function Weight(pc: Pc, f: Faults): nat {
    var n := 2 * f.prunable;
    match pc
    case Checking => n + 12
    case MakingDirs => n + 11
    case Opening => n + 10
    case Writing(_, _) => n + 9
    case Closing => n + 8
    case Removing => n + 7
    case Renaming => n + 6
    case Reading => n + 5
    case Discarding(_) => n + 4
    case Looking(_, left) => 2 * left + 1
    case Unmaking(_, left) => 2 * left
  }

  lemma TickLess(hash: Hasher, st: Local, r: Request, f: Faults, pc: Pc)
    requires r.path != [] && Fits(r, pc)
    ensures var t := TickOnce(hash, st, r, f, pc);
      t.More? ==> Weight(t.pc, f) < Weight(pc, f)
  {
    hide Check, MakeParents, GetStream, WriteContent, RemoveOld, RenameTemp, ReadDigest, Discard, Vacant;
  }

  /** The thread left alone until the request is answered or the process ends. */
  function Rest(hash: Hasher, st: Local, r: Request, f: Faults, pc: Pc): (s: Step)
    requires r.path != [] && Fits(r, pc)
    ensures s.Next? ==> s.st.home == st.home
    decreases Weight(pc, f)
  {
    TickLess(hash, st, r, f, pc);
    match TickOnce(hash, st, r, f, pc)
    case Ended => Halt
    case Answered(st', status) => Next(st', status)
    case More(st', pc') => Rest(hash, st', r, f, pc')
  }

  // Alone, a thread does what the request is specified to do.

  lemma RestDiscards(hash: Hasher, st: Local, r: Request, f: Faults, noMatch: nat, failed: nat)
    requires r.path != [] && !r.Erase? && noMatch == NoMatchOf(r) && failed == FailedOf(r)
    ensures Rest(hash, st, r, f, Reading) == Settle(hash, st, r.path, r.digest, f, noMatch, failed)
  {
  }

  lemma RestReplaces(hash: Hasher, st: Local, r: Request, f: Faults)
    requires r.path != [] && r.Update?
    ensures Rest(hash, st, r, f, Removing)
         == match Replace(st, r.path, f)
            case None => Halt
            case Some(st1) => Settle(hash, st1, r.path, r.digest, f, ERR_UPDATE_NO_MATCH, ERR_UPDATE_FAILED)
  {
    hide Settle, Disk.IsEmptyDir;
    var removed := st.disk.Remove(st.Abs(r.path));
    if removed.Some? && !f.removeFails {
      var st1 := st.(disk := removed.value);
      var temp := TargetOf(st, r);
      if temp in st1.disk.files {
        RestDiscards(
          hash, st1.(disk := st1.disk.Rename(temp, st.Abs(r.path))), r, f, ERR_UPDATE_NO_MATCH, ERR_UPDATE_FAILED);
      }
    }
  }

  /** From the write on. */
  lemma RestWrites(hash: Hasher, st: Local, r: Request, f: Faults)
    requires r.path != [] && !r.Erase? && (r.Update? ==> r.path in st.index)
    ensures Rest(hash, st, r, f, Opening)
         == match WriteChunk(st, TargetOf(st, r), r.content, f.open)
            case NotWritten(st1) => Next(st1, Err(FailedOf(r)))
            case Written(st1, first) =>
              if !r.last then
                var digest := if r.Update? then st.index[r.path].digest else TEMP;
                Next(if first then st1.(index := st1.index[r.path := Resource(false, digest)]) else st1, Ok)
              else
                var st2 := st1.(index := st1.index[r.path := Resource(true, r.digest)], handle := Absent);
                Rest(hash, st2, r, f, if r.Update? then Removing else Reading)
  {
    hide Disk.OpenAppend, Disk.Append;
    var t := GetStream(st, r, f.open);
    assert TickOnce(hash, st, r, f, Opening) == t;
    if t.More? {
      assert Rest(hash, st, r, f, Opening) == Rest(hash, t.st, r, f, t.pc);
      var u := WriteContent(t.st, r, t.pc.inode, t.pc.first);
      assert TickOnce(hash, t.st, r, f, t.pc) == u;
      if r.last {
        assert Rest(hash, t.st, r, f, t.pc) == Rest(hash, u.st, r, f, Closing);
      }
    }
  }

  lemma {:induction false} RestPrunes(hash: Hasher, st: Local, r: Request, f: Faults, dir: Path, left: nat)
    requires r.path != [] && r.Erase?
    ensures Rest(hash, st, r, f, Looking(dir, left)) == Next(st.(disk := Prune(st.disk, dir, left)), Ok)
    decreases left
  {
    hide Disk.IsEmptyDir;
    if left > 0 && |dir| > 1 && dir in st.disk.dirs && st.disk.IsEmptyDir(dir) {
      var st1 := st.(disk := st.disk.RemoveDir(dir));
      RestPrunes(hash, st1, r, f, Front(dir), left - 1);
      assert Rest(hash, st, r, f, Unmaking(dir, left)) == Rest(hash, st1, r, f, Looking(Front(dir), left - 1));
    }
  }

  lemma AloneIsServe(hash: Hasher, st: Local, r: Request, f: Faults)
    requires r.path != []
    ensures Rest(hash, st, r, f, Checking) == Serve(hash, st, r, f)
  {
    hide WriteChunk, Settle, Replace, Disk.MakeDirs, Prune, Disk.Remove;
    match r
    case Create(p, digest, content, last) => CreateAlone(hash, st, p, digest, content, last, f);
    case Update(p, digest, content, last) => UpdateAlone(hash, st, p, digest, content, last, f);
    case Erase(p, digest) => EraseAlone(hash, st, p, digest, f);
  }

  lemma CreateAlone(hash: Hasher, st: Local, p: Path, digest: bytes, content: bytes, last: bool, f: Faults)
    requires p != []
    ensures Rest(hash, st, Create(p, digest, content, last), f, Checking)
         == CreateChunk(hash, st, p, digest, content, last, f)
  {
    hide WriteChunk, Settle, Disk.MakeDirs;
    var r, path := Create(p, digest, content, last), st.Abs(p);
    var (disk, made) := st.disk.MakeDirs(Front(path), f.mkdir);
    if !(p in st.index && st.index[p].synced) && made {
      var st0 := st.(disk := disk);
      RestWrites(hash, st0, r, f);
      var st1 := WriteChunk(st0, path, content, f.open).st;
      RestDiscards(hash, st1.(index := st1.index[p := Resource(true, digest)], handle := Absent), r, f,
        ERR_CREATE_NO_MATCH, ERR_CREATE_FAILED);
      assert Rest(hash, st, r, f, MakingDirs) == Rest(hash, st0, r, f, Opening);
    }
  }

  lemma UpdateAlone(hash: Hasher, st: Local, p: Path, digest: bytes, content: bytes, last: bool, f: Faults)
    requires p != []
    ensures Rest(hash, st, Update(p, digest, content, last), f, Checking)
         == UpdateChunk(hash, st, p, digest, content, last, f)
  {
    hide WriteChunk, Settle, Replace;
    var r := Update(p, digest, content, last);
    if p in st.index && st.index[p].digest != digest {
      RestWrites(hash, st, r, f);
      var st1 := WriteChunk(st, st.Abs(TempOf(p)), content, f.open).st;
      RestReplaces(hash, st1.(index := st1.index[p := Resource(true, digest)], handle := Absent), r, f);
    }
  }

  lemma EraseAlone(hash: Hasher, st: Local, p: Path, digest: bytes, f: Faults)
    requires p != []
    ensures Rest(hash, st, Erase(p, digest), f, Checking) == EraseFile(st, p, digest, f)
  {
    hide Disk.Remove, Prune;
    var r, removed := Erase(p, digest), st.disk.Remove(st.Abs(p));
    if p in st.index && st.index[p].digest == digest && !f.removeFails && removed.Some? {
      var st1 := st.(disk := removed.value, index := st.index - {p});
      RestPrunes(hash, st1, r, f, Front(st.Abs(p)), f.prunable);
    }
  }

  // One operation neither touches nor depends on what lies below another user's directory.

  /** What the operation still ahead refers to is the user's own. */
  ghost predicate PcOk(st: Local, pc: Pc) {
    && (pc.Writing? ==> pc.inode in st.disk.data && pc.inode.home == st.home)
    && (pc.Looking? || pc.Unmaking? ==> pc.dir != [] && pc.dir[0] == st.home)
  }

  ghost predicate TicksAlike(x: Tick, y: Tick) {
    match (x, y)
    case (Ended, Ended) => true
    case (Answered(s, a), Answered(t, b)) => a == b && Alike(s, t)
    case (More(s, pc), More(t, qc)) => pc == qc && Alike(s, t)
    case _ => false
  }

  lemma ReadAlike(a: Local, b: Local, path: Path)
    requires Alike(a, b) && a.disk.InodesOk() && path != [] && path[0] == a.home
    ensures path in a.disk.files <==> path in b.disk.files
    ensures a.disk.Read(path) == b.disk.Read(path)
  {
    assert path in a.disk.files ==> a.disk.files[path].home == a.home;
  }

  lemma TickAlike(hash: Hasher, a: Local, b: Local, r: Request, f: Faults, pc: Pc)
    requires Alike(a, b) && a.disk.InodesOk() && PcOk(a, pc) && r.path != [] && Fits(r, pc)
    ensures TicksAlike(TickOnce(hash, a, r, f, pc), TickOnce(hash, b, r, f, pc))
  {
    hide Disk.Agrees, Disk.InodesOk, Disk.OpenAppend, Disk.Append, Disk.Remove, Disk.Rename, Disk.MakeDirs,
         Disk.IsEmptyDir, Disk.Read;
    var path := a.Abs(r.path);
    match pc
    case Checking =>
    case MakingDirs => MakeDirsAlike(a.disk, b.disk, Front(path), f.mkdir);
    case Opening => OpeningAlike(hash, a, b, r, f);
    case Writing(inode, _) => AppendAlike(a.disk, b.disk, inode, r.content);
    case Closing =>
    case Removing => RemovingAlike(hash, a, b, r, f);
    case Renaming => RenamingAlike(hash, a, b, r, f);
    case Reading => ReadAlike(a, b, path);
    case Discarding(_) => DropAlike(a.disk, b.disk, path);
    case Looking(dir, _) => DirsAlike(a, b, dir);
    case Unmaking(dir, _) =>
      DirsAlike(a, b, dir);
      DropAlike(a.disk, b.disk, dir);
  }

  lemma OpeningAlike(hash: Hasher, a: Local, b: Local, r: Request, f: Faults)
    requires Alike(a, b) && r.path != [] && Fits(r, Opening)
    ensures TicksAlike(TickOnce(hash, a, r, f, Opening), TickOnce(hash, b, r, f, Opening))
  {
    hide Disk.Agrees, Disk.OpenAppend;
    OpenAlike(a.disk, b.disk, TargetOf(a, r), f.open.Allowed?);
  }

  lemma RemovingAlike(hash: Hasher, a: Local, b: Local, r: Request, f: Faults)
    requires Alike(a, b) && r.path != []
    ensures TicksAlike(TickOnce(hash, a, r, f, Removing), TickOnce(hash, b, r, f, Removing))
  {
    hide Disk.Agrees, Disk.Remove;
    RemoveAlike(a.disk, b.disk, a.Abs(r.path));
  }

  lemma RenamingAlike(hash: Hasher, a: Local, b: Local, r: Request, f: Faults)
    requires Alike(a, b) && a.disk.InodesOk() && r.path != [] && Fits(r, Renaming)
    ensures TicksAlike(TickOnce(hash, a, r, f, Renaming), TickOnce(hash, b, r, f, Renaming))
  {
    hide Disk.Agrees, Disk.InodesOk, Disk.Rename, Disk.Read, Disk.IsEmptyDir;
    ReadAlike(a, b, TargetOf(a, r));
    DirsAlike(a, b, a.Abs(r.path));
    if TargetOf(a, r) in a.disk.files {
      RenameAlike(a.disk, b.disk, TargetOf(a, r), a.Abs(r.path));
    }
  }

  lemma DirsAlike(a: Local, b: Local, dir: Path)
    requires Alike(a, b) && dir != [] && dir[0] == a.home
    ensures dir in a.disk.dirs <==> dir in b.disk.dirs
    ensures a.disk.IsEmptyDir(dir) <==> b.disk.IsEmptyDir(dir)
  {
    EmptyAlike(a.disk, b.disk, dir);
  }

  lemma TickFrame(hash: Hasher, st: Local, r: Request, f: Faults, pc: Pc, other: bytes)
    requires st.disk.InodesOk() && PcOk(st, pc) && r.path != [] && Fits(r, pc) && st.home != other
    ensures var t := TickOnce(hash, st, r, f, pc);
      !t.Ended? ==> st.disk.Agrees(t.st.disk, other)
  {
    hide Disk.Agrees, Disk.InodesOk, Disk.OpenAppend, Disk.Append, Disk.Remove, Disk.Rename, Disk.MakeDirs,
         Disk.IsEmptyDir, Disk.Read;
    var path := st.Abs(r.path);
    DropFrame(st.disk, path, other);
    match pc
    case MakingDirs => MakeDirsFrame(st.disk, Front(path), f.mkdir, other);
    case Opening => OpenFrame(st.disk, TargetOf(st, r), f.open.Allowed?, other);
    case Writing(inode, _) => AppendFrame(st.disk, inode, if r.Erase? then [] else r.content, other);
    case Renaming =>
      if TargetOf(st, r) in st.disk.files {
        RenameFrame(st.disk, TargetOf(st, r), path, other);
      }
    case Unmaking(dir, _) => RemoveDirFrame(st.disk, dir, other);
    case _ =>
  }

  lemma RemoveDirFrame(disk: Disk, dir: Path, other: bytes)
    requires dir != [] && dir[0] != other
    ensures disk.Agrees(disk.RemoveDir(dir), other)
  {
  }

  /** Every operation keeps inodes and stream in order, and what lies ahead the user's own. */
  lemma TickKeeps(hash: Hasher, st: Local, r: Request, f: Faults, pc: Pc)
    requires st.disk.InodesOk() && HandleOk(st) && PcOk(st, pc) && r.path != [] && Fits(r, pc)
    ensures var t := TickOnce(hash, st, r, f, pc);
      && (!t.Ended? ==>
            t.st.disk.InodesOk() && HandleOk(t.st) && forall i <- st.disk.data :: i in t.st.disk.data)
      && (t.More? ==> PcOk(t.st, t.pc))
  {
    hide Disk.InodesOk, Disk.Remove, Disk.MakeDirs, Disk.IsEmptyDir, Disk.Read, GetStream;
    var path := st.Abs(r.path);
    match pc
    case Checking =>
    case MakingDirs => MakeDirsInodes(st.disk, Front(path), f.mkdir);
    case Opening => OpeningKeeps(st, r, f);
    case Writing(inode, _) => AppendKeepsInodes(st.disk, inode, r.content);
    case Closing =>
    case Removing => RemoveKeepsData(st.disk, path);
    case Renaming => RenamingKeeps(hash, st, r, f);
    case Reading =>
    case Discarding(_) => RemoveKeepsInodes(st.disk, path);
    case Looking(_, _) =>
    case Unmaking(dir, _) => RemoveKeepsInodes(st.disk, dir);
  }

  lemma OpeningKeeps(st: Local, r: Request, f: Faults)
    requires st.disk.InodesOk() && HandleOk(st) && r.path != []
    ensures var t := GetStream(st, r, f.open);
      && t.st.disk.InodesOk() && HandleOk(t.st) && (forall i <- st.disk.data :: i in t.st.disk.data)
      && (t.More? ==> PcOk(t.st, t.pc))
  {
    hide Disk.InodesOk, Disk.OpenAppend;
    OpenKeepsInodes(st.disk, TargetOf(st, r), f.open.Allowed?);
    var disk := st.disk.OpenAppend(TargetOf(st, r), f.open.Allowed?).0;
    assert TargetOf(st, r)[0] == st.home && (st.handle.Opened? ==> st.handle.inode in disk.data);
  }

  lemma RenamingKeeps(hash: Hasher, st: Local, r: Request, f: Faults)
    requires st.disk.InodesOk() && HandleOk(st) && r.path != [] && Fits(r, Renaming)
    ensures var t := TickOnce(hash, st, r, f, Renaming);
      !t.Ended? ==> t.st.disk.InodesOk() && HandleOk(t.st) && t.st.disk.data == st.disk.data
  {
    hide Disk.InodesOk;
    if TargetOf(st, r) in st.disk.files {
      RenameKeepsInodes(st.disk, TargetOf(st, r), st.Abs(r.path));
    }
  }

  lemma RemoveKeepsData(disk: Disk, path: Path)
    requires disk.InodesOk()
    ensures disk.Remove(path).Some? ==>
              disk.Remove(path).value.data == disk.data && disk.Remove(path).value.InodesOk()
  {
    RemoveKeepsInodes(disk, path);
  }
}

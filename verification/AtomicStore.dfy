/** Seen between transfers, the server is a map from paths to bytes on which every transfer and
    every ERASE is one atomic operation. */
module AtomicStore {
  import opened Bytes
  import opened Paths
  import opened Disks
  import opened Transfer
  import opened Soundness
  import opened Arrivals
  import opened Chunks
  import opened Stores

  /** What a client asks for, and what the operating system decides while it is done. */
  datatype Op =
    | Put(path: Path, digest: bytes, pieces: seq<Piece>)
    | Swap(path: Path, digest: bytes, pieces: seq<Piece>)
    | Delete(path: Path, digest: bytes, faults: Faults)

  /** The messages a client sends for an operation. */
  function Messages(op: Op): (cs: seq<Call>)
    ensures forall c <- cs :: c.request.path == op.path
  {
    match op
    case Put(p, digest, pieces) => Creates(p, digest, pieces)
    case Swap(p, digest, pieces) => Updates(p, digest, pieces)
    case Delete(p, digest, f) => [Call(Erase(p, digest), f)]
  }

  /** A client's operation: a normal path, and at least one chunk. */
  predicate GoodOp(op: Op) {
    op.path != [] && !IsTemp(op.path) && (op.Delete? || op.pieces != [])
  }

  // The abstract machine.

  /** How an operation ends: it is done; it is still under way, with these bytes received; its stream
      failed to open, and it may have left an empty file; or the process has ended. */
  datatype Attempt =
    | Done(store: Store, statuses: seq<Status>)
    | UnderWay(store: Store, op: Op, content: bytes, statuses: seq<Status>)
    | Stuck(store: Store, target: Path, stray: bool, statuses: seq<Status>)
    | Dead

  /** It is turned down without a look at the disk. */
  predicate Refused(hash: Hasher, a: Store, op: Op) {
    match op
    case Put(p, _, _) => p in a.files || BlockedIn(a, p)
    case Swap(p, digest, _) => p !in a.files || hash(p, a.files[p]) == digest
    case Delete(p, digest, _) => p !in a.files || hash(p, a.files[p]) != digest
  }

  function Refusal(a: Store, op: Op): Status {
    match op
    case Put(p, _, _) => if p in a.files then Err(ERR_CREATE_ALREADY_EXIST) else Err(ERR_CREATE_FAILED)
    case Swap(p, _, _) => if p in a.files then Err(ERR_UPDATE_ALREADY_UPDATED) else Err(ERR_UPDATE_NOT_EXIST)
    case Delete(_, _, _) => Err(ERR_ERASE_NO_MATCH)
  }

  /** The one name a transfer writes under before its last chunk. */
  function Target(op: Op): Path
    requires GoodOp(op)
  {
    if op.Swap? then TempOf(op.path) else op.path
  }

  function KindOf(op: Op): Kind {
    if op.Put? then Creation else Replacement
  }

  /** A file can be made under the name. */
  predicate Openable(a: Store, op: Op)
    requires GoodOp(op)
  {
    Target(op) !in a.dirs
  }

  /** The ending of a transfer that is not refused. */
  function EndOfOp(hash: Hasher, a: Store, op: Op): Ending
    requires GoodOp(op) && !op.Delete?
  {
    var k, openable := KindOf(op), Openable(a, op);
    EndOf(hash, k, openable, op.path, op.digest, ArriveAll(k, openable, Front(op.pieces)), Last(op.pieces))
  }

  /** The store before a transfer is decided: a CREATE may already have made directories. */
  function Prepared(a: Store, op: Op): Store
    requires GoodOp(op) && !op.Delete?
  {
    if op.Put? then a.(dirs := WithParents(a.dirs, op.path, Made(op.path, op.pieces))) else a
  }

  /** The operation and its replies. */
  function Atomic(hash: Hasher, a: Store, op: Op): Attempt
    requires GoodOp(op)
  {
    if Refused(hash, a, op) then Done(a, Repeat(Refusal(a, op), |Messages(op)|))
    else match op
      case Delete(p, _, f) =>
        if f.removeFails then Done(a, [Err(ERR_NONE)]) else Done(Store(a.files - {p}, Pruned(a, p, f.prunable)), [Ok])
      case _ =>
        var earlier := Receptions(KindOf(op), Openable(a, op), Front(op.pieces));
        var failed := earlier + [Err(if op.Put? then ERR_CREATE_FAILED else ERR_UPDATE_FAILED)];
        var b := Prepared(a, op);
        match EndOfOp(hash, a, op)
        case Unwritten(Waiting) => Done(b, failed)
        case Unwritten(Receiving(content)) => UnderWay(a, op, content, failed)
        case Unwritten(Jammed(stray)) => Stuck(b, Target(op), stray, failed)
        case Judged(content, Good) => Done(b.(files := b.files[op.path := content]), earlier + [Ok])
        case Judged(_, Wrong(status)) => Done(b.(files := b.files - {op.path}), earlier + [status])
        case Judged(_, Fatal) => Dead
  }

  // The refinement.

  /** The concrete state in the middle of a transfer. */
  function Transferring(st: Local, op: Op, content: bytes): Local
    requires GoodOp(op)
  {
    if op.Swap? && op.path in st.index then Updating(st, op.path, content) else Creating(st, op.path, content)
  }

  /** Below the user's directory the disk shows the store's files, but perhaps for one name. */
  ghost predicate ShowsBut(st: Local, a: Store, target: Path) {
    forall q: Path :: q != [] && q != target ==>
      && (q in a.files <==> st.Abs(q) in st.disk.files)
      && (q in a.files ==> st.disk.Read(st.Abs(q)) == a.files[q])
  }

  /** The concrete run ends as the abstract one. */
  ghost predicate Refines(hash: Hasher, run: Run, at: Attempt) {
    match at
    case Done(a, statuses) =>
      run.Finished? && run.statuses == statuses && Represents(hash, run.st, a)
    case UnderWay(a, op, content, statuses) =>
      run.Finished? && run.statuses == statuses && GoodOp(op)
      && exists st :: Represents(hash, st, a) && run.st == Transferring(st, op, content)
    case Stuck(a, target, stray, statuses) =>
      run.Finished? && run.statuses == statuses && run.st.handle.Bad?
      && (if stray then ShowsBut(run.st, a, target) && Lists(hash, run.st.index, a)
          else Represents(hash, run.st.(handle := Absent), a))
    case Dead => run.Halted?
  }

  /** Requests that are all refused in the same way change nothing. */
  lemma {:induction false} AllRefused(hash: Hasher, st: Local, cs: seq<Call>, s: Status)
    requires forall c <- cs :: GoodCall(c) && Serve(hash, st, c.request, c.faults) == Next(st, s)
    ensures RunAll(hash, st, cs) == Finished(st, Repeat(s, |cs|))
  {
    hide Serve;
    if cs != [] {
      AllRefused(hash, st, Front(cs), s);
      assert Last(cs) in cs;
      RunSnoc(hash, st, cs);
      assert Repeat(s, |cs|) == Repeat(s, |cs| - 1) + [s];
    }
  }

  lemma RefusedServe(hash: Hasher, st: Local, a: Store, op: Op)
    requires Represents(hash, st, a) && GoodOp(op) && Refused(hash, a, op)
    ensures forall c <- Messages(op) ::
              GoodCall(c) && Serve(hash, st, c.request, c.faults) == Next(st, Refusal(a, op))
  {
    hide ShowsFiles, ShowsDirs, Disk.InodesOk, Disk.TreeOk, WriteChunk, BlockedIn, Disk.Blocked, Disk.Remove;
    BlockedAlike(hash, st, a, op.path);
  }

  lemma CanPut(hash: Hasher, st: Local, a: Store, p: Path)
    requires Represents(hash, st, a) && p != [] && p !in a.files && !BlockedIn(a, p)
    ensures CanReceive(st, p) && (p in a.dirs <==> st.Abs(p) in st.disk.dirs)
  {
    BlockedAlike(hash, st, a, p);
  }

  lemma CanSwap(hash: Hasher, st: Local, a: Store, p: Path, digest: bytes)
    requires Represents(hash, st, a) && p in a.files && hash(p, a.files[p]) != digest
    ensures p != [] && CanReplace(st, p, digest) && (TempOf(p) in a.dirs <==> st.Abs(TempOf(p)) in st.disk.dirs)
  {
    TempIsTemp(p);
  }

  lemma NewFileShowsBut(st: Local, st': Local, a: Store, target: Path, content: bytes, dirs: set<Path>)
    requires ShowsFiles(st, a.files) && st.disk.InodesOk() && target != [] && st'.home == st.home
    requires st'.disk == WithNewFile(st, st.Abs(target), content).(dirs := dirs)
    ensures ShowsBut(st', a, target)
  {
    NewFileChanges(st, st.Abs(target), content, dirs);
    AbsInjective(st);
    hide WithNewFile, Disk.Read, Disk.InodesOk;
  }

  lemma SameFilesShown(st: Local, st': Local, a: Store, target: Path)
    requires ShowsFiles(st, a.files) && st'.home == st.home
    requires st'.disk.files == st.disk.files && st'.disk.data == st.disk.data
    ensures ShowsBut(st', a, target)
  {
    assert forall q :: st'.disk.Read(q) == st.disk.Read(q);
  }

  lemma CreateShown(hash: Hasher, st: Local, a: Store, p: Path, ph: Phase, depth: nat)
    requires Represents(hash, st, a) && p != []
    ensures ShowsBut(CreateState(st, p, ph, depth), a, p)
  {
    hide Disk.TreeOk, Disk.InodesOk, ShowsFiles, ShowsBut, WithNewFile;
    var st', dirs := CreateState(st, p, ph, depth), CreatedDisk(st, p, []).dirs;
    match ph
    case Receiving(content) => NewFileShowsBut(st, st', a, p, content, st'.disk.dirs);
    case Jammed(true) => NewFileShowsBut(st, st', a, p, [], st'.disk.dirs);
    case _ => SameFilesShown(st, st', a, p);
  }

  lemma UpdateShown(hash: Hasher, st: Local, a: Store, p: Path, ph: Phase)
    requires Represents(hash, st, a) && p in a.files && p != []
    ensures p in st.index && ShowsBut(UpdateState(st, p, ph), a, TempOf(p))
  {
    hide Disk.TreeOk, Disk.InodesOk, ShowsFiles, ShowsBut;
    var st' := UpdateState(st, p, ph);
    match ph
    case Receiving(content) => NewFileShowsBut(st, st', a, TempOf(p), content, st.disk.dirs);
    case Jammed(true) => NewFileShowsBut(st, st', a, TempOf(p), [], st.disk.dirs);
    case _ => SameFilesShown(st, st', a, TempOf(p));
  }

  lemma PutRefines(hash: Hasher, st: Local, a: Store, op: Op)
    requires Represents(hash, st, a) && GoodOp(op) && op.Put? && !Refused(hash, a, op)
    ensures Refines(hash, RunAll(hash, st, Messages(op)), Atomic(hash, a, op))
  {
    hide RunAll, Represents, CreateState, CreateEnd, ArriveAll, Refines, Atomic;
    CanPut(hash, st, a, op.path);
    ChunkedCreate(hash, st, op.path, op.digest, op.pieces);
    PutEnds(hash, st, a, op);
  }

  /** A CREATE that was not refused, by its ending. */
  lemma PutEnds(hash: Hasher, st: Local, a: Store, op: Op)
    requires Represents(hash, st, a) && GoodOp(op) && op.Put? && !Refused(hash, a, op) && CanReceive(st, op.path)
    requires op.path in a.dirs <==> st.Abs(op.path) in st.disk.dirs
    ensures var p, sofar := op.path, Front(op.pieces);
      var ph := ArriveAll(Creation, Openable(a, op), sofar);
      Refines(hash,
        Then(Finished(CreateState(st, p, ph, Made(p, sofar)), Receptions(Creation, Openable(a, op), sofar)),
             CreateEnd(hash, st, p, op.digest, ph, Made(p, sofar), Last(op.pieces))),
        Atomic(hash, a, op))
  {
    hide Represents, CanReceive, Refused, Refines, Atomic, CreateState, Created, EndOf, Made, Deeper, ArriveAll;
    MadeSnoc(op.path, op.pieces);
    match EndOfOp(hash, a, op)
    case Unwritten(after) => PutUnwritten(hash, st, a, op, after);
    case Judged(content, Good) => PutJudged(hash, st, a, op, content, Good);
    case Judged(content, Wrong(status)) => PutJudged(hash, st, a, op, content, Wrong(status));
    case Judged(_, Fatal) => FatalIsDead(hash, a, op);
  }

  lemma FatalIsDead(hash: Hasher, a: Store, op: Op)
    requires GoodOp(op) && !op.Delete? && !Refused(hash, a, op)
    requires EndOfOp(hash, a, op).Judged? && EndOfOp(hash, a, op).verdict.Fatal?
    ensures Refines(hash, Halted, Atomic(hash, a, op))
  {
    hide Refused, EndOfOp;
  }

  lemma PutUnwritten(hash: Hasher, st: Local, a: Store, op: Op, after: Phase)
    requires Represents(hash, st, a) && GoodOp(op) && op.Put? && !Refused(hash, a, op) && CanReceive(st, op.path)
    requires EndOfOp(hash, a, op) == Unwritten(after)
    ensures var earlier := Receptions(Creation, op.path !in a.dirs, Front(op.pieces));
      Refines(hash,
        Finished(CreateState(st, op.path, after, Made(op.path, op.pieces)), earlier + [Err(ERR_CREATE_FAILED)]),
        Atomic(hash, a, op))
  {
    hide Represents, ShowsBut, Lists, WithParents, Made, Receptions, CanReceive, Refused, EndOfOp, WithDirs,
         CreatedDisk;
    var p := op.path;
    match after
    case Waiting => DirsMade(hash, st, a, p, Made(p, op.pieces));
    case Receiving(content) =>
      assert CreateState(st, p, Receiving(content), Made(p, op.pieces)) == Transferring(st, op, content);
    case Jammed(stray) => PutJams(hash, st, a, p, stray, Made(p, op.pieces));
  }

  lemma PutJudged(hash: Hasher, st: Local, a: Store, op: Op, content: bytes, verdict: Verdict)
    requires Represents(hash, st, a) && GoodOp(op) && op.Put? && !Refused(hash, a, op) && CanReceive(st, op.path)
    requires op.path in a.dirs <==> st.Abs(op.path) in st.disk.dirs
    requires EndOfOp(hash, a, op) == Judged(content, verdict) && !verdict.Fatal?
    ensures var earlier := Receptions(Creation, op.path !in a.dirs, Front(op.pieces));
      Refines(hash,
        Finished(Created(st, op.path, op.digest, content, verdict.Good?),
                 earlier + [if verdict.Good? then Ok else verdict.status]),
        Atomic(hash, a, op))
  {
    hide Represents, WithParents, Made, Receptions, Created, ArriveAll, EndOf, Disk.Blocked, BlockedIn, IsTemp;
    var p := op.path;
    JudgedMeaning(hash, Creation, p !in a.dirs, p, op.digest, Front(op.pieces), Last(op.pieces));
    MadeSnoc(p, op.pieces);
    PutCreates(hash, st, a, p, op.digest, content, verdict.Good?);
    assert a.files - {p} == a.files;
    hide CanReceive, Refused, EndOfOp;
  }

  lemma PutJams(hash: Hasher, st: Local, a: Store, p: Path, stray: bool, depth: nat)
    requires Represents(hash, st, a) && CanReceive(st, p)
    ensures var st', b := CreateState(st, p, Jammed(stray), depth), a.(dirs := WithParents(a.dirs, p, depth));
      if stray then ShowsBut(st', b, p) && Lists(hash, st'.index, b)
      else Represents(hash, st'.(handle := Absent), b)
  {
    CreateShown(hash, st, a, p, Jammed(stray), depth);
    DirsMade(hash, st, a, p, depth);
    hide ShowsFiles, ShowsDirs, Disk.TreeOk, Disk.InodesOk, WithParents;
  }

  lemma MadeSnoc(p: Path, pieces: seq<Piece>)
    requires pieces != []
    ensures var depth := Made(p, pieces);
      && depth == Deeper(p, Made(p, Front(pieces)), Last(pieces).faults.mkdir)
      && (!TurnedBack(Creation, Last(pieces).faults) ==> depth == |p|)
  {
  }

  lemma SwapRefines(hash: Hasher, st: Local, a: Store, op: Op)
    requires Represents(hash, st, a) && GoodOp(op) && op.Swap? && !Refused(hash, a, op)
    ensures Refines(hash, RunAll(hash, st, Messages(op)), Atomic(hash, a, op))
  {
    hide RunAll, Represents, UpdateState, UpdateEnd, ArriveAll, Refines, Atomic;
    CanSwap(hash, st, a, op.path, op.digest);
    ChunkedUpdate(hash, st, op.path, op.digest, op.pieces);
    SwapEnds(hash, st, a, op);
  }

  /** An UPDATE that was not refused, by its ending. */
  lemma SwapEnds(hash: Hasher, st: Local, a: Store, op: Op)
    requires Represents(hash, st, a) && GoodOp(op) && op.Swap? && !Refused(hash, a, op)
    requires CanReplace(st, op.path, op.digest)
    requires TempOf(op.path) in a.dirs <==> st.Abs(TempOf(op.path)) in st.disk.dirs
    ensures var p, sofar, openable := op.path, Front(op.pieces), TempOf(op.path) !in a.dirs;
      var ph := ArriveAll(Replacement, openable, sofar);
      Refines(hash,
        Then(Finished(UpdateState(st, p, ph), Receptions(Replacement, openable, sofar)),
             UpdateEnd(hash, st, p, op.digest, ph, Last(op.pieces))),
        Atomic(hash, a, op))
  {
    hide Represents, Refused, Refines, Atomic, UpdateState, Updated, EndOf, ArriveAll;
    match EndOfOp(hash, a, op)
    case Unwritten(after) => SwapUnwritten(hash, st, a, op, after);
    case Judged(content, Good) => SwapJudged(hash, st, a, op, content, Good);
    case Judged(content, Wrong(status)) => SwapJudged(hash, st, a, op, content, Wrong(status));
    case Judged(_, Fatal) => FatalIsDead(hash, a, op);
  }

  lemma SwapUnwritten(hash: Hasher, st: Local, a: Store, op: Op, after: Phase)
    requires Represents(hash, st, a) && GoodOp(op) && op.Swap? && !Refused(hash, a, op)
    requires CanReplace(st, op.path, op.digest) && EndOfOp(hash, a, op) == Unwritten(after)
    ensures var earlier := Receptions(Replacement, TempOf(op.path) !in a.dirs, Front(op.pieces));
      Refines(hash, Finished(UpdateState(st, op.path, after), earlier + [Err(ERR_UPDATE_FAILED)]), Atomic(hash, a, op))
  {
    hide Represents, ShowsBut, Lists, Receptions, EndOfOp, WithNewFile;
    match after
    case Waiting =>
    case Receiving(content) =>
      assert UpdateState(st, op.path, Receiving(content)) == Transferring(st, op, content);
    case Jammed(stray) => SwapJams(hash, st, a, op.path, stray);
  }

  lemma SwapJudged(hash: Hasher, st: Local, a: Store, op: Op, content: bytes, verdict: Verdict)
    requires Represents(hash, st, a) && GoodOp(op) && op.Swap? && !Refused(hash, a, op)
    requires CanReplace(st, op.path, op.digest)
    requires TempOf(op.path) in a.dirs <==> st.Abs(TempOf(op.path)) in st.disk.dirs
    requires EndOfOp(hash, a, op) == Judged(content, verdict) && !verdict.Fatal?
    ensures var earlier := Receptions(Replacement, TempOf(op.path) !in a.dirs, Front(op.pieces));
      Refines(hash,
        Finished(Updated(st, op.path, op.digest, content, verdict.Good?),
                 earlier + [if verdict.Good? then Ok else verdict.status]),
        Atomic(hash, a, op))
  {
    hide Represents, Receptions, Updated, ArriveAll, EndOf, BlockedIn, IsTemp;
    var p := op.path;
    JudgedMeaning(hash, Replacement, TempOf(p) !in a.dirs, p, op.digest, Front(op.pieces), Last(op.pieces));
    SwapUpdates(hash, st, a, p, op.digest, content, verdict.Good?);
    hide CanReplace, Refused, EndOfOp;
  }

  lemma SwapJams(hash: Hasher, st: Local, a: Store, p: Path, stray: bool)
    requires Represents(hash, st, a) && p in a.files && p != []
    ensures p in st.index
    ensures var st' := UpdateState(st, p, Jammed(stray));
      if stray then ShowsBut(st', a, TempOf(p)) && Lists(hash, st'.index, a)
      else st'.(handle := Absent) == st
  {
    UpdateShown(hash, st, a, p, Jammed(stray));
    hide ShowsFiles, ShowsDirs, Disk.TreeOk, Disk.InodesOk;
  }

  lemma DeleteRefines(hash: Hasher, st: Local, a: Store, op: Op)
    requires Represents(hash, st, a) && GoodOp(op) && op.Delete? && !Refused(hash, a, op)
    ensures Refines(hash, RunAll(hash, st, Messages(op)), Atomic(hash, a, op))
  {
    hide Represents, EraseFile, Refused, Pruned;
    var f, cs := op.faults, Messages(op);
    assert Front(cs) == [];
    RunSnoc(hash, st, cs);
    NotErased(hash, st, a, op);
    if !f.removeFails {
      CanDelete(hash, a, op);
      DeleteErases(hash, st, a, op.path, op.digest, f);
    }
  }

  lemma CanDelete(hash: Hasher, a: Store, op: Op)
    requires op.Delete? && !Refused(hash, a, op)
    ensures op.path in a.files && hash(op.path, a.files[op.path]) == op.digest
  {
  }

  lemma NotErased(hash: Hasher, st: Local, a: Store, op: Op)
    requires Represents(hash, st, a) && op.Delete? && !Refused(hash, a, op) && op.path != []
    ensures op.faults.removeFails ==> EraseFile(st, op.path, op.digest, op.faults) == Next(st, Err(ERR_NONE))
  {
    hide ShowsFiles, ShowsDirs, Disk.InodesOk, Disk.TreeOk, Disk.Remove;
  }

  /** One operation, message by message and whatever the operating system does, against the atomic
      one. */
  lemma OpRefines(hash: Hasher, st: Local, a: Store, op: Op)
    requires Represents(hash, st, a) && GoodOp(op)
    ensures Refines(hash, RunAll(hash, st, Messages(op)), Atomic(hash, a, op))
  {
    hide RunAll, Represents, Serve;
    if Refused(hash, a, op) {
      RefusedServe(hash, st, a, op);
      AllRefused(hash, st, Messages(op), Refusal(a, op));
    } else {
      hide Refused, Atomic, Refines;
      match op
      case Put(_, _, _) => PutRefines(hash, st, a, op);
      case Swap(_, _, _) => SwapRefines(hash, st, a, op);
      case Delete(_, _, _) => DeleteRefines(hash, st, a, op);
    }
  }

  // Sequences of operations.

  function AllMessages(ops: seq<Op>): (cs: seq<Call>)
    requires forall op <- ops :: GoodOp(op)
    ensures forall c <- cs :: GoodCall(c)
  {
    if ops == [] then []
    else
      assert GoodOp(Last(ops)) by { assert Last(ops) in ops; }
      AllMessages(Front(ops)) + Messages(Last(ops))
  }

  function After(statuses: seq<Status>, at: Attempt): Attempt {
    if at.Dead? then Dead else at.(statuses := statuses + at.statuses)
  }

  /** The operations on the abstract store; None when something follows one that was not done. */
  function AtomicRun(hash: Hasher, a: Store, ops: seq<Op>): Option<Attempt>
    requires forall op <- ops :: GoodOp(op)
  {
    if ops == [] then Some(Done(a, []))
    else match AtomicRun(hash, a, Front(ops))
      case Some(Done(before, statuses)) => Some(After(statuses, Atomic(hash, before, Last(ops))))
      case _ => None
  }

  lemma RefinesAfter(hash: Hasher, run: Run, at: Attempt, statuses: seq<Status>)
    requires Refines(hash, run, at)
    ensures var later := if run.Halted? then Halted else run.(statuses := statuses + run.statuses);
      Refines(hash, later, After(statuses, at))
  {
    hide Represents, ShowsBut, Lists;
  }

  /** A session of whole transfers and erasures, sent in any number of chunks and whatever the
      operating system does at each, ends with the disk, the index and every reply exactly as on a
      store where each operation is atomic. */
  lemma {:induction false} RefinesAtomicStore(hash: Hasher, st: Local, a: Store, ops: seq<Op>)
    requires Represents(hash, st, a)
    requires forall op <- ops :: GoodOp(op)
    requires AtomicRun(hash, a, ops).Some?
    ensures Refines(hash, RunAll(hash, st, AllMessages(ops)), AtomicRun(hash, a, ops).value)
  {
    hide Represents, Atomic, Messages, ShowsBut, Lists;
    if ops != [] {
      assert GoodOp(Last(ops)) by { assert Last(ops) in ops; }
      RefinesAtomicStore(hash, st, a, Front(ops));
      hide RunAll;
      var before := AtomicRun(hash, a, Front(ops)).value;
      var mid := RunAll(hash, st, AllMessages(Front(ops))).st;
      OpRefines(hash, mid, before.store, Last(ops));
      RunConcat(hash, st, AllMessages(Front(ops)), Messages(Last(ops)));
      RefinesAfter(
        hash, RunAll(hash, mid, Messages(Last(ops))), Atomic(hash, before.store, Last(ops)), before.statuses);
      hide Refines;
    }
  }

  // During a transfer.

  /** In the middle of a transfer, whatever the operating system does, the disk shows the store as it
      was, but for the one name the transfer writes under; an update has not yet touched the file. */
  lemma DuringTransfer(hash: Hasher, st: Local, a: Store, op: Op, n: nat)
    requires Represents(hash, st, a) && GoodOp(op) && n < |Messages(op)|
    ensures forall c <- Messages(op)[..n] :: GoodCall(c)
    ensures var run := RunAll(hash, st, Messages(op)[..n]);
      run.Finished? && ShowsBut(run.st, a, Target(op))
  {
    hide RunAll, ShowsFiles, ShowsBut, Serve, CreateState, Disk.TreeOk, Disk.InodesOk, BlockedIn;
    if Refused(hash, a, op) {
      RefusedServe(hash, st, a, op);
      AllRefused(hash, st, Messages(op)[..n], Refusal(a, op));
      SameFilesShown(st, st, a, Target(op));
    } else {
      match op
      case Put(p, digest, pieces) =>
        CanPut(hash, st, a, p);
        CreateUnderWay(hash, st, p, digest, pieces, n);
        CreateShown(hash, st, a, p, ArriveAll(Creation, p !in a.dirs, pieces[..n]), Made(p, pieces[..n]));
      case Swap(p, digest, pieces) =>
        CanSwap(hash, st, a, p, digest);
        UpdateUnderWay(hash, st, p, digest, pieces, n);
        UpdateShown(hash, st, a, p, ArriveAll(Replacement, TempOf(p) !in a.dirs, pieces[..n]));
      case Delete(_, _, _) =>
        NothingSent(hash, st, Messages(op));
        SameFilesShown(st, st, a, Target(op));
    }
  }

  lemma NothingSent(hash: Hasher, st: Local, cs: seq<Call>)
    ensures RunAll(hash, st, cs[..0]) == Finished(st, [])
  {
  }

  // A stream that failed to open.

  /** A transfer that is not refused, and whose first chunk that gets as far as the stream meets a
      system that refuses to open the file, or a directory of its name. */
  ghost predicate Jams(hash: Hasher, a: Store, op: Op)
    requires GoodOp(op)
  {
    !op.Delete? && !Refused(hash, a, op) && exists i: nat :: JamsAt(KindOf(op), Openable(a, op), op.pieces, i)
  }

  /** Exactly such a transfer spoils the user's stream, and none of its chunks is answered OK. */
  lemma JamsExactly(hash: Hasher, st: Local, a: Store, op: Op)
    requires Represents(hash, st, a) && GoodOp(op)
    ensures var run := RunAll(hash, st, Messages(op));
      && (run.Finished? && run.st.handle.Bad? <==> Jams(hash, a, op))
      && (Jams(hash, a, op) ==> Ok !in run.statuses)
  {
    hide Represents, Atomic, Jams, RunAll, Refines;
    OpRefines(hash, st, a, op);
    StuckExactly(hash, a, op);
    StreamOf(hash, RunAll(hash, st, Messages(op)), Atomic(hash, a, op));
  }

  lemma StreamOf(hash: Hasher, run: Run, at: Attempt)
    requires Refines(hash, run, at)
    ensures run.Finished? && run.st.handle.Bad? <==> at.Stuck?
    ensures at.Stuck? ==> run.statuses == at.statuses
  {
    hide ShowsFiles, ShowsDirs, ShowsBut, Lists, Disk.InodesOk, Disk.TreeOk;
  }

  lemma StuckExactly(hash: Hasher, a: Store, op: Op)
    requires GoodOp(op)
    ensures Atomic(hash, a, op).Stuck? <==> Jams(hash, a, op)
    ensures Atomic(hash, a, op).Stuck? ==> Ok !in Atomic(hash, a, op).statuses
  {
    hide JamsAt, Receptions, Judge, BlockedIn, WithParents;
    if !op.Delete? {
      var k, openable := KindOf(op), Openable(a, op);
      JammedExactly(k, openable, op.pieces);
      ArrivedIsKept(k, openable, Front(op.pieces));
    }
  }
}

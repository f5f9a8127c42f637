/** A request as a sequence of single operations, from the arrival of its message to its reply. */
module Jobs {
  import opened Bytes
  import opened Tlvs
  import opened Paths
  import opened Disks
  import opened Transfer
  import opened Sessions
  import opened Servers
  import opened RequestIsolation
  import opened Steps

  /** How far the thread has come: nothing done yet, in the middle of a request for files, or of a
      scan, about to look at an entry of the directory or to read a file's digest. */
  datatype Stage =
    | Begin
    | Filing(pc: Pc)
    | Scanning(next: nat, scan: Scan)
    | Digesting(next: nat, scan: Scan)

  /** The request is over, or the thread goes on. */
  datatype Move = Over(outcome: Outcome) | Going(disk: Disk, streams: Streams, session: Session, stage: Stage)

  /** The request is a SYNC that is not turned down. */
  predicate StartsScan(s: Session, m: Msg) {
    s.auth && !s.synced && m.kind == SYNC && m.tlvs != []
  }

  /** The stage is one of those of such a request. */
  predicate StageOk(s: Session, m: Msg, f: Faults, stage: Stage) {
    match stage
    case Begin => true
    case Filing(pc) => Reaches(s, m) && Fits(RequestOf(m), pc)
    case Scanning(i, _) => StartsScan(s, m) && i <= |f.listing|
    case Digesting(i, _) => StartsScan(s, m) && i < |f.listing|
  }

  function StageWeight(f: Faults, stage: Stage): nat
    requires stage.Scanning? || stage.Digesting? ==> stage.next <= |f.listing|
  {
    match stage
    case Begin => 2 * f.prunable + 2 * |f.listing| + 15
    case Filing(pc) => Weight(pc, f)
    case Scanning(i, _) => 2 * (|f.listing| - i) + 1
    case Digesting(i, _) => 2 * (|f.listing| - i)
  }

  function Start(env: Env, disk: Disk, streams: Streams, s: Session, m: Msg, f: Faults): Move
    requires PathOf(m).Some? ==> PathOf(m).value != []
  {
    if Reaches(s, m) then Going(disk, streams, s, Filing(Checking))
    else if !StartsScan(s, m) then Over(HandleRequest(env, disk, streams, s, m, f))
    else if [s.id] !in disk.dirs || f.listingFails then
      Over(Answer(disk, streams, s.(index := map[]), Err(ERR_SYNC_FAILED)))
    else Going(disk, streams, s, Scanning(0, Scan(s.index, [], false, false)))
  }

  function Visit(disk: Disk, streams: Streams, s: Session, f: Faults, i: nat, scan: Scan): Move
    requires i <= |f.listing|
  {
    if i == |f.listing| then
      Over(Replied(disk, streams, s.(synced := true, index := scan.index), Reply(scan.items, Ok)))
    else
      var stage := if [s.id] + f.listing[i] in disk.files then Digesting(i, scan) else Scanning(i + 1, scan);
      Going(disk, streams, s, stage)
  }

  function ReadEntry(env: Env, disk: Disk, streams: Streams, s: Session, f: Faults, i: nat, scan: Scan): Move
    requires i < |f.listing|
  {
    var p, path := f.listing[i], [s.id] + f.listing[i];
    if path !in disk.files || p in f.unreadable then Over(Crashed)
    else
      var digest := env.hash(p, disk.Read(path));
      if p in scan.index then
        Over(Replied(disk, streams, s.(index := map[]), Reply(scan.items, Err(ERR_SYNC_FAILED))))
      else
        Going(disk, streams, s, Scanning(i + 1,
          Scan(scan.index[p := Resource(true, digest)], scan.items + [CreateSign(Text(p), digest)], false, false)))
  }

  /** One operation of a thread. */
  function Take(env: Env, disk: Disk, streams: Streams, s: Session, m: Msg, f: Faults, stage: Stage): (v: Move)
    requires PathOf(m).Some? ==> PathOf(m).value != []
    requires StageOk(s, m, f, stage)
    ensures v.Going? ==>
              v.session == s.(index := v.session.index) && StageOk(v.session, m, f, v.stage)
  {
    match stage
    case Begin => Start(env, disk, streams, s, m, f)
    case Scanning(i, scan) => Visit(disk, streams, s, f, i, scan)
    case Digesting(i, scan) => ReadEntry(env, disk, streams, s, f, i, scan)
    case Filing(pc) =>
      match TickOnce(env.hash, LocalOf(disk, streams, s), RequestOf(m), f, pc)
      case Ended => Over(Crashed)
      case Answered(st, status) => Over(Finish(streams, s, m.tlvs[0].value, Next(st, status)))
      case More(st, pc') =>
        Going(st.disk, WithHandle(streams, s.id, st.handle), s.(index := st.index), Filing(pc'))
  }

  lemma TakeLess(env: Env, disk: Disk, streams: Streams, s: Session, m: Msg, f: Faults, stage: Stage)
    requires PathOf(m).Some? ==> PathOf(m).value != []
    requires StageOk(s, m, f, stage)
    ensures var v := Take(env, disk, streams, s, m, f, stage);
      v.Going? ==> StageWeight(f, v.stage) < StageWeight(f, stage)
  {
    hide TickOnce, HandleRequest, Disk.Read, Text, CreateSign;
    if stage.Filing? {
      TickLess(env.hash, LocalOf(disk, streams, s), RequestOf(m), f, stage.pc);
    }
  }

  /** What the request comes to when its thread is left alone from here on. */
  function Outlook(env: Env, disk: Disk, streams: Streams, s: Session, m: Msg, f: Faults, stage: Stage): Outcome
    requires PathOf(m).Some? ==> PathOf(m).value != []
    requires StageOk(s, m, f, stage)
    decreases StageWeight(f, stage)
  {
    TakeLess(env, disk, streams, s, m, f, stage);
    match Take(env, disk, streams, s, m, f, stage)
    case Over(outcome) => outcome
    case Going(disk', streams', s', stage') => Outlook(env, disk', streams', s', m, f, stage')
  }

  // Alone, a thread does what the request is specified to do.

  lemma FinishAgain(streams: Streams, s: Session, sign: bytes, st: Local, step: Step)
    requires st.home == s.id
    ensures LocalOf(st.disk, WithHandle(streams, s.id, st.handle), s.(index := st.index)) == st
    ensures Finish(WithHandle(streams, s.id, st.handle), s.(index := st.index), sign, step)
         == Finish(streams, s, sign, step)
  {
    if step.Next? {
      assert WithHandle(WithHandle(streams, s.id, st.handle), s.id, step.st.handle)
          == WithHandle(streams, s.id, step.st.handle);
    }
  }

  lemma {:induction false} FilingAlone(
    env: Env, disk: Disk, streams: Streams, s: Session, m: Msg, f: Faults, pc: Pc)
    requires PathOf(m).Some? && PathOf(m).value != [] && StageOk(s, m, f, Filing(pc))
    ensures Outlook(env, disk, streams, s, m, f, Filing(pc))
         == Finish(streams, s, m.tlvs[0].value, Rest(env.hash, LocalOf(disk, streams, s), RequestOf(m), f, pc))
    decreases Weight(pc, f)
  {
    hide TickOnce, SplitSign, Parse;
    var t := TickOnce(env.hash, LocalOf(disk, streams, s), RequestOf(m), f, pc);
    if t.More? {
      TickLess(env.hash, LocalOf(disk, streams, s), RequestOf(m), f, pc);
      var streams', s' := WithHandle(streams, s.id, t.st.handle), s.(index := t.st.index);
      FinishAgain(streams, s, m.tlvs[0].value, t.st, Rest(env.hash, t.st, RequestOf(m), f, t.pc));
      hide WithHandle;
      FilingAlone(env, t.st.disk, streams', s', m, f, t.pc);
    }
  }

  lemma {:induction false} ScanAlone(
    env: Env, disk: Disk, streams: Streams, s: Session, m: Msg, f: Faults, i: nat)
    requires PathOf(m).Some? ==> PathOf(m).value != []
    requires StartsScan(s, m) && i <= |f.listing|
    requires var scan := ScanFiles(env.hash, disk, s.id, s.index, f.listing[..i], f.unreadable);
      !scan.repeated && !scan.ended
    ensures var scan := ScanFiles(env.hash, disk, s.id, s.index, f.listing[..i], f.unreadable);
      var all := ScanFiles(env.hash, disk, s.id, s.index, f.listing, f.unreadable);
      Outlook(env, disk, streams, s, m, f, Scanning(i, scan))
      == if all.ended then Crashed
         else if all.repeated then
           Replied(disk, streams, s.(index := map[]), Reply(all.items, Err(ERR_SYNC_FAILED)))
         else Replied(disk, streams, s.(synced := true, index := all.index), Reply(all.items, Ok))
    decreases |f.listing| - i
  {
    hide ScanFiles, PathOf, RequestOf, CreateSign, Text, Disk.Read;
    var scan := ScanFiles(env.hash, disk, s.id, s.index, f.listing[..i], f.unreadable);
    if i == |f.listing| {
      assert f.listing[..i] == f.listing;
    } else {
      ScanNext(env.hash, disk, s.id, s.index, f.listing, f.unreadable, i);
      var next := ScanFiles(env.hash, disk, s.id, s.index, f.listing[..i + 1], f.unreadable);
      if next.repeated || next.ended {
        ScanStops(env.hash, disk, s.id, s.index, f.listing, f.unreadable, i + 1);
        assert Outlook(env, disk, streams, s, m, f, Scanning(i, scan))
            == Outlook(env, disk, streams, s, m, f, Digesting(i, scan));
      } else {
        assert Outlook(env, disk, streams, s, m, f, Scanning(i, scan))
            == Outlook(env, disk, streams, s, m, f, Scanning(i + 1, next)) by {
          if [s.id] + f.listing[i] in disk.files {
            assert Outlook(env, disk, streams, s, m, f, Scanning(i, scan))
                == Outlook(env, disk, streams, s, m, f, Digesting(i, scan));
          }
        }
        ScanAlone(env, disk, streams, s, m, f, i + 1);
      }
    }
  }

  /** A thread that runs alone from the arrival of the message does what the request is specified to
      do, for every request. */
  lemma AloneIsHandled(env: Env, disk: Disk, streams: Streams, s: Session, m: Msg, f: Faults)
    requires PathOf(m).Some? ==> PathOf(m).value != []
    ensures Outlook(env, disk, streams, s, m, f, Begin) == HandleRequest(env, disk, streams, s, m, f)
  {
    hide Serve, ScanFiles, Rest, SplitSign, Parse;
    if Reaches(s, m) {
      FilingAlone(env, disk, streams, s, m, f, Checking);
      AloneIsServe(env.hash, LocalOf(disk, streams, s), RequestOf(m), f);
      ReachedIsChange(env, disk, streams, s, m, f);
    } else if StartsScan(s, m) && [s.id] in disk.dirs && !f.listingFails {
      ScanStart(env.hash, disk, s.id, s.index, f.listing, f.unreadable);
      ScanAlone(env, disk, streams, s, m, f, 0);
    }
  }

  lemma ReachedIsChange(env: Env, disk: Disk, streams: Streams, s: Session, m: Msg, f: Faults)
    requires Reaches(s, m) && PathOf(m).value != []
    ensures HandleRequest(env, disk, streams, s, m, f)
         == Finish(streams, s, m.tlvs[0].value, Serve(env.hash, LocalOf(disk, streams, s), RequestOf(m), f))
  {
    hide Serve, Finish, SplitSign, Parse;
  }

  // One operation neither touches nor depends on what belongs to another user.

  /** What the operations still ahead refer to is the user's own. */
  ghost predicate StageInodes(disk: Disk, streams: Streams, s: Session, stage: Stage) {
    stage.Filing? ==> PcOk(LocalOf(disk, streams, s), stage.pc)
  }

  ghost predicate MovesAlike(x: Move, y: Move, u: bytes) {
    match (x, y)
    case (Over(o), Over(q)) => OutcomesAlike(o, q, u)
    case (Going(a, aStreams, s, i), Going(b, bStreams, t, j)) =>
      s == t && i == j && a.Agrees(b, u) && HandleOf(aStreams, u) == HandleOf(bStreams, u)
    case _ => false
  }

  lemma FilingAlike(
    env: Env, a: Disk, aStreams: Streams, b: Disk, bStreams: Streams, s: Session, m: Msg, f: Faults, pc: Pc)
    requires PathOf(m).Some? && PathOf(m).value != [] && StageOk(s, m, f, Filing(pc))
    requires a.InodesOk() && StageInodes(a, aStreams, s, Filing(pc))
    requires a.Agrees(b, s.id) && HandleOf(aStreams, s.id) == HandleOf(bStreams, s.id)
    ensures MovesAlike(Take(env, a, aStreams, s, m, f, Filing(pc)), Take(env, b, bStreams, s, m, f, Filing(pc)), s.id)
  {
    hide Disk.InodesOk, Disk.Agrees, TickOnce, SplitSign, Parse, PcOk;
    TickAlike(env.hash, LocalOf(a, aStreams, s), LocalOf(b, bStreams, s), RequestOf(m), f, pc);
  }

  lemma TakeAlike(
    env: Env, a: Disk, aStreams: Streams, b: Disk, bStreams: Streams, u: bytes, s: Session, m: Msg, f: Faults,
    stage: Stage)
    requires a.InodesOk() && StreamsOk(a, aStreams) && GoodMsg(m) && SessionOk(s) && (s.auth ==> s.id == u)
    requires StageOk(s, m, f, stage) && StageInodes(a, aStreams, s, stage)
    requires a.Agrees(b, u) && HandleOf(aStreams, u) == HandleOf(bStreams, u)
    ensures MovesAlike(Take(env, a, aStreams, s, m, f, stage), Take(env, b, bStreams, s, m, f, stage), u)
  {
    hide Disk.InodesOk, Disk.Agrees, StreamsOk, TickOnce, PcOk, ValidName, Start, Visit, ReadEntry, SplitSign, Parse;
    match stage
    case Begin => StartAlike(env, a, aStreams, b, bStreams, u, s, m, f);
    case Filing(pc) => FilingAlike(env, a, aStreams, b, bStreams, s, m, f, pc);
    case Scanning(i, scan) => VisitAlike(a, aStreams, b, bStreams, u, s, f, i, scan);
    case Digesting(i, scan) => ReadEntryAlike(env, a, aStreams, b, bStreams, u, s, f, i, scan);
  }

  lemma StartAlike(
    env: Env, a: Disk, aStreams: Streams, b: Disk, bStreams: Streams, u: bytes, s: Session, m: Msg, f: Faults)
    requires a.InodesOk() && StreamsOk(a, aStreams) && GoodMsg(m) && SessionOk(s) && (s.auth ==> s.id == u)
    requires a.Agrees(b, u) && HandleOf(aStreams, u) == HandleOf(bStreams, u)
    ensures MovesAlike(Start(env, a, aStreams, s, m, f), Start(env, b, bStreams, s, m, f), u)
  {
    RequestAlike(env, a, aStreams, b, bStreams, u, s, m, f);
    DirAlike(a, b, u);
    hide Disk.InodesOk, Disk.Agrees, StreamsOk, HandleRequest, SplitSign, Parse, HandleOf;
  }

  lemma VisitAlike(
    a: Disk, aStreams: Streams, b: Disk, bStreams: Streams, u: bytes, s: Session, f: Faults, i: nat, scan: Scan)
    requires a.InodesOk() && a.Agrees(b, u) && HandleOf(aStreams, u) == HandleOf(bStreams, u)
    requires s.id == u && i <= |f.listing|
    ensures MovesAlike(Visit(a, aStreams, s, f, i, scan), Visit(b, bStreams, s, f, i, scan), u)
  {
    if i < |f.listing| {
      EntryAlike(a, b, u, f.listing[i]);
    }
    hide Disk.InodesOk, Disk.Agrees, HandleOf;
  }

  lemma ReadEntryAlike(
    env: Env, a: Disk, aStreams: Streams, b: Disk, bStreams: Streams, u: bytes, s: Session, f: Faults, i: nat,
    scan: Scan)
    requires a.InodesOk() && a.Agrees(b, u) && HandleOf(aStreams, u) == HandleOf(bStreams, u)
    requires s.id == u && i < |f.listing|
    ensures MovesAlike(ReadEntry(env, a, aStreams, s, f, i, scan), ReadEntry(env, b, bStreams, s, f, i, scan), u)
  {
    EntryAlike(a, b, u, f.listing[i]);
    hide Disk.InodesOk, Disk.Agrees, Disk.Read, HandleOf, Text, CreateSign;
  }

  lemma EntryAlike(a: Disk, b: Disk, u: bytes, p: Path)
    requires a.InodesOk() && a.Agrees(b, u)
    ensures [u] + p in a.files <==> [u] + p in b.files
    ensures a.Read([u] + p) == b.Read([u] + p)
  {
    var path := [u] + p;
    assert path[0] == u && (path in a.files ==> a.files[path].home == u);
  }

  /** The shared state after an operation. */
  ghost predicate Keeps(disk: Disk, streams: Streams, disk': Disk, streams': Streams, id: bytes) {
    && disk'.InodesOk() && StreamsOk(disk', streams')
    && (forall i <- disk.data :: i in disk'.data)
    && (forall other | other != id ::
          disk.Agrees(disk', other) && HandleOf(streams', other) == HandleOf(streams, other))
  }

  lemma FilingKeeps(env: Env, disk: Disk, streams: Streams, s: Session, m: Msg, f: Faults, pc: Pc)
    requires disk.InodesOk() && StreamsOk(disk, streams) && PathOf(m).Some? && PathOf(m).value != []
    requires StageOk(s, m, f, Filing(pc)) && StageInodes(disk, streams, s, Filing(pc))
    ensures var t := TickOnce(env.hash, LocalOf(disk, streams, s), RequestOf(m), f, pc);
      && (!t.Ended? ==> Keeps(disk, streams, t.st.disk, WithHandle(streams, s.id, t.st.handle), s.id))
      && (t.More? ==>
            StageInodes(t.st.disk, WithHandle(streams, s.id, t.st.handle), s.(index := t.st.index), Filing(t.pc)))
  {
    hide Disk.InodesOk, Disk.Agrees, StreamsOk, TickOnce, SplitSign, Parse, PcOk;
    var st, r := LocalOf(disk, streams, s), RequestOf(m);
    LocalHandleOk(disk, streams, s);
    TickKeeps(env.hash, st, r, f, pc);
    var t := TickOnce(env.hash, st, r, f, pc);
    if !t.Ended? {
      forall other | other != s.id ensures disk.Agrees(t.st.disk, other) {
        TickFrame(env.hash, st, r, f, pc, other);
      }
      StreamsKept(disk, t.st.disk, streams, s.id, t.st.handle);
      FinishAgain(streams, s, [], t.st, Halt);
    }
  }

  /** Every operation of a thread keeps inodes, streams and session in order, and nothing of another
      user's changes. */
  lemma TakeKeeps(env: Env, disk: Disk, streams: Streams, s: Session, m: Msg, f: Faults, stage: Stage)
    requires disk.InodesOk() && StreamsOk(disk, streams) && SessionOk(s) && GoodMsg(m)
    requires StageOk(s, m, f, stage) && StageInodes(disk, streams, s, stage)
    ensures MoveOk(Take(env, disk, streams, s, m, f, stage), disk, streams, s.id)
  {
    hide Disk.InodesOk, StreamsOk, Keeps, TickOnce, HandleOf, ValidName, Start, Visit, ReadEntry, SplitSign, Parse,
         PcOk;
    match stage
    case Begin => StartKeeps(env, disk, streams, s, m, f);
    case Filing(pc) => FilingKeeps(env, disk, streams, s, m, f, pc);
    case Scanning(i, scan) => VisitKeeps(disk, streams, s, f, i, scan);
    case Digesting(i, scan) => ReadEntryKeeps(env, disk, streams, s, f, i, scan);
  }

  /** The operation went well and changed only what is the user's. */
  ghost predicate MoveOk(v: Move, disk: Disk, streams: Streams, id: bytes) {
    match v
    case Over(Crashed) => true
    case Over(Replied(disk', streams', s', _)) => Keeps(disk, streams, disk', streams', id) && SessionOk(s')
    case Going(disk', streams', s', stage') =>
      Keeps(disk, streams, disk', streams', id) && SessionOk(s') && StageInodes(disk', streams', s', stage')
  }

  lemma StartKeeps(env: Env, disk: Disk, streams: Streams, s: Session, m: Msg, f: Faults)
    requires disk.InodesOk() && StreamsOk(disk, streams) && SessionOk(s) && GoodMsg(m)
    ensures MoveOk(Start(env, disk, streams, s, m, f), disk, streams, s.id)
  {
    hide Disk.InodesOk, Disk.Agrees, StreamsOk, HandleRequest, HandleOf, SplitSign, Parse;
    forall other: bytes { SameDisk(disk, other); }
    RequestKeepsOrdinary(env, disk, streams, s, m, f);
    if !Reaches(s, m) {
      PrivateTouchesNothing(env, disk, streams, s, m, f);
    }
  }

  /** A request that is turned down, or is neither for files nor a SYNC, concerns only the session. */
  lemma PrivateTouchesNothing(env: Env, disk: Disk, streams: Streams, s: Session, m: Msg, f: Faults)
    requires GoodMsg(m) && !Reaches(s, m)
    ensures var o := HandleRequest(env, disk, streams, s, m, f);
      o.Replied? ==> o.disk == disk && o.streams == streams
  {
    hide ScanFiles, SplitSign, Parse;
  }

  lemma VisitKeeps(disk: Disk, streams: Streams, s: Session, f: Faults, i: nat, scan: Scan)
    requires disk.InodesOk() && StreamsOk(disk, streams) && SessionOk(s) && s.auth && i <= |f.listing|
    ensures MoveOk(Visit(disk, streams, s, f, i, scan), disk, streams, s.id)
  {
    hide Disk.InodesOk, Disk.Agrees, StreamsOk, HandleOf;
    forall other: bytes { SameDisk(disk, other); }
  }

  lemma ReadEntryKeeps(env: Env, disk: Disk, streams: Streams, s: Session, f: Faults, i: nat, scan: Scan)
    requires disk.InodesOk() && StreamsOk(disk, streams) && SessionOk(s) && !s.synced && i < |f.listing|
    ensures MoveOk(ReadEntry(env, disk, streams, s, f, i, scan), disk, streams, s.id)
  {
    hide Disk.InodesOk, Disk.Agrees, StreamsOk, HandleOf, Text, CreateSign, Disk.Read;
    forall other: bytes { SameDisk(disk, other); }
  }

  /** The thread of a connection that is not authenticated touches nothing. */
  lemma AnonymousTouchesNothing(env: Env, disk: Disk, streams: Streams, s: Session, m: Msg, f: Faults, stage: Stage)
    requires SessionOk(s) && !s.auth && GoodMsg(m) && StageOk(s, m, f, stage)
    ensures match Take(env, disk, streams, s, m, f, stage)
      case Over(Replied(disk', streams', _, _)) => disk' == disk && streams' == streams
      case Over(Crashed) => false
      case Going(_, _, _, _) => false
  {
  }

  /** What a thread will come to does not depend on what belongs to another user. */
  lemma {:induction false} OutlookAlike(
    env: Env, a: Disk, aStreams: Streams, b: Disk, bStreams: Streams, u: bytes, s: Session, m: Msg, f: Faults,
    stage: Stage)
    requires a.InodesOk() && StreamsOk(a, aStreams)
    requires GoodMsg(m) && SessionOk(s) && (s.auth ==> s.id == u)
    requires StageOk(s, m, f, stage) && StageInodes(a, aStreams, s, stage)
    requires a.Agrees(b, u) && HandleOf(aStreams, u) == HandleOf(bStreams, u)
    ensures OutcomesAlike(Outlook(env, a, aStreams, s, m, f, stage), Outlook(env, b, bStreams, s, m, f, stage), u)
    decreases StageWeight(f, stage)
  {
    hide Disk.InodesOk, Disk.Agrees, StreamsOk, Take, StageInodes, HandleOf, SessionOk, StageOk, PathOf, ValidName;
    TakeAlike(env, a, aStreams, b, bStreams, u, s, m, f, stage);
    TakeKeeps(env, a, aStreams, s, m, f, stage);
    TakeLess(env, a, aStreams, s, m, f, stage);
    match Take(env, a, aStreams, s, m, f, stage)
    case Over(_) =>
    case Going(a', aStreams', s', stage') =>
      var y := Take(env, b, bStreams, s, m, f, stage);
      OutlookAlike(env, a', aStreams', y.disk, y.streams, u, s', m, f, stage');
  }
}

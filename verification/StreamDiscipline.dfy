/** When a user has an open stream (core/request_handler.cpp:172-206, 271-304,
    core/open_streams.cpp:16-38, core/connection.cpp:53-55). */
module StreamDiscipline {
  import opened Bytes
  import opened Paths
  import opened Disks
  import opened Transfer

  /** A request, with what the operating system decides, or the end of the connection. */
  datatype Act = Send(request: Request, faults: Faults) | Close

  ghost predicate GoodAct(a: Act) { a.Send? ==> a.request.path != [] }

  /** The state after the acts; None when the process ended. */
  function Play(hash: Hasher, st: Local, acts: seq<Act>): Option<Local>
    requires forall a <- acts :: GoodAct(a)
  {
    if acts == [] then Some(st)
    else
      assert GoodAct(Last(acts)) by { assert Last(acts) in acts; }
      match Play(hash, st, Front(acts))
      case None => None
      case Some(before) =>
        match Last(acts)
        case Close => Some(CloseStream(before))
        case Send(r, f) => match Serve(hash, before, r, f) case Halt => None case Next(after, _) => Some(after)
  }

  /** The chunk passes the checks and reaches the write. */
  predicate Writes(st: Local, r: Request, f: Faults)
    requires r.path != []
  {
    match r
    case Create(p, _, content, _) =>
      var (disk, made) := st.disk.MakeDirs(Front(st.Abs(p)), f.mkdir);
      !(p in st.index && st.index[p].synced) && made
      && WriteChunk(st.(disk := disk), st.Abs(p), content, f.open).Written?
    case Update(p, digest, content, _) =>
      p in st.index && st.index[p].digest != digest
      && WriteChunk(st, st.Abs(TempOf(p)), content, f.open).Written?
    case Erase(_, _) => false
  }

  /** A chunk that reaches the write leaves the stream open exactly if it is not the last; any other
      request neither opens nor closes one. */
  lemma StreamAfter(hash: Hasher, st: Local, r: Request, f: Faults)
    requires r.path != []
    ensures var s := Serve(hash, st, r, f);
      s.Next? ==>
        if Writes(st, r, f) then s.st.handle.Opened? <==> !r.last
        else s.st.handle.Opened? <==> st.handle.Opened?
    ensures var s := Serve(hash, st, r, f);
      s.Next? && Writes(st, r, f) && r.last ==> s.st.handle.Absent?
  {
  }

  /** The i-th act decides about the stream. */
  ghost predicate Decides(hash: Hasher, st: Local, acts: seq<Act>, i: nat)
    requires forall a <- acts :: GoodAct(a)
    requires i < |acts|
  {
    assert GoodAct(acts[i]);
    var before := Play(hash, st, acts[..i]);
    acts[i].Close? || (before.Some? && Writes(before.value, acts[i].request, acts[i].faults))
  }

  /** It is the last one that does. */
  ghost predicate LastDecides(hash: Hasher, st: Local, acts: seq<Act>, i: nat)
    requires forall a <- acts :: GoodAct(a)
  {
    i < |acts| && Decides(hash, st, acts, i) && forall j | i < j < |acts| :: !Decides(hash, st, acts, j)
  }

  /** A chunk that is not the last of its file. */
  predicate LeavesOpen(a: Act) {
    a.Send? && !a.request.Erase? && !a.request.last
  }

  /** Over every run that starts without a stream: one is open exactly when the last chunk that
      reached the write was not a last chunk and no shutdown followed it. */
  lemma {:induction false} StreamOpenExactly(hash: Hasher, st: Local, acts: seq<Act>)
    requires forall a <- acts :: GoodAct(a)
    requires !st.handle.Opened? && Play(hash, st, acts).Some?
    ensures Play(hash, st, acts).value.handle.Opened?
       <==> exists i: nat :: LastDecides(hash, st, acts, i) && LeavesOpen(acts[i])
  {
    hide Writes, Serve, WriteChunk;
    if acts != [] {
      var n, a := |acts|, Last(acts);
      assert GoodAct(a) by { assert a in acts; }
      StreamOpenExactly(hash, st, Front(acts));
      var before := Play(hash, st, Front(acts)).value;
      assert acts[..n - 1] == Front(acts);
      if a.Send? {
        StreamAfter(hash, before, a.request, a.faults);
        LastOfRequest(before, a.request, a.faults);
      }
      DecidesLast(hash, st, acts);
      hide Decides;
      forall i: nat | i < n - 1
        ensures LastDecides(hash, st, acts, i)
           <==> LastDecides(hash, st, Front(acts), i) && !Decides(hash, st, acts, n - 1)
      {
        LastDecidesFront(hash, st, acts, i);
      }
      if Decides(hash, st, acts, n - 1) {
        assert LastDecides(hash, st, acts, n - 1);
      } else if i: nat :| LastDecides(hash, st, Front(acts), i) && LeavesOpen(Front(acts)[i]) {
        assert LastDecides(hash, st, acts, i) && LeavesOpen(acts[i]);
      }
    }
  }

  lemma DecidesLast(hash: Hasher, st: Local, acts: seq<Act>)
    requires acts != [] && forall a <- acts :: GoodAct(a)
    requires Play(hash, st, Front(acts)).Some?
    ensures var a := Last(acts);
      && GoodAct(a)
      && (Decides(hash, st, acts, |acts| - 1)
          <==> a.Close? || Writes(Play(hash, st, Front(acts)).value, a.request, a.faults))
  {
    assert acts[..|acts| - 1] == Front(acts);
    assert Last(acts) in acts;
  }

  lemma LastOfRequest(st: Local, r: Request, f: Faults)
    requires r.path != []
    ensures Writes(st, r, f) ==> !r.Erase?
  {
  }

  lemma LastDecidesFront(hash: Hasher, st: Local, acts: seq<Act>, i: nat)
    requires forall a <- acts :: GoodAct(a)
    requires i < |acts| - 1
    ensures LastDecides(hash, st, acts, i)
       <==> LastDecides(hash, st, Front(acts), i) && !Decides(hash, st, acts, |acts| - 1)
  {
    hide Writes, Play;
    forall j | 0 <= j < |acts| - 1 ensures Decides(hash, st, acts, j) <==> Decides(hash, st, Front(acts), j) {
      assert Front(acts)[..j] == acts[..j];
    }
  }

  /** A stream that failed to open fails every CREATE and UPDATE chunk, whatever it names. */
  lemma BadStays(hash: Hasher, st: Local, r: Request, f: Faults)
    requires st.handle.Bad? && r.path != []
    ensures var s := Serve(hash, st, r, f);
      s.Next? && s.st.handle.Bad? && (!r.Erase? ==> s.st.index == st.index && s.status != Ok)
  {
    hide Disk.MakeDirs, Disk.Remove, Prune;
  }

  /** And it stays until the connection ends: after any requests, ERASE among them, and whatever the
      operating system does meanwhile, the process still runs, the stream is still there, and no
      CREATE or UPDATE chunk succeeds. */
  lemma {:induction false} BadUntilClosed(hash: Hasher, st: Local, acts: seq<Act>, r: Request, f: Faults)
    requires forall a <- acts :: GoodAct(a)
    requires st.handle.Bad? && Close !in acts && r.path != []
    ensures var now := Play(hash, st, acts);
      && now.Some? && now.value.handle.Bad?
      && var s := Serve(hash, now.value, r, f);
         s.Next? && (!r.Erase? ==> s.st.index == now.value.index && s.status != Ok)
  {
    hide Serve;
    if acts == [] {
      BadStays(hash, st, r, f);
    } else {
      var a := Last(acts);
      assert a in acts && GoodAct(a);
      BadUntilClosed(hash, st, Front(acts), a.request, a.faults);
      var before := Play(hash, st, Front(acts)).value;
      BadStays(hash, before, a.request, a.faults);
      BadStays(hash, Serve(hash, before, a.request, a.faults).st, r, f);
    }
  }

  /** A user without a stream writes to the file of the path at hand. */
  lemma StartsOnItsOwnFile(st: Local, path: Path, content: bytes, open: OpenOutcome)
    requires st.handle.Absent? && path != []
    ensures var w := WriteChunk(st, path, content, open);
      w.Written? ==> w.first && path in w.st.disk.files && w.st.handle == Opened(w.st.disk.files[path])
  {
  }
}

/** The file system stays a tree in every reachable state. */
module Trees {
  import opened Bytes
  import opened Paths
  import opened Disks
  import opened Transfer
  import opened Pruning
  import opened Sessions
  import opened Servers
  import opened Steps
  import opened Jobs
  import opened Schedules

  lemma OpenKeepsTree(disk: Disk, p: Path, allowed: bool)
    requires disk.TreeOk() && p != []
    ensures disk.OpenAppend(p, allowed).0.TreeOk()
  {
  }

  lemma MakeDirsKeepsTree(disk: Disk, p: Path, refused: Option<nat>)
    requires disk.TreeOk()
    ensures disk.MakeDirs(p, refused).0.TreeOk()
  {
    var after := disk.MakeDirs(p, refused).0;
    forall d | d in after.dirs ensures d != [] && after.IsDir(Front(d)) && d !in after.files {
      if d !in disk.dirs {
        var k :| 1 <= k <= |p| && d == p[..k] && d in after.dirs;
        assert Front(d) == p[..k - 1];
        assert k > 1 ==> p[..k - 1] in after.dirs;
      }
    }
  }

  lemma RemoveKeepsTree(disk: Disk, p: Path)
    requires disk.TreeOk() && p != []
    ensures disk.RemoveFile(p).TreeOk()
    ensures disk.Remove(p).Some? ==> disk.Remove(p).value.TreeOk() && p !in disk.Remove(p).value.dirs
  {
    if p in disk.dirs && disk.IsEmptyDir(p) {
      LeafRemoved(disk, p);
    }
  }

  lemma RenameKeepsTree(disk: Disk, from: Path, to: Path)
    requires disk.TreeOk() && from in disk.files && to != [] && to !in disk.dirs && Front(from) == Front(to)
    ensures disk.Rename(from, to).TreeOk()
  {
  }

  lemma {:induction false} PruneKeepsTree(disk: Disk, q: Path, prunable: nat)
    requires disk.TreeOk()
    ensures Prune(disk, q, prunable).TreeOk()
    decreases prunable
  {
    hide Disk.TreeOk, Disk.IsEmptyDir;
    if !(prunable == 0 || |q| <= 1 || q !in disk.dirs || !disk.IsEmptyDir(q)) {
      LeafRemoved(disk, q);
      PruneKeepsTree(disk.RemoveDir(q), Front(q), prunable - 1);
    }
  }

  lemma WriteKeepsTree(st: Local, path: Path, content: bytes, open: OpenOutcome)
    requires st.disk.TreeOk() && path != []
    ensures WriteChunk(st, path, content, open).st.disk.TreeOk()
  {
    OpenKeepsTree(st.disk, path, open.Allowed?);
    hide Disk.OpenAppend;
  }

  lemma SettleKeepsTree(hash: Hasher, st: Local, p: Path, digest: bytes, f: Faults, noMatch: nat, failed: nat)
    requires st.disk.TreeOk()
    ensures var r := Settle(hash, st, p, digest, f, noMatch, failed);
      r.Next? ==> r.st.disk.TreeOk()
  {
    RemoveKeepsTree(st.disk, st.Abs(p));
  }

  lemma ReplaceKeepsTree(st: Local, p: Path, f: Faults)
    requires st.disk.TreeOk() && p != []
    ensures Replace(st, p, f).Some? ==> Replace(st, p, f).value.disk.TreeOk()
  {
    hide Disk.TreeOk, Disk.Remove;
    RemoveKeepsTree(st.disk, st.Abs(p));
    var removed := st.disk.Remove(st.Abs(p));
    if removed.Some? && st.Abs(TempOf(p)) in removed.value.files {
      assert Front(st.Abs(TempOf(p))) == Front(st.Abs(p));
      RenameKeepsTree(removed.value, st.Abs(TempOf(p)), st.Abs(p));
    }
  }

  /** Every request leaves a tree, whatever the operating system refuses. */
  lemma ServeKeepsTree(hash: Hasher, st: Local, r: Request, f: Faults)
    requires st.disk.TreeOk() && r.path != []
    ensures Serve(hash, st, r, f).Next? ==> Serve(hash, st, r, f).st.disk.TreeOk()
  {
    hide Disk.TreeOk, Disk.MakeDirs, Disk.Remove, WriteChunk, Settle, Replace, Prune;
    var path := st.Abs(r.path);
    match r
    case Create(p, digest, content, last) =>
      MakeDirsKeepsTree(st.disk, Front(path), f.mkdir);
      var st0 := st.(disk := st.disk.MakeDirs(Front(path), f.mkdir).0);
      WriteKeepsTree(st0, path, content, f.open);
      var st1 := WriteChunk(st0, path, content, f.open).st;
      SettleKeepsTree(hash, st1.(index := st1.index[p := Resource(true, digest)], handle := Absent), p, digest, f,
        ERR_CREATE_NO_MATCH, ERR_CREATE_FAILED);
    case Update(p, digest, content, last) =>
      WriteKeepsTree(st, st.Abs(TempOf(p)), content, f.open);
      var st1 := WriteChunk(st, st.Abs(TempOf(p)), content, f.open).st;
      var st2 := st1.(index := st1.index[p := Resource(true, digest)], handle := Absent);
      ReplaceKeepsTree(st2, p, f);
      if Replace(st2, p, f).Some? {
        SettleKeepsTree(hash, Replace(st2, p, f).value, p, digest, f, ERR_UPDATE_NO_MATCH, ERR_UPDATE_FAILED);
      }
    case Erase(_, _) =>
      RemoveKeepsTree(st.disk, path);
      if st.disk.Remove(path).Some? {
        PruneKeepsTree(st.disk.Remove(path).value, Front(path), f.prunable);
      }
  }

  lemma StepKeepsTree(env: Env, s: Server, e: Event)
    requires s.disk.TreeOk() && GoodEvent(e)
    ensures Advance(env, s, e).Running? ==> Advance(env, s, e).server.disk.TreeOk()
  {
    hide Disk.TreeOk, Serve, ScanFiles, SplitSign, Parse;
    if e.Incoming? && e.conn in s.live {
      var ses, m := s.live[e.conn], e.msg;
      if PathOf(m).Some? && (m.kind == ERASE || |m.tlvs| > 1) {
        ServeKeepsTree(env.hash, LocalOf(s.disk, s.streams, ses), RequestOf(m), e.faults);
      }
    }
  }

  /** In every state of every run directory entries form a tree: no name is both a file and a
      directory, and whatever exists has its parents. */
  lemma {:induction false} AlwaysTree(env: Env, s: Server, es: seq<Event>)
    requires s.disk.TreeOk() && forall e <- es :: GoodEvent(e)
    ensures RunServer(env, s, es).Running? ==> RunServer(env, s, es).server.disk.TreeOk()
  {
    hide Advance, Disk.TreeOk, GoodEvent;
    if es != [] {
      assert GoodEvent(Last(es)) by { assert Last(es) in es; }
      AlwaysTree(env, s, Front(es));
      if RunServer(env, s, Front(es)).Running? {
        StepKeepsTree(env, RunServer(env, s, Front(es)).server, Last(es));
      }
    }
  }

  /** Every single operation leaves a tree. */
  lemma TickKeepsTree(hash: Hasher, st: Local, r: Request, f: Faults, pc: Pc)
    requires st.disk.TreeOk() && r.path != [] && Fits(r, pc)
    ensures var t := TickOnce(hash, st, r, f, pc);
      !t.Ended? ==> t.st.disk.TreeOk()
  {
    hide Disk.TreeOk, Disk.MakeDirs, Disk.Remove, Disk.OpenAppend, Disk.IsEmptyDir;
    var path := st.Abs(r.path);
    RemoveKeepsTree(st.disk, path);
    match pc
    case MakingDirs => MakeDirsKeepsTree(st.disk, Front(path), f.mkdir);
    case Opening => OpenKeepsTree(st.disk, TargetOf(st, r), f.open.Allowed?);
    case Writing(inode, _) => AppendKeepsTree(st.disk, inode, if r.Erase? then [] else r.content);
    case Renaming =>
      if st.disk.CanRename(TargetOf(st, r), path) {
        assert Front(TargetOf(st, r)) == Front(path);
        RenameKeepsTree(st.disk, TargetOf(st, r), path);
      }
    case Unmaking(dir, _) =>
      if dir in st.disk.dirs && st.disk.IsEmptyDir(dir) {
        LeafRemoved(st.disk, dir);
      }
    case _ =>
  }

  lemma AppendKeepsTree(disk: Disk, i: Inode, content: bytes)
    requires disk.TreeOk()
    ensures disk.Append(i, content).TreeOk()
  {
  }

  lemma PerformKeepsTree(env: Env, s: Pool, x: Action)
    requires PoolOk(s) && GoodAction(x) && s.disk.TreeOk()
    ensures Perform(env, s, x).Up? ==> Perform(env, s, x).pool.disk.TreeOk()
  {
    hide Disk.TreeOk, Disk.InodesOk, StreamsOk, TickOnce, SplitSign, Parse, ScanFiles, Serve;
    if x.Operate? && x.conn in s.clients && s.clients[x.conn].job.Busy? {
      var Client(session, Busy(m, f, stage)) := s.clients[x.conn];
      assert JobOk(s.disk, s.streams, s.clients[x.conn]);
      match stage
      case Begin =>
        if !Reaches(session, m) {
          PrivateTouchesNothing(env, s.disk, s.streams, session, m, f);
        }
      case Filing(pc) => TickKeepsTree(env.hash, LocalOf(s.disk, s.streams, session), RequestOf(m), f, pc);
      case _ =>
    }
  }

  /** In every state of every schedule of single operations directory entries form a tree. */
  lemma {:induction false} ScheduleKeepsTree(env: Env, s: Pool, xs: seq<Action>)
    requires PoolOk(s) && s.disk.TreeOk() && forall x <- xs :: GoodAction(x)
    ensures RunPool(env, s, xs).Up? ==> RunPool(env, s, xs).pool.disk.TreeOk()
  {
    hide Perform, Disk.TreeOk, GoodAction, PoolOk;
    if xs != [] {
      assert GoodAction(Last(xs)) by { assert Last(xs) in xs; }
      ScheduleKeepsTree(env, s, Front(xs));
      if RunPool(env, s, Front(xs)).Up? {
        PerformKeepsTree(env, RunPool(env, s, Front(xs)).pool, Last(xs));
      }
    }
  }
}

/** What one user gets does not depend on what the others do, operation by operation. */
module NonInterference {
  import opened Bytes
  import opened Paths
  import opened Disks
  import opened Sessions
  import opened Servers
  import opened Jobs
  import opened Schedules

  /** Among the live connections those in `mine`, and only those, may act for the user `u`. */
  ghost predicate Owned(s: Pool, u: bytes, mine: set<nat>) {
    forall c <- s.clients ::
      var session := s.clients[c].session;
      if c in mine then session.auth ==> session.id == u else session.id != u
  }

  /** So it is in every state of the schedule. */
  ghost predicate OwnedRun(env: Env, s: Pool, xs: seq<Action>, u: bytes, mine: set<nat>)
    requires PoolOk(s) && forall x <- xs :: GoodAction(x)
  {
    && (RunPool(env, s, xs).Up? ==> Owned(RunPool(env, s, xs).pool, u, mine))
    && (xs != [] ==> OwnedRun(env, s, Front(xs), u, mine))
  }

  /** The user `u` sees the same in both pools: the same connections, stream, files and directories. */
  ghost predicate SameFor(a: Pool, b: Pool, u: bytes, mine: set<nat>) {
    && PoolOk(a) && PoolOk(b)
    && (forall c <- mine :: c in a.clients <==> c in b.clients)
    && (forall c <- mine :: c in a.clients ==> a.clients[c] == b.clients[c])
    && a.disk.Agrees(b.disk, u)
    && HandleOf(a.streams, u) == HandleOf(b.streams, u)
  }

  function OnlyMine(xs: seq<Action>, mine: set<nat>): seq<Action> {
    if xs == [] then []
    else OnlyMine(Front(xs), mine) + (if Last(xs).conn in mine then [Last(xs)] else [])
  }

  function MyLog(log: seq<(nat, Reply)>, mine: set<nat>): seq<(nat, Reply)> {
    if log == [] then []
    else MyLog(Front(log), mine) + (if Last(log).0 in mine then [Last(log)] else [])
  }

  /** An operation of one of the user's own threads comes out the same. */
  lemma MineAlike(env: Env, a: Pool, b: Pool, c: nat, u: bytes, mine: set<nat>)
    requires SameFor(a, b, u, mine) && Owned(a, u, mine) && c in mine
    requires c in a.clients && a.clients[c].job.Busy?
    ensures c in b.clients && b.clients[c].job.Busy?
    ensures MovesAlike(NextMove(env, a, c), NextMove(env, b, c), u)
  {
    hide Disk.InodesOk, Disk.Agrees, StreamsOk, Take, StageOk, StageInodes;
    var Client(session, Busy(m, f, stage)) := a.clients[c];
    assert SessionOk(session) && JobOk(a.disk, a.streams, a.clients[c]);
    TakeAlike(env, a.disk, a.streams, b.disk, b.streams, u, session, m, f, stage);
  }

  /** An operation of another user's thread changes nothing for the user. */
  lemma OthersKeep(env: Env, a: Pool, c: nat, u: bytes)
    requires PoolOk(a) && c in a.clients && a.clients[c].job.Busy? && a.clients[c].session.id != u
    ensures match NextMove(env, a, c)
      case Over(Crashed) => true
      case Over(Replied(disk, streams, _, _)) => Keeps(a.disk, a.streams, disk, streams, a.clients[c].session.id)
      case Going(disk, streams, _, _) => Keeps(a.disk, a.streams, disk, streams, a.clients[c].session.id)
  {
    hide Disk.InodesOk, Disk.Agrees, StreamsOk, Take, StageOk, StageInodes, Keeps;
    var Client(session, Busy(m, f, stage)) := a.clients[c];
    assert SessionOk(session) && JobOk(a.disk, a.streams, a.clients[c]);
    TakeKeeps(env, a.disk, a.streams, session, m, f, stage);
  }

  ghost predicate StatesAlike(x: State, y: State, u: bytes, mine: set<nat>) {
    && x.Up? == y.Up?
    && (x.Up? ==> SameFor(x.pool, y.pool, u, mine) && x.log == y.log)
  }

  lemma MyStepAlike(env: Env, a: Pool, b: Pool, x: Action, u: bytes, mine: set<nat>)
    requires u != [] && SameFor(a, b, u, mine) && Owned(a, u, mine) && GoodAction(x) && x.conn in mine
    ensures StatesAlike(Perform(env, a, x), Perform(env, b, x), u, mine)
    ensures Perform(env, a, x).Up? ==> forall l <- Perform(env, a, x).log :: l.0 == x.conn
  {
    hide PoolOk, Disk.Agrees, NextMove;
    PerformKeepsOk(env, a, x);
    PerformKeepsOk(env, b, x);
    match x
    case Operate(c) => OperateAlike(env, a, b, c, u, mine);
    case Close(c) => CloseAlike(env, a, b, c, u, mine);
    case _ =>
  }

  lemma OperateAlike(env: Env, a: Pool, b: Pool, c: nat, u: bytes, mine: set<nat>)
    requires SameFor(a, b, u, mine) && Owned(a, u, mine) && c in mine
    ensures StatesAlike(Perform(env, a, Operate(c)), Perform(env, b, Operate(c)), u, mine)
  {
    hide PoolOk, Disk.Agrees, NextMove, HandleOf, Owned;
    PerformKeepsOk(env, a, Operate(c));
    PerformKeepsOk(env, b, Operate(c));
    if c in a.clients && a.clients[c].job.Busy? {
      MineAlike(env, a, b, c, u, mine);
    }
  }

  lemma CloseAlike(env: Env, a: Pool, b: Pool, c: nat, u: bytes, mine: set<nat>)
    requires SameFor(a, b, u, mine) && Owned(a, u, mine) && c in mine
    ensures StatesAlike(Perform(env, a, Close(c)), Perform(env, b, Close(c)), u, mine)
  {
    hide PoolOk, Disk.Agrees, NextMove;
    PerformKeepsOk(env, a, Close(c));
    PerformKeepsOk(env, b, Close(c));
  }

  lemma OtherStepKeeps(env: Env, a: Pool, b: Pool, x: Action, u: bytes, mine: set<nat>)
    requires u != [] && SameFor(a, b, u, mine) && Owned(a, u, mine) && GoodAction(x) && x.conn !in mine
    ensures var after := Perform(env, a, x);
      after.Up? ==> SameFor(after.pool, b, u, mine) && forall l <- after.log :: l.0 == x.conn
  {
    hide PoolOk, Disk.Agrees, NextMove, Owned;
    PerformKeepsOk(env, a, x);
    if x.Operate? {
      OtherOperationKeeps(env, a, b, x.conn, u, mine);
    } else {
      assert x.conn in a.clients ==> a.clients[x.conn].session.id != u by { NotTheirs(a, x.conn, u, mine); }
    }
  }

  lemma NotTheirs(a: Pool, c: nat, u: bytes, mine: set<nat>)
    requires Owned(a, u, mine) && c !in mine
    ensures c in a.clients ==> a.clients[c].session.id != u
  {
  }

  lemma OtherOperationKeeps(env: Env, a: Pool, b: Pool, c: nat, u: bytes, mine: set<nat>)
    requires SameFor(a, b, u, mine) && Owned(a, u, mine) && c !in mine
    ensures var after := Perform(env, a, Operate(c));
      after.Up? ==> SameFor(after.pool, b, u, mine) && forall l <- after.log :: l.0 == c
  {
    hide PoolOk, Disk.Agrees, NextMove, StreamsOk, Disk.InodesOk, HandleOf;
    PerformKeepsOk(env, a, Operate(c));
    var after := Perform(env, a, Operate(c));
    if c in a.clients && a.clients[c].job.Busy? && after.Up? {
      OthersKeep(env, a, c, u);
      AgreesSymmetric(a.disk, after.pool.disk, u);
      AgreesTransitive(after.pool.disk, a.disk, b.disk, u);
    }
  }

  /** For every schedule of single operations in which only the connections of `mine` authenticate as
      `u`: as long as the process lives, leaving out all operations of all other connections changes
      nothing for `u`, neither files, index and stream nor replies. When an operation ends the process,
      it ends without the others too if the operation is one of `mine`; otherwise it goes on, and `u`
      notices only that. */
  lemma {:induction false} NonInterference(env: Env, a: Pool, b: Pool, xs: seq<Action>, u: bytes, mine: set<nat>)
    requires u != [] && SameFor(a, b, u, mine)
    requires forall x <- xs :: GoodAction(x)
    requires OwnedRun(env, a, xs, u, mine)
    ensures forall x <- OnlyMine(xs, mine) :: GoodAction(x)
    ensures var x, y := RunPool(env, a, xs), RunPool(env, b, OnlyMine(xs, mine));
      && (x.Up? ==> y.Up? && SameFor(x.pool, y.pool, u, mine) && MyLog(x.log, mine) == y.log)
      && (xs != [] && RunPool(env, a, Front(xs)).Up? && x.Down? ==> (y.Down? <==> Last(xs).conn in mine))
  {
    hide Perform, Owned, GoodAction, PoolOk;
    if xs != [] {
      var e, front := Last(xs), Front(xs);
      assert GoodAction(e) by { assert e in xs; }
      NonInterference(env, a, b, front, u, mine);
      var mineOnly := OnlyMine(xs, mine);
      if e.conn in mine {
        assert Front(mineOnly) == OnlyMine(front, mine) && Last(mineOnly) == e;
      } else {
        assert mineOnly == OnlyMine(front, mine);
      }
      hide SameFor, OnlyMine, MyLog;
      var x, y := RunPool(env, a, front), RunPool(env, b, OnlyMine(front, mine));
      if x.Up? {
        NextAlike(env, x, y, e, u, mine);
      }
    }
  }

  /** One more action, in both pools or in one. */
  lemma NextAlike(env: Env, x: State, y: State, e: Action, u: bytes, mine: set<nat>)
    requires u != [] && GoodAction(e) && x.Up? && y.Up? && MyLog(x.log, mine) == y.log
    requires SameFor(x.pool, y.pool, u, mine) && Owned(x.pool, u, mine)
    ensures var n, m := Perform(env, x.pool, e), if e.conn in mine then Perform(env, y.pool, e) else Up(y.pool, []);
      && (n.Up? ==> m.Up? && SameFor(n.pool, m.pool, u, mine) && MyLog(x.log + n.log, mine) == y.log + m.log)
      && (n.Down? ==> (m.Down? <==> e.conn in mine))
  {
    hide Perform, Owned, GoodAction, PoolOk, MyLog;
    var next := Perform(env, x.pool, e);
    if e.conn in mine {
      MyStepAlike(env, x.pool, y.pool, e, u, mine);
    } else {
      OtherStepKeeps(env, x.pool, y.pool, e, u, mine);
      assert y.log + [] == y.log;
    }
    hide SameFor;
    if next.Up? {
      LogOfOne(x.log, next.log, e.conn, mine);
    }
  }

  lemma {:induction false} LogOfOne(log: seq<(nat, Reply)>, more: seq<(nat, Reply)>, c: nat, mine: set<nat>)
    requires forall l <- more :: l.0 == c
    ensures MyLog(log + more, mine) == MyLog(log, mine) + (if c in mine then more else [])
  {
    if more == [] {
      assert log + more == log;
    } else {
      assert Front(log + more) == log + Front(more);
      LogOfOne(log, Front(more), c, mine);
      assert Last(more) in more;
      assert more == Front(more) + [Last(more)];
    }
  }

  /** In particular from one server that has just started. */
  lemma AloneOnTheServer(env: Env, disk: Disk, xs: seq<Action>, u: bytes, mine: set<nat>)
    requires u != [] && disk.InodesOk()
    requires forall x <- xs :: GoodAction(x)
    requires OwnedRun(env, Pool(disk, map[], map[]), xs, u, mine)
    ensures forall x <- OnlyMine(xs, mine) :: GoodAction(x)
    ensures var all := RunPool(env, Pool(disk, map[], map[]), xs);
      var alone := RunPool(env, Pool(disk, map[], map[]), OnlyMine(xs, mine));
      all.Up? ==>
        && alone.Up?
        && MyLog(all.log, mine) == alone.log
        && HandleOf(all.pool.streams, u) == HandleOf(alone.pool.streams, u)
        && (forall c <- mine :: c in all.pool.clients <==> c in alone.pool.clients)
        && (forall c <- mine :: c in all.pool.clients ==> all.pool.clients[c] == alone.pool.clients[c])
        && (forall p: Path :: p != [] && p[0] == u ==>
              && (p in all.pool.disk.files <==> p in alone.pool.disk.files)
              && (p in all.pool.disk.dirs <==> p in alone.pool.disk.dirs)
              && all.pool.disk.Read(p) == alone.pool.disk.Read(p))
  {
    var s := Pool(disk, map[], map[]);
    SameDisk(disk, u);
    NonInterference(env, s, s, xs, u, mine);
    if RunPool(env, s, xs).Up? {
      var a, b := RunPool(env, s, xs).pool.disk, RunPool(env, s, OnlyMine(xs, mine)).pool.disk;
      forall p: Path | p != [] && p[0] == u ensures a.Read(p) == b.Read(p) {
        assert p in a.files ==> a.files[p].home == u;
      }
    }
  }
}

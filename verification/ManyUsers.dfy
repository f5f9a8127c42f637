/** One user's atomic store on a server whose threads run for any number of users. */
module ManyUsers {
  import opened Bytes
  import opened Paths
  import opened Disks
  import opened Transfer
  import opened Soundness
  import opened Isolation
  import opened Chunks
  import opened Stores
  import opened AtomicStore
  import opened Sessions
  import opened Servers
  import opened RequestIsolation
  import opened ServerSoundness
  import opened Jobs
  import opened Schedules
  import opened Serial
  import opened Liveness
  import opened NonInterference
  import opened Trees
  import opened ClientProtocol

  /** The events of some connections. */
  function MyEvents(es: seq<Event>, mine: set<nat>): seq<Event> {
    if es == [] then []
    else MyEvents(Front(es), mine) + (if Last(es).conn in mine then [Last(es)] else [])
  }

  lemma CompletedAlike(env: Env, a: Pool, b: Pool, x: Action, u: bytes, mine: set<nat>)
    requires SameFor(a, b, u, mine) && NonInterference.Owned(a, u, mine) && GoodAction(x) && x.conn in mine
    ensures Completed(env, a, x) == Completed(env, b, x)
  {
    hide PoolOk, NextMove;
    if x.Operate? && x.conn in a.clients && a.clients[x.conn].job.Busy? {
      MineAlike(env, a, b, x.conn, u, mine);
    }
  }

  /** The whole requests of some connections are the same when all others are left out. */
  lemma {:induction false} WholeAlike(env: Env, a: Pool, b: Pool, xs: seq<Action>, u: bytes, mine: set<nat>)
    requires u != [] && SameFor(a, b, u, mine)
    requires forall x <- xs :: GoodAction(x)
    requires OwnedRun(env, a, xs, u, mine) && RunPool(env, a, xs).Up?
    ensures forall x <- OnlyMine(xs, mine) :: GoodAction(x)
    ensures MyEvents(WholeRequests(env, a, xs), mine) == WholeRequests(env, b, OnlyMine(xs, mine))
  {
    hide Perform, NonInterference.Owned, GoodAction, PoolOk, Completed;
    NonInterference.NonInterference(env, a, b, xs, u, mine);
    if xs != [] {
      var e, front := Last(xs), Front(xs);
      assert GoodAction(e) by { assert e in xs; }
      WholeAlike(env, a, b, front, u, mine);
      NonInterference.NonInterference(env, a, b, front, u, mine);
      var x, y := RunPool(env, a, front), RunPool(env, b, OnlyMine(front, mine));
      var mineOnly, done := OnlyMine(xs, mine), Completed(env, x.pool, e);
      MyEventsOf(WholeRequests(env, a, front), done, e.conn, mine);
      if e.conn in mine {
        assert Front(mineOnly) == OnlyMine(front, mine) && Last(mineOnly) == e;
        CompletedAlike(env, x.pool, y.pool, e, u, mine);
      } else {
        assert mineOnly == OnlyMine(front, mine);
      }
    }
  }

  lemma MyEventsOf(es: seq<Event>, more: seq<Event>, c: nat, mine: set<nat>)
    requires |more| <= 1 && forall e <- more :: e.conn == c
    ensures MyEvents(es + more, mine) == MyEvents(es, mine) + (if c in mine then more else [])
  {
    if more == [] {
      assert es + more == es;
    } else {
      assert Front(es + more) == es && Last(es + more) == more[0] && more == [more[0]];
    }
  }

  /** The user's part of the state. */
  ghost function UserOf(s: Pool, c: nat): Local
    requires c in s.clients
  {
    LocalOf(s.disk, s.streams, s.clients[c].session)
  }

  /** The server with only this connection, between requests and without a stream. */
  function Alone(s: Pool, c: nat): Pool
    requires c in s.clients
  {
    Pool(s.disk, map[], map[c := s.clients[c]])
  }

  lemma AloneAlike(env: Env, s: Pool, c: nat, mine: set<nat>)
    requires PoolOk(s) && c in s.clients && s.clients[c].job.Idle? && s.clients[c].session.auth && mine == {c}
    requires HandleOf(s.streams, s.clients[c].session.id).Absent?
    ensures s.clients[c].session.id != []
    ensures SameFor(s, Alone(s, c), s.clients[c].session.id, mine)
    ensures Matches(env, Alone(s, c), OnlyServer(s, c))
  {
    hide Disk.InodesOk;
    assert SessionOk(s.clients[c].session);
    SameDisk(s.disk, s.clients[c].session.id);
    var b, t := Alone(s, c), OnlyServer(s, c);
    forall u: bytes ensures UserMatches(b, t, u) {
      SameDisk(s.disk, u);
    }
    assert ClientMatches(env, b, t, c);
  }

  /** With a single connection no user has two. */
  lemma {:induction false} OnlyOneConnection(env: Env, s: Pool, xs: seq<Action>, c: nat)
    requires PoolOk(s) && s.clients.Keys <= {c} && forall x <- xs :: GoodAction(x) && x.conn == c
    ensures AlwaysOneEach(env, s, xs)
    ensures RunPool(env, s, xs).Up? ==> RunPool(env, s, xs).pool.clients.Keys <= {c}
  {
    hide PoolOk, GoodAction, NextMove;
    if xs != [] {
      assert Last(xs) in xs && GoodAction(Last(xs));
      OnlyOneConnection(env, s, Front(xs), c);
    }
  }

  lemma {:induction false} MineOnly(xs: seq<Action>, mine: set<nat>)
    ensures forall x <- OnlyMine(xs, mine) :: x.conn in mine
  {
    if xs != [] {
      MineOnly(Front(xs), mine);
    }
  }

  /** To its user the state looks like one in which the atomic store has come to this end. */
  ghost predicate LooksAs(hash: Hasher, st: Local, at: Attempt) {
    exists other :: Alike(st, other) && EndsAs(hash, other, at)
  }

  /** The connection has been answered as the atomic store answers; and if none of its requests is under
      way, its user's state is the one the atomic store has come to. */
  ghost predicate Served(hash: Hasher, s: Pool, log: seq<(nat, Reply)>, c: nat, cs: seq<Call>, at: Attempt) {
    && c in s.clients && !at.Dead? && |at.statuses| == |cs|
    && MyLog(log, {c}) == Echoes(c, cs, at.statuses)
    && (s.clients[c].job.Idle? ==>
          && LooksAs(hash, UserOf(s, c), at)
          && (at.Done? ==> Represents(hash, UserOf(s, c), at.store)))
  }

  /** One user's operations, sent over one connection, among the operations of any other users'
      threads, in any schedule and whatever the operating system does: as long as the process lives,
      the replies are those of a store of the user's own on which every operation is atomic, and
      between requests so are the user's files, directories and index. */
  lemma AtomicStoreAmongOthers(env: Env, s: Pool, c: nat, a: Store, ops: seq<Op>, xs: seq<Action>)
    requires PoolOk(s) && c in s.clients && s.clients[c].job.Idle?
    requires s.clients[c].session.auth && s.clients[c].session.synced && Represents(env.hash, UserOf(s, c), a)
    requires forall op <- ops :: GoodOp(op)
    requires (forall x <- AllMessages(ops) :: Understood(x)) && AtomicRun(env.hash, a, ops).Some?
    requires forall x <- xs :: GoodAction(x)
    requires OwnedRun(env, s, xs, s.clients[c].session.id, {c})
    requires MyEvents(WholeRequests(env, s, xs), {c}) == Sent(c, AllMessages(ops))
    ensures var r, at := RunPool(env, s, xs), AtomicRun(env.hash, a, ops).value;
      r.Up? ==> Served(env.hash, r.pool, r.log, c, AllMessages(ops), at)
  {
    hide RunPool, RunServer, AtomicRun, PoolOk, Represents, Understood, GoodOp, GoodAction, EndsAs, Matches, Echoes,
         NonInterference.Owned, Disk.TreeOk, WholeRequests, MyEvents, Sent, SameFor, OwnedRun, AllMessages,
         Alike, UserOf, OneEach, MyLog,
         OnlyMine, Alone, LooksAs, Served, UserState, OnlyServer;
    var r, mine, u := RunPool(env, s, xs), {c}, s.clients[c].session.id;
    if r.Up? {
      WireRun(env, s, c, a, ops);
      AloneRun(env, s, c, xs);
      ScheduleKeepsTree(env, s, xs);
      OwnedNow(env, s, xs, u, mine);
      var t := OnlyServer(s, c);
      Bridge(env, r.pool, RunPool(env, Alone(s, c), OnlyMine(xs, mine)).pool,
        RunServer(env, t, Sent(c, AllMessages(ops))).server, c, u, AtomicRun(env.hash, a, ops).value);
      ServedAtLast(env, r, c, AllMessages(ops), AtomicRun(env.hash, a, ops).value);
    }
  }

  /** The server that handles whole requests, with only this connection and no stream. */
  function OnlyServer(s: Pool, c: nat): Server
    requires c in s.clients
  {
    Server(s.disk, map[], map[c := s.clients[c].session])
  }

  lemma WireRun(env: Env, s: Pool, c: nat, a: Store, ops: seq<Op>)
    requires PoolOk(s) && c in s.clients
    requires s.clients[c].session.auth && s.clients[c].session.synced && Represents(env.hash, UserOf(s, c), a)
    requires forall op <- ops :: GoodOp(op)
    requires (forall x <- AllMessages(ops) :: Understood(x)) && AtomicRun(env.hash, a, ops).Some?
    ensures s.disk.TreeOk() && HandleOf(s.streams, s.clients[c].session.id).Absent?
    ensures forall e <- Sent(c, AllMessages(ops)) :: GoodEvent(e)
    ensures var p, at := RunServer(env, OnlyServer(s, c), Sent(c, AllMessages(ops))), AtomicRun(env.hash, a, ops).value;
      p.Running? ==>
        && c in p.server.live && p.server.live[c].auth && !at.Dead? && EndsAs(env.hash, UserState(p.server, c), at)
        && |at.statuses| == |AllMessages(ops)| && p.log == Echoes(c, AllMessages(ops), at.statuses)
  {
    hide RunServer, AtomicRun, PoolOk, Represents, Ordinary, Understood, EndsAs, Echoes, Disk.TreeOk, Sent, AllMessages;
    Basics(env.hash, s, c, a);
    AtomicStoreOverTheWire(env, OnlyServer(s, c), c, a, ops);
  }

  /** The schedule with everything left out that is not the connection's, against its whole requests. */
  lemma AloneRun(env: Env, s: Pool, c: nat, xs: seq<Action>)
    requires PoolOk(s) && c in s.clients && s.clients[c].job.Idle? && s.clients[c].session.auth
    requires HandleOf(s.streams, s.clients[c].session.id).Absent?
    requires forall x <- xs :: GoodAction(x)
    requires OwnedRun(env, s, xs, s.clients[c].session.id, {c}) && RunPool(env, s, xs).Up?
    ensures PoolOk(Alone(s, c)) && (forall x <- OnlyMine(xs, {c}) :: GoodAction(x))
    ensures forall e <- MyEvents(WholeRequests(env, s, xs), {c}) :: GoodEvent(e)
    ensures var t := OnlyServer(s, c);
      var x, y := RunPool(env, s, xs), RunPool(env, Alone(s, c), OnlyMine(xs, {c}));
      var q := RunServer(env, t, MyEvents(WholeRequests(env, s, xs), {c}));
      && y.Up? && SameFor(x.pool, y.pool, s.clients[c].session.id, {c}) && OneEach(y.pool)
      && q.Running? && Matches(env, y.pool, q.server) && MyLog(x.log, {c}) == q.log
  {
    hide RunPool, RunServer, PoolOk, GoodAction, GoodEvent, Matches, NonInterference.Owned, OwnedRun,
         WholeRequests, SameFor;
    var mine, b, t := {c}, Alone(s, c), OnlyServer(s, c);
    AloneAlike(env, s, c, mine);
    assert PoolOk(b) by { MatchesOk(env, b, t); }
    MineOnly(xs, mine);
    NonInterference.NonInterference(env, s, b, xs, s.clients[c].session.id, mine);
    WholeAlike(env, s, b, xs, s.clients[c].session.id, mine);
    OnlyOneConnection(env, b, OnlyMine(xs, mine), c);
    OneEachNow(env, b, OnlyMine(xs, mine));
    Serializable(env, b, t, OnlyMine(xs, mine));
  }

  lemma OneEachNow(env: Env, s: Pool, xs: seq<Action>)
    requires PoolOk(s) && (forall x <- xs :: GoodAction(x)) && AlwaysOneEach(env, s, xs)
    ensures RunPool(env, s, xs).Up? ==> OneEach(RunPool(env, s, xs).pool)
  {
  }

  lemma OwnedNow(env: Env, s: Pool, xs: seq<Action>, u: bytes, mine: set<nat>)
    requires PoolOk(s) && (forall x <- xs :: GoodAction(x)) && OwnedRun(env, s, xs, u, mine)
    ensures RunPool(env, s, xs).Up? ==> NonInterference.Owned(RunPool(env, s, xs).pool, u, mine)
  {
  }

  lemma Basics(hash: Hasher, s: Pool, c: nat, a: Store)
    requires PoolOk(s) && c in s.clients && Represents(hash, UserOf(s, c), a)
    ensures s.disk.TreeOk() && HandleOf(s.streams, s.clients[c].session.id).Absent?
    ensures UserOf(s, c) == LocalOf(s.disk, map[], s.clients[c].session)
    ensures s.clients[c].session.auth ==> Ordinary(OnlyServer(s, c))
  {
    hide Disk.TreeOk, ShowsFiles, ShowsDirs, Lists;
    assert SessionOk(s.clients[c].session);
  }

  /** From the whole requests of one connection to its user's state in the schedule. */
  lemma Bridge(env: Env, x: Pool, y: Pool, t: Server, c: nat, u: bytes, at: Attempt)
    requires SameFor(x, y, u, {c}) && Matches(env, y, t) && c in t.live && t.live[c].auth
    requires NonInterference.Owned(x, u, {c}) && x.disk.TreeOk() && OneEach(y)
    requires EndsAs(env.hash, UserState(t, c), at)
    ensures c in x.clients
    ensures x.clients[c].job.Idle? ==>
      && LooksAs(env.hash, UserOf(x, c), at)
      && (at.Done? ==> Represents(env.hash, UserOf(x, c), at.store))
  {
    hide Disk.InodesOk, Disk.Agrees, Disk.TreeOk, StreamsOk, EndsAs, Represents, JobOk, OneEach, HandleOf;
    assert c in {c} && c in y.clients && c in x.clients && x.clients[c] == y.clients[c];
    assert ClientMatches(env, y, t, c);
    if x.clients[c].job.Idle? {
      NotBusy(y, c);
      assert UserMatches(y, t, u);
      AgreesTransitive(x.disk, y.disk, t.disk, u);
      assert Alike(UserOf(x, c), UserState(t, c));
      if at.Done? {
        DoneRepresents(env.hash, UserState(t, c), at);
        RepresentsAlike(env.hash, UserOf(x, c), UserState(t, c), at.store);
      }
    }
  }

  lemma ServedAtLast(env: Env, r: State, c: nat, cs: seq<Call>, at: Attempt)
    requires r.Up? && c in r.pool.clients && !at.Dead? && |at.statuses| == |cs|
    requires MyLog(r.log, {c}) == Echoes(c, cs, at.statuses)
    requires r.pool.clients[c].job.Idle? ==>
      && LooksAs(env.hash, UserOf(r.pool, c), at)
      && (at.Done? ==> Represents(env.hash, UserOf(r.pool, c), at.store))
    ensures Served(env.hash, r.pool, r.log, c, cs, at)
  {
  }

  lemma DoneRepresents(hash: Hasher, st: Local, at: Attempt)
    requires EndsAs(hash, st, at) && at.Done?
    ensures Represents(hash, st, at.store)
  {
  }

  /** What a user's state stands for is settled below the user's directory. */
  lemma RepresentsAlike(hash: Hasher, x: Local, y: Local, a: Store)
    requires Represents(hash, y, a) && Alike(x, y) && x.disk.InodesOk() && x.disk.TreeOk()
    ensures Represents(hash, x, a)
  {
    hide Disk.TreeOk, Disk.InodesOk, IsTemp, ShowsFiles, ShowsDirs;
    assert [x.home][0] == x.home;
    FilesAlike(x, y, a.files);
    DirsShownAlike(x, y, a.dirs);
  }

  lemma FilesAlike(x: Local, y: Local, files: map<Path, bytes>)
    requires ShowsFiles(y, files) && Alike(x, y) && x.disk.InodesOk()
    ensures ShowsFiles(x, files)
  {
    hide IsTemp;
    forall p: Path | p != [] ensures x.Abs(p) in x.disk.files <==> y.Abs(p) in y.disk.files {
      assert x.Abs(p)[0] == x.home;
    }
    forall p | p in files ensures x.disk.Read(x.Abs(p)) == files[p] {
      assert x.Abs(p)[0] == x.home && y.Abs(p) in y.disk.files && x.disk.files[x.Abs(p)].home == x.home;
      assert x.disk.Read(x.Abs(p)) == y.disk.Read(y.Abs(p));
    }
  }

  lemma DirsShownAlike(x: Local, y: Local, dirs: set<Path>)
    requires ShowsDirs(y, dirs) && Alike(x, y)
    ensures ShowsDirs(x, dirs)
  {
    forall p: Path | p != [] ensures x.Abs(p) in x.disk.dirs <==> y.Abs(p) in y.disk.dirs {
      assert x.Abs(p)[0] == x.home;
    }
  }

  // Such schedules exist.

  /** An operation of an authenticated connection's thread leaves it authenticated under its id. */
  lemma IdStays(env: Env, s: Pool, c: nat)
    requires PoolOk(s) && c in s.clients && s.clients[c].job.Busy? && s.clients[c].session.auth
    ensures match NextMove(env, s, c)
      case Over(Crashed) => true
      case Over(Replied(_, _, session, _)) => session.auth && session.id == s.clients[c].session.id
      case Going(_, _, session, _) => session.auth && session.id == s.clients[c].session.id
  {
    hide Disk.InodesOk, StreamsOk, HandleRequest, StageInodes;
    var Client(session, Busy(m, f, stage)) := s.clients[c];
    assert SessionOk(session) && JobOk(s.disk, s.streams, s.clients[c]);
    UntouchedBySilent(env, s.disk, s.streams, session, m, f);
  }

  /** As long as only the authenticated connection `c` acts, and does not end, nobody else gets its id. */
  lemma {:induction false} StaysOwned(env: Env, s: Pool, xs: seq<Action>, c: nat, u: bytes)
    requires PoolOk(s) && NonInterference.Owned(s, u, {c})
    requires c in s.clients && s.clients[c].session.auth && s.clients[c].session.id == u
    requires forall x <- xs :: GoodAction(x) && x.conn == c && (x.Receive? || x.Operate?)
    ensures OwnedRun(env, s, xs, u, {c})
    ensures var r := RunPool(env, s, xs);
      r.Up? ==>
        && NonInterference.Owned(r.pool, u, {c})
        && c in r.pool.clients && r.pool.clients[c].session.auth && r.pool.clients[c].session.id == u
  {
    hide PoolOk, GoodAction, NextMove;
    if xs != [] {
      var x, front := Last(xs), Front(xs);
      assert x in xs && GoodAction(x);
      StaysOwned(env, s, front, c, u);
      if RunPool(env, s, front).Up? {
        var before := RunPool(env, s, front).pool;
        if before.clients[c].job.Busy? {
          IdStays(env, before, c);
        }
      }
    }
  }

  lemma {:induction false} AllMine(es: seq<Event>, c: nat)
    requires forall e <- es :: e.conn == c
    ensures MyEvents(es, {c}) == es
  {
    if es != [] {
      assert Last(es) in es && c in {c};
      AllMine(Front(es), c);
      assert es == Front(es) + [Last(es)];
    }
  }

  lemma {:induction false} AllConcernOne(env: Env, t: Server, es: seq<Event>, c: nat)
    requires c in t.live && forall e <- es :: GoodEvent(e) && e.Incoming? && e.conn == c
    requires RunServer(env, t, es).Running?
    ensures AllConcern(env, t, es) && c in RunServer(env, t, es).server.live
  {
    hide GoodEvent, HandleRequest;
    if es != [] {
      assert Last(es) in es && GoodEvent(Last(es));
      AllConcernOne(env, t, Front(es), c);
    }
  }

  /** The operations of a user do get served: there is a schedule whose whole requests are exactly the
      messages of the operations, in which nobody else gets the user's id, and after which the
      connection is idle. It is the one that gives the thread of each message its operations. */
  lemma OperationsAreServed(env: Env, t: Server, c: nat, a: Store, ops: seq<Op>)
    requires Ordinary(t) && c in t.live && t.live[c].auth && t.live[c].synced
    requires forall d <- t.live :: d != c ==> t.live[d].id != t.live[c].id
    requires Represents(env.hash, UserState(t, c), a)
    requires forall op <- ops :: GoodOp(op)
    requires (forall x <- AllMessages(ops) :: Understood(x)) && AtomicRun(env.hash, a, ops).Some?
    requires !AtomicRun(env.hash, a, ops).value.Dead?
    ensures PoolOk(PoolOf(t)) && c in PoolOf(t).clients && PoolOf(t).clients[c] == Client(t.live[c], Idle)
    ensures forall e <- Sent(c, AllMessages(ops)) :: GoodEvent(e)
    ensures var s, xs := PoolOf(t), ScheduleOf(env, t, Sent(c, AllMessages(ops)));
      && OwnedRun(env, s, xs, t.live[c].id, {c})
      && MyEvents(WholeRequests(env, s, xs), {c}) == Sent(c, AllMessages(ops))
      && RunPool(env, s, xs).Up? && c in RunPool(env, s, xs).pool.clients
      && RunPool(env, s, xs).pool.clients[c].job.Idle?
      && Served(env.hash, RunPool(env, s, xs).pool, RunPool(env, s, xs).log, c, AllMessages(ops),
                AtomicRun(env.hash, a, ops).value)
  {
    hide Ordinary, PoolOk, Represents, RunServer, RunPool, AtomicRun, Understood, GoodOp, GoodEvent, GoodAction,
         WholeRequests, MyEvents, OwnedRun, Served, EndsAs, Echoes, AllConcern, ScheduleOf, AllMessages;
    var s, es := PoolOf(t), Sent(c, AllMessages(ops));
    PoolOfOk(t);
    AtomicStoreOverTheWire(env, t, c, a, ops);
    AllConcernOne(env, t, es, c);
    EveryOrderIsScheduled(env, t, es);
    AllMine(es, c);
    var xs := ScheduleOf(env, t, es);
    ScheduleOfOne(env, t, es, c);
    StaysOwned(env, s, xs, c, t.live[c].id);
    AtomicStoreAmongOthers(env, s, c, a, ops, xs);
  }

  // The indexes.

  lemma {:induction false} OnePerUserToo(env: Env, s: Pool, t: Server, xs: seq<Action>)
    requires Matches(env, s, t) && (forall x <- xs :: GoodAction(x)) && AlwaysOneEach(env, s, xs)
    ensures AlwaysOnePerUser(env, t, WholeRequests(env, s, xs))
  {
    hide Matches, Perform, Advance, OneEach, OnePerUser, PoolOk, GoodAction, GoodEvent, Completed;
    MatchesOk(env, s, t);
    Serializable(env, s, t, xs);
    if RunPool(env, s, xs).Up? {
      SameConnections(env, RunPool(env, s, xs).pool, RunServer(env, t, WholeRequests(env, s, xs)).server);
    }
    if xs != [] {
      OnePerUserToo(env, s, t, Front(xs));
      var es := WholeRequests(env, s, Front(xs));
      if RunPool(env, s, Front(xs)).Up? {
        var more := Completed(env, RunPool(env, s, Front(xs)).pool, Last(xs));
        assert more == [] ==> es + more == es;
        assert more != [] ==> Front(es + more) == es;
      }
    }
  }

  lemma SameConnections(env: Env, s: Pool, t: Server)
    requires Matches(env, s, t)
    ensures OneEach(s) ==> OnePerUser(t)
  {
    hide PoolOk, Ordinary, UserMatches, OutcomesAlike;
    forall c | c in t.live
      ensures t.live[c].auth == s.clients[c].session.auth && t.live[c].id == s.clients[c].session.id
    {
      assert ClientMatches(env, s, t, c);
    }
  }

  /** In every schedule with at most one connection for a user, in which no update breaks a promise about
      its temporary file: the index of every synced session between two of its requests is true. */
  lemma SoundBetweenRequests(env: Env, s: Pool, t: Server, xs: seq<Action>, c: nat)
    requires Matches(env, s, t) && AllSound(env, t)
    requires (forall x <- xs :: GoodAction(x)) && AlwaysOneEach(env, s, xs)
    requires AlwaysSafe(env, t, WholeRequests(env, s, xs))
    requires RunPool(env, s, xs).Up? && c in RunPool(env, s, xs).pool.clients
    requires var client := RunPool(env, s, xs).pool.clients[c]; client.job.Idle? && client.session.synced
    ensures Sound(env.hash, UserOf(RunPool(env, s, xs).pool, c))
  {
    hide RunPool, RunServer, OneEach, WholeRequests, Sound, Disk.InodesOk, Disk.Agrees, StreamsOk, JobOk, HandleOf,
         ServerSoundness.Owned, AlwaysSafe, GoodEvent;
    var es, pool := WholeRequests(env, s, xs), RunPool(env, s, xs).pool;
    OnePerUserToo(env, s, t, xs);
    Serializable(env, s, t, xs);
    IndexAlwaysSound(env, t, es);
    var server := RunServer(env, t, es).server;
    assert AlwaysTrue(env, t, es) && IndexesTrue(env, server);
    assert ClientMatches(env, pool, server, c) && pool.clients[c].session == server.live[c];
    OneEachNow(env, s, xs);
    NotBusy(pool, c);
    var id := server.live[c].id;
    assert UserMatches(pool, server, id);
    AgreesSymmetric(pool.disk, server.disk, id);
    SoundAlike(env.hash, LocalOf(server.disk, server.streams, server.live[c]), UserOf(pool, c));
  }
}

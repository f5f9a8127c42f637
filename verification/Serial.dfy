/** Every schedule of single operations is equivalent to an order of whole requests. */
module Serial {
  import opened Bytes
  import opened Tlvs
  import opened Paths
  import opened Disks
  import opened Transfer
  import opened Sessions
  import opened Servers
  import opened RequestIsolation
  import opened Jobs
  import opened Schedules

  /** The whole requests of a schedule, each at the point where it is answered or ends the process. */
  ghost function WholeRequests(env: Env, s: Pool, xs: seq<Action>): (es: seq<Event>)
    requires PoolOk(s) && forall x <- xs :: GoodAction(x)
    ensures forall e <- es :: GoodEvent(e)
  {
    if xs == [] then []
    else
      assert GoodAction(Last(xs)) by { assert Last(xs) in xs; }
      match RunPool(env, s, Front(xs))
      case Down => WholeRequests(env, s, Front(xs))
      case Up(before, _) => WholeRequests(env, s, Front(xs)) + Completed(env, before, Last(xs))
  }

  ghost function Completed(env: Env, s: Pool, x: Action): (es: seq<Event>)
    requires PoolOk(s) && GoodAction(x)
    ensures |es| <= 1 && forall e <- es :: GoodEvent(e) && e.conn == x.conn
  {
    match x
    case Accept(c) => [Connect(c)]
    case Receive(_, _, _) => []
    case Close(c) => if c in s.clients && s.clients[c].job.Idle? then [Servers.Shutdown(c)] else []
    case Operate(c) =>
      if c in s.clients && s.clients[c].job.Busy? && NextMove(env, s, c).Over? then
        assert JobOk(s.disk, s.streams, s.clients[c]);
        [Incoming(c, s.clients[c].job.msg, s.clients[c].job.faults)]
      else []
  }

  /** No user has two authenticated connections. */
  ghost predicate OneEach(s: Pool) {
    forall c <- s.clients, d <- s.clients ::
      c != d && s.clients[c].session.auth && s.clients[d].session.auth ==>
        s.clients[c].session.id != s.clients[d].session.id
  }

  ghost predicate AlwaysOneEach(env: Env, s: Pool, xs: seq<Action>)
    requires PoolOk(s) && forall x <- xs :: GoodAction(x)
  {
    && (RunPool(env, s, xs).Up? ==> OneEach(RunPool(env, s, xs).pool))
    && (xs != [] ==> AlwaysOneEach(env, s, Front(xs)))
  }

  /** A thread is in the middle of a request of this user. */
  ghost predicate BusyFor(s: Pool, u: bytes) {
    exists c :: c in s.clients && s.clients[c].job.Busy? && s.clients[c].session.auth && s.clients[c].session.id == u
  }

  /** What the thread of a busy connection will come to when it is left alone. */
  ghost function OutlookOf(env: Env, s: Pool, c: nat): Outcome
    requires PoolOk(s) && c in s.clients && s.clients[c].job.Busy?
  {
    var Client(session, Busy(m, f, stage)) := s.clients[c];
    assert SessionOk(session) && JobOk(s.disk, s.streams, s.clients[c]);
    Outlook(env, s.disk, s.streams, session, m, f, stage)
  }

  /** A connection is as in the server that handles whole requests; in the middle of a request, what
      its thread is going to come to is what the whole request does there. */
  ghost predicate ClientMatches(env: Env, s: Pool, t: Server, c: nat)
    requires PoolOk(s) && c in s.clients && c in t.live
  {
    var session := s.clients[c].session;
    match s.clients[c].job
    case Idle => session == t.live[c]
    case Busy(m, f, _) =>
      && session.auth == t.live[c].auth && session.id == t.live[c].id && GoodMsg(m)
      && OutcomesAlike(OutlookOf(env, s, c), HandleRequest(env, t.disk, t.streams, t.live[c], m, f), session.id)
  }

  ghost predicate UserMatches(s: Pool, t: Server, u: bytes) {
    s.disk.Agrees(t.disk, u) && HandleOf(s.streams, u) == HandleOf(t.streams, u)
  }

  /** For every user who is not in the middle of a request the two servers are the same; and nobody
      has a stream without being authenticated. */
  ghost predicate Matches(env: Env, s: Pool, t: Server) {
    && PoolOk(s) && Ordinary(t) && s.clients.Keys == t.live.Keys && HandleOf(s.streams, []).Absent?
    && (forall c <- s.clients :: ClientMatches(env, s, t, c))
    && (forall u: bytes :: !BusyFor(s, u) ==> UserMatches(s, t, u))
  }

  lemma OutcomesTrans(x: Outcome, y: Outcome, z: Outcome, u: bytes)
    requires OutcomesAlike(x, y, u) && OutcomesAlike(y, z, u)
    ensures OutcomesAlike(x, z, u)
  {
  }

  lemma OutcomesSym(x: Outcome, y: Outcome, u: bytes)
    requires OutcomesAlike(x, y, u)
    ensures OutcomesAlike(y, x, u)
  {
  }

  /** Nothing changes for a connection, on either side, when nothing of its user's does. */
  lemma ClientKept(env: Env, s: Pool, t: Server, s': Pool, t': Server, d: nat)
    requires Matches(env, s, t) && PoolOk(s') && Ordinary(t')
    requires d in s.clients && d in s'.clients && s'.clients[d] == s.clients[d]
    requires d in t'.live && t'.live[d] == t.live[d]
    requires var id := s.clients[d].session.id;
      && s.disk.Agrees(s'.disk, id) && HandleOf(s'.streams, id) == HandleOf(s.streams, id)
      && t.disk.Agrees(t'.disk, id) && HandleOf(t'.streams, id) == HandleOf(t.streams, id)
    ensures ClientMatches(env, s', t', d)
  {
    hide Disk.InodesOk, Disk.Agrees, StreamsOk, Outlook, HandleRequest, StageOk, StageInodes, UserMatches, HandleOf,
         ValidName;
    assert ClientMatches(env, s, t, d);
    var Client(session, job) := s.clients[d];
    assert SessionOk(session) && JobOk(s.disk, s.streams, s.clients[d]) && SessionOk(t.live[d]);
    if job.Busy? {
      var Busy(m, f, stage) := job;
      OutlookAlike(env, s.disk, s.streams, s'.disk, s'.streams, session.id, session, m, f, stage);
      RequestAlike(env, t.disk, t.streams, t'.disk, t'.streams, session.id, t.live[d], m, f);
      OutcomesSym(OutlookOf(env, s, d), OutlookOf(env, s', d), session.id);
      var o, o' := HandleRequest(env, t.disk, t.streams, t.live[d], m, f),
                   HandleRequest(env, t'.disk, t'.streams, t.live[d], m, f);
      OutcomesTrans(OutlookOf(env, s', d), OutlookOf(env, s, d), o, session.id);
      OutcomesTrans(OutlookOf(env, s', d), o, o', session.id);
    }
  }

  /** A connection that is not authenticated, or another user's, has another id. */
  lemma OtherIds(s: Pool, c: nat, d: nat)
    requires PoolOk(s) && OneEach(s) && c in s.clients && d in s.clients && c != d && s.clients[c].session.auth
    ensures s.clients[c].session.id != s.clients[d].session.id
  {
    assert SessionOk(s.clients[c].session) && SessionOk(s.clients[d].session);
  }

  lemma NotBusy(s: Pool, c: nat)
    requires PoolOk(s) && OneEach(s) && c in s.clients && s.clients[c].job.Idle?
    ensures !BusyFor(s, s.clients[c].session.id)
  {
    forall d | d in s.clients && s.clients[d].job.Busy? && s.clients[d].session.auth
      ensures s.clients[d].session.id != s.clients[c].session.id
    {
      OtherIds(s, d, c);
    }
  }

  lemma ReceiveMatches(env: Env, s: Pool, t: Server, c: nat, m: Msg, f: Faults)
    requires Matches(env, s, t) && OneEach(s) && GoodAction(Receive(c, m, f))
    ensures var r := Perform(env, s, Receive(c, m, f));
      r.Up? && Matches(env, r.pool, t)
  {
    hide PoolOk, Ordinary, Disk.Agrees, HandleRequest, OneEach, Keeps, HandleOf, UserMatches, ClientMatches, ValidName;
    PerformKeepsOk(env, s, Receive(c, m, f));
    if c in s.clients && s.clients[c].job.Idle? {
      var s' := Perform(env, s, Receive(c, m, f)).pool;
      ReceiveAlike(env, s, t, c, m, f);
      Begun(env, s', t, c);
      NothingKept(s, t, s.clients[c].session.id);
      assert UserMatches(s', t, s.clients[c].session.id) by { SameUser(s, s', t, s.clients[c].session.id); }
      StepMatches(env, s, t, s', t, c);
    }
  }

  lemma SameUser(s: Pool, s': Pool, t: Server, u: bytes)
    requires UserMatches(s, t, u) && s'.disk == s.disk && s'.streams == s.streams
    ensures UserMatches(s', t, u)
  {
  }

  lemma NothingKept(s: Pool, t: Server, id: bytes)
    requires PoolOk(s)
    ensures Keeps(s.disk, s.streams, s.disk, s.streams, id)
    ensures forall u :: t.disk.Agrees(t.disk, u)
  {
    hide Disk.InodesOk, Disk.Agrees;
    forall u: bytes ensures s.disk.Agrees(s.disk, u) && t.disk.Agrees(t.disk, u) {
      SameDisk(s.disk, u);
      SameDisk(t.disk, u);
    }
  }

  lemma ReceiveAlike(env: Env, s: Pool, t: Server, c: nat, m: Msg, f: Faults)
    requires Matches(env, s, t) && OneEach(s) && GoodAction(Receive(c, m, f))
    requires c in s.clients && s.clients[c].job.Idle?
    ensures t.live[c] == s.clients[c].session && UserMatches(s, t, t.live[c].id)
    ensures OutcomesAlike(HandleRequest(env, s.disk, s.streams, t.live[c], m, f),
                          HandleRequest(env, t.disk, t.streams, t.live[c], m, f), t.live[c].id)
  {
    hide Disk.InodesOk, Disk.Agrees, StreamsOk, HandleRequest, HandleOf, ValidName, OneEach, JobOk;
    var session := s.clients[c].session;
    NotBusy(s, c);
    assert ClientMatches(env, s, t, c) && SessionOk(session) && UserMatches(s, t, session.id);
    RequestAlike(env, s.disk, s.streams, t.disk, t.streams, session.id, session, m, f);
  }

  /** A thread that has just begun is going to do what the request is specified to do. */
  lemma Begun(env: Env, s: Pool, t: Server, c: nat)
    requires PoolOk(s) && c in s.clients && c in t.live && s.clients[c].session == t.live[c]
    requires s.clients[c].job.Busy? && s.clients[c].job.stage.Begin? && GoodMsg(s.clients[c].job.msg)
    requires var Busy(m, f, _) := s.clients[c].job;
      OutcomesAlike(HandleRequest(env, s.disk, s.streams, t.live[c], m, f),
                    HandleRequest(env, t.disk, t.streams, t.live[c], m, f), t.live[c].id)
    ensures ClientMatches(env, s, t, c)
  {
    hide PoolOk, Outlook, HandleRequest, OutcomesAlike, ValidName;
    AloneIsHandled(env, s.disk, s.streams, t.live[c], s.clients[c].job.msg, s.clients[c].job.faults);
  }

  lemma BusyLonger(s: Pool, s': Pool, c: nat, u: bytes)
    requires forall d | d in s.clients && d != c :: d in s'.clients && s'.clients[d] == s.clients[d]
    requires c in s.clients && s.clients[c].job.Busy? ==>
               c in s'.clients && s'.clients[c].job.Busy? && s'.clients[c].session.auth == s.clients[c].session.auth
               && s'.clients[c].session.id == s.clients[c].session.id
    ensures BusyFor(s, u) ==> BusyFor(s', u)
  {
    if d :| d in s.clients && s.clients[d].job.Busy? && s.clients[d].session.auth && s.clients[d].session.id == u {
      assert d in s'.clients && s'.clients[d].job.Busy?;
    }
  }

  /** What the thread of a busy connection does next keeps everything that is another user's. */
  lemma NextKeeps(env: Env, s: Pool, c: nat)
    requires PoolOk(s) && c in s.clients && s.clients[c].job.Busy?
    ensures MoveOk(NextMove(env, s, c), s.disk, s.streams, s.clients[c].session.id)
    ensures var v := NextMove(env, s, c);
      v.Going? ==> v.session == s.clients[c].session.(index := v.session.index) && v.session.auth
    ensures !s.clients[c].session.auth ==>
      match NextMove(env, s, c)
      case Over(Replied(disk, streams, _, _)) => disk == s.disk && streams == s.streams
      case _ => false
  {
    hide Disk.InodesOk, StreamsOk, Take, StageOk, StageInodes, MoveOk;
    var Client(session, Busy(m, f, stage)) := s.clients[c];
    assert SessionOk(session) && JobOk(s.disk, s.streams, s.clients[c]);
    TakeKeeps(env, s.disk, s.streams, session, m, f, stage);
    if !session.auth {
      AnonymousTouchesNothing(env, s.disk, s.streams, session, m, f, stage);
    }
  }

  /** Nothing has changed for another user's connection. */
  lemma Untouched(env: Env, s: Pool, c: nat, d: nat, disk: Disk, streams: Streams)
    requires PoolOk(s) && OneEach(s) && c in s.clients && d in s.clients && c != d
    requires Keeps(s.disk, s.streams, disk, streams, s.clients[c].session.id)
    requires !s.clients[c].session.auth ==> disk == s.disk && streams == s.streams
    ensures var id := s.clients[d].session.id;
      s.disk.Agrees(disk, id) && HandleOf(streams, id) == HandleOf(s.streams, id)
  {
    hide Disk.InodesOk, Disk.Agrees, StreamsOk;
    if s.clients[c].session.auth {
      OtherIds(s, c, d);
    } else {
      SameDisk(disk, s.clients[d].session.id);
    }
  }

  /** The two servers after an operation of one connection's thread. */
  lemma StepMatches(env: Env, s: Pool, t: Server, s': Pool, t': Server, c: nat)
    requires Matches(env, s, t) && OneEach(s) && c in s.clients && PoolOk(s') && Ordinary(t')
    requires c in s'.clients && s'.clients == s.clients[c := s'.clients[c]]
    requires c in t'.live && t'.live == t.live[c := t'.live[c]]
    requires Keeps(s.disk, s.streams, s'.disk, s'.streams, s.clients[c].session.id)
    requires forall u | u != s.clients[c].session.id ::
               t.disk.Agrees(t'.disk, u) && HandleOf(t'.streams, u) == HandleOf(t.streams, u)
    requires !s.clients[c].session.auth ==>
               s'.disk == s.disk && s'.streams == s.streams && t'.disk == t.disk && t'.streams == t.streams
    requires ClientMatches(env, s', t', c)
    requires BusyFor(s', s.clients[c].session.id) || UserMatches(s', t', s.clients[c].session.id)
    ensures Matches(env, s', t')
  {
    hide PoolOk, Ordinary, Disk.Agrees, OneEach, ClientMatches, Keeps, HandleOf, UserMatches;
    NoAnonymousStream(s, c, s'.disk, s'.streams);
    forall d | d in s'.clients && d != c ensures ClientMatches(env, s', t', d) {
      Untouched(env, s, c, d, s'.disk, s'.streams);
      UntouchedWhole(env, s, t, c, d, t'.disk, t'.streams);
      ClientKept(env, s, t, s', t', d);
    }
    forall u: bytes | !BusyFor(s', u) && u != s.clients[c].session.id ensures UserMatches(s', t', u) {
      BusyElsewhere(s, s', c, u);
      UserKept(s, t, s', t', s.clients[c].session.id, u);
    }
  }

  /** In the middle of a request nothing shows to the server that handles whole requests. */
  lemma GoingMatches(env: Env, s: Pool, t: Server, c: nat)
    requires Matches(env, s, t) && OneEach(s) && c in s.clients && s.clients[c].job.Busy?
    requires NextMove(env, s, c).Going?
    ensures var r := Perform(env, s, Operate(c));
      r.Up? && r.log == [] && Matches(env, r.pool, t)
  {
    hide PoolOk, Ordinary, Disk.Agrees, OneEach, ClientMatches, Keeps, HandleOf, UserMatches, NextMove;
    PerformKeepsOk(env, s, Operate(c));
    NextKeeps(env, s, c);
    var s' := Perform(env, s, Operate(c)).pool;
    forall u ensures t.disk.Agrees(t.disk, u) {
      SameDisk(t.disk, u);
    }
    GoesOn(env, s, t, c);
    NowBusy(s', c);
    StepMatches(env, s, t, s', t, c);
  }

  lemma NowBusy(s: Pool, c: nat)
    requires c in s.clients && s.clients[c].job.Busy? && s.clients[c].session.auth
    ensures BusyFor(s, s.clients[c].session.id)
  {
  }

  lemma GoesOn(env: Env, s: Pool, t: Server, c: nat)
    requires Matches(env, s, t) && c in s.clients && s.clients[c].job.Busy? && NextMove(env, s, c).Going?
    requires Perform(env, s, Operate(c)).Up? && PoolOk(Perform(env, s, Operate(c)).pool)
    ensures ClientMatches(env, Perform(env, s, Operate(c)).pool, t, c)
  {
    hide Disk.InodesOk, Disk.Agrees, StreamsOk, Take, HandleRequest, StageOk, StageInodes, UserMatches, ValidName;
    assert ClientMatches(env, s, t, c) && JobOk(s.disk, s.streams, s.clients[c]);
    assert OutlookOf(env, s, c) == OutlookOf(env, Perform(env, s, Operate(c)).pool, c);
  }

  /** What is another user's stays the same on both sides. */
  lemma UserKept(s: Pool, t: Server, s': Pool, t': Server, id: bytes, u: bytes)
    requires UserMatches(s, t, u) && u != id
    requires Keeps(s.disk, s.streams, s'.disk, s'.streams, id)
    requires t.disk.Agrees(t'.disk, u) && HandleOf(t'.streams, u) == HandleOf(t.streams, u)
    ensures UserMatches(s', t', u)
  {
    hide Disk.Agrees, Disk.InodesOk, StreamsOk, HandleOf;
    AgreesSymmetric(s.disk, s'.disk, u);
    AgreesTransitive(s'.disk, s.disk, t.disk, u);
    AgreesTransitive(s'.disk, t.disk, t'.disk, u);
  }

  /** What the whole request does in the other server when its thread is about to be done. */
  lemma OverAlike(env: Env, s: Pool, t: Server, c: nat)
    requires Matches(env, s, t) && c in s.clients && s.clients[c].job.Busy? && NextMove(env, s, c).Over?
    ensures c in t.live && SessionOk(t.live[c]) && GoodMsg(s.clients[c].job.msg)
    ensures t.live[c].id == s.clients[c].session.id && t.live[c].auth == s.clients[c].session.auth
    ensures var Busy(m, f, _) := s.clients[c].job;
      OutcomesAlike(NextMove(env, s, c).outcome, HandleRequest(env, t.disk, t.streams, t.live[c], m, f), t.live[c].id)
  {
    hide Disk.InodesOk, Disk.Agrees, StreamsOk, Take, HandleRequest, StageOk, StageInodes, UserMatches, ValidName;
    assert ClientMatches(env, s, t, c) && JobOk(s.disk, s.streams, s.clients[c]);
    assert OutlookOf(env, s, c) == NextMove(env, s, c).outcome;
  }

  /** When a thread is done, the other server handles the whole request. */
  lemma OverMatches(env: Env, s: Pool, t: Server, c: nat)
    requires Matches(env, s, t) && OneEach(s) && c in s.clients && s.clients[c].job.Busy?
    requires NextMove(env, s, c).Over? && GoodEvent(Incoming(c, s.clients[c].job.msg, s.clients[c].job.faults))
    ensures var r, q := Perform(env, s, Operate(c)),
                        Advance(env, t, Incoming(c, s.clients[c].job.msg, s.clients[c].job.faults));
      && r.Up? == q.Running?
      && (r.Up? ==> Matches(env, r.pool, q.server) && r.log == q.log)
  {
    hide PoolOk, Ordinary, Disk.Agrees, HandleRequest, OneEach, ClientMatches, Keeps, HandleOf, NextMove, PathOf,
         ValidName, Outlook;
    OverAlike(env, s, t, c);
    var Busy(m, f, _) := s.clients[c].job;
    var o, v := HandleRequest(env, t.disk, t.streams, t.live[c], m, f), NextMove(env, s, c).outcome;
    if v.Replied? {
      PerformKeepsOk(env, s, Operate(c));
      StepKeepsOrdinary(env, t, Incoming(c, m, f));
      NextKeeps(env, s, c);
      WholeKeeps(env, t, c, m, f);
      var s', t' := Perform(env, s, Operate(c)).pool, Advance(env, t, Incoming(c, m, f)).server;
      IdleMatches(env, s', t', c);
      assert UserMatches(s', t', s.clients[c].session.id);
      StepMatches(env, s, t, s', t', c);
    }
  }

  lemma NoAnonymousStream(s: Pool, c: nat, disk: Disk, streams: Streams)
    requires PoolOk(s) && c in s.clients && HandleOf(s.streams, []).Absent?
    requires Keeps(s.disk, s.streams, disk, streams, s.clients[c].session.id)
    requires !s.clients[c].session.auth ==> disk == s.disk && streams == s.streams
    ensures HandleOf(streams, []).Absent?
  {
    hide Disk.InodesOk, Disk.Agrees, StreamsOk;
    assert SessionOk(s.clients[c].session);
  }

  /** Neither has the other server. */
  lemma NoneThereEither(env: Env, s: Pool, t: Server)
    requires Matches(env, s, t)
    ensures HandleOf(t.streams, []).Absent?
  {
    hide Disk.InodesOk, Disk.Agrees, StreamsOk, ClientMatches, JobOk;
    assert !BusyFor(s, []) by {
      forall c | c in s.clients && s.clients[c].session.auth ensures s.clients[c].session.id != [] {
        assert SessionOk(s.clients[c].session);
      }
    }
    assert UserMatches(s, t, []);
  }

  lemma IdleMatches(env: Env, s: Pool, t: Server, c: nat)
    requires PoolOk(s) && c in s.clients && c in t.live && s.clients[c] == Client(t.live[c], Idle)
    ensures ClientMatches(env, s, t, c)
  {
  }

  /** The same frame for the whole request. */
  lemma WholeKeeps(env: Env, t: Server, c: nat, m: Msg, f: Faults)
    requires Ordinary(t) && c in t.live && GoodMsg(m)
    ensures var o := HandleRequest(env, t.disk, t.streams, t.live[c], m, f);
      o.Replied? ==>
        && (forall u | u != t.live[c].id ::
              t.disk.Agrees(o.disk, u) && HandleOf(o.streams, u) == HandleOf(t.streams, u))
        && (!t.live[c].auth ==> o.disk == t.disk && o.streams == t.streams)
  {
    hide Disk.InodesOk, Disk.Agrees, StreamsOk, SplitSign, Parse, ScanFiles, Serve, HandleOf;
    RequestKeepsOrdinary(env, t.disk, t.streams, t.live[c], m, f);
    if !t.live[c].auth {
      PrivateTouchesNothing(env, t.disk, t.streams, t.live[c], m, f);
    }
  }

  lemma UntouchedWhole(env: Env, s: Pool, t: Server, c: nat, d: nat, disk: Disk, streams: Streams)
    requires PoolOk(s) && OneEach(s) && c in s.clients && d in s.clients && c != d
    requires forall u | u != s.clients[c].session.id ::
               t.disk.Agrees(disk, u) && HandleOf(streams, u) == HandleOf(t.streams, u)
    requires !s.clients[c].session.auth ==> disk == t.disk && streams == t.streams
    ensures var id := s.clients[d].session.id;
      t.disk.Agrees(disk, id) && HandleOf(streams, id) == HandleOf(t.streams, id)
  {
    hide Disk.InodesOk, Disk.Agrees, StreamsOk, HandleOf;
    if s.clients[c].session.auth {
      OtherIds(s, c, d);
    } else {
      SameDisk(disk, s.clients[d].session.id);
    }
  }

  lemma BusyElsewhere(s: Pool, s': Pool, c: nat, u: bytes)
    requires forall d | d in s.clients && d != c :: d in s'.clients && s'.clients[d] == s.clients[d]
    requires c in s.clients && s.clients[c].session.id != u
    ensures BusyFor(s, u) ==> BusyFor(s', u)
  {
    if d :| d in s.clients && s.clients[d].job.Busy? && s.clients[d].session.auth && s.clients[d].session.id == u {
      assert d in s'.clients && s'.clients[d].job.Busy?;
    }
  }

  lemma CloseMatches(env: Env, s: Pool, t: Server, c: nat)
    requires Matches(env, s, t) && OneEach(s) && c in s.clients && s.clients[c].job.Idle?
    ensures var r, q := Perform(env, s, Close(c)), Advance(env, t, Servers.Shutdown(c));
      r.Up? && q.Running? && Matches(env, r.pool, q.server) && r.log == q.log
  {
    hide PoolOk, Ordinary, Disk.Agrees, HandleOf, OneEach, OutcomesAlike;
    PerformKeepsOk(env, s, Close(c));
    StepKeepsOrdinary(env, t, Servers.Shutdown(c));
    NotBusy(s, c);
    assert ClientMatches(env, s, t, c);
    hide ClientMatches, UserMatches;
    var s', t' := Perform(env, s, Close(c)).pool, Advance(env, t, Servers.Shutdown(c)).server;
    var id := s.clients[c].session.id;
    forall d | d in s'.clients ensures ClientMatches(env, s', t', d) {
      ClosedElsewhere(env, s, t, s', t', c, d);
    }
    forall u: bytes | !BusyFor(s', u) ensures UserMatches(s', t', u) {
      BusyLonger(s, s', c, u);
      ClosedFor(s, t, s', t', id, u);
    }
    NobodyLeft(s, s', id);
  }

  lemma NobodyLeft(s: Pool, s': Pool, id: bytes)
    requires HandleOf(s.streams, []).Absent? && s'.streams == WithHandle(s.streams, id, Absent)
    ensures HandleOf(s'.streams, []).Absent?
  {
  }

  lemma ClosedFor(s: Pool, t: Server, s': Pool, t': Server, id: bytes, u: bytes)
    requires UserMatches(s, t, u) && s'.disk == s.disk && t'.disk == t.disk
    requires s'.streams == WithHandle(s.streams, id, Absent) && t'.streams == WithHandle(t.streams, id, Absent)
    ensures UserMatches(s', t', u)
  {
  }

  lemma ClosedElsewhere(env: Env, s: Pool, t: Server, s': Pool, t': Server, c: nat, d: nat)
    requires Matches(env, s, t) && OneEach(s) && PoolOk(s') && Ordinary(t')
    requires c in s.clients && d in s.clients && c != d && s.clients[c].job.Idle?
    requires s' == s.(streams := WithHandle(s.streams, s.clients[c].session.id, Absent), clients := s.clients - {c})
    requires c in t.live && t.live[c] == s.clients[c].session
    requires t' == t.(streams := WithHandle(t.streams, t.live[c].id, Absent), live := t.live - {c})
    ensures ClientMatches(env, s', t', d)
  {
    hide PoolOk, Ordinary, ClientMatches, Disk.Agrees, OneEach, UserMatches;
    var client := s.clients[d];
    SameDisk(s.disk, client.session.id);
    SameDisk(t.disk, client.session.id);
    if s.clients[c].session.auth {
      OtherIds(s, c, d);
    } else if client.session.auth {
      OtherIds(s, d, c);
    } else {
      AnonymousId(s, d);
      NoneThereEither(env, s, t);
    }
    ClientKept(env, s, t, s', t', d);
  }

  lemma AnonymousId(s: Pool, d: nat)
    requires PoolOk(s) && d in s.clients && !s.clients[d].session.auth
    ensures s.clients[d].session.id == []
  {
    assert SessionOk(s.clients[d].session);
  }

  lemma AcceptMatches(env: Env, s: Pool, t: Server, c: nat)
    requires Matches(env, s, t)
    ensures var r, q := Perform(env, s, Accept(c)), Advance(env, t, Connect(c));
      r.Up? && q.Running? && Matches(env, r.pool, q.server) && r.log == q.log
  {
    hide PoolOk, Ordinary, ClientMatches, Disk.Agrees, HandleOf, UserMatches;
    PerformKeepsOk(env, s, Accept(c));
    StepKeepsOrdinary(env, t, Connect(c));
    var s', t' := Perform(env, s, Accept(c)).pool, Advance(env, t, Connect(c)).server;
    if c !in s.clients {
      IdleMatches(env, s', t', c);
      forall d | d in s.clients ensures ClientMatches(env, s', t', d) {
        SameDisk(s.disk, s.clients[d].session.id);
        SameDisk(t.disk, s.clients[d].session.id);
        ClientKept(env, s, t, s', t', d);
      }
      forall u: bytes | !BusyFor(s', u) ensures UserMatches(s', t', u) {
        BusyLonger(s, s', c, u);
        AcceptedFor(s, t, s', t', u);
      }
    }
  }

  lemma AcceptedFor(s: Pool, t: Server, s': Pool, t': Server, u: bytes)
    requires UserMatches(s, t, u)
    requires s'.disk == s.disk && t'.disk == t.disk && s'.streams == s.streams && t'.streams == t.streams
    ensures UserMatches(s', t', u)
  {
  }

  /** One action of the schedule against the whole request it completes, if it completes one. */
  lemma ActionMatches(env: Env, s: Pool, t: Server, x: Action)
    requires Matches(env, s, t) && OneEach(s) && GoodAction(x)
    ensures var r, es := Perform(env, s, x), Completed(env, s, x);
      if es == [] then r.Up? && Matches(env, r.pool, t) && r.log == []
      else
        var q := Advance(env, t, es[0]);
        r.Up? == q.Running? && (r.Up? ==> Matches(env, r.pool, q.server) && r.log == q.log)
  {
    hide Matches, Advance, OneEach, NextMove, GoodEvent;
    assert PoolOk(s) by { MatchesOk(env, s, t); }
    match x
    case Accept(c) => AcceptMatches(env, s, t, c);
    case Receive(c, m, f) => ReceiveMatches(env, s, t, c, m, f);
    case Close(c) =>
      if c in s.clients && s.clients[c].job.Idle? {
        CloseMatches(env, s, t, c);
      }
    case Operate(c) =>
      if c in s.clients && s.clients[c].job.Busy? {
        if NextMove(env, s, c).Over? {
          assert JobOk(s.disk, s.streams, s.clients[c]);
          JobIsGood(s, c);
          OverMatches(env, s, t, c);
        } else {
          GoingMatches(env, s, t, c);
        }
      }
  }

  lemma MatchesOk(env: Env, s: Pool, t: Server)
    requires Matches(env, s, t)
    ensures PoolOk(s)
  {
  }

  lemma JobIsGood(s: Pool, c: nat)
    requires PoolOk(s) && c in s.clients && s.clients[c].job.Busy?
    ensures GoodEvent(Incoming(c, s.clients[c].job.msg, s.clients[c].job.faults))
  {
    assert JobOk(s.disk, s.streams, s.clients[c]);
  }

  /** For every schedule of the single operations of any number of connections, at most one for a user:
      the replies are, in the same order, those of the server that handles the schedule's requests
      whole, one after the other; the process ends in both or in neither; and at every moment every
      user who is not in the middle of a request has the same files, directories, index and stream in
      both. */
  lemma {:induction false} Serializable(env: Env, s: Pool, t: Server, xs: seq<Action>)
    requires Matches(env, s, t) && (forall x <- xs :: GoodAction(x)) && AlwaysOneEach(env, s, xs)
    ensures var r, q := RunPool(env, s, xs), RunServer(env, t, WholeRequests(env, s, xs));
      && r.Up? == q.Running?
      && (r.Up? ==> Matches(env, r.pool, q.server) && r.log == q.log)
  {
    hide Matches, Perform, Advance, OneEach, PoolOk, GoodAction, GoodEvent, Completed;
    MatchesOk(env, s, t);
    if xs != [] {
      var x, front := Last(xs), Front(xs);
      assert GoodAction(x) by { assert x in xs; }
      Serializable(env, s, t, front);
      var r, es := RunPool(env, s, front), WholeRequests(env, s, front);
      var q := RunServer(env, t, es);
      if r.Up? {
        ActionMatches(env, r.pool, q.server, x);
        var more := Completed(env, r.pool, x);
        if more == [] {
          assert WholeRequests(env, s, xs) == es;
        } else {
          var all := WholeRequests(env, s, xs);
          assert more == [more[0]] && Front(all) == es && Last(all) == more[0];
        }
      }
    }
  }

  /** When the server has just started, there is nothing in which the two could differ. */
  lemma StartsMatching(env: Env, disk: Disk)
    requires disk.InodesOk()
    ensures Matches(env, Pool(disk, map[], map[]), Server(disk, map[], map[]))
  {
    var s, t := Pool(disk, map[], map[]), Server(disk, map[], map[]);
    forall u: bytes ensures UserMatches(s, t, u) {
      SameDisk(disk, u);
    }
  }
}

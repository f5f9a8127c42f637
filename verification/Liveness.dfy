/** Requests are served: a thread that is given enough operations answers its request, and every order
    of whole requests is what some schedule does. */
module Liveness {
  import opened Bytes
  import opened Tlvs
  import opened Disks
  import opened Transfer
  import opened Sessions
  import opened Servers
  import opened Jobs
  import opened Schedules
  import opened Serial

  /** The number of operations after which a thread that is left alone has finished. */
  function Duration(
    env: Env, disk: Disk, streams: Streams, s: Session, m: Msg, f: Faults, stage: Stage): (n: nat)
    requires PathOf(m).Some? ==> PathOf(m).value != []
    requires StageOk(s, m, f, stage)
    ensures 0 < n <= StageWeight(f, stage) + 1
    decreases StageWeight(f, stage)
  {
    TakeLess(env, disk, streams, s, m, f, stage);
    match Take(env, disk, streams, s, m, f, stage)
    case Over(_) => 1
    case Going(disk', streams', s', stage') => 1 + Duration(env, disk', streams', s', m, f, stage')
  }

  function Operations(c: nat, n: nat): (xs: seq<Action>)
    ensures |xs| == n && forall x <- xs :: x == Operate(c) && GoodAction(x)
  {
    seq(n, _ => Operate(c))
  }

  lemma {:induction false} RunConcat(env: Env, s: Pool, a: seq<Action>, b: seq<Action>)
    requires PoolOk(s) && (forall x <- a :: GoodAction(x)) && (forall x <- b :: GoodAction(x))
    ensures RunPool(env, s, a + b)
         == match RunPool(env, s, a)
            case Down => Down
            case Up(mid, log) =>
              match RunPool(env, mid, b)
              case Down => Down
              case Up(after, more) => Up(after, log + more)
  {
    hide Perform, GoodAction, PoolOk;
    if b == [] {
      assert a + b == a;
    } else {
      assert Front(a + b) == a + Front(b) && Last(a + b) == Last(b);
      assert GoodAction(Last(b)) by { assert Last(b) in b; }
      RunConcat(env, s, a, Front(b));
    }
  }

  lemma {:induction false} WholeConcat(env: Env, s: Pool, a: seq<Action>, b: seq<Action>)
    requires PoolOk(s) && (forall x <- a :: GoodAction(x)) && (forall x <- b :: GoodAction(x))
    ensures WholeRequests(env, s, a + b)
         == match RunPool(env, s, a)
            case Down => WholeRequests(env, s, a)
            case Up(mid, _) => WholeRequests(env, s, a) + WholeRequests(env, mid, b)
  {
    hide Perform, GoodAction, PoolOk, Completed, RunPool;
    if b == [] {
      assert a + b == a;
      if RunPool(env, s, a).Up? {
        assert WholeRequests(env, s, a) + [] == WholeRequests(env, s, a);
      }
    } else {
      assert Front(a + b) == a + Front(b) && Last(a + b) == Last(b);
      assert GoodAction(Last(b)) by { assert Last(b) in b; }
      RunConcat(env, s, a, Front(b));
      WholeConcat(env, s, a, Front(b));
    }
  }

  lemma OneAction(env: Env, s: Pool, x: Action)
    requires PoolOk(s) && GoodAction(x)
    ensures RunPool(env, s, [x]) == Perform(env, s, x)
    ensures WholeRequests(env, s, [x]) == Completed(env, s, x)
  {
    hide Perform, PoolOk, Completed, GoodAction;
    assert Front([x]) == [];
    assert RunPool(env, s, []) == Up(s, []);
    assert WholeRequests(env, s, []) == [];
    if Perform(env, s, x).Up? {
      assert [] + Perform(env, s, x).log == Perform(env, s, x).log;
    }
    assert [] + Completed(env, s, x) == Completed(env, s, x);
  }

  /** The pool after a request of `c` has come to this outcome. */
  function Concluded(clients: map<nat, Client>, c: nat, o: Outcome): State {
    match o
    case Crashed => Down
    case Replied(disk, streams, session, reply) =>
      Up(Pool(disk, streams, clients[c := Client(session, Idle)]), [(c, reply)])
  }

  ghost function DurationOf(env: Env, s: Pool, c: nat): nat
    requires PoolOk(s) && c in s.clients && s.clients[c].job.Busy?
  {
    var Client(session, Busy(m, f, stage)) := s.clients[c];
    assert SessionOk(session) && JobOk(s.disk, s.streams, s.clients[c]);
    Duration(env, s.disk, s.streams, session, m, f, stage)
  }

  /** One operation of a busy thread: it is over, or one step nearer to it. */
  lemma OneTake(env: Env, s: Pool, c: nat)
    requires PoolOk(s) && c in s.clients && s.clients[c].job.Busy?
    ensures var v, after, job := NextMove(env, s, c), Perform(env, s, Operate(c)), s.clients[c].job;
      if v.Over? then
        && OutlookOf(env, s, c) == v.outcome && DurationOf(env, s, c) == 1
        && after == Concluded(s.clients, c, v.outcome)
        && Completed(env, s, Operate(c)) == [Incoming(c, job.msg, job.faults)]
      else
        && after.Up? && after.log == [] && Completed(env, s, Operate(c)) == []
        && c in after.pool.clients && after.pool.clients == s.clients[c := after.pool.clients[c]]
        && after.pool.clients[c].job == job.(stage := v.stage)
        && PoolOk(after.pool) && DurationOf(env, after.pool, c) == DurationOf(env, s, c) - 1
        && OutlookOf(env, after.pool, c) == OutlookOf(env, s, c)
  {
    hide Disk.InodesOk, StreamsOk, StageOk, StageInodes, Take, GoodMsg;
    PerformKeepsOk(env, s, Operate(c));
    assert SessionOk(s.clients[c].session) && JobOk(s.disk, s.streams, s.clients[c]);
  }

  lemma ConcludedAlike(clients: map<nat, Client>, c: nat, client: Client, o: Outcome)
    ensures Concluded(clients[c := client], c, o) == Concluded(clients, c, o)
  {
    if o.Replied? {
      assert clients[c := client][c := Client(o.session, Idle)] == clients[c := Client(o.session, Idle)];
    }
  }

  /** A busy thread, given its operations, comes to what it was going to come to. */
  lemma {:induction false} Completes(env: Env, s: Pool, c: nat)
    requires PoolOk(s) && c in s.clients && s.clients[c].job.Busy?
    ensures var xs, job := Operations(c, DurationOf(env, s, c)), s.clients[c].job;
      && RunPool(env, s, xs) == Concluded(s.clients, c, OutlookOf(env, s, c))
      && WholeRequests(env, s, xs) == [Incoming(c, job.msg, job.faults)]
    decreases DurationOf(env, s, c)
  {
    hide PoolOk, GoodAction, Concluded, GoodEvent, NextMove, Perform, Completed, DurationOf, OutlookOf, RunPool,
         WholeRequests;
    GoodOperation(c);
    var n := DurationOf(env, s, c);
    var after := Perform(env, s, Operate(c));
    OneAction(env, s, Operate(c));
    OneTake(env, s, c);
    if NextMove(env, s, c).Over? {
      assert Operations(c, n) == [Operate(c)];
    } else {
      assert Operations(c, n) == [Operate(c)] + Operations(c, n - 1);
      Completes(env, after.pool, c);
      RunConcat(env, s, [Operate(c)], Operations(c, n - 1));
      WholeConcat(env, s, [Operate(c)], Operations(c, n - 1));
      ConcludedAlike(s.clients, c, after.pool.clients[c], OutlookOf(env, s, c));
      NoLogBefore(after, RunPool(env, after.pool, Operations(c, n - 1)));
    }
  }

  lemma GoodOperation(c: nat)
    ensures GoodAction(Operate(c))
  {
  }

  lemma GoodReceive(c: nat, m: Msg, f: Faults)
    requires GoodAction(Receive(c, m, f))
    ensures GoodMsg(m) && (PathOf(m).Some? ==> PathOf(m).value != [])
  {
  }

  lemma NoLogBefore(before: State, after: State)
    requires before.Up? && before.log == []
    ensures after.Up? ==> Up(after.pool, before.log + after.log) == after
  {
  }

  /** The arrival of a message, and the operations that serve it. */
  ghost function Serving(env: Env, s: Pool, c: nat, m: Msg, f: Faults): (xs: seq<Action>)
    requires PoolOk(s) && c in s.clients && GoodAction(Receive(c, m, f))
    ensures forall x <- xs :: GoodAction(x) && x.conn == c && (x.Receive? || x.Operate?)
  {
    var session := s.clients[c].session;
    [Receive(c, m, f)] + Operations(c, Duration(env, s.disk, s.streams, session, m, f, Begin))
  }

  /** A message that arrives while its connection is idle is served, whatever the other threads are in the
      middle of: after at most so many operations of its own thread the connection is idle again, and
      state, session and reply are exactly those the whole request is specified to have; or both end
      the process. */
  lemma RequestIsServed(env: Env, s: Pool, c: nat, m: Msg, f: Faults)
    requires PoolOk(s) && c in s.clients && s.clients[c].job.Idle? && GoodAction(Receive(c, m, f))
    ensures var xs := Serving(env, s, c, m, f);
      && |xs| <= StageWeight(f, Begin) + 2
      && RunPool(env, s, xs)
         == Concluded(s.clients, c, HandleRequest(env, s.disk, s.streams, s.clients[c].session, m, f))
      && WholeRequests(env, s, xs) == [Incoming(c, m, f)]
  {
    hide PoolOk, GoodAction, Concluded, RunPool, WholeRequests, HandleRequest;
    GoodReceive(c, m, f);
    var x, session := Receive(c, m, f), s.clients[c].session;
    var n := Duration(env, s.disk, s.streams, session, m, f, Begin);
    OneAction(env, s, x);
    Received(env, s, c, m, f);
    var after := Perform(env, s, x).pool;
    Completes(env, after, c);
    RunConcat(env, s, [x], Operations(c, n));
    WholeConcat(env, s, [x], Operations(c, n));
    AloneIsHandled(env, s.disk, s.streams, session, m, f);
    ConcludedAlike(s.clients, c, after.clients[c], OutlookOf(env, after, c));
    NoLogBefore(Perform(env, s, x), RunPool(env, after, Operations(c, n)));
  }

  lemma Received(env: Env, s: Pool, c: nat, m: Msg, f: Faults)
    requires PoolOk(s) && c in s.clients && s.clients[c].job.Idle? && GoodAction(Receive(c, m, f))
    ensures var after, session := Perform(env, s, Receive(c, m, f)), s.clients[c].session;
      && after == Up(s.(clients := s.clients[c := Client(session, Busy(m, f, Begin))]), []) && PoolOk(after.pool)
      && DurationOf(env, after.pool, c) == Duration(env, s.disk, s.streams, session, m, f, Begin)
      && OutlookOf(env, after.pool, c) == Outlook(env, s.disk, s.streams, session, m, f, Begin)
  {
    PerformKeepsOk(env, s, Receive(c, m, f));
    hide PoolOk, Duration, Outlook, GoodMsg;
  }

  // Every order of whole requests.

  /** The pool with the connections of the server, all idle. */
  function PoolOf(t: Server): Pool {
    Pool(t.disk, t.streams, map c | c in t.live :: Client(t.live[c], Idle))
  }

  ghost function Performing(env: Env, t: Server, e: Event): (xs: seq<Action>)
    requires Ordinary(t) && GoodEvent(e)
    ensures forall x <- xs :: GoodAction(x) && x.conn == e.conn
    ensures e.Incoming? ==> forall x <- xs :: x.Receive? || x.Operate?
  {
    match e
    case Connect(c) => [Accept(c)]
    case Shutdown(c) => [Close(c)]
    case Incoming(c, m, f) =>
      if c !in t.live then []
      else
        PoolOfOk(t);
        Serving(env, PoolOf(t), c, m, f)
  }

  lemma PoolOfOk(t: Server)
    requires Ordinary(t)
    ensures PoolOk(PoolOf(t)) && PoolOf(t).clients.Keys == t.live.Keys
  {
    hide Disk.InodesOk, StreamsOk;
  }

  /** The schedule that serves the events one after the other. */
  ghost function ScheduleOf(env: Env, t: Server, es: seq<Event>): (xs: seq<Action>)
    requires Ordinary(t) && forall e <- es :: GoodEvent(e)
    ensures forall x <- xs :: GoodAction(x)
  {
    if es == [] then []
    else
      assert GoodEvent(Last(es)) by { assert Last(es) in es; }
      AlwaysOrdinary(env, t, Front(es));
      match RunServer(env, t, Front(es))
      case Stopped => ScheduleOf(env, t, Front(es))
      case Running(before, _) => ScheduleOf(env, t, Front(es)) + Performing(env, before, Last(es))
  }

  lemma {:induction false} ScheduleOfOne(env: Env, t: Server, es: seq<Event>, c: nat)
    requires Ordinary(t) && forall e <- es :: GoodEvent(e) && e.Incoming? && e.conn == c
    ensures forall x <- ScheduleOf(env, t, es) :: x.conn == c && (x.Receive? || x.Operate?)
  {
    hide Ordinary, GoodEvent, GoodAction, Performing;
    if es != [] {
      assert Last(es) in es && GoodEvent(Last(es));
      AlwaysOrdinary(env, t, Front(es));
      ScheduleOfOne(env, t, Front(es), c);
    }
  }

  lemma {:induction false} AlwaysOrdinary(env: Env, t: Server, es: seq<Event>)
    requires Ordinary(t) && forall e <- es :: GoodEvent(e)
    ensures RunServer(env, t, es).Running? ==> Ordinary(RunServer(env, t, es).server)
  {
    hide Ordinary, Advance, GoodEvent;
    if es != [] {
      assert GoodEvent(Last(es)) by { assert Last(es) in es; }
      AlwaysOrdinary(env, t, Front(es));
      if RunServer(env, t, Front(es)).Running? {
        StepKeepsOrdinary(env, RunServer(env, t, Front(es)).server, Last(es));
      }
    }
  }

  /** The event is one of a live connection, or makes one. */
  predicate Concerns(t: Server, e: Event) {
    e.Connect? || e.conn in t.live
  }

  /** The state of the pool that a state of the server stands for. */
  function StateOf(p: Progress): State {
    match p
    case Stopped => Down
    case Running(server, log) => Up(PoolOf(server), log)
  }

  /** Each event is what its schedule does. */
  lemma EventPerformed(env: Env, t: Server, e: Event)
    requires Ordinary(t) && GoodEvent(e)
    ensures PoolOk(PoolOf(t))
    ensures RunPool(env, PoolOf(t), Performing(env, t, e)) == StateOf(Advance(env, t, e))
    ensures WholeRequests(env, PoolOf(t), Performing(env, t, e)) == if Concerns(t, e) then [e] else []
  {
    hide Ordinary, PoolOk, HandleRequest, Serving, RunPool, WholeRequests;
    var s := PoolOf(t);
    PoolOfOk(t);
    match e
    case Connect(c) =>
      OneAction(env, s, Accept(c));
      assert PoolOf(t.(live := t.live[c := FRESH])).clients == s.clients[c := Client(FRESH, Idle)];
    case Shutdown(c) =>
      OneAction(env, s, Close(c));
      assert PoolOf(t.(live := t.live - {c})).clients == s.clients - {c};
    case Incoming(c, m, f) =>
      if c in t.live {
        RequestIsServed(env, s, c, m, f);
        IncomingConcluded(env, t, c, m, f);
      } else {
        NothingDone(env, s);
      }
  }

  lemma NothingDone(env: Env, s: Pool)
    requires PoolOk(s)
    ensures RunPool(env, s, []) == Up(s, []) && WholeRequests(env, s, []) == []
  {
  }

  lemma IncomingConcluded(env: Env, t: Server, c: nat, m: Msg, f: Faults)
    requires c in t.live && GoodEvent(Incoming(c, m, f))
    ensures Concluded(PoolOf(t).clients, c, HandleRequest(env, t.disk, t.streams, t.live[c], m, f))
         == StateOf(Advance(env, t, Incoming(c, m, f)))
  {
    hide HandleRequest, GoodMsg;
    var o := Advance(env, t, Incoming(c, m, f));
    if o.Running? {
      assert PoolOf(o.server).clients == PoolOf(t).clients[c := Client(o.server.live[c], Idle)];
    }
  }

  /** Every event of the run, while it lasts, is one of a live connection, or makes one. */
  ghost predicate AllConcern(env: Env, t: Server, es: seq<Event>)
    requires forall e <- es :: GoodEvent(e)
  {
    es != [] ==>
      && AllConcern(env, t, Front(es))
      && RunServer(env, t, Front(es)).Running?
      && Concerns(RunServer(env, t, Front(es)).server, Last(es))
  }

  /** Every order of whole requests is what some schedule of single operations does: it ends in the same
      state with the same replies, or ends the process too; and the whole requests of that schedule
      are exactly those. */
  lemma {:induction false} EveryOrderIsScheduled(env: Env, t: Server, es: seq<Event>)
    requires Ordinary(t) && forall e <- es :: GoodEvent(e)
    ensures PoolOk(PoolOf(t))
    ensures RunPool(env, PoolOf(t), ScheduleOf(env, t, es)) == StateOf(RunServer(env, t, es))
    ensures AllConcern(env, t, es) ==> WholeRequests(env, PoolOf(t), ScheduleOf(env, t, es)) == es
  {
    hide Ordinary, PoolOk, Advance, RunPool, WholeRequests, Performing, GoodAction, GoodEvent, PoolOf, Concerns;
    PoolOfOk(t);
    if es == [] {
      NothingDone(env, PoolOf(t));
    } else {
      var e, front := Last(es), Front(es);
      assert GoodEvent(e) by { assert e in es; }
      EveryOrderIsScheduled(env, t, front);
      AlwaysOrdinary(env, t, front);
      if RunServer(env, t, front).Running? {
        var before := RunServer(env, t, front).server;
        EventPerformed(env, before, e);
        RunConcat(env, PoolOf(t), ScheduleOf(env, t, front), Performing(env, before, e));
        WholeConcat(env, PoolOf(t), ScheduleOf(env, t, front), Performing(env, before, e));
        assert es == front + [e];
      }
    }
  }
}

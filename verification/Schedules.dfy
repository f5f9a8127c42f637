/** All connections on a pool of threads: a schedule orders the single operations of all of them. A
    connection's own callbacks run one after the other (core/server.cpp:67-77,
    core/connection.cpp:101-202). */
module Schedules {
  import opened Bytes
  import opened Tlvs
  import opened Disks
  import opened Transfer
  import opened Sessions
  import opened Servers
  import opened Jobs

  /** Between requests, or in the middle of one. */
  datatype Job = Idle | Busy(msg: Msg, faults: Faults, stage: Stage)

  datatype Client = Client(session: Session, job: Job)

  /** The shared disk and stream map, and the live connections. */
  datatype Pool = Pool(disk: Disk, streams: Streams, clients: map<nat, Client>)

  /** A connection is accepted, its next message has arrived, its thread performs one operation, or it
      ends. */
  datatype Action =
    | Accept(conn: nat)
    | Receive(conn: nat, msg: Msg, faults: Faults)
    | Operate(conn: nat)
    | Close(conn: nat)

  ghost predicate GoodAction(x: Action) {
    x.Receive? ==> GoodEvent(Incoming(x.conn, x.msg, x.faults))
  }

  /** The process has ended, or the state and the replies given. */
  datatype State = Down | Up(pool: Pool, log: seq<(nat, Reply)>)

  ghost predicate JobOk(disk: Disk, streams: Streams, c: Client) {
    c.job.Busy? ==>
      && GoodEvent(Incoming(0, c.job.msg, c.job.faults))
      && StageOk(c.session, c.job.msg, c.job.faults, c.job.stage)
      && StageInodes(disk, streams, c.session, c.job.stage)
  }

  /** The facts that hold in every state of every schedule, whatever clients send. */
  ghost predicate PoolOk(s: Pool) {
    && s.disk.InodesOk()
    && StreamsOk(s.disk, s.streams)
    && (forall c <- s.clients :: SessionOk(s.clients[c].session) && JobOk(s.disk, s.streams, s.clients[c]))
  }

  /** What the thread of a busy connection does next. */
  ghost function NextMove(env: Env, s: Pool, c: nat): Move
    requires PoolOk(s) && c in s.clients && s.clients[c].job.Busy?
  {
    var Client(session, Busy(m, f, stage)) := s.clients[c];
    assert SessionOk(session) && JobOk(s.disk, s.streams, s.clients[c]);
    Take(env, s.disk, s.streams, session, m, f, stage)
  }

  ghost function Perform(env: Env, s: Pool, x: Action): State
    requires PoolOk(s) && GoodAction(x)
  {
    var c := x.conn;
    match x
    case Accept(_) =>
      Up(if c in s.clients then s else s.(clients := s.clients[c := Client(FRESH, Idle)]), [])
    case Receive(_, m, f) =>
      if c in s.clients && s.clients[c].job.Idle? then
        Up(s.(clients := s.clients[c := s.clients[c].(job := Busy(m, f, Begin))]), [])
      else Up(s, [])
    case Close(_) =>
      if c in s.clients && s.clients[c].job.Idle? then
        var id := s.clients[c].session.id;
        Up(s.(streams := WithHandle(s.streams, id, Absent), clients := s.clients - {c}), [])
      else Up(s, [])
    case Operate(_) =>
      if c !in s.clients || s.clients[c].job.Idle? then Up(s, [])
      else match NextMove(env, s, c)
        case Over(Crashed) => Down
        case Over(Replied(disk, streams, session, reply)) =>
          Up(Pool(disk, streams, s.clients[c := Client(session, Idle)]), [(c, reply)])
        case Going(disk, streams, session, stage) =>
          Up(Pool(disk, streams, s.clients[c := Client(session, s.clients[c].job.(stage := stage))]), [])
  }

  // What every schedule keeps.

  /** Whatever the others do, the inodes a thread refers to stay. */
  lemma JobKept(s: Pool, disk: Disk, streams: Streams, d: nat)
    requires PoolOk(s) && d in s.clients && forall i <- s.disk.data :: i in disk.data
    ensures SessionOk(s.clients[d].session) && JobOk(disk, streams, s.clients[d])
  {
  }

  lemma PerformKeepsOk(env: Env, s: Pool, x: Action)
    requires PoolOk(s) && GoodAction(x)
    ensures Perform(env, s, x).Up? ==> PoolOk(Perform(env, s, x).pool)
  {
    hide Disk.InodesOk, Take, StageOk, StageInodes;
    var after, c := Perform(env, s, x), x.conn;
    match x
    case Operate(_) =>
      if c in s.clients && s.clients[c].job.Busy? && after.Up? {
        var Client(session, Busy(m, f, stage)) := s.clients[c];
        JobKept(s, s.disk, s.streams, c);
        TakeKeeps(env, s.disk, s.streams, session, m, f, stage);
        forall d | d in s.clients && d != c ensures JobOk(after.pool.disk, after.pool.streams, s.clients[d]) {
          JobKept(s, after.pool.disk, after.pool.streams, d);
        }
      }
    case Close(_) =>
      if c in s.clients && s.clients[c].job.Idle? {
        forall d | d in s.clients && d != c ensures JobOk(after.pool.disk, after.pool.streams, s.clients[d]) {
          JobKept(s, after.pool.disk, after.pool.streams, d);
        }
      }
    case Receive(_, m, f) =>
      if c in s.clients {
        NothingAhead(s, s.clients[c].session, m, f);
      }
    case Accept(_) =>
  }

  lemma NothingAhead(s: Pool, session: Session, m: Msg, f: Faults)
    ensures StageOk(session, m, f, Begin) && StageInodes(s.disk, s.streams, session, Begin)
  {
  }

  /** The state after a schedule of single operations. */
  ghost function RunPool(env: Env, s: Pool, xs: seq<Action>): (r: State)
    requires PoolOk(s) && forall x <- xs :: GoodAction(x)
    ensures r.Up? ==> PoolOk(r.pool)
  {
    if xs == [] then Up(s, [])
    else
      assert GoodAction(Last(xs)) by { assert Last(xs) in xs; }
      match RunPool(env, s, Front(xs))
      case Down => Down
      case Up(before, log) =>
        PerformKeepsOk(env, before, Last(xs));
        match Perform(env, before, Last(xs))
        case Down => Down
        case Up(after, more) => Up(after, log + more)
  }
}

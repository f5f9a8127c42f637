/** All connections together: any interleaving of their requests and shutdowns. */
module Servers {
  import opened Bytes
  import opened Tlvs
  import opened Disks
  import opened Transfer
  import opened Soundness
  import opened Isolation
  import opened Sessions

  /** The shared disk and stream map, and the live connections. */
  datatype Server = Server(disk: Disk, streams: Streams, live: map<nat, Session>)

  datatype Event =
    | Connect(conn: nat)
    | Incoming(conn: nat, msg: Msg, faults: Faults)
    | Shutdown(conn: nat)

  /** Clients send well-formed messages with normalised paths, and a traversal of a user's directory
      does not visit the directory itself. */
  ghost predicate GoodEvent(e: Event) {
    e.Incoming? ==> GoodMsg(e.msg) && [] !in e.faults.listing
  }

  datatype Progress = Stopped | Running(server: Server, log: seq<(nat, Reply)>)

  ghost function Advance(env: Env, s: Server, e: Event): Progress
    requires GoodEvent(e)
  {
    match e
    case Connect(c) => Running(if c in s.live then s else s.(live := s.live[c := FRESH]), [])
    case Shutdown(c) =>
      if c !in s.live then Running(s, [])
      else Running(s.(streams := WithHandle(s.streams, s.live[c].id, Absent), live := s.live - {c}), [])
    case Incoming(c, m, f) =>
      if c !in s.live then Running(s, [])
      else match HandleRequest(env, s.disk, s.streams, s.live[c], m, f)
        case Crashed => Stopped
        case Replied(disk, streams, session, reply) =>
          Running(Server(disk, streams, s.live[c := session]), [(c, reply)])
  }

  ghost function RunServer(env: Env, s: Server, es: seq<Event>): Progress
    requires forall e <- es :: GoodEvent(e)
  {
    if es == [] then Running(s, [])
    else
      assert GoodEvent(Last(es)) by { assert Last(es) in es; }
      match RunServer(env, s, Front(es))
      case Stopped => Stopped
      case Running(before, log) =>
        match Advance(env, before, Last(es))
        case Stopped => Stopped
        case Running(after, more) => Running(after, log + more)
  }

  // What every request keeps.

  /** Streams write to allocated inodes below their user's directory. */
  ghost predicate StreamsOk(disk: Disk, streams: Streams) {
    forall id <- streams :: !streams[id].Absent?
      && (streams[id].Opened? ==> streams[id].inode in disk.data && streams[id].inode.home == id)
  }

  /** The facts that hold in every state of every run, whatever clients send. */
  ghost predicate Ordinary(s: Server) {
    && s.disk.InodesOk()
    && StreamsOk(s.disk, s.streams)
    && (forall c <- s.live :: SessionOk(s.live[c]))
  }

  ghost predicate SessionOk(s: Session) {
    && (s.synced ==> s.auth)
    && (!s.auth ==> s.id == [])
    && (s.auth ==> s.id != [])
    && (!s.synced ==> s.index == map[])
  }

  /** A user's stream after one of their requests, among all the others. */
  lemma StreamsKept(before: Disk, after: Disk, streams: Streams, id: bytes, handle: Handle)
    requires StreamsOk(before, streams)
    requires forall other | other != id :: before.Agrees(after, other)
    requires handle.Opened? ==> handle.inode in after.data && handle.inode.home == id
    ensures StreamsOk(after, WithHandle(streams, id, handle))
  {
    forall other | other in streams && other != id && streams[other].Opened?
      ensures streams[other].inode in after.data
    {
      assert before.Agrees(after, other);
    }
  }

  lemma ChangeKeepsOrdinary(env: Env, disk: Disk, streams: Streams, s: Session, m: Msg, f: Faults)
    requires disk.InodesOk() && StreamsOk(disk, streams)
    requires m.tlvs != [] && ChangesFiles(m.kind) && (PathOf(m).Some? ==> PathOf(m).value != [])
    ensures var o := ChangeFiles(env, disk, streams, s, m, f);
      o.Replied? ==>
        && o.disk.InodesOk() && StreamsOk(o.disk, o.streams)
        && o.session == s.(index := o.session.index)
        && (forall other | other != s.id ::
              disk.Agrees(o.disk, other) && HandleOf(o.streams, other) == HandleOf(streams, other))
  {
    hide Disk.InodesOk, StreamsOk, Disk.Agrees, Serve, PathOf;
    forall other: bytes { SameDisk(disk, other); }
    if PathOf(m).Some? && (m.kind == ERASE || |m.tlvs| > 1) {
      var st, r := LocalOf(disk, streams, s), RequestOf(m);
      LocalHandleOk(disk, streams, s);
      ServeInodes(env.hash, st, r, f);
      var step := Serve(env.hash, st, r, f);
      if step.Next? {
        forall other | other != s.id ensures disk.Agrees(step.st.disk, other) {
          ServeFrame(env.hash, st, r, f, other);
        }
        StreamsKept(disk, step.st.disk, streams, s.id, step.st.handle);
      }
    }
  }

  lemma RequestKeepsOrdinary(env: Env, disk: Disk, streams: Streams, s: Session, m: Msg, f: Faults)
    requires disk.InodesOk() && StreamsOk(disk, streams) && SessionOk(s) && GoodMsg(m)
    ensures var o := HandleRequest(env, disk, streams, s, m, f);
      o.Replied? ==>
        && o.disk.InodesOk() && StreamsOk(o.disk, o.streams) && SessionOk(o.session)
        && (forall other | other != s.id ::
              disk.Agrees(o.disk, other) && HandleOf(o.streams, other) == HandleOf(streams, other))
  {
    hide Disk.InodesOk, StreamsOk, Disk.Agrees, ChangeFiles, ScanFiles, HandleOf, PathOf;
    forall other: bytes { SameDisk(disk, other); }
    if s.synced && m.tlvs != [] && ChangesFiles(m.kind) {
      ChangeKeepsOrdinary(env, disk, streams, s, m, f);
    }
  }

  lemma SameDisk(disk: Disk, other: bytes)
    ensures disk.Agrees(disk, other)
  {
  }

  lemma LocalHandleOk(disk: Disk, streams: Streams, s: Session)
    requires StreamsOk(disk, streams)
    ensures HandleOk(LocalOf(disk, streams, s))
  {
  }

  lemma StepKeepsOrdinary(env: Env, s: Server, e: Event)
    requires Ordinary(s) && GoodEvent(e)
    ensures Advance(env, s, e).Running? ==> Ordinary(Advance(env, s, e).server)
  {
    hide HandleRequest, Disk.InodesOk;
    match e
    case Connect(_) =>
    case Shutdown(c) =>
    case Incoming(c, m, f) =>
      if c in s.live {
        RequestKeepsOrdinary(env, s.disk, s.streams, s.live[c], m, f);
      }
  }
}

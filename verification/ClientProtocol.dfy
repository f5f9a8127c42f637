/** The messages of a well-behaved client, and what a whole server makes of them. */
module ClientProtocol {
  import opened Bytes
  import opened Tlvs
  import opened Paths
  import opened Disks
  import opened Transfer
  import opened Arrivals
  import opened Chunks
  import opened Stores
  import opened AtomicStore
  import opened Sessions
  import opened Servers
  import opened Isolation
  import opened Replies

  /** The message that asks for a request: the sign, the content, and END behind a last chunk. */
  function MessageOf(r: Transfer.Request): Msg {
    var sign := Tlv(ITEM, CreateSign(Text(r.path), r.digest));
    match r
    case Create(_, _, content, last) => Msg(CREATE, [sign, Tlv(CONTENT, content)] + Ending(last))
    case Update(_, _, content, last) => Msg(UPDATE, [sign, Tlv(CONTENT, content)] + Ending(last))
    case Erase(_, _) => Msg(ERASE, [sign] + Ending(true))
  }

  function Ending(last: bool): seq<Tlv> {
    if last then [Tlv(END, [])] else []
  }

  /** A normalised path, a digest without NUL, and lengths the decoder can read. */
  ghost predicate Expressible(r: Transfer.Request) {
    && ValidPath(r.path) && NUL !in r.digest
    && AllFit(MessageOf(r).tlvs)
  }

  /** The content of a chunk that is not the last does not end like END. */
  predicate Unmistakable(r: Transfer.Request) {
    r.Erase? || r.last || !EndsWithMark(r.content)
  }

  /** The server reads the request the client meant, exactly when no chunk before the last ends in
      the bytes of END: such a chunk is taken for the last. */
  lemma MessageRoundTrip(r: Transfer.Request)
    requires Expressible(r)
    ensures var m := MessageOf(r);
      && GoodMsg(m) && PathOf(m) == Some(r.path) && (m.kind != ERASE ==> |m.tlvs| > 1 && m.tlvs[1].tag == CONTENT)
      && (RequestOf(m) == r <==> Unmistakable(r))
  {
    hide Text, Parse, SplitSign, CreateSign, ValidName, EndsWithMark;
    SignRoundTrip(Text(r.path), r.digest);
    ParseText(r.path);
  }

  /** Client and server agree on the request. */
  ghost predicate Understood(x: Call) {
    Expressible(x.request) && Unmistakable(x.request) && [] !in x.faults.listing
  }

  function EventOf(c: nat, x: Call): Event {
    Incoming(c, MessageOf(x.request), x.faults)
  }

  function Sent(c: nat, cs: seq<Call>): seq<Event>
    ensures |Sent(c, cs)| == |cs|
  {
    seq(|cs|, i requires 0 <= i < |cs| => EventOf(c, cs[i]))
  }

  lemma SentGood(c: nat, cs: seq<Call>)
    requires forall x <- cs :: Understood(x)
    ensures forall e <- Sent(c, cs) :: GoodEvent(e)
    ensures forall x <- cs :: GoodCall(x)
  {
    forall x | x in cs ensures GoodMsg(MessageOf(x.request)) && Understood(x) {
      MessageRoundTrip(x.request);
    }
  }

  /** The replies: each echoes the sign of its request and ends with its status. */
  function Echoes(c: nat, cs: seq<Call>, statuses: seq<Status>): seq<(nat, Reply)>
    requires |cs| == |statuses|
  {
    seq(|cs|, i requires 0 <= i < |cs| => (c, EchoOf(cs[i].request, statuses[i])))
  }

  function EchoOf(r: Transfer.Request, status: Status): Reply {
    Reply([CreateSign(Text(r.path), r.digest)], status)
  }

  /** The user's part of the server's state. */
  ghost function UserState(s: Server, c: nat): Local
    requires c in s.live
  {
    LocalOf(s.disk, s.streams, s.live[c])
  }

  lemma OneChange(env: Env, s: Server, c: nat, x: Call)
    requires c in s.live && Understood(x) && GoodCall(x)
    ensures var r, m := x.request, MessageOf(x.request);
      && m.tlvs != [] && ChangesFiles(m.kind) && PathOf(m) == Some(r.path)
      && ChangeFiles(env, s.disk, s.streams, s.live[c], m, x.faults)
         == Finish(s.streams, s.live[c], CreateSign(Text(r.path), r.digest),
                   Serve(env.hash, UserState(s, c), r, x.faults))
  {
    MessageRoundTrip(x.request);
    hide Serve, Text, PathOf, RequestOf, CreateSign, Expressible, Unmistakable, Finish;
  }

  lemma OneRequest(env: Env, s: Server, c: nat, x: Call)
    requires c in s.live && s.live[c].auth && s.live[c].synced && Understood(x)
    requires GoodCall(x) && GoodEvent(EventOf(c, x))
    ensures var step := Serve(env.hash, UserState(s, c), x.request, x.faults);
      var p := Advance(env, s, EventOf(c, x));
      && p.Running? == step.Next?
      && (p.Running? ==>
            && c in p.server.live && p.server.live[c].auth && p.server.live[c].synced
            && (step.st.home == s.live[c].id ==> UserState(p.server, c) == step.st)
            && p.log == [(c, EchoOf(x.request, step.status))])
  {
    hide Serve, Text, PathOf, RequestOf, CreateSign, GoodMsg, Understood, ChangeFiles;
    OneChange(env, s, c, x);
  }

  /** Requests sent as messages over one synced connection do to the server, and are answered, what
      serving them one by one says, whatever the operating system does; and they end the process
      exactly if that does. */
  lemma {:induction false} ServerRuns(env: Env, s: Server, c: nat, cs: seq<Call>)
    requires forall x <- cs :: Understood(x)
    requires c in s.live && s.live[c].auth && s.live[c].synced && Ordinary(s)
    requires forall x <- cs :: GoodCall(x)
    requires forall e <- Sent(c, cs) :: GoodEvent(e)
    ensures var run, p := RunAll(env.hash, UserState(s, c), cs), RunServer(env, s, Sent(c, cs));
      && p.Running? == run.Finished?
      && (p.Running? ==>
            && |run.statuses| == |cs| && Ordinary(p.server)
            && c in p.server.live && p.server.live[c].auth && p.server.live[c].synced
            && UserState(p.server, c) == run.st
            && p.log == Echoes(c, cs, run.statuses))
  {
    hide Serve, Advance, EventOf, GoodEvent, Ordinary, Understood, GoodCall, EchoOf;
    if cs != [] {
      var front, x := Front(cs), Last(cs);
      assert x in cs && forall y <- front :: y in cs;
      assert Front(Sent(c, cs)) == Sent(c, front);
      assert Last(Sent(c, cs)) == EventOf(c, x) && EventOf(c, x) in Sent(c, cs);
      SentGood(c, front);
      ServerRuns(env, s, c, front);
      RunSnoc(env.hash, UserState(s, c), cs);
      var p := RunServer(env, s, Sent(c, front));
      if p.Running? {
        OneRequest(env, p.server, c, x);
        StepKeepsOrdinary(env, p.server, EventOf(c, x));
        HomeStays(env, p.server, c, x);
      }
    }
  }

  lemma HomeStays(env: Env, s: Server, c: nat, x: Call)
    requires Ordinary(s) && c in s.live && GoodCall(x)
    ensures var step := Serve(env.hash, UserState(s, c), x.request, x.faults);
      step.Next? ==> step.st.home == s.live[c].id
  {
    LocalHandleOk(s.disk, s.streams, s.live[c]);
    ServeInodes(env.hash, UserState(s, c), x.request, x.faults);
  }

  /** The run of the concrete server, from its state and its replies. */
  ghost predicate EndsAs(hash: Hasher, st: Local, at: Attempt) {
    !at.Dead? && Refines(hash, Finished(st, at.statuses), at)
  }

  lemma RunEndsAs(hash: Hasher, run: Run, at: Attempt)
    requires Refines(hash, run, at)
    ensures run.Halted? <==> at.Dead?
    ensures run.Finished? ==> run.statuses == at.statuses && EndsAs(hash, run.st, at)
  {
    hide Represents, ShowsBut, Lists, Transferring;
  }

  /** A synced connection over which a client sends whole transfers and erasures as messages: whatever
      the operating system does at each of them, the server's disk and index end up, every reply
      reads, and the process ends, as on the atomic store. */
  lemma AtomicStoreOverTheWire(env: Env, s: Server, c: nat, a: Store, ops: seq<Op>)
    requires Ordinary(s) && c in s.live && s.live[c].auth && s.live[c].synced
    requires Represents(env.hash, UserState(s, c), a)
    requires forall op <- ops :: GoodOp(op)
    requires (forall x <- AllMessages(ops) :: Understood(x)) && AtomicRun(env.hash, a, ops).Some?
    ensures forall e <- Sent(c, AllMessages(ops)) :: GoodEvent(e)
    ensures var p, at := RunServer(env, s, Sent(c, AllMessages(ops))), AtomicRun(env.hash, a, ops).value;
      && (p.Stopped? <==> at.Dead?)
      && (p.Running? ==>
            && Ordinary(p.server) && c in p.server.live && p.server.live[c].auth
            && EndsAs(env.hash, UserState(p.server, c), at)
            && |at.statuses| == |AllMessages(ops)|
            && p.log == Echoes(c, AllMessages(ops), at.statuses))
  {
    hide Represents, RunAll, RunServer, AtomicRun, Ordinary, Understood, Refines, EndsAs;
    SentGood(c, AllMessages(ops));
    RefinesAtomicStore(env.hash, UserState(s, c), a, ops);
    ServerRuns(env, s, c, AllMessages(ops));
    RunEndsAs(env.hash, RunAll(env.hash, UserState(s, c), AllMessages(ops)), AtomicRun(env.hash, a, ops).value);
  }

  // Where the atomic store comes from.

  function Below(home: bytes, paths: set<Path>): (below: set<Path>)
    ensures forall p: Path :: p in below <==> p != [] && [home] + p in paths
  {
    var below := set q | q in paths && |q| > 1 && q[0] == home :: q[1..];
    assert forall p: Path :: ([home] + p)[1..] == p;
    assert forall q: Path :: |q| > 1 && q[0] == home ==> q == [home] + q[1..];
    below
  }

  /** The files and directories below a user's directory, as a store. */
  function StoreOf(disk: Disk, home: bytes): Store {
    Store(map p | p in Below(home, disk.files.Keys) :: disk.Read([home] + p), Below(home, disk.dirs))
  }

  /** No left-over temporary file is listed. */
  ghost predicate CleanListing(disk: Disk, home: bytes, listing: seq<Path>) {
    forall p <- listing :: [home] + p in disk.files ==> !IsTemp(p)
  }

  /** A successful SYNC of a user without a stream, which meets no left-over temporary file, starts a
      session that stands for the store on the disk. */
  lemma SyncStartsStore(env: Env, disk: Disk, streams: Streams, s: Session, m: Msg, f: Faults)
    requires disk.InodesOk() && disk.TreeOk() && s.id !in streams
    requires s.auth && !s.synced && s.index == map[] && m.kind == SYNC && m.tlvs != []
    requires ListingOk(disk, s.id, f.listing) && CleanListing(disk, s.id, f.listing)
    ensures var o := Sessions.HandleRequest(env, disk, streams, s, m, f);
      o.Replied? && o.reply.status == Ok ==>
        Represents(env.hash, LocalOf(o.disk, o.streams, o.session), StoreOf(disk, s.id))
  {
    SyncEndToEnd(env, disk, streams, s, m, f);
    var o := Sessions.HandleRequest(env, disk, streams, s, m, f);
    if o.Replied? && o.reply.status == Ok {
      ListedRepresents(env.hash, disk, s.id, o.session.index, f.listing);
    }
  }

  lemma ListedRepresents(hash: Hasher, disk: Disk, home: bytes, index: Index, listing: seq<Path>)
    requires disk.InodesOk() && disk.TreeOk() && [home] in disk.dirs
    requires ListingOk(disk, home, listing) && CleanListing(disk, home, listing)
    requires ListsAllFiles(hash, disk, home, index)
    ensures Represents(hash, Local(home, disk, Absent, index), StoreOf(disk, home))
  {
    hide Disk.InodesOk, Disk.TreeOk, Disk.Read, IsTemp;
  }

  // From one session to the next.

  /** A state stands for no other store than the one on its disk. */
  lemma OnlyOneStore(hash: Hasher, st: Local, a: Store)
    requires Represents(hash, st, a)
    ensures a == StoreOf(st.disk, st.home)
  {
    hide Disk.InodesOk, Disk.TreeOk, IsTemp, Disk.Read;
    var b := StoreOf(st.disk, st.home);
    forall p: Path ensures p in a.files <==> p in b.files {
      assert p != [] ==> st.Abs(p) == [st.home] + p;
    }
    forall p: Path ensures p in a.dirs <==> p in b.dirs {
      assert p != [] ==> st.Abs(p) == [st.home] + p;
    }
    assert a.files == b.files;
  }

  /** The session that the next SYNC starts stands for the store the last session left. */
  lemma SyncKeepsStore(env: Env, st: Local, a: Store, streams: Streams, s: Session, m: Msg, f: Faults)
    requires Represents(env.hash, st, a) && s.id == st.home && s.id !in streams
    requires s.auth && !s.synced && s.index == map[] && m.kind == SYNC && m.tlvs != []
    requires ListingOk(st.disk, s.id, f.listing)
    ensures var o := Sessions.HandleRequest(env, st.disk, streams, s, m, f);
      o.Replied? && o.reply.status == Ok ==> Represents(env.hash, LocalOf(o.disk, o.streams, o.session), a)
  {
    hide Disk.InodesOk, Disk.TreeOk, Sessions.HandleRequest;
    OnlyOneStore(env.hash, st, a);
    NoTemps(env.hash, st, a, f.listing);
    SyncStartsStore(env, st.disk, streams, s, m, f);
  }

  lemma NoTemps(hash: Hasher, st: Local, a: Store, listing: seq<Path>)
    requires Represents(hash, st, a) && ListingOk(st.disk, st.home, listing)
    ensures CleanListing(st.disk, st.home, listing)
  {
    hide Disk.InodesOk, Disk.TreeOk, IsTemp, Disk.Read;
    forall p | p in listing && [st.home] + p in st.disk.files ensures !IsTemp(p) {
      assert ValidPath(p) && st.Abs(p) in st.disk.files;
    }
  }

  /** The transfer of a new file, cut off after some of its chunks but not the last by the end of the
      connection: if any of them was answered OK, the next session lists the truncated file as synced,
      under the digest of the bytes that arrived. */
  lemma CutCreateIsListed(
    env: Env, st: Local, a: Store, p: Path, digest: bytes, pieces: seq<Piece>, n: nat,
    streams: Streams, s: Session, m: Msg, f: Faults)
    requires Represents(env.hash, st, a) && p != [] && !IsTemp(p) && n < |pieces|
    requires p !in a.files && !BlockedIn(a, p)
    requires s.id == st.home && s.id !in streams
    requires s.auth && !s.synced && s.index == map[] && m.kind == SYNC && m.tlvs != []
    ensures var run := RunAll(env.hash, st, Creates(p, digest, pieces)[..n]);
      && run.Finished? && |run.statuses| == n
      && var left := CloseStream(run.st).disk;
         Ok in run.statuses && ListingOk(left, s.id, f.listing) ==>
           var o := Sessions.HandleRequest(env, left, streams, s, m, f);
           o.Replied? && o.reply.status == Ok ==>
             Represents(env.hash, LocalOf(o.disk, o.streams, o.session),
                        Store(a.files[p := Kept(pieces[..n], run.statuses)], WithParents(a.dirs, p, |p|)))
  {
    hide RunAll, Represents, CreatedDisk, Sessions.HandleRequest, ListingOk, Disk.TreeOk, Disk.InodesOk, ArriveAll,
         Receptions, WithDirs;
    CanPut(env.hash, st, a, p);
    CreateUnderWay(env.hash, st, p, digest, pieces, n);
    ArrivedIsKept(Creation, p !in a.dirs, pieces[..n]);
    OnlyIfOpenable(Creation, p !in a.dirs, pieces[..n]);
    var run := RunAll(env.hash, st, Creates(p, digest, pieces)[..n]);
    if Ok in run.statuses {
      var content := Kept(pieces[..n], run.statuses);
      PutCreates(env.hash, st, a, p, env.hash(p, content), content, true);
      var whole := Created(st, p, env.hash(p, content), content, true);
      var a' := Store(a.files[p := content], WithParents(a.dirs, p, |p|));
      assert whole.disk == Creating(st, p, content).disk;
      if ListingOk(whole.disk, s.id, f.listing) {
        SyncKeepsStore(env, whole, a', streams, s, m, f);
      }
    }
  }

  // The life of a connection.

  /** A connection that is accepted starts anonymous, unsynced and with an empty index. */
  lemma ConnectStarts(env: Env, s: Server, c: nat)
    requires c !in s.live
    ensures Advance(env, s, Connect(c)) == Running(s.(live := s.live[c := Session(false, false, [], map[])]), [])
  {
  }

  /** A connection that ends is gone and its user's stream is closed; nothing else changes. */
  lemma ShutdownReleases(env: Env, s: Server, c: nat)
    requires c in s.live
    ensures var p := Advance(env, s, Servers.Shutdown(c));
      && p.Running? && p.log == [] && p.server.disk == s.disk && p.server.live == s.live - {c}
      && HandleOf(p.server.streams, s.live[c].id).Absent?
      && (forall id | id != s.live[c].id :: HandleOf(p.server.streams, id) == HandleOf(s.streams, id))
  {
  }

  /** The message of a client that logs in. */
  function LoginOf(name: bytes, password: bytes): Msg {
    Msg(AUTH, [Tlv(USRN, name), Tlv(PSWD, password)])
  }

  /** A client that connects, logs in with credentials that are accepted and asks for a SYNC: if the
      user's directory can be read, both are answered OK, and the session stands for the files and
      directories on the disk. */
  lemma LoginAndSync(env: Env, s: Server, c: nat, name: bytes, password: bytes, m: Msg, f: Faults, g: Faults)
    requires Ordinary(s) && s.disk.TreeOk() && c !in s.live
    requires env.accepts(name, password) && |name| < INT_LIMIT && |password| < INT_LIMIT
    requires m.kind == SYNC && m.tlvs != [] && AllFit(m.tlvs)
    requires var u := env.userId(name);
      && u !in s.streams && [u] in s.disk.dirs && !g.listingFails && !HasUnreadable(s.disk, u, g.unreadable)
      && ListingOk(s.disk, u, g.listing) && CleanListing(s.disk, u, g.listing)
    requires [] !in f.listing && [] !in g.listing
    ensures var es := [Connect(c), Incoming(c, LoginOf(name, password), f), Incoming(c, m, g)];
      && (forall e <- es :: GoodEvent(e))
      && var p := RunServer(env, s, es);
         && p.Running? && p.server.disk == s.disk && p.server.streams == s.streams
         && |p.log| == 2 && p.log[0] == (c, Reply([], Ok)) && p.log[1].0 == c && p.log[1].1.status == Ok
         && p.server.live.Keys == s.live.Keys + {c}
         && p.server.live[c].auth && p.server.live[c].synced && p.server.live[c].id == env.userId(name)
         && Represents(env.hash, UserState(p.server, c), StoreOf(s.disk, env.userId(name)))
  {
    hide Represents, ScanFiles, HasUnreadable, ListingOk, CleanListing, Disk.TreeOk, Disk.InodesOk, StreamsOk, StoreOf,
         PeerEntries, RecoversIndex, InOrder, ListsAllFiles;
    var u, login := env.userId(name), LoginOf(name, password);
    var e1, e2, e3 := Connect(c), Incoming(c, login, f), Incoming(c, m, g);
    assert GoodEvent(e1) && GoodEvent(e2) && GoodEvent(e3);
    ThreeEvents(env, s, e1, e2, e3);
    var s2 := Session(true, false, u, map[]);
    SyncEndToEnd(env, s.disk, s.streams, s2, m, g);
    SyncStartsStore(env, s.disk, s.streams, s2, m, g);
  }

  lemma ThreeEvents(env: Env, s: Server, a: Event, b: Event, e: Event)
    requires GoodEvent(a) && GoodEvent(b) && GoodEvent(e)
    requires Advance(env, s, a).Running? && Advance(env, Advance(env, s, a).server, b).Running?
    ensures var p := Advance(env, s, a);
      var q := Advance(env, p.server, b);
      var r := Advance(env, q.server, e);
      RunServer(env, s, [a, b, e]) == if r.Stopped? then Stopped else Running(r.server, p.log + q.log + r.log)
  {
    hide Advance, GoodEvent;
    assert Front([a, b, e]) == [a, b] && Front([a, b]) == [a] && Front([a]) == [];
    assert RunServer(env, s, []) == Running(s, []);
    var p := Advance(env, s, a);
    assert RunServer(env, s, [a]) == Running(p.server, p.log);
  }
}

/** Every session's index is true in every reachable state of the server. */
module ServerSoundness {
  import opened Bytes
  import opened Tlvs
  import opened Paths
  import opened Disks
  import opened Transfer
  import opened Soundness
  import opened Isolation
  import opened Arrivals
  import opened Chunks
  import opened Stores
  import opened Sessions
  import opened Replies
  import opened Servers

  /** No user has two live connections. */
  ghost predicate OnePerUser(s: Server) {
    forall c <- s.live, d <- s.live :: c != d && s.live[c].auth && s.live[d].auth ==> s.live[c].id != s.live[d].id
  }

  /** Some live synced session acts under the id. */
  ghost predicate HasOwner(s: Server, id: bytes) {
    exists c :: c in s.live && s.live[c].synced && s.live[c].id == id
  }

  /** What holds whatever clients send, as long as no user has two connections: a stream belongs to
      a live synced session. */
  ghost predicate Owned(s: Server) {
    && Ordinary(s) && OnePerUser(s)
    && (forall id <- s.streams :: HasOwner(s, id))
  }

  /** In every live synced session every index entry has a file, every entry that is not TEMP has
      the digest of that file, and no open stream writes to it. */
  ghost predicate IndexesTrue(env: Env, s: Server) {
    forall c <- s.live :: s.live[c].synced ==> Sound(env.hash, LocalOf(s.disk, s.streams, s.live[c]))
  }

  ghost predicate AllSound(env: Env, s: Server) {
    Owned(s) && IndexesTrue(env, s)
  }

  /** The event is not an update that breaks a promise about its temporary file. */
  ghost predicate SafeEvent(s: Server, e: Event)
    requires GoodEvent(e)
  {
    e.Incoming? && e.conn in s.live && Reaches(s.live[e.conn], e.msg) ==>
      Safe(LocalOf(s.disk, s.streams, s.live[e.conn]), RequestOf(e.msg), e.faults)
  }

  /** What a scan puts into the index is the truth. */
  lemma {:induction false} ScanSound(
    hash: Hasher, disk: Disk, home: bytes, listing: seq<Path>, unreadable: set<Path>)
    requires disk.InodesOk() && [] !in listing
    ensures Sound(hash, Local(home, disk, Absent, ScanFiles(hash, disk, home, map[], listing, unreadable).index))
  {
    if listing != [] {
      ScanSound(hash, disk, home, Front(listing), unreadable);
      var before := ScanFiles(hash, disk, home, map[], Front(listing), unreadable).index;
      var after := ScanFiles(hash, disk, home, map[], listing, unreadable).index;
      var st, st' := Local(home, disk, Absent, before), Local(home, disk, Absent, after);
      forall p | p in after ensures p != [] && st'.EntryOk(hash, p) {
        if p in before && after[p] == before[p] {
          assert st.EntryOk(hash, p);
        } else {
          assert p == Last(listing) && p in listing;
        }
      }
    }
  }

  /** A true index stays true when nothing changes below its user's directory. */
  lemma SoundAlike(hash: Hasher, a: Local, b: Local)
    requires Sound(hash, a) && Alike(a, b) && b.disk.InodesOk()
    ensures Sound(hash, b)
  {
    forall p | p in b.index ensures b.EntryOk(hash, p) {
      assert a.EntryOk(hash, p);
      assert a.Abs(p)[0] == a.home && a.disk.files[a.Abs(p)].home == a.home;
    }
  }

  /** The session a request leaves has a true index exactly when the request is safe. */
  lemma RequestSoundExactly(env: Env, s: Server, c: nat, m: Msg, f: Faults)
    requires AllSound(env, s) && c in s.live && GoodEvent(Incoming(c, m, f))
    ensures var o := HandleRequest(env, s.disk, s.streams, s.live[c], m, f);
      o.Replied? && o.session.synced ==>
        (Sound(env.hash, LocalOf(o.disk, o.streams, o.session)) <==> SafeEvent(s, Incoming(c, m, f)))
  {
    hide Disk.InodesOk, Serve, Sound, Safe, ScanFiles, StreamsOk, PathOf;
    var ses := s.live[c];
    if !ses.synced {
      if ses.auth && m.kind == SYNC {
        ScanSound(env.hash, s.disk, ses.id, f.listing, f.unreadable);
        assert ses.id !in s.streams;
      }
    } else if Reaches(ses, m) {
      ChangeSoundExactly(env, s.disk, s.streams, ses, m, f);
    }
  }

  lemma ChangeSoundExactly(env: Env, disk: Disk, streams: Streams, s: Session, m: Msg, f: Faults)
    requires Reaches(s, m) && GoodMsg(m) && Sound(env.hash, LocalOf(disk, streams, s))
    ensures var o, st := HandleRequest(env, disk, streams, s, m, f), LocalOf(disk, streams, s);
      o.Replied? ==> (Sound(env.hash, LocalOf(o.disk, o.streams, o.session)) <==> Safe(st, RequestOf(m), f))
  {
    var st, r := LocalOf(disk, streams, s), RequestOf(m);
    ServeSoundExactly(env.hash, st, r, f);
    ServeInodes(env.hash, st, r, f);
    hide Serve, Safe, Sound, SplitSign, Parse, ValidPath;
    var o := HandleRequest(env, disk, streams, s, m, f);
    assert o == Finish(streams, s, m.tlvs[0].value, Serve(env.hash, st, r, f));
    assert o.Replied? ==> LocalOf(o.disk, o.streams, o.session) == Serve(env.hash, st, r, f).st;
  }

  lemma OtherKeepsSound(env: Env, before: Server, after: Server, d: nat)
    requires AllSound(env, before) && d in before.live && before.live[d].synced
    requires Ordinary(after)
    requires before.disk.Agrees(after.disk, before.live[d].id)
    requires HandleOf(after.streams, before.live[d].id) == HandleOf(before.streams, before.live[d].id)
    ensures Sound(env.hash, LocalOf(after.disk, after.streams, before.live[d]))
  {
    SoundAlike(env.hash,
      LocalOf(before.disk, before.streams, before.live[d]), LocalOf(after.disk, after.streams, before.live[d]));
  }

  lemma ConnectKeepsSound(env: Env, s: Server, c: nat)
    requires AllSound(env, s)
    ensures IndexesTrue(env, Advance(env, s, Connect(c)).server)
  {
    hide Disk.InodesOk, Sound, StreamsOk;
  }

  lemma ShutdownKeepsSound(env: Env, s: Server, c: nat)
    requires AllSound(env, s)
    ensures IndexesTrue(env, Advance(env, s, Shutdown(c)).server)
  {
    hide Disk.InodesOk, Sound, StreamsOk;
    var after := Advance(env, s, Shutdown(c)).server;
    if c in s.live {
      forall d | d in after.live && after.live[d].synced
        ensures Sound(env.hash, LocalOf(after.disk, after.streams, after.live[d]))
      {
        assert LocalOf(after.disk, after.streams, after.live[d]) == LocalOf(s.disk, s.streams, s.live[d]);
      }
    }
  }

  /** Of all events exactly the unsafe updates, if they do not end the process, make an index untrue. */
  lemma IncomingSoundExactly(env: Env, s: Server, c: nat, m: Msg, f: Faults)
    requires AllSound(env, s) && GoodEvent(Incoming(c, m, f))
    requires Advance(env, s, Incoming(c, m, f)).Running?
    ensures IndexesTrue(env, Advance(env, s, Incoming(c, m, f)).server) <==> SafeEvent(s, Incoming(c, m, f))
  {
    hide Ordinary, OnePerUser, HasOwner, Sound, HandleRequest, HandleOf, SafeEvent, PathOf, ValidName;
    var e := Incoming(c, m, f);
    var after := Advance(env, s, e).server;
    if c in s.live {
      var o := HandleRequest(env, s.disk, s.streams, s.live[c], m, f);
      RequestSoundExactly(env, s, c, m, f);
      UnsyncedIsSafe(env, s, c, m, f);
      forall d | d in after.live && after.live[d].synced && d != c
        ensures Sound(env.hash, LocalOf(after.disk, after.streams, after.live[d]))
      {
        OthersStaySound(env, s, c, m, f, d);
      }
      assert after == Server(o.disk, o.streams, s.live[c := o.session]);
      assert c in after.live && after.live[c] == o.session;
    } else {
      StrangerIsSafe(s, e);
    }
  }

  lemma StrangerIsSafe(s: Server, e: Event)
    requires GoodEvent(e) && e.conn !in s.live
    ensures SafeEvent(s, e)
  {
  }

  lemma UnsyncedIsSafe(env: Env, s: Server, c: nat, m: Msg, f: Faults)
    requires Ordinary(s) && c in s.live && GoodEvent(Incoming(c, m, f))
    ensures var o := HandleRequest(env, s.disk, s.streams, s.live[c], m, f);
      o.Replied? && !o.session.synced ==> SafeEvent(s, Incoming(c, m, f))
  {
    hide HandleRequest, Safe, PathOf;
    UntouchedBySilent(env, s.disk, s.streams, s.live[c], m, f);
  }

  lemma OthersStaySound(env: Env, s: Server, c: nat, m: Msg, f: Faults, d: nat)
    requires AllSound(env, s) && c in s.live && GoodEvent(Incoming(c, m, f))
    requires Advance(env, s, Incoming(c, m, f)).Running?
    requires d in s.live && s.live[d].synced && d != c
    ensures var after := Advance(env, s, Incoming(c, m, f)).server;
      Sound(env.hash, LocalOf(after.disk, after.streams, s.live[d]))
  {
    StepKeepsOrdinary(env, s, Incoming(c, m, f));
    RequestKeepsOrdinary(env, s.disk, s.streams, s.live[c], m, f);
    hide Disk.InodesOk, Sound, StreamsOk, HandleRequest, HandleOf, HasOwner, PathOf;
    UnauthenticatedId(s.live[c], s.live[d]);
    OtherKeepsSound(env, s, Advance(env, s, Incoming(c, m, f)).server, d);
  }

  lemma StepSoundExactly(env: Env, s: Server, e: Event)
    requires AllSound(env, s) && GoodEvent(e) && Advance(env, s, e).Running?
    ensures IndexesTrue(env, Advance(env, s, e).server) <==> SafeEvent(s, e)
  {
    hide AllSound, IndexesTrue, HandleRequest, OnePerUser;
    match e
    case Connect(c) => ConnectKeepsSound(env, s, c);
    case Shutdown(c) => ShutdownKeepsSound(env, s, c);
    case Incoming(c, m, f) => IncomingSoundExactly(env, s, c, m, f);
  }

  lemma StepKeepsOwned(env: Env, s: Server, e: Event)
    requires Owned(s) && GoodEvent(e) && Advance(env, s, e).Running?
    requires OnePerUser(Advance(env, s, e).server)
    ensures Owned(Advance(env, s, e).server)
  {
    StepKeepsOrdinary(env, s, e);
    hide Disk.InodesOk, StreamsOk, HandleRequest, SessionOk;
    var after := Advance(env, s, e).server;
    if e.Incoming? {
      if e.conn in s.live {
        OwnersKept(env, s, e.conn, e.msg, e.faults);
      }
    } else {
      forall id | id in after.streams ensures HasOwner(after, id) {
        var d :| d in s.live && s.live[d].synced && s.live[d].id == id;
        assert d in after.live;
      }
    }
  }

  lemma OwnersKept(env: Env, s: Server, c: nat, m: Msg, f: Faults)
    requires Ordinary(s) && GoodEvent(Incoming(c, m, f)) && c in s.live && forall id <- s.streams :: HasOwner(s, id)
    ensures var r := Advance(env, s, Incoming(c, m, f));
      r.Running? ==> forall id <- r.server.streams :: HasOwner(r.server, id)
  {
    hide Disk.InodesOk, StreamsOk, HandleRequest, GoodMsg;
    var r := Advance(env, s, Incoming(c, m, f));
    StreamOwners(env, s.disk, s.streams, s.live[c], m, f);
    UntouchedBySilent(env, s.disk, s.streams, s.live[c], m, f);
    if r.Running? {
      var after := r.server;
      forall id | id in after.streams ensures HasOwner(after, id) {
        if id in s.streams {
          var d :| d in s.live && s.live[d].synced && s.live[d].id == id;
          assert d in after.live;
        } else {
          assert after.live[c].synced;
        }
      }
    }
  }

  lemma UnauthenticatedId(s: Session, other: Session)
    requires SessionOk(s) && SessionOk(other) && other.auth
    ensures !s.auth ==> s.id != other.id
  {
  }

  /** Before its first successful SYNC a connection touches neither disk nor streams; and once it is
      authenticated and synced it stays so under the same id. */
  lemma UntouchedBySilent(env: Env, disk: Disk, streams: Streams, s: Session, m: Msg, f: Faults)
    requires SessionOk(s) && GoodMsg(m)
    ensures var o := HandleRequest(env, disk, streams, s, m, f);
      o.Replied? ==>
        && (!s.synced ==> o.disk == disk && o.streams == streams)
        && (s.auth ==> o.session.auth && o.session.id == s.id)
        && (s.synced ==> o.session.synced)
        && (o.session.synced && !s.synced ==> s.auth && m.kind == SYNC)
        && (o.session.auth && !s.auth ==>
              && m.kind == AUTH
              && exists name, password :: env.accepts(name, password) && o.session.id == env.userId(name))
  {
    hide Serve, ScanFiles;
  }

  /** The id of an authenticated session comes from a name that was accepted. */
  ghost predicate IdOk(env: Env, s: Session) {
    s.auth ==> exists name, password :: env.accepts(name, password) && s.id == env.userId(name)
  }

  /** Over any run in which a connection is not shut down, its session only rises: from anonymous to
      authenticated under one id, and from there to synced. */
  lemma {:induction false} SessionOnlyRises(env: Env, s: Server, es: seq<Event>, c: nat)
    requires forall e <- es :: GoodEvent(e)
    requires Ordinary(s) && c in s.live && Shutdown(c) !in es && RunServer(env, s, es).Running?
    ensures var after := RunServer(env, s, es).server;
      && Ordinary(after) && c in after.live
      && (s.live[c].auth ==> after.live[c].auth && after.live[c].id == s.live[c].id)
      && (s.live[c].synced ==> after.live[c].synced)
      && (IdOk(env, s.live[c]) ==> IdOk(env, after.live[c]))
  {
    hide HandleRequest, Disk.InodesOk, StreamsOk, SessionOk, GoodEvent;
    if es != [] {
      var e := Last(es);
      assert e in es && GoodEvent(e);
      assert forall x <- Front(es) :: x in es;
      SessionOnlyRises(env, s, Front(es), c);
      var before := RunServer(env, s, Front(es)).server;
      StepKeepsOrdinary(env, before, e);
      if e.Incoming? && e.conn == c {
        GoodMessage(e);
        UntouchedBySilent(env, before.disk, before.streams, before.live[c], e.msg, e.faults);
      }
    }
  }

  lemma GoodMessage(e: Event)
    requires GoodEvent(e) && e.Incoming?
    ensures GoodMsg(e.msg)
  {
  }

  lemma StreamOwners(env: Env, disk: Disk, streams: Streams, s: Session, m: Msg, f: Faults)
    requires SessionOk(s) && GoodMsg(m)
    ensures var o := HandleRequest(env, disk, streams, s, m, f);
      o.Replied? ==> forall id <- o.streams :: id in streams || (id == s.id == o.session.id && o.session.synced)
  {
    hide Serve, ScanFiles;
  }

  // Over runs, for as long as the process lives.

  /** In no state of the run a user has two live connections. */
  ghost predicate AlwaysOnePerUser(env: Env, s: Server, es: seq<Event>)
    requires forall e <- es :: GoodEvent(e)
  {
    && (RunServer(env, s, es).Running? ==> OnePerUser(RunServer(env, s, es).server))
    && (es != [] ==> AlwaysOnePerUser(env, s, Front(es)))
  }

  /** In every state of the run every session's index is true. */
  ghost predicate AlwaysTrue(env: Env, s: Server, es: seq<Event>)
    requires forall e <- es :: GoodEvent(e)
  {
    && (RunServer(env, s, es).Running? ==> IndexesTrue(env, RunServer(env, s, es).server))
    && (es != [] ==> AlwaysTrue(env, s, Front(es)))
  }

  /** Every event of the run that the process survives is safe. */
  ghost predicate AlwaysSafe(env: Env, s: Server, es: seq<Event>)
    requires forall e <- es :: GoodEvent(e)
  {
    es != [] ==>
      && AlwaysSafe(env, s, Front(es))
      && (RunServer(env, s, es).Running? ==>
            Last(es) in es && SafeEvent(RunServer(env, s, Front(es)).server, Last(es)))
  }

  /** Over every run, in any interleaving of connections, requests and shutdowns and whatever the
      operating system refuses: the indexes of all synced sessions are true in every reachable state
      if and only if no update breaks a promise about its temporary file. */
  lemma {:induction false} IndexAlwaysSound(env: Env, s: Server, es: seq<Event>)
    requires forall e <- es :: GoodEvent(e)
    requires AllSound(env, s) && AlwaysOnePerUser(env, s, es)
    ensures AlwaysTrue(env, s, es) <==> AlwaysSafe(env, s, es)
    ensures RunServer(env, s, es).Running? ==> Owned(RunServer(env, s, es).server)
  {
    hide Owned, IndexesTrue, SafeEvent, Advance, GoodEvent, OnePerUser;
    if es != [] {
      assert GoodEvent(Last(es)) by { assert Last(es) in es; }
      IndexAlwaysSound(env, s, Front(es));
      if RunServer(env, s, es).Running? {
        var before := RunServer(env, s, Front(es)).server;
        StepKeepsOwned(env, before, Last(es));
        if IndexesTrue(env, before) {
          StepSoundExactly(env, before, Last(es));
        }
      }
    }
  }

  lemma StartsSound(env: Env, disk: Disk)
    requires disk.InodesOk()
    ensures AllSound(env, Server(disk, map[], map[]))
  {
  }

  /** What a sound session means to its user. */
  lemma SoundMeaning(env: Env, s: Server, c: nat, p: Path)
    requires AllSound(env, s) && c in s.live && s.live[c].synced && p in s.live[c].index
    ensures var ses, path := s.live[c], [s.live[c].id] + p;
      && path in s.disk.files
      && (ses.index[p].digest != TEMP ==> env.hash(p, s.disk.Read(path)) == ses.index[p].digest)
      && (ses.index[p].synced ==> env.hash(p, s.disk.Read(path)) == ses.index[p].digest)
  {
    assert LocalOf(s.disk, s.streams, s.live[c]).EntryOk(env.hash, p);
  }

  /** The shutdown of a connection that never authenticated takes nobody's stream away. */
  lemma AnonymousShutdown(env: Env, s: Server, c: nat)
    requires AllSound(env, s) && c in s.live && !s.live[c].auth
    ensures Advance(env, s, Shutdown(c)).server.streams == s.streams
  {
    assert s.live[c].id !in s.streams;
  }

  /** Why an update may be unsafe: when one is cut off after its first chunk, the scan of the next
      session lists the temporary file as one of the user's. Then the next chunk of an update of the
      same path, the last one or not, makes the index untrue. */
  lemma InterruptedUpdateHarms(
    env: Env, st: Local, p: Path, digest: bytes, content: bytes, listing: seq<Path>,
    digest': bytes, content': bytes, last: bool)
    requires Sound(env.hash, st) && CanUpdate(st, p, digest) && [st.home] + p in st.disk.files
    requires digest' != env.hash(p, st.disk.Read(st.Abs(p)))
    requires ListingOk(Updating(st, p, content).disk, st.home, listing)
    ensures var cut := UpdateChunk(env.hash, st, p, digest, content, false, Calm(p));
      && cut.Next? && cut.status == Ok
      && var scan := ScanFiles(env.hash, cut.st.disk, st.home, map[], listing, {});
         var next := Local(st.home, cut.st.disk, Absent, scan.index);
         var r := UpdateChunk(env.hash, next, p, digest', content', last, Calm(p));
         && Sound(env.hash, next)
         && TempOf(p) in scan.index
         && r.Next? && !Sound(env.hash, r.st)
  {
    MidUpdate(env.hash, st, p, digest, Waiting, Piece(content, Calm(p)));
    var disk := Updating(st, p, content).disk;
    NewFileInodes(st, st.Abs(TempOf(p)), content);
    TempIsTemp(p);
    AbsInjective(st);
    ScanSound(env.hash, disk, st.home, listing, {});
    ScanListsAll(env.hash, disk, st.home, listing, {});
    var next := Local(st.home, disk, Absent, ScanFiles(env.hash, disk, st.home, map[], listing, {}).index);
    SecondUpdateHarms(env.hash, next, p, digest', content', last);
  }

  lemma SecondUpdateHarms(hash: Hasher, st: Local, p: Path, digest: bytes, content: bytes, last: bool)
    requires Sound(hash, st) && st.handle.Absent? && p != [] && p in st.index && st.index[p].digest != digest
    requires TempOf(p) in st.index && st.index[TempOf(p)].digest != TEMP && st.Abs(p) !in st.disk.dirs
    ensures var r := UpdateChunk(hash, st, p, digest, content, last, Calm(p));
      r.Next? && !Sound(hash, r.st)
  {
    TempIsTemp(p);
    AbsInjective(st);
    assert st.EntryOk(hash, p) && st.EntryOk(hash, TempOf(p));
    hide Disk.InodesOk;
    UpdateSoundExactly(hash, st, p, digest, content, last, Calm(p));
  }

  /** Why no user may have two live connections: each has an index of its own, and what one erases
      the other still lists. */
  lemma TwoSessionsHarm(env: Env, s: Server, c: nat, d: nat, m: Msg, f: Faults)
    requires Ordinary(s) && IndexesTrue(env, s) && GoodEvent(Incoming(c, m, f))
    requires c in s.live && d in s.live && c != d && s.live[c].id == s.live[d].id
    requires s.live[c].synced && s.live[d].synced
    requires m.kind == ERASE && PathOf(m).Some? && !f.removeFails
    requires var p := PathOf(m).value;
      && p in s.live[c].index && p in s.live[d].index
      && s.live[c].index[p].digest == RequestOf(m).digest
    ensures Advance(env, s, Incoming(c, m, f)).Running?
    ensures !IndexesTrue(env, Advance(env, s, Incoming(c, m, f)).server)
  {
    hide Disk.InodesOk, StreamsOk, EraseFile, SplitSign, Parse, ValidPath;
    var p, ses := PathOf(m).value, s.live[c];
    var st := LocalOf(s.disk, s.streams, ses);
    assert st.EntryOk(env.hash, p);
    FileErased(st, p, RequestOf(m).digest, f);
    var after := Advance(env, s, Incoming(c, m, f)).server;
    assert after.disk == EraseFile(st, p, RequestOf(m).digest, f).st.disk && after.live[d] == s.live[d];
    assert !LocalOf(after.disk, after.streams, after.live[d]).EntryOk(env.hash, p);
  }

  lemma FileErased(st: Local, p: Path, digest: bytes, f: Faults)
    requires p != [] && p in st.index && st.index[p].digest == digest && st.Abs(p) in st.disk.files && !f.removeFails
    ensures var r := EraseFile(st, p, digest, f);
      r.Next? && st.Abs(p) !in r.st.disk.files
  {
    PruneKeepsFiles(st.disk.RemoveFile(st.Abs(p)), Front(st.Abs(p)), f.prunable);
  }
}

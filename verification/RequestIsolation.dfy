/** A whole request neither depends on nor touches what lies below another user's directory. */
module RequestIsolation {
  import opened Bytes
  import opened Tlvs
  import opened Paths
  import opened Disks
  import opened Transfer
  import opened Isolation
  import opened Sessions
  import opened Servers

  lemma {:induction false} ScanAlike(
    hash: Hasher, a: Disk, b: Disk, home: bytes, index: Index, listing: seq<Path>, unreadable: set<Path>)
    requires a.InodesOk() && a.Agrees(b, home)
    ensures ScanFiles(hash, a, home, index, listing, unreadable)
         == ScanFiles(hash, b, home, index, listing, unreadable)
  {
    if listing != [] {
      ScanAlike(hash, a, b, home, index, Front(listing), unreadable);
      var path := [home] + Last(listing);
      assert path[0] == home;
      assert path in a.files ==> a.files[path].home == home;
      assert a.Read(path) == b.Read(path);
    }
  }

  /** The outcomes are the same for the user `u`. */
  ghost predicate OutcomesAlike(x: Outcome, y: Outcome, u: bytes) {
    && x.Crashed? == y.Crashed?
    && (x.Replied? ==>
          && x.session == y.session && x.reply == y.reply
          && x.disk.Agrees(y.disk, u) && HandleOf(x.streams, u) == HandleOf(y.streams, u))
  }

  lemma ChangeAlike(
    env: Env, a: Disk, aStreams: Streams, b: Disk, bStreams: Streams, s: Session, m: Msg, f: Faults)
    requires a.InodesOk() && StreamsOk(a, aStreams)
    requires m.tlvs != [] && ChangesFiles(m.kind) && (PathOf(m).Some? ==> PathOf(m).value != [])
    requires a.Agrees(b, s.id) && HandleOf(aStreams, s.id) == HandleOf(bStreams, s.id)
    ensures OutcomesAlike(ChangeFiles(env, a, aStreams, s, m, f), ChangeFiles(env, b, bStreams, s, m, f), s.id)
  {
    hide Disk.InodesOk, StreamsOk, Disk.Agrees, Serve, PathOf;
    if PathOf(m).Some? && (m.kind == ERASE || |m.tlvs| > 1) {
      LocalHandleOk(a, aStreams, s);
      ServeAlike(env.hash, LocalOf(a, aStreams, s), LocalOf(b, bStreams, s), RequestOf(m), f);
      ServeInodes(env.hash, LocalOf(a, aStreams, s), RequestOf(m), f);
    }
  }

  lemma RequestAlike(
    env: Env, a: Disk, aStreams: Streams, b: Disk, bStreams: Streams, u: bytes, s: Session, m: Msg, f: Faults)
    requires a.InodesOk() && StreamsOk(a, aStreams) && GoodMsg(m) && SessionOk(s) && (s.auth ==> s.id == u)
    requires a.Agrees(b, u) && HandleOf(aStreams, u) == HandleOf(bStreams, u)
    ensures OutcomesAlike(HandleRequest(env, a, aStreams, s, m, f), HandleRequest(env, b, bStreams, s, m, f), u)
  {
    hide Disk.InodesOk, StreamsOk, Disk.Agrees, ChangeFiles, ScanFiles, HandleOf, PathOf;
    if s.synced && m.tlvs != [] && ChangesFiles(m.kind) {
      ChangeAlike(env, a, aStreams, b, bStreams, s, m, f);
    } else if s.auth && !s.synced {
      DirAlike(a, b, u);
      ScanAlike(env.hash, a, b, u, s.index, f.listing, f.unreadable);
    }
  }

  lemma DirAlike(a: Disk, b: Disk, u: bytes)
    requires a.Agrees(b, u)
    ensures [u] in a.dirs <==> [u] in b.dirs
  {
    assert [u][0] == u;
  }
}

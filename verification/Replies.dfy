/** What a peer can tell from the bytes of a reply. */
module Replies {
  import opened Bytes
  import opened Tlvs
  import opened Packing
  import opened Paths
  import opened Disks
  import opened Transfer
  import opened Sessions
  import opened Framing

  /** A list of TLVs as the queue's messages. */
  function Encoded(kind: byte, gs: seq<seq<Tlv>>): (ms: seq<bytes>)
    ensures |ms| == |gs|
  {
    seq(|gs|, i requires 0 <= i < |gs| => EncodeMsg(Msg(kind, gs[i])))
  }

  /** A reply as it goes over the wire. */
  function Wire(kind: byte, r: Reply): bytes {
    FrameAll(Encoded(kind, Pack(Render(r))))
  }

  /** A reply is its ITEMs, then one OK or ERROR, then END; it counts as an error exactly when it
      ends in one. */
  lemma RenderShape(r: Reply)
    ensures var ts, n := Render(r), |r.items|;
      && |ts| == n + 2
      && (forall i :: 0 <= i < n ==> ts[i] == Tlv(ITEM, r.items[i]))
      && (ts[n].tag == OK || ts[n].tag == ERROR)
      && ts[n + 1] == Tlv(END, [])
      && ((exists t <- ts :: t.tag == ERROR) <==> r.status.Err?)
  {
    var ts, n := Render(r), |r.items|;
    assert ts[n] == Closing(r.status);
    if r.status.Err? {
      assert ts[n] in ts;
    }
  }

  /** The error codes have at most three digits. */
  predicate SmallCode(s: Status) { s.Err? ==> s.code < 1000 }

  lemma ClosingIsNoMark(s: Status)
    requires SmallCode(s)
    ensures !LooksLikeEnd(Closing(s)) && Packable(Closing(s)) && !EndsWithMark(Closing(s).value)
  {
  }

  lemma PackableFits(ts: seq<Tlv>)
    requires AllPackable(ts)
    ensures AllFit(ts)
    ensures forall g <- Pack(ts) :: AllFit(g)
  {
    forall t | t in ts ensures t.Fits() {
      assert Packable(t);
    }
    PackKeepsOrder(ts);
    forall g, t | g in Pack(ts) && t in g ensures t.Fits() {
      var i :| 0 <= i < |Pack(ts)| && Pack(ts)[i] == g;
      InFlatten(Pack(ts), i, t);
    }
  }

  /** verify_end on the messages of a reply: true on the last one, also when END was pushed into a
      message of its own, and on an earlier one only if its last ITEM happens to end like END. */
  lemma MarkedExactly(kind: byte, r: Reply, i: nat)
    requires AllPackable(Render(r)) && SmallCode(r.status) && i < |Pack(Render(r))|
    ensures var gs := Pack(Render(r));
      && gs[i] != []
      && (EndsWithMark(Encoded(kind, gs)[i])
          <==> i == |gs| - 1 || (Last(gs[i]).tag == ITEM && EndsWithMark(Last(gs[i]).value)))
  {
    hide Closing, Packable, Pack;
    var ts := Render(r);
    var gs := Pack(ts);
    PackBounds(ts);
    PackableFits(ts);
    assert gs[i] in gs;
    VerifyEndMeaning(Msg(kind, gs[i]));
    EarlierGroups(ts);
    RenderShape(r);
    ClosingIsNoMark(r.status);
    var t := Last(gs[i]);
    if i < |gs| - 1 {
      assert t in gs[i] && t in Front(ts);
      var j :| 0 <= j < |Front(ts)| && Front(ts)[j] == t;
      assert t == ts[j] && j <= |r.items|;
      assert ts[|r.items|] == Closing(r.status);
    }
  }

  /** When no sign ends like END, the mark tells the last message of a reply from the others. */
  lemma MarkEndsReply(kind: byte, r: Reply)
    requires AllPackable(Render(r)) && SmallCode(r.status)
    requires forall sign <- r.items :: !EndsWithMark(sign)
    ensures var ms := Encoded(kind, Pack(Render(r)));
      forall i :: 0 <= i < |ms| ==> (EndsWithMark(ms[i]) <==> i == |ms| - 1)
  {
    var gs := Pack(Render(r));
    forall i | 0 <= i < |gs| ensures EndsWithMark(Encoded(kind, gs)[i]) <==> i == |gs| - 1 {
      MarkedExactly(kind, r, i);
      PackKeepsOrder(Render(r));
      InFlatten(gs, i, Last(gs[i]));
      RenderShape(r);
    }
  }

  // Reading a reply back.

  /** The TLVs of a list of messages. */
  function Collect(ms: seq<bytes>): Option<seq<Tlv>> {
    if ms == [] then Some([])
    else if Last(ms) == [] then None
    else match (Collect(Front(ms)), Decode(Last(ms)[1..]))
      case (Some(before), Some(ts)) => Some(before + ts)
      case _ => None
  }

  lemma {:induction false} CollectEncoded(kind: byte, gs: seq<seq<Tlv>>)
    requires forall g <- gs :: AllFit(g)
    ensures Collect(Encoded(kind, gs)) == Some(Flatten(gs))
  {
    if gs != [] {
      CollectEncoded(kind, Front(gs));
      assert Front(Encoded(kind, gs)) == Encoded(kind, Front(gs));
      assert Last(gs) in gs;
      DecodeEncode(Last(gs));
      assert EncodeMsg(Msg(kind, Last(gs)))[1..] == EncodeAll(Last(gs));
    }
  }

  /** A peer that unframes the bytes of a reply and decodes its messages has the reply's TLVs. */
  lemma ReplyReadBack(kind: byte, r: Reply)
    requires AllPackable(Render(r))
    ensures var ms := Encoded(kind, Pack(Render(r)));
      && Unframe(Wire(kind, r)) == Some(ms)
      && (forall m <- ms :: |m| <= CHUNK_SIZE)
      && Collect(ms) == Some(Render(r))
  {
    var ts := Render(r);
    hide Render, Pack;
    PackBounds(ts);
    PackableFits(ts);
    PackKeepsOrder(ts);
    CollectEncoded(kind, Pack(ts));
    var ms := Encoded(kind, Pack(ts));
    forall m | m in ms ensures |m| <= CHUNK_SIZE {
      var i :| 0 <= i < |ms| && ms[i] == m;
      EncodedSize(Msg(kind, Pack(ts)[i]));
      assert Pack(ts)[i] in Pack(ts);
    }
    UnframeFrame(ms);
  }

  /** The entries a peer reads off the ITEMs of a reply. */
  function Entries(ts: seq<Tlv>): Option<seq<(Path, bytes)>> {
    if ts == [] then Some([])
    else match Entries(Front(ts))
      case None => None
      case Some(before) =>
        if Last(ts).tag != ITEM then Some(before)
        else match SplitSign(Last(ts).value)
          case None => None
          case Some((text, digest)) => Some(before + [(Parse(text), digest)])
  }

  function PeerEntries(wire: bytes): Option<seq<(Path, bytes)>> {
    match Unframe(wire)
    case None => None
    case Some(ms) =>
      match Collect(ms)
      case None => None
      case Some(ts) => Entries(ts)
  }

  // SYNC.

  /** The traversal visits every file and directory below the user's own once. */
  ghost predicate ListingOk(disk: Disk, home: bytes, listing: seq<Path>) {
    && Distinct(listing)
    && (forall p <- listing :: ValidPath(p))
    && (forall p: Path :: p != [] && [home] + p in disk.files ==> p in listing)
  }

  /** The regular files in the order of the traversal. */
  function FilesIn(disk: Disk, home: bytes, listing: seq<Path>): seq<Path> {
    if listing == [] then []
    else FilesIn(disk, home, Front(listing)) + (if [home] + Last(listing) in disk.files then [Last(listing)] else [])
  }

  lemma {:induction false} FilesInExactly(disk: Disk, home: bytes, listing: seq<Path>)
    ensures forall p :: p in FilesIn(disk, home, listing) <==> p in listing && [home] + p in disk.files
  {
    if listing != [] {
      FilesInExactly(disk, home, Front(listing));
    }
  }

  function Signs(hash: Hasher, disk: Disk, home: bytes, files: seq<Path>): seq<bytes> {
    seq(|files|, i requires 0 <= i < |files| =>
      CreateSign(Text(files[i]), hash(files[i], disk.Read([home] + files[i]))))
  }

  /** From an empty index the scan meets no file twice and ends the process exactly at a file that
      cannot be read; otherwise it lists every file it meets, with its digest. */
  lemma {:induction false} ScanExactly(
    hash: Hasher, disk: Disk, home: bytes, listing: seq<Path>, unreadable: set<Path>)
    requires Distinct(listing)
    ensures var scan := ScanFiles(hash, disk, home, map[], listing, unreadable);
      var files := FilesIn(disk, home, listing);
      && !scan.repeated
      && (scan.ended <==> exists p <- files :: p in unreadable)
      && (!scan.ended ==>
            && scan.items == Signs(hash, disk, home, files)
            && (forall p :: p in scan.index <==> p in files)
            && (forall p <- files :: scan.index[p] == Resource(true, hash(p, disk.Read([home] + p)))))
  {
    if listing != [] {
      ScanExactly(hash, disk, home, Front(listing), unreadable);
      FilesInExactly(disk, home, Front(listing));
      var files := FilesIn(disk, home, Front(listing));
      if [home] + Last(listing) in disk.files {
        assert Last(listing) !in files;
        assert Signs(hash, disk, home, files + [Last(listing)])
            == Signs(hash, disk, home, files) + Signs(hash, disk, home, [Last(listing)]);
      }
    }
  }

  function EntriesOf(hash: Hasher, disk: Disk, home: bytes, files: seq<Path>): seq<(Path, bytes)> {
    seq(|files|, i requires 0 <= i < |files| => (files[i], hash(files[i], disk.Read([home] + files[i]))))
  }

  lemma {:induction false} EntriesRead(hash: Hasher, disk: Disk, home: bytes, files: seq<Path>)
    requires forall p <- files :: ValidPath(p)
    ensures Entries(Items(Signs(hash, disk, home, files))) == Some(EntriesOf(hash, disk, home, files))
  {
    hide SplitSign, CreateSign, Parse, Text, ValidName;
    if files != [] {
      var p := Last(files);
      assert p in files;
      EntriesRead(hash, disk, home, Front(files));
      assert Front(Items(Signs(hash, disk, home, files))) == Items(Signs(hash, disk, home, Front(files)));
      OneEntry(p, hash(p, disk.Read([home] + p)));
      assert EntriesOf(hash, disk, home, files)
          == EntriesOf(hash, disk, home, Front(files)) + [(p, hash(p, disk.Read([home] + p)))];
    }
  }

  lemma OneEntry(p: Path, digest: Digest)
    requires ValidPath(p)
    ensures SplitSign(CreateSign(Text(p), digest)) == Some((Text(p), digest)) && Parse(Text(p)) == p
  {
    SignRoundTrip(Text(p), digest);
    ParseText(p);
  }

  lemma EntriesOfReply(r: Reply)
    ensures Entries(Render(r)) == Entries(Items(r.items))
  {
    var ts := Render(r);
    assert Last(ts) == Tlv(END, []);
    assert Last(Front(ts)) == Closing(r.status);
    assert Front(Front(ts)) == Items(r.items);
  }

  /** The entries are those of the index, each once. */
  ghost predicate RecoversIndex(es: seq<(Path, bytes)>, index: Index) {
    && (forall i :: 0 <= i < |es| ==> es[i].0 in index && index[es[i].0].digest == es[i].1)
    && (forall p <- index :: exists i :: 0 <= i < |es| && es[i].0 == p)
    && (forall i, j :: 0 <= i < j < |es| ==> es[i].0 != es[j].0)
  }

  ghost predicate Before(listing: seq<Path>, p: Path, q: Path) {
    exists i, j :: 0 <= i < j < |listing| && listing[i] == p && listing[j] == q
  }

  /** The paths come in the order in which the listing has them. */
  ghost predicate Ordered(ps: seq<Path>, listing: seq<Path>) {
    forall i, j :: 0 <= i < j < |ps| ==> Before(listing, ps[i], ps[j])
  }

  ghost predicate InOrder(es: seq<(Path, bytes)>, listing: seq<Path>) {
    forall i, j :: 0 <= i < j < |es| ==> Before(listing, es[i].0, es[j].0)
  }

  lemma BeforeLonger(listing: seq<Path>, p: Path, q: Path)
    requires listing != []
    ensures Before(Front(listing), p, q) ==> Before(listing, p, q)
    ensures p in Front(listing) && q == Last(listing) ==> Before(listing, p, q)
  {
    var front := Front(listing);
    if Before(front, p, q) {
      var i, j :| 0 <= i < j < |front| && front[i] == p && front[j] == q;
      assert listing[i] == p && listing[j] == q;
    }
    if p in front && q == Last(listing) {
      var i :| 0 <= i < |front| && front[i] == p;
      assert listing[i] == p && listing[|listing| - 1] == q;
    }
  }

  lemma {:induction false} FilesInOrder(disk: Disk, home: bytes, listing: seq<Path>)
    ensures Ordered(FilesIn(disk, home, listing), listing)
  {
    hide Before;
    if listing != [] {
      FilesInOrder(disk, home, Front(listing));
      FilesInExactly(disk, home, Front(listing));
      var before, files := FilesIn(disk, home, Front(listing)), FilesIn(disk, home, listing);
      forall i, j | 0 <= i < j < |files| ensures Before(listing, files[i], files[j]) {
        assert files[i] == before[i] && before[i] in before;
        BeforeLonger(listing, files[i], files[j]);
        if j < |before| {
          assert Before(Front(listing), before[i], before[j]);
        }
      }
    }
  }

  lemma BeforeDiffers(listing: seq<Path>, p: Path, q: Path)
    requires Distinct(listing) && Before(listing, p, q)
    ensures p != q
  {
  }

  lemma ItemsPackable(r: Reply)
    requires SmallCode(r.status) && forall sign <- r.items :: |sign| <= CHUNK_SIZE - 6
    ensures AllPackable(Render(r))
  {
    ClosingIsNoMark(r.status);
    RenderShape(r);
    forall t | t in Render(r) ensures Packable(t) {
      var i :| 0 <= i < |Render(r)| && Render(r)[i] == t;
      assert i < |r.items| ==> r.items[i] in r.items;
      assert i == |r.items| ==> t == Closing(r.status);
    }
  }

  lemma PeerReads(hash: Hasher, disk: Disk, home: bytes, files: seq<Path>, r: Reply)
    requires AllPackable(Render(r)) && r.items == Signs(hash, disk, home, files)
    requires forall p <- files :: ValidPath(p)
    ensures PeerEntries(Wire(SYNC, r)) == Some(EntriesOf(hash, disk, home, files))
  {
    hide Pack, Render, Entries, Collect, Unframe;
    ReplyReadBack(SYNC, r);
    EntriesOfReply(r);
    EntriesRead(hash, disk, home, files);
  }

  /** What the peer makes of the reply to a scan. */
  lemma PeerRecovers(hash: Hasher, disk: Disk, home: bytes, listing: seq<Path>, unreadable: set<Path>)
    requires ListingOk(disk, home, listing)
    requires var scan := ScanFiles(hash, disk, home, map[], listing, unreadable);
      !scan.ended && forall sign <- scan.items :: |sign| <= CHUNK_SIZE - 6
    ensures var scan := ScanFiles(hash, disk, home, map[], listing, unreadable);
      var es := PeerEntries(Wire(SYNC, Reply(scan.items, Ok)));
      es.Some? && RecoversIndex(es.value, scan.index) && InOrder(es.value, listing)
  {
    hide PeerEntries, Render, Wire, Entries, ScanFiles, FilesIn, RecoversIndex, InOrder;
    var files := FilesIn(disk, home, listing);
    ScanExactly(hash, disk, home, listing, unreadable);
    FilesInExactly(disk, home, listing);
    var scan := ScanFiles(hash, disk, home, map[], listing, unreadable);
    ItemsPackable(Reply(scan.items, Ok));
    PeerReads(hash, disk, home, files, Reply(scan.items, Ok));
    FilesInOrder(disk, home, listing);
    EntriesRecover(hash, disk, home, listing, files, scan.index);
  }

  lemma EntriesRecover(hash: Hasher, disk: Disk, home: bytes, listing: seq<Path>, files: seq<Path>, index: Index)
    requires Distinct(listing) && Ordered(files, listing)
    requires forall p :: p in index <==> p in files
    requires forall p <- files :: index[p] == Resource(true, hash(p, disk.Read([home] + p)))
    ensures RecoversIndex(EntriesOf(hash, disk, home, files), index)
    ensures InOrder(EntriesOf(hash, disk, home, files), listing)
  {
    hide Before;
    var es := EntriesOf(hash, disk, home, files);
    forall i, j | 0 <= i < j < |es| ensures es[i].0 != es[j].0 {
      BeforeDiffers(listing, files[i], files[j]);
    }
    forall p | p in index ensures exists i :: 0 <= i < |es| && es[i].0 == p {
      var i :| 0 <= i < |files| && files[i] == p;
      assert es[i].0 == p;
    }
  }

  /** The index lists exactly the regular files below the user's directory, synced. */
  ghost predicate ListsAllFiles(hash: Hasher, disk: Disk, home: bytes, index: Index) {
    && [] !in index
    && (forall p: Path :: p != [] ==> (p in index <==> [home] + p in disk.files))
    && (forall p <- index :: index[p] == Resource(true, hash(p, disk.Read([home] + p))))
  }

  /** One of the user's files cannot be opened for reading. */
  ghost predicate HasUnreadable(disk: Disk, home: bytes, unreadable: set<Path>) {
    exists p <- unreadable :: p != [] && [home] + p in disk.files
  }

  lemma ScanListsAll(hash: Hasher, disk: Disk, home: bytes, listing: seq<Path>, unreadable: set<Path>)
    requires ListingOk(disk, home, listing)
    ensures var scan := ScanFiles(hash, disk, home, map[], listing, unreadable);
      && !scan.repeated && (scan.ended <==> HasUnreadable(disk, home, unreadable))
      && (!scan.ended ==> ListsAllFiles(hash, disk, home, scan.index))
  {
    ScanExactly(hash, disk, home, listing, unreadable);
    FilesInExactly(disk, home, listing);
  }

  /** A SYNC from an empty index ends the process exactly when the directory can be read but one of
      its files cannot, and is answered OK exactly when everything can be read. Then the index is
      exactly the regular files, all synced under their digests, and a peer that reads the bytes on
      the wire recovers exactly that index, in the order of the traversal; otherwise the index stays
      empty. */
  lemma SyncEndToEnd(env: Env, disk: Disk, streams: Streams, s: Session, m: Msg, f: Faults)
    requires s.auth && !s.synced && s.index == map[] && m.kind == SYNC && m.tlvs != []
    requires ListingOk(disk, s.id, f.listing)
    ensures var o := HandleRequest(env, disk, streams, s, m, f);
      var readable := [s.id] in disk.dirs && !f.listingFails;
      && (o.Crashed? <==> readable && HasUnreadable(disk, s.id, f.unreadable))
      && (o.Replied? ==>
            && o.disk == disk && o.streams == streams
            && o.reply.status == (if readable then Ok else Err(ERR_SYNC_FAILED))
            && (!readable ==> o.reply.items == [])
            && o.session == s.(synced := o.reply.status == Ok, index := o.session.index)
            && (o.reply.status == Ok ==>
                  && ListsAllFiles(env.hash, disk, s.id, o.session.index)
                  && ((forall sign <- o.reply.items :: |sign| <= CHUNK_SIZE - 6) ==>
                        var es := PeerEntries(Wire(SYNC, o.reply));
                        es.Some? && RecoversIndex(es.value, o.session.index) && InOrder(es.value, f.listing)))
            && (o.reply.status != Ok ==> o.session.index == map[]))
  {
    hide PeerEntries, ScanFiles, RecoversIndex, InOrder, ListingOk, ListsAllFiles, HasUnreadable;
    ScanListsAll(env.hash, disk, s.id, f.listing, f.unreadable);
    var scan := ScanFiles(env.hash, disk, s.id, map[], f.listing, f.unreadable);
    if !scan.ended && forall sign <- scan.items :: |sign| <= CHUNK_SIZE - 6 {
      PeerRecovers(env.hash, disk, s.id, f.listing, f.unreadable);
    }
  }

  /** The sign of a file: its path with each name behind a single slash, a NUL, and its digest. */
  ghost predicate PrintsAs(sign: bytes, p: Path, digest: bytes) {
    exists text :: NormalText(text) && Parse(text) == p && sign == text + [0] + digest
  }

  lemma SignPrints(p: Path, digest: bytes)
    requires ValidPath(p)
    ensures PrintsAs(CreateSign(Text(p), digest), p, digest)
  {
    TextExactly(p, Text(p));
    hide NormalText, Parse;
  }

  /** What a SYNC that is answered OK puts on the wire: the ITEMs are the signs of the user's regular
      files, one for each and in the order of the traversal. */
  lemma SyncPrintsSigns(env: Env, disk: Disk, streams: Streams, s: Session, m: Msg, f: Faults)
    requires s.auth && !s.synced && s.index == map[] && m.kind == SYNC && m.tlvs != []
    requires ListingOk(disk, s.id, f.listing)
    ensures var o, files := HandleRequest(env, disk, streams, s, m, f), FilesIn(disk, s.id, f.listing);
      o.Replied? && o.reply.status == Ok && (forall sign <- o.reply.items :: |sign| <= CHUNK_SIZE - 6) ==>
        && Unframe(Wire(SYNC, o.reply)).Some?
        && var ts := Collect(Unframe(Wire(SYNC, o.reply)).value);
           && ts.Some? && |ts.value| == |files| + 2
           && forall i :: 0 <= i < |files| ==>
                && ts.value[i].tag == ITEM
                && PrintsAs(ts.value[i].value, files[i], env.hash(files[i], disk.Read([s.id] + files[i])))
  {
    hide ScanFiles, Wire, Render, Unframe, Collect, PrintsAs, FilesIn, Text, CreateSign, Disk.Read;
    var o, files := HandleRequest(env, disk, streams, s, m, f), FilesIn(disk, s.id, f.listing);
    ScanExactly(env.hash, disk, s.id, f.listing, f.unreadable);
    if o.Replied? && o.reply.status == Ok && forall sign <- o.reply.items :: |sign| <= CHUNK_SIZE - 6 {
      ItemsPackable(o.reply);
      ReplyReadBack(SYNC, o.reply);
      RenderShape(o.reply);
      FilesInExactly(disk, s.id, f.listing);
      forall i | 0 <= i < |files|
        ensures PrintsAs(o.reply.items[i], files[i], env.hash(files[i], disk.Read([s.id] + files[i])))
      {
        assert files[i] in files;
        SignPrints(files[i], env.hash(files[i], disk.Read([s.id] + files[i])));
      }
    }
  }

  // Every reply.

  lemma ServeCodes(hash: Hasher, st: Local, r: Request, f: Faults)
    requires r.path != []
    ensures Serve(hash, st, r, f).Next? ==> SmallCode(Serve(hash, st, r, f).status)
  {
  }

  /** The codes of requests that are turned down before anything is done. */
  predicate TurnedDown(s: Status) {
    s.Err? && s.code in {
      ERR_NO_CONTENT, ERR_MSG_TYPE_REJECTED, ERR_AUTH_NO_USRN, ERR_AUTH_NO_PSWD, ERR_AUTH_FAILED,
      ERR_CREATE_NO_ITEM, ERR_CREATE_NO_CONTENT, ERR_CREATE_ALREADY_EXIST,
      ERR_UPDATE_NO_ITEM, ERR_UPDATE_NO_CONTENT, ERR_UPDATE_NOT_EXIST, ERR_UPDATE_ALREADY_UPDATED,
      ERR_ERASE_NO_ITEM, ERR_ERASE_NO_MATCH, ERR_NONE}
  }

  lemma ServeTurnedDown(hash: Hasher, st: Local, r: Request, f: Faults)
    requires r.path != []
    ensures var s := Serve(hash, st, r, f);
      s.Next? && TurnedDown(s.status) ==> s.st == st
  {
    hide WriteChunk, Disk.MakeDirs, Disk.Remove, Prune;
  }

  /** A peer that is told one of these codes can rely on nothing having changed: no file, directory,
      stream, entry or flag. */
  lemma RefusalsChangeNothing(env: Env, disk: Disk, streams: Streams, s: Session, m: Msg, f: Faults)
    requires PathOf(m).Some? ==> PathOf(m).value != []
    requires forall id <- streams :: !streams[id].Absent?
    ensures var o := HandleRequest(env, disk, streams, s, m, f);
      o.Replied? && TurnedDown(o.reply.status) ==> o.disk == disk && o.streams == streams && o.session == s
  {
    hide Serve, ScanFiles;
    if PathOf(m).Some? && (m.kind == ERASE || |m.tlvs| > 1) {
      ServeTurnedDown(env.hash, LocalOf(disk, streams, s), RequestOf(m), f);
    }
  }

  lemma {:induction false} PartSize(ts: seq<Tlv>, i: nat)
    requires i < |ts|
    ensures 1 + ts[i].Size() <= GroupSize(ts)
  {
    SizeAtLeast(Front(ts));
    if i < |ts| - 1 {
      PartSize(Front(ts), i);
    }
  }

  /** A request that fits in a message and is not SYNC has a reply whose TLVs all fit, listing at
      most the sign it named; so unless that sign ends like END, verify_end tells its last message
      from the others. The reply to a SYNC does the same when no sign is longer than 4090 bytes. */
  lemma EveryReplyEnds(env: Env, disk: Disk, streams: Streams, s: Session, m: Msg, f: Faults, i: nat)
    requires PathOf(m).Some? ==> PathOf(m).value != []
    requires GroupSize(m.tlvs) <= CHUNK_SIZE
    ensures var o := HandleRequest(env, disk, streams, s, m, f);
      o.Replied? ==>
        && SmallCode(o.reply.status)
        && (m.kind != SYNC ==> o.reply.items == [] || (m.tlvs != [] && o.reply.items == [m.tlvs[0].value]))
        && ((m.kind != SYNC || forall sign <- o.reply.items :: |sign| <= CHUNK_SIZE - 6) ==>
              var ms := Encoded(m.kind, Pack(Render(o.reply)));
              && AllPackable(Render(o.reply))
              && ((forall sign <- o.reply.items :: !EndsWithMark(sign)) && i < |ms| ==>
                    (EndsWithMark(ms[i]) <==> i == |ms| - 1)))
  {
    hide Serve, Render, Pack, ScanFiles, Packable, EndsWithMark, GroupSize;
    var o := HandleRequest(env, disk, streams, s, m, f);
    if m.tlvs != [] {
      PartSize(m.tlvs, 0);
      if PathOf(m).Some? && (m.kind == ERASE || |m.tlvs| > 1) {
        ServeCodes(env.hash, LocalOf(disk, streams, s), RequestOf(m), f);
      }
    }
    if o.Replied? && (m.kind != SYNC || forall sign <- o.reply.items :: |sign| <= CHUNK_SIZE - 6) {
      ItemsPackable(o.reply);
      if forall sign <- o.reply.items :: !EndsWithMark(sign) {
        MarkEndsReply(m.kind, o.reply);
      }
    }
  }
}

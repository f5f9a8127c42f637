/** Requests and replies of one connection: what handle_request answers and what it changes
    (core/request_handler.cpp:30-125, 392-425). */
module Sessions {
  import opened Bytes
  import opened Tlvs
  import opened Paths
  import opened Disks
  import opened Transfer

  // Replies.

  /** The signs a reply lists, and how it ends. */
  datatype Reply = Reply(items: seq<bytes>, status: Status)

  /** Decimal digits (std::to_string). */
  function Decimal(n: nat): (d: bytes)
    ensures d != []
    ensures forall c <- d :: 48 <= c <= 57
    ensures (n < 10 ==> |d| == 1) && (n < 100 ==> |d| <= 2) && (n < 1000 ==> |d| <= 3)
    decreases n
  {
    if n < 10 then [48 + n] else Decimal(n / 10) + [48 + n % 10]
  }

  /** The TLV close_response puts before END. */
  function Closing(s: Status): Tlv {
    match s
    case Ok => Tlv(OK, [])
    case Err(code) => Tlv(ERROR, if code == ERR_NONE then [] else Decimal(code))
  }

  function Items(signs: seq<bytes>): seq<Tlv> {
    seq(|signs|, i requires 0 <= i < |signs| => Tlv(ITEM, signs[i]))
  }

  function Render(r: Reply): seq<Tlv> {
    Items(r.items) + [Closing(r.status), Tlv(END, [])]
  }

  // Sessions.

  datatype Session = Session(auth: bool, synced: bool, id: bytes, index: Index)

  /** A connection that has just been accepted. */
  const FRESH: Session := Session(false, false, [], map[])

  /** What lies outside the repository: the digest of a file, the credentials file, and the id
      made from a user's name. */
  datatype Env = Env(hash: Hasher, accepts: (bytes, bytes) -> bool, userId: bytes -> Digest)

  type Streams = map<bytes, Handle>

  function HandleOf(streams: Streams, id: bytes): Handle {
    if id in streams then streams[id] else Absent
  }

  function WithHandle(streams: Streams, id: bytes, handle: Handle): Streams {
    if handle.Absent? then streams - {id} else streams[id := handle]
  }

  /** What a session's user sees of the server. */
  function LocalOf(disk: Disk, streams: Streams, s: Session): Local {
    Local(s.id, disk, HandleOf(streams, s.id), s.index)
  }

  /** The outcome of a request: the process ends, or a reply and a new state. */
  datatype Outcome = Crashed | Replied(disk: Disk, streams: Streams, session: Session, reply: Reply)

  function Answer(disk: Disk, streams: Streams, s: Session, status: Status): Outcome {
    Replied(disk, streams, s, Reply([], status))
  }

  function Authenticate(env: Env, disk: Disk, streams: Streams, s: Session, ts: seq<Tlv>): Outcome
    requires ts != []
  {
    if ts[0].tag != USRN then Answer(disk, streams, s, Err(ERR_AUTH_NO_USRN))
    else if |ts| < 2 || ts[1].tag != PSWD then Answer(disk, streams, s, Err(ERR_AUTH_NO_PSWD))
    else if env.accepts(ts[0].value, ts[1].value) then
      Answer(disk, streams, Session(true, s.synced, env.userId(ts[0].value), map[]), Ok)
    else Answer(disk, streams, s, Err(ERR_AUTH_FAILED))
  }

  /** The scan of a user's directory so far. It stops at a path it has met before; and it ends the
      process at a file that cannot be opened, for which a buffer of length -1 is asked. */
  datatype Scan = Scan(index: Index, items: seq<bytes>, repeated: bool, ended: bool)

  function ScanFiles(
    hash: Hasher, disk: Disk, home: bytes, index: Index, listing: seq<Path>, unreadable: set<Path>): Scan
  {
    if listing == [] then Scan(index, [], false, false)
    else
      var before, p := ScanFiles(hash, disk, home, index, Front(listing), unreadable), Last(listing);
      if before.repeated || before.ended || [home] + p !in disk.files then before
      else if p in unreadable then before.(ended := true)
      else
        var digest := hash(p, disk.Read([home] + p));
        if p in before.index then before.(repeated := true)
        else Scan(before.index[p := Resource(true, digest)], before.items + [CreateSign(Text(p), digest)], false, false)
  }

  lemma ScanStart(
    hash: Hasher, disk: Disk, home: bytes, index: Index, listing: seq<Path>, unreadable: set<Path>)
    ensures ScanFiles(hash, disk, home, index, listing[..0], unreadable) == Scan(index, [], false, false)
  {
  }

  lemma ScanNext(
    hash: Hasher, disk: Disk, home: bytes, index: Index, listing: seq<Path>, unreadable: set<Path>, i: nat)
    requires i < |listing|
    requires var before := ScanFiles(hash, disk, home, index, listing[..i], unreadable);
      !before.repeated && !before.ended
    ensures var before := ScanFiles(hash, disk, home, index, listing[..i], unreadable);
      var after := ScanFiles(hash, disk, home, index, listing[..i + 1], unreadable);
      var p, path := listing[i], [home] + listing[i];
      if path !in disk.files then after == before
      else if p in unreadable then after == before.(ended := true)
      else if p in before.index then after == before.(repeated := true)
      else
        var digest := hash(p, disk.Read(path));
        after == Scan(
          before.index[p := Resource(true, digest)], before.items + [CreateSign(Text(p), digest)], false, false)
  {
    assert Front(listing[..i + 1]) == listing[..i];
  }

  /** A scan that has met a path twice, or a file that cannot be read, reads no further. */
  lemma {:induction false} ScanStops(
    hash: Hasher, disk: Disk, home: bytes, index: Index, listing: seq<Path>, unreadable: set<Path>, n: nat)
    requires n <= |listing|
    requires var before := ScanFiles(hash, disk, home, index, listing[..n], unreadable);
      before.repeated || before.ended
    ensures ScanFiles(hash, disk, home, index, listing, unreadable)
         == ScanFiles(hash, disk, home, index, listing[..n], unreadable)
    decreases |listing| - n
  {
    if n < |listing| {
      assert Front(listing[..n + 1]) == listing[..n];
      ScanStops(hash, disk, home, index, listing, unreadable, n + 1);
    } else {
      assert listing[..n] == listing;
    }
  }

  function Synchronize(env: Env, disk: Disk, streams: Streams, s: Session, f: Faults): Outcome {
    if [s.id] !in disk.dirs || f.listingFails then
      Answer(disk, streams, s.(index := map[]), Err(ERR_SYNC_FAILED))
    else
      var scan := ScanFiles(env.hash, disk, s.id, s.index, f.listing, f.unreadable);
      if scan.ended then Crashed
      else if scan.repeated then
        Replied(disk, streams, s.(index := map[]), Reply(scan.items, Err(ERR_SYNC_FAILED)))
      else
        Replied(disk, streams, s.(synced := true, index := scan.index), Reply(scan.items, Ok))
  }

  /** The error codes of a kind of transfer: no ITEM, no CONTENT. */
  function NoItem(kind: byte): nat {
    if kind == CREATE then ERR_CREATE_NO_ITEM
    else if kind == UPDATE then ERR_UPDATE_NO_ITEM
    else ERR_ERASE_NO_ITEM
  }

  function NoContent(kind: byte): nat {
    if kind == CREATE then ERR_CREATE_NO_CONTENT else ERR_UPDATE_NO_CONTENT
  }

  predicate ChangesFiles(kind: byte) {
    kind == CREATE || kind == UPDATE || kind == ERASE
  }

  /** The path a message is about, when it names one. */
  function PathOf(m: Msg): Option<Path> {
    if !ChangesFiles(m.kind) || m.tlvs == [] || m.tlvs[0].tag != ITEM then None
    else match SplitSign(m.tlvs[0].value)
      case None => None
      case Some((text, _)) => Some(Parse(text))
  }

  /** Clients send normalised paths. */
  ghost predicate GoodMsg(m: Msg) {
    && AllFit(m.tlvs)
    && (PathOf(m).Some? ==>
          && ValidPath(PathOf(m).value)
          && SplitSign(m.tlvs[0].value).value.0 == Text(PathOf(m).value))
  }

  /** The request a message carries, when it is complete. */
  function RequestOf(m: Msg): Request
    requires PathOf(m).Some? && (m.kind != ERASE ==> |m.tlvs| > 1)
  {
    var (_, digest) := SplitSign(m.tlvs[0].value).value;
    var p := PathOf(m).value;
    if m.kind == ERASE then Erase(p, digest)
    else if m.kind == CREATE then Create(p, digest, m.tlvs[1].value, LooksLikeEnd(Last(m.tlvs)))
    else Update(p, digest, m.tlvs[1].value, LooksLikeEnd(Last(m.tlvs)))
  }

  /** The message is a complete request of a session that may change files. */
  predicate Reaches(s: Session, m: Msg) {
    && s.auth && s.synced && PathOf(m).Some?
    && (m.kind != ERASE ==> |m.tlvs| > 1 && m.tlvs[1].tag == CONTENT)
  }

  /** The outcome of a step the user `s` asked for under `sign`. */
  function Finish(streams: Streams, s: Session, sign: bytes, step: Step): Outcome {
    match step
    case Halt => Crashed
    case Next(st, status) =>
      Replied(st.disk, WithHandle(streams, s.id, st.handle), s.(index := st.index), Reply([sign], status))
  }

  function ChangeFiles(env: Env, disk: Disk, streams: Streams, s: Session, m: Msg, f: Faults): Outcome
    requires m.tlvs != [] && ChangesFiles(m.kind) && (PathOf(m).Some? ==> PathOf(m).value != [])
  {
    if m.tlvs[0].tag != ITEM then Answer(disk, streams, s, Err(NoItem(m.kind)))
    else if PathOf(m).None? then Crashed
    else
      var sign := m.tlvs[0].value;
      if m.kind != ERASE && (|m.tlvs| < 2 || m.tlvs[1].tag != CONTENT) then
        Replied(disk, streams, s, Reply([sign], Err(NoContent(m.kind))))
      else Finish(streams, s, sign, Serve(env.hash, LocalOf(disk, streams, s), RequestOf(m), f))
  }

  function HandleRequest(env: Env, disk: Disk, streams: Streams, s: Session, m: Msg, f: Faults): Outcome
    requires PathOf(m).Some? ==> PathOf(m).value != []
  {
    if m.tlvs == [] then Answer(disk, streams, s, Err(ERR_NO_CONTENT))
    else if !s.auth then
      if m.kind == AUTH then Authenticate(env, disk, streams, s, m.tlvs)
      else Answer(disk, streams, s, Err(ERR_MSG_TYPE_REJECTED))
    else if !s.synced then
      if m.kind == SYNC then Synchronize(env, disk, streams, s, f)
      else Answer(disk, streams, s, Err(ERR_MSG_TYPE_REJECTED))
    else if ChangesFiles(m.kind) then ChangeFiles(env, disk, streams, s, m, f)
    else if m.kind == KEEP_ALIVE then Answer(disk, streams, s, Ok)
    else Answer(disk, streams, s, Err(ERR_MSG_TYPE_REJECTED))
  }
}

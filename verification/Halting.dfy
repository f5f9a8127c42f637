/** Exactly which requests end the whole process, for everybody. */
module Halting {
  import opened Bytes
  import opened Tlvs
  import opened Paths
  import opened Disks
  import opened Transfer
  import opened Soundness
  import opened Isolation
  import opened Arrivals
  import opened Chunks
  import opened Sessions
  import opened Servers
  import opened Replies
  import opened ServerSoundness
  import opened Trees

  /** The write of a chunk meant for `path` succeeds. */
  predicate WriteSucceeds(st: Local, path: Path, open: OpenOutcome) {
    !open.Throws? && !st.handle.Bad? && (st.handle.Absent? ==> open.Allowed? && path !in st.disk.dirs)
  }

  /** But it went to an older stream, and there still is no file of that name. */
  predicate Missed(st: Local, path: Path, open: OpenOutcome) {
    path !in st.disk.files && (path in st.disk.dirs || !open.Allowed?)
  }

  /** What the file `path` holds after the write. */
  function Holding(st: Local, path: Path, content: bytes): bytes {
    var ours := st.handle.Absent? || (path in st.disk.files && st.handle == Opened(st.disk.files[path]));
    if ours then st.disk.Read(path) + content else st.disk.Read(path)
  }

  /** The last chunk, meant for `path`, is written, and then the file of `p` cannot be read, or has a
      wrong digest and cannot be removed. */
  predicate NoVerdict(hash: Hasher, st: Local, path: Path, r: Transfer.Request, f: Faults)
    requires !r.Erase?
  {
    || Missed(st, path, f.open)
    || r.path in f.unreadable
    || (f.discardFails && (f.hashThrows || hash(r.path, Holding(st, path, r.content)) != r.digest))
  }

  /** The request ends the process. */
  predicate Ends(hash: Hasher, st: Local, r: Transfer.Request, f: Faults)
    requires r.path != []
  {
    match r
    case Create(p, _, _, last) =>
      && last && !(p in st.index && st.index[p].synced)
      && f.mkdir.None? && !st.disk.Blocked(Front(st.Abs(p)))
      && WriteSucceeds(st, st.Abs(p), f.open) && NoVerdict(hash, st, st.Abs(p), r, f)
    case Update(p, digest, _, last) =>
      && last && p in st.index && st.index[p].digest != digest
      && WriteSucceeds(st, st.Abs(TempOf(p)), f.open)
      && (f.removeFails || f.renameFails || NoVerdict(hash, st, st.Abs(TempOf(p)), r, f))
    case Erase(_, _) => false
  }

  /** The write of a chunk, in terms of the name it is meant for. */
  lemma WriteCases(st: Local, path: Path, content: bytes, open: OpenOutcome)
    requires st.disk.TreeOk() && st.disk.InodesOk() && HandleOk(st)
    requires path != [] && path[0] == st.home && st.disk.IsDir(Front(path))
    ensures var w := WriteChunk(st, path, content, open);
      && (w.Written? <==> WriteSucceeds(st, path, open))
      && (w.Written? ==>
            && w.st.disk.dirs == st.disk.dirs && w.st.home == st.home
            && w.st.disk.files.Keys == st.disk.files.Keys + (if Missed(st, path, open) then {} else {path})
            && (path in w.st.disk.files ==> w.st.disk.Read(path) == Holding(st, path, content)))
  {
    assert [] + content == content;
  }

  /** A CREATE chunk ends the process exactly when it is the last one, passes the checks and is
      written, and then there is no file of its name to read, or the file cannot be read, or its digest
      is wrong and it cannot be removed. */
  lemma CreateHaltsExactly(
    hash: Hasher, st: Local, p: Path, digest: bytes, content: bytes, last: bool, f: Faults)
    requires st.disk.InodesOk() && HandleOk(st) && st.disk.TreeOk() && p != []
    ensures CreateChunk(hash, st, p, digest, content, last, f).Halt?
       <==> Ends(hash, st, Create(p, digest, content, last), f)
  {
    hide WriteChunk, Disk.TreeOk, Disk.InodesOk, Holding;
    var path := st.Abs(p);
    var (disk, made) := st.disk.MakeDirs(Front(path), f.mkdir);
    if (p in st.index && st.index[p].synced) || !made { return; }
    MakeDirsKeepsTree(st.disk, Front(path), f.mkdir);
    MakeDirsInodes(st.disk, Front(path), f.mkdir);
    NoNewName(st.disk, path);
    assert Front(path)[..|p|] == Front(path);
    var st0 := st.(disk := disk);
    WriteCases(st0, path, content, f.open);
    assert Holding(st0, path, content) == Holding(st, path, content) by { SameBytes(st, disk, path, content); }
    hide Disk.MakeDirs, Disk.Read;
  }

  lemma SameBytes(st: Local, disk: Disk, path: Path, content: bytes)
    requires disk == st.disk.(dirs := disk.dirs)
    ensures Holding(st.(disk := disk), path, content) == Holding(st, path, content)
  {
  }

  /** Making the parents of a name does not make a directory of that name. */
  lemma NoNewName(disk: Disk, path: Path)
    requires path != []
    ensures path in disk.MakeDirs(Front(path), None).0.dirs <==> path in disk.dirs
  {
  }

  /** An UPDATE chunk ends the process exactly when it is the last one, passes the checks and is
      written, and then the old file cannot be removed, the temporary one is not there or cannot be
      renamed, the file cannot be read, or its digest is wrong and it cannot be removed. */
  lemma UpdateHaltsExactly(
    hash: Hasher, st: Local, p: Path, digest: bytes, content: bytes, last: bool, f: Faults)
    requires Sound(hash, st) && st.disk.TreeOk() && p != []
    ensures UpdateChunk(hash, st, p, digest, content, last, f).Halt?
       <==> Ends(hash, st, Update(p, digest, content, last), f)
  {
    hide WriteChunk, Disk.InodesOk, Holding, Replace;
    if p !in st.index || st.index[p].digest == digest || !last { return; }
    var path, temp := st.Abs(p), st.Abs(TempOf(p));
    assert st.EntryOk(hash, p);
    assert Front(temp) == Front(path);
    TempIsTemp(p);
    AbsInjective(st);
    WriteCases(st, temp, content, f.open);
    assert path in st.disk.files && path !in st.disk.dirs;
    hide Disk.TreeOk, Sound;
    var w := WriteChunk(st, temp, content, f.open);
    if w.Written? {
      ReplacedFile(w.st.(index := w.st.index[p := Resource(true, digest)], handle := Absent), p, f);
    }
  }

  /** The file that takes the place of the old one has the bytes of the temporary file. */
  lemma ReplacedFile(st: Local, p: Path, f: Faults)
    requires p != [] && st.Abs(p) in st.disk.files && st.Abs(p) !in st.disk.dirs
    ensures var r, temp := Replace(st, p, f), st.Abs(TempOf(p));
      && (r.Some? <==> !f.removeFails && !f.renameFails && temp in st.disk.files)
      && (r.Some? ==>
            && r.value.home == st.home && st.Abs(p) in r.value.disk.files
            && r.value.disk.Read(st.Abs(p)) == st.disk.Read(temp))
  {
    TempIsTemp(p);
    AbsInjective(st);
  }

  /** Every request, in every state with a true index and whatever the operating system does. */
  lemma HaltsExactly(hash: Hasher, st: Local, r: Transfer.Request, f: Faults)
    requires Sound(hash, st) && st.disk.TreeOk() && r.path != []
    ensures Serve(hash, st, r, f).Halt? <==> Ends(hash, st, r, f)
  {
    hide Disk.InodesOk, Disk.TreeOk, CreateChunk, UpdateChunk, Ends;
    match r
    case Create(p, digest, content, last) => CreateHaltsExactly(hash, st, p, digest, content, last, f);
    case Update(p, digest, content, last) => UpdateHaltsExactly(hash, st, p, digest, content, last, f);
    case Erase(p, digest) => EraseGoesOn(hash, st, p, digest, f);
  }

  lemma EraseGoesOn(hash: Hasher, st: Local, p: Path, digest: bytes, f: Faults)
    requires p != []
    ensures EraseFile(st, p, digest, f).Next? && !Ends(hash, st, Erase(p, digest), f)
  {
  }

  /** Two requests of any user are enough, though the operating system refuses nothing: the first
      chunk of a new file, and then the last chunk of a file with the name of its directory. */
  lemma TwoRequestsEndServer(
    hash: Hasher, st: Local, p: Path, digest: bytes, content: bytes, digest': bytes, content': bytes)
    requires Sound(hash, st) && st.disk.TreeOk() && CanCreate(st, p) && |p| > 1
    ensures var first := CreateChunk(hash, st, p, digest, content, false, Calm(p));
      && first.Next? && first.status == Ok
      && CreateChunk(hash, first.st, Front(p), digest', content', true, Calm(Front(p))).Halt?
  {
    hide Disk.InodesOk, Disk.TreeOk, Sound, CreateChunk, WriteChunk;
    NothingYet(st, p);
    MidCreate(hash, st, p, digest, Waiting, 0, Piece(content, Calm(p)));
    ServeKeepsTree(hash, st, Create(p, digest, content, false), Calm(p));
    CreateKeepsSound(hash, st, p, digest, content, false, Calm(p));
    DirectoryNow(hash, st, p, content);
    SoundBasics(hash, Creating(st, p, content));
    CreateHaltsExactly(hash, Creating(st, p, content), Front(p), digest', content', true, Calm(Front(p)));
  }

  lemma SoundBasics(hash: Hasher, st: Local)
    requires Sound(hash, st)
    ensures st.disk.InodesOk() && HandleOk(st)
  {
  }

  /** In the middle of a CREATE the name of its directory is not indexed and nothing is in its way. */
  lemma DirectoryNow(hash: Hasher, st: Local, p: Path, content: bytes)
    requires Sound(hash, st) && CanCreate(st, p) && |p| > 1
    ensures var now, dir := Creating(st, p, content), st.Abs(Front(p));
      && Front(p) !in now.index && now.handle.Opened? && now.home == st.home
      && dir in now.disk.dirs && dir !in now.disk.files && !now.disk.Blocked(Front(dir))
  {
    hide Disk.InodesOk, WithNewFile;
    var path, dir, now := st.Abs(p), st.Abs(Front(p)), Creating(st, p, content);
    assert dir == Front(path) == Front(path)[..|p|];
    StillUnblocked(st, p, content);
    forall k | 1 <= k <= |Front(dir)| ensures Front(dir)[..k] !in now.disk.files {
      assert Front(dir)[..k] == Front(path)[..k];
    }
    assert dir !in now.disk.files && st.Abs(Front(p)) !in st.disk.files;
  }

  /** A sign without NUL in a request for files, a chunk as above, or a SYNC that meets a file it
      cannot read. */
  ghost predicate EndsServer(hash: Hasher, disk: Disk, streams: Streams, s: Session, m: Msg, f: Faults)
    requires GoodMsg(m)
  {
    && s.auth && m.tlvs != []
    && if s.synced then
         && ChangesFiles(m.kind) && m.tlvs[0].tag == ITEM
         && (PathOf(m).None? || (Reaches(s, m) && Ends(hash, LocalOf(disk, streams, s), RequestOf(m), f)))
       else
         m.kind == SYNC && [s.id] in disk.dirs && !f.listingFails && HasUnreadable(disk, s.id, f.unreadable)
  }

  /** In every state with true indexes, a request ends the server, and with it every other user's
      connection, exactly in those three cases, whatever the operating system does. */
  lemma ServerStopsExactly(env: Env, s: Server, c: nat, m: Msg, f: Faults)
    requires AllSound(env, s) && s.disk.TreeOk() && c in s.live && GoodEvent(Incoming(c, m, f))
    requires m.kind == SYNC ==> ListingOk(s.disk, s.live[c].id, f.listing)
    ensures Advance(env, s, Incoming(c, m, f)).Stopped? <==> EndsServer(env.hash, s.disk, s.streams, s.live[c], m, f)
  {
    hide Serve, Sound, Disk.TreeOk, Ends, ScanFiles, StreamsOk, Disk.InodesOk, SplitSign, Parse, HasUnreadable,
         PeerEntries, ListingOk, ListsAllFiles;
    var ses := s.live[c];
    if Reaches(ses, m) {
      HaltsExactly(env.hash, LocalOf(s.disk, s.streams, ses), RequestOf(m), f);
    } else if ses.auth && !ses.synced && m.kind == SYNC && m.tlvs != [] {
      SyncEndToEnd(env, s.disk, s.streams, ses, m, f);
    }
  }
}

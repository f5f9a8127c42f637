/** Which answer every request gets, and when (core/request_handler.cpp:55-81, 392-425). */
module Answers {
  import opened Bytes
  import opened Tlvs
  import opened Paths
  import opened Disks
  import opened Transfer
  import opened StreamDiscipline
  import opened Sessions
  import opened MessageQueues
  import opened Replies

  /** The first two TLVs are a user name and a password. */
  predicate NamesUser(ts: seq<Tlv>) {
    ts != [] && ts[0].tag == USRN
  }

  predicate HasPassword(ts: seq<Tlv>) {
    |ts| > 1 && ts[1].tag == PSWD
  }

  /** Somebody who is not logged in is let in exactly with a user name and a password that are accepted,
      and from then on acts under the id of that name; every other attempt changes nothing and is told
      what was wrong. */
  lemma AuthExactly(env: Env, disk: Disk, streams: Streams, s: Session, m: Msg, f: Faults)
    requires !s.auth && m.kind == AUTH && m.tlvs != []
    ensures var o, ts := HandleRequest(env, disk, streams, s, m, f), m.tlvs;
      && o.Replied? && o.disk == disk && o.streams == streams && o.reply.items == []
      && (o.reply.status == Ok
          <==> NamesUser(ts) && HasPassword(ts) && env.accepts(ts[0].value, ts[1].value))
      && (o.reply.status == Ok <==> o.session == Session(true, s.synced, env.userId(ts[0].value), map[]))
      && (o.reply.status == Err(ERR_AUTH_NO_USRN) <==> !NamesUser(ts))
      && (o.reply.status == Err(ERR_AUTH_NO_PSWD) <==> NamesUser(ts) && !HasPassword(ts))
      && (o.reply.status == Err(ERR_AUTH_FAILED)
          <==> NamesUser(ts) && HasPassword(ts) && !env.accepts(ts[0].value, ts[1].value))
      && (o.reply.status != Ok ==> o.session == s)
  {
  }

  /** What a connection may ask for: first AUTH, then SYNC, and then the rest. */
  predicate Admitted(s: Session, kind: byte) {
    if !s.auth then kind == AUTH
    else if !s.synced then kind == SYNC
    else kind == CREATE || kind == UPDATE || kind == ERASE || kind == KEEP_ALIVE
  }

  /** The request is let in and is one of this kind. */
  predicate Asks(s: Session, m: Msg, kind: byte) {
    m.tlvs != [] && Admitted(s, m.kind) && m.kind == kind
  }

  /** It names a file, and brings content. */
  predicate NamesFile(m: Msg) { m.tlvs != [] && m.tlvs[0].tag == ITEM }

  predicate BringsContent(m: Msg) { |m.tlvs| > 1 && m.tlvs[1].tag == CONTENT }

  /** No code of a chunk is one of those of a request that is turned down as a whole. */
  lemma ServeCodesAreItsOwn(hash: Hasher, st: Local, r: Request, f: Faults)
    requires r.path != []
    ensures var s := Serve(hash, st, r, f);
      s.Next? && s.status.Err? ==> s.status.code in {
        ERR_CREATE_ALREADY_EXIST, ERR_CREATE_FAILED, ERR_CREATE_NO_MATCH, ERR_UPDATE_NOT_EXIST,
        ERR_UPDATE_ALREADY_UPDATED, ERR_UPDATE_FAILED, ERR_UPDATE_NO_MATCH, ERR_ERASE_NO_MATCH, ERR_NONE}
  {
  }

  /** The answer to a request that does not come from a chunk or an erasure, by its code: each of these
      codes is given in exactly one case. */
  lemma EveryRefusal(env: Env, disk: Disk, streams: Streams, s: Session, m: Msg, f: Faults)
    requires PathOf(m).Some? ==> PathOf(m).value != []
    ensures var o := HandleRequest(env, disk, streams, s, m, f);
      o.Replied? ==>
        var status := o.reply.status;
        && (status == Err(ERR_NO_CONTENT) <==> m.tlvs == [])
        && (status == Err(ERR_MSG_TYPE_REJECTED) <==> m.tlvs != [] && !Admitted(s, m.kind))
        && (status == Err(ERR_CREATE_NO_ITEM) <==> Asks(s, m, CREATE) && !NamesFile(m))
        && (status == Err(ERR_CREATE_NO_CONTENT) <==> Asks(s, m, CREATE) && NamesFile(m) && !BringsContent(m))
        && (status == Err(ERR_UPDATE_NO_ITEM) <==> Asks(s, m, UPDATE) && !NamesFile(m))
        && (status == Err(ERR_UPDATE_NO_CONTENT) <==> Asks(s, m, UPDATE) && NamesFile(m) && !BringsContent(m))
        && (status == Err(ERR_ERASE_NO_ITEM) <==> Asks(s, m, ERASE) && !NamesFile(m))
        && (status == Err(ERR_SYNC_FAILED) ==> Asks(s, m, SYNC))
        && (Asks(s, m, SYNC) ==> status == Ok || status == Err(ERR_SYNC_FAILED))
        && (Asks(s, m, SYNC) && ([s.id] !in disk.dirs || f.listingFails) ==>
              status == Err(ERR_SYNC_FAILED) && o.session == s.(index := map[]) && o.reply.items == [])
        && (s.auth && s.synced && ChangesFiles(m.kind) && m.tlvs != [] ==>
              o.reply.items == if NamesFile(m) then [m.tlvs[0].value] else [])
        && (Asks(s, m, KEEP_ALIVE) ==> status == Ok && o.session == s && o.reply.items == [])
  {
    hide Serve, ScanFiles, SplitSign, Parse;
    if Asks(s, m, m.kind) && PathOf(m).Some? && (m.kind == ERASE || |m.tlvs| > 1) {
      ServeCodesAreItsOwn(env.hash, LocalOf(disk, streams, s), RequestOf(m), f);
    }
  }

  /** Only a request for files, and a SYNC, can end the process. */
  lemma AnsweredAnyway(env: Env, disk: Disk, streams: Streams, s: Session, m: Msg, f: Faults)
    requires PathOf(m).Some? ==> PathOf(m).value != []
    requires !Asks(s, m, CREATE) && !Asks(s, m, UPDATE) && !Asks(s, m, ERASE) && !Asks(s, m, SYNC)
    ensures var o := HandleRequest(env, disk, streams, s, m, f);
      o.Replied? && o.disk == disk && o.streams == streams
  {
  }

  /** What the log is told about a reply: an error exactly if its status is one. */
  lemma LoggedResult(r: Reply)
    ensures HasError(Render(r)) <==> r.status.Err?
  {
    RenderShape(r);
  }

  // The answers to chunks and erasures, in every state and whatever the operating system does.

  /** The answers to a CREATE chunk: each is given in exactly one case. */
  lemma CreateAnswers(hash: Hasher, st: Local, p: Path, digest: bytes, content: bytes, last: bool, f: Faults)
    requires p != []
    ensures var s := CreateChunk(hash, st, p, digest, content, last, f);
      s.Next? ==>
        var known, written := p in st.index && st.index[p].synced, Writes(st, Create(p, digest, content, last), f);
        && (s.status == Err(ERR_CREATE_ALREADY_EXIST) <==> known)
        && (s.status == Err(ERR_CREATE_FAILED) <==> !known && (!written || (last && f.hashThrows)))
        && (s.status == Err(ERR_CREATE_NO_MATCH) <==> written && last && !f.hashThrows && p !in s.st.index)
        && (s.status == Ok <==> written && (last ==> !f.hashThrows && p in s.st.index))
        && (s.status == Ok && last ==>
              && s.st.index[p] == Resource(true, digest) && st.Abs(p) in s.st.disk.files
              && hash(p, s.st.disk.Read(st.Abs(p))) == digest)
  {
    hide WriteChunk, Disk.MakeDirs;
  }

  /** The answers to an UPDATE chunk. */
  lemma UpdateAnswers(hash: Hasher, st: Local, p: Path, digest: bytes, content: bytes, last: bool, f: Faults)
    requires p != []
    ensures var s := UpdateChunk(hash, st, p, digest, content, last, f);
      s.Next? ==>
        var written := Writes(st, Update(p, digest, content, last), f);
        && (s.status == Err(ERR_UPDATE_NOT_EXIST) <==> p !in st.index)
        && (s.status == Err(ERR_UPDATE_ALREADY_UPDATED) <==> p in st.index && st.index[p].digest == digest)
        && (s.status == Err(ERR_UPDATE_FAILED)
            <==> p in st.index && st.index[p].digest != digest && (!written || (last && f.hashThrows)))
        && (s.status == Err(ERR_UPDATE_NO_MATCH) <==> written && last && !f.hashThrows && p !in s.st.index)
        && (s.status == Ok <==> written && (last ==> !f.hashThrows && p in s.st.index))
        && (s.status == Ok && last ==>
              && s.st.index[p] == Resource(true, digest) && st.Abs(p) in s.st.disk.files
              && hash(p, s.st.disk.Read(st.Abs(p))) == digest)
  {
    hide WriteChunk, Replace;
    UpdateNames(st, p, digest, content, f);
  }

  lemma UpdateNames(st: Local, p: Path, digest: bytes, content: bytes, f: Faults)
    requires p != []
    ensures var w := WriteChunk(st, st.Abs(TempOf(p)), content, f.open);
      forall index :: var r := Replace(w.st.(index := index, handle := Absent), p, f);
        r.Some? ==> r.value.index == index && r.value.home == st.home && r.value.handle.Absent?
  {
    hide WriteChunk, Disk.Remove;
  }

  /** The answers to an ERASE. */
  lemma EraseAnswers(st: Local, p: Path, digest: bytes, f: Faults)
    requires p != []
    ensures var s, listed := EraseFile(st, p, digest, f), p in st.index && st.index[p].digest == digest;
      && s.Next?
      && (s.status == Err(ERR_ERASE_NO_MATCH) <==> !listed)
      && (s.status == Err(ERR_NONE) <==> listed && (f.removeFails || st.disk.Remove(st.Abs(p)).None?))
      && (s.status == Ok <==> listed && !f.removeFails && st.disk.Remove(st.Abs(p)).Some?)
      && (s.status == Ok <==> p in st.index && p !in s.st.index)
      && (s.status != Ok ==> s.st == st)
  {
    hide Disk.Remove, Prune;
  }
}

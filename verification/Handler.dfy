/** request_handler: the imperative handlers, each proved against the outcome it should have. */
module Handlers {
  import opened Bytes
  import opened Tlvs
  import opened Messages
  import opened TlvViews
  import opened Packing
  import opened MessageQueues
  import opened Paths
  import opened Disks
  import opened Transfer
  import opened Sessions
  import opened State

  /** The text of every listed path stays below this length. */
  const PATH_MAX: nat := 4096

  /** What a CREATE or UPDATE message holds. */
  datatype Chunk = Unsigned | Rejected(code: nat) | Chunk(path: Path, digest: bytes, content: bytes, last: bool)

  function ChunkOf(m: Msg): Chunk
    requires m.tlvs != []
  {
    if m.tlvs[0].tag != ITEM then Rejected(NoItem(m.kind))
    else match SplitSign(m.tlvs[0].value)
      case None => Unsigned
      case Some((text, digest)) =>
        if |m.tlvs| < 2 || m.tlvs[1].tag != CONTENT then Rejected(NoContent(m.kind))
        else Chunk(Parse(text), digest, m.tlvs[1].value, LooksLikeEnd(Last(m.tlvs)))
  }

  class RequestHandler {
    const env: Env
    const fs: FileSystem
    const streams: OpenStreams

    constructor (env: Env, fs: FileSystem, streams: OpenStreams)
      ensures this.env == env && this.fs == fs && this.streams == streams
    {
      this.env := env;
      this.fs := fs;
      this.streams := streams;
    }

    /** The user's part of the state. */
    ghost function Here(user: User): Local
      reads user, user.dir, fs, streams
    {
      LocalOf(fs.disk, streams.streams, user.Abstract())
    }

    /** Adds the closing OK or ERROR, and END. */
    method CloseResponse(replies: MessageQueue, status: Status)
      requires replies.Valid() && replies.msgs != [] && (status.Err? ==> status.code < 1000)
      modifies replies.Repr()
      ensures replies.Valid() && fresh(replies.Repr() - old(replies.Repr())) && replies.msgs != []
      ensures replies.kind == old(replies.kind) && replies.popped == old(replies.popped)
      ensures replies.tlvs == old(replies.tlvs) + [Closing(status), Tlv(END, [])]
    {
      var value := [];
      if status.Err? && status.code != ERR_NONE {
        value := Decimal(status.code);
      }
      replies.AddTlv(if status.Ok? then OK else ERROR, value);
      replies.AddTlv(END, []);
    }

    /** open_streams::get_stream and the write to the stream it returns. */
    method WriteToStream(user: User, path: Path, content: bytes, open: OpenOutcome)
      returns (written: bool, first: bool)
      requires streams.Valid() && path != []
      modifies fs, streams
      ensures streams.Valid()
      ensures var w := WriteChunk(old(Here(user)), path, content, open);
        && written == w.Written?
        && fs.disk == w.st.disk
        && streams.streams == WithHandle(old(streams.streams), user.id, w.st.handle)
        && (written ==> first == w.first)
    {
      if open.Throws? {
        return false, false;
      }
      var stream;
      stream, first := streams.GetStream(user.id, path, fs, open.Allowed?);
      if stream.Bad? {
        return false, first;
      }
      fs.Write(stream, content);
      written := true;
    }

    /** After the last chunk: compares the digest of the file on disk with the one announced. */
    method CheckDigest(user: User, p: Path, digest: bytes, f: Faults, noMatch: nat, failed: nat)
      returns (halted: bool, status: Status)
      requires user.Valid() && user.dir != null && noMatch < 1000 && failed < 1000
      modifies fs, user.dir
      ensures user.Valid()
      ensures var s := Settle(env.hash, old(Here(user)), p, digest, f, noMatch, failed);
        && halted == s.Halt?
        && (!halted ==>
              && status == s.status && fs.disk == s.st.disk && user.dir.content == s.st.index
              && (status.Err? ==> status.code < 1000))
    {
      var path := [user.id] + p;
      status := Ok;
      if path !in fs.disk.files || p in f.unreadable {
        return true, status;
      }
      if f.hashThrows || env.hash(p, fs.disk.Read(path)) != digest {
        halted := fs.Remove(path, f.discardFails);
        if halted {
          return;
        }
        var _ := user.dir.Erase(p);
        status := Err(if f.hashThrows then failed else noMatch);
      }
      halted := false;
    }

    /** The state and the reply are those of the outcome. */
    ghost predicate Reached(o: Outcome, replies: MessageQueue, user: User)
      requires o.Replied?
      reads this, fs, streams, user, user.dir, replies, replies.msgs
    {
      && fs.disk == o.disk && streams.streams == o.streams && streams.Valid()
      && user.Valid() && user.Abstract() == o.session
      && replies.Valid() && replies.msgs != [] && replies.tlvs == Render(o.reply)
    }

    /** The checks, the write and the bookkeeping of one CREATE chunk. */
    method StoreCreated(user: User, p: Path, digest: bytes, content: bytes, last: bool, f: Faults)
      returns (halted: bool, status: Status)
      requires user.Valid() && user.dir != null && streams.Valid() && p != []
      modifies fs, streams, user.dir
      ensures user.Valid() && streams.Valid()
      ensures Stored(CreateChunk(env.hash, old(Here(user)), p, digest, content, last, f), halted, status,
                     old(streams.streams), user)
    {
      hide WriteChunk, Settle, Disk.MakeDirs;
      halted := false;
      var rsrc := user.dir.Rsrc(p);
      if rsrc.Some? && rsrc.value.synced {
        return false, Err(ERR_CREATE_ALREADY_EXIST);
      }
      var path := user.dir.path + p;
      var failed := fs.CreateDirectories(Front(path), f.mkdir);
      if failed {
        return false, Err(ERR_CREATE_FAILED);
      }
      var written, first := WriteToStream(user, path, content, f.open);
      if !written {
        return false, Err(ERR_CREATE_FAILED);
      }
      if first {
        var _ := user.dir.InsertOrAssign(p, Resource(last, if last then digest else TEMP));
      } else if last {
        var _ := user.dir.InsertOrAssign(p, Resource(true, digest));
      }
      status := Ok;
      if last {
        streams.EraseStream(user.id);
        halted, status := CheckDigest(user, p, digest, f, ERR_CREATE_NO_MATCH, ERR_CREATE_FAILED);
      }
    }

    /** The state is the one the step leads to. */
    ghost predicate Stored(s: Step, halted: bool, status: Status, before: Streams, user: User)
      requires user.dir != null
      reads fs, streams, user, user.dir
    {
      && halted == s.Halt?
      && (!halted ==>
            && status == s.status && (status.Err? ==> status.code < 1000)
            && fs.disk == s.st.disk
            && streams.streams == WithHandle(before, user.id, s.st.handle)
            && user.dir.content == s.st.index)
    }

    /** The sign and the content of a chunk. The sign is echoed in the reply. */
    method ReadChunk(view: TlvView, replies: MessageQueue) returns (chunk: Chunk)
      requires view.Valid() && view.valid && view.shown == 1
      requires view.contents.kind == CREATE || view.contents.kind == UPDATE
      requires replies.Valid() && replies.msgs != [] && view.msg !in replies.msgs
      modifies view, replies.Repr()
      ensures fresh(replies.Repr() - old(replies.Repr()))
      ensures replies.kind == old(replies.kind) && replies.popped == old(replies.popped)
      ensures replies.Valid() && replies.msgs != []
      ensures chunk == ChunkOf(old(view.contents))
      ensures var t := old(view.contents).tlvs[0];
        replies.tlvs == old(replies.tlvs) + (if t.tag != ITEM || chunk.Unsigned? then [] else [Tlv(ITEM, t.value)])
    {
      hide Decode, EncodeAll, Parse, SplitSign, Pack, LooksLikeEnd, EndsWithMark;
      ghost var m := view.contents;
      if view.tag != ITEM {
        return Rejected(if view.msg.Kind() == CREATE then ERR_CREATE_NO_ITEM else ERR_UPDATE_NO_ITEM);
      }
      var sign := view.Value();
      var parts := SplitSign(sign);
      if parts.None? {
        return Unsigned;
      }
      assert m.tlvs[0] in m.tlvs;
      replies.AddTlv(ITEM, sign);
      var more := view.NextTlv();
      if !more || view.tag != CONTENT {
        return Rejected(if view.msg.Kind() == CREATE then ERR_CREATE_NO_CONTENT else ERR_UPDATE_NO_CONTENT);
      }
      var last := view.VerifyEnd();
      return Chunk(Parse(parts.value.0), parts.value.1, view.Value(), last);
    }

    /** One chunk of a new file. */
    method HandleCreate(view: TlvView, replies: MessageQueue, user: User, f: Faults) returns (halted: bool)
      requires view.Valid() && view.valid && view.shown == 1
      requires view.contents.kind == CREATE && GoodMsg(view.contents)
      requires replies.Valid() && replies.msgs != [] && replies.tlvs == [] && view.msg !in replies.msgs
      requires user.Valid() && user.dir != null && streams.Valid()
      modifies view, fs, streams, user.dir, replies.Repr()
      ensures var o := ChangeFiles(
                env, old(fs.disk), old(streams.streams), old(user.Abstract()), old(view.contents), f);
        halted == o.Crashed? && (!halted ==> Reached(o, replies, user))
      ensures fresh(replies.Repr() - old(replies.Repr()))
      ensures replies.kind == old(replies.kind) && replies.popped == old(replies.popped)
    {
      hide ChangeFiles, CreateChunk, Closing, Decode, EncodeMsg, Parse, SplitSign, Render, Pack, LooksLikeEnd,
           ValidName, HasError;
      ChangeCases(env, fs.disk, streams.streams, user.Abstract(), view.contents, f);
      ghost var m := view.contents;
      var chunk := ReadChunk(view, replies);
      if chunk.Unsigned? {
        return true;
      }
      var status;
      if chunk.Rejected? {
        halted, status := false, Err(chunk.code);
      } else {
        halted, status := StoreCreated(user, chunk.path, chunk.digest, chunk.content, chunk.last, f);
      }
      if !halted {
        RenderNone(status);
        RenderOne(m.tlvs[0].value, status);
        CloseResponse(replies, status);
      }
    }

    /** The checks, the write and the bookkeeping of one UPDATE chunk. */
    method StoreUpdated(user: User, p: Path, digest: bytes, content: bytes, last: bool, f: Faults)
      returns (halted: bool, status: Status)
      requires user.Valid() && user.dir != null && streams.Valid() && p != []
      modifies fs, streams, user.dir
      ensures user.Valid() && streams.Valid()
      ensures Stored(UpdateChunk(env.hash, old(Here(user)), p, digest, content, last, f), halted, status,
                     old(streams.streams), user)
    {
      hide WriteChunk, Settle, Disk.Remove, Disk.Rename, Disk.CanRename, TempOf;
      halted := false;
      var rsrc := user.dir.Rsrc(p);
      if rsrc.None? {
        return false, Err(ERR_UPDATE_NOT_EXIST);
      }
      if rsrc.value.digest == digest {
        return false, Err(ERR_UPDATE_ALREADY_UPDATED);
      }
      var path := user.dir.path + p;
      var temp := user.dir.path + TempOf(p);
      var written, first := WriteToStream(user, temp, content, f.open);
      if !written {
        return false, Err(ERR_UPDATE_FAILED);
      }
      if first {
        var _ := user.dir.InsertOrAssign(p, Resource(last, if last then digest else rsrc.value.digest));
      } else if last {
        var _ := user.dir.InsertOrAssign(p, Resource(true, digest));
      }
      status := Ok;
      if last {
        streams.EraseStream(user.id);
        halted := fs.Remove(path, f.removeFails);
        if !halted {
          halted := fs.Rename(temp, path, f.renameFails);
        }
        if !halted {
          halted, status := CheckDigest(user, p, digest, f, ERR_UPDATE_NO_MATCH, ERR_UPDATE_FAILED);
        }
      }
    }

    /** One chunk of a new version of a file. */
    method HandleUpdate(view: TlvView, replies: MessageQueue, user: User, f: Faults) returns (halted: bool)
      requires view.Valid() && view.valid && view.shown == 1
      requires view.contents.kind == UPDATE && GoodMsg(view.contents)
      requires replies.Valid() && replies.msgs != [] && replies.tlvs == [] && view.msg !in replies.msgs
      requires user.Valid() && user.dir != null && streams.Valid()
      modifies view, fs, streams, user.dir, replies.Repr()
      ensures var o := ChangeFiles(
                env, old(fs.disk), old(streams.streams), old(user.Abstract()), old(view.contents), f);
        halted == o.Crashed? && (!halted ==> Reached(o, replies, user))
      ensures fresh(replies.Repr() - old(replies.Repr()))
      ensures replies.kind == old(replies.kind) && replies.popped == old(replies.popped)
    {
      hide ChangeFiles, UpdateChunk, Closing, Decode, EncodeMsg, Parse, SplitSign, Render, Pack, LooksLikeEnd,
           ValidName, HasError;
      ChangeCases(env, fs.disk, streams.streams, user.Abstract(), view.contents, f);
      ghost var m := view.contents;
      var chunk := ReadChunk(view, replies);
      if chunk.Unsigned? {
        return true;
      }
      var status;
      if chunk.Rejected? {
        halted, status := false, Err(chunk.code);
      } else {
        halted, status := StoreUpdated(user, chunk.path, chunk.digest, chunk.content, chunk.last, f);
      }
      if !halted {
        RenderNone(status);
        RenderOne(m.tlvs[0].value, status);
        CloseResponse(replies, status);
      }
    }

    /** Removes the directories that the removal of a file left empty. */
    method RemoveEmptyDirs(user: User, path: Path, f: Faults)
      requires user.dir != null && user.dir.path == [user.id] && |path| > 1 && path[0] == user.id
      modifies fs
      ensures fs.disk == Prune(old(fs.disk), Front(path), f.prunable)
    {
      var tmp := Front(path);
      var left := f.prunable;
      var failed := false;
      while !failed && tmp != user.dir.path && tmp in fs.disk.dirs && fs.disk.IsEmptyDir(tmp)
        invariant 1 <= |tmp| && tmp[0] == user.id && unchanged(user) && unchanged(user.dir)
        invariant if failed then fs.disk == Prune(old(fs.disk), Front(path), f.prunable)
                  else Prune(fs.disk, tmp, left) == Prune(old(fs.disk), Front(path), f.prunable)
        decreases !failed, |tmp|
      {
        failed := fs.RemoveDirectory(tmp, left == 0);
        if !failed {
          left := left - 1;
          tmp := Front(tmp);
        }
      }
    }

    method StoreErased(user: User, p: Path, digest: bytes, f: Faults) returns (status: Status)
      requires user.Valid() && user.dir != null && streams.Valid() && p != []
      modifies fs, user.dir
      ensures user.Valid()
      ensures Stored(EraseFile(old(Here(user)), p, digest, f), false, status, old(streams.streams), user)
    {
      var rsrc := user.dir.Rsrc(p);
      if rsrc.None? || rsrc.value.digest != digest {
        return Err(ERR_ERASE_NO_MATCH);
      }
      var path := user.dir.path + p;
      var failed := fs.Remove(path, f.removeFails);
      if failed {
        return Err(ERR_NONE);
      }
      var erased := user.dir.Erase(p);
      RemoveEmptyDirs(user, path, f);
      status := if erased then Ok else Err(ERR_NONE);
    }

    /** The removal of a file. */
    method HandleErase(view: TlvView, replies: MessageQueue, user: User, f: Faults) returns (halted: bool)
      requires view.Valid() && view.valid && view.shown == 1
      requires view.contents.kind == ERASE && GoodMsg(view.contents)
      requires replies.Valid() && replies.msgs != [] && replies.tlvs == [] && view.msg !in replies.msgs
      requires user.Valid() && user.dir != null && streams.Valid()
      modifies fs, user.dir, replies.Repr()
      ensures var o := ChangeFiles(
                env, old(fs.disk), old(streams.streams), old(user.Abstract()), old(view.contents), f);
        halted == o.Crashed? && (!halted ==> Reached(o, replies, user))
      ensures fresh(replies.Repr() - old(replies.Repr()))
      ensures replies.kind == old(replies.kind) && replies.popped == old(replies.popped)
    {
      hide ChangeFiles, EraseFile, Closing, Decode, EncodeMsg, Parse, SplitSign, Render, Pack, ValidName, HasError,
           LooksLikeEnd;
      ChangeCases(env, fs.disk, streams.streams, user.Abstract(), view.contents, f);
      ghost var m := view.contents;
      var named := ReadName(view, replies);
      if named.Unsigned? {
        return true;
      }
      halted := false;
      var status;
      if named.Rejected? {
        status := Err(named.code);
      } else {
        EraseAlwaysSteps(Here(user), named.path, named.digest, f);
        status := StoreErased(user, named.path, named.digest, f);
      }
      RenderNone(status);
      RenderOne(m.tlvs[0].value, status);
      CloseResponse(replies, status);
    }

    /** The sign of an ERASE, which is echoed in the reply. */
    method ReadName(view: TlvView, replies: MessageQueue) returns (named: Chunk)
      requires view.Valid() && view.valid && view.shown == 1 && view.contents.kind == ERASE
      requires replies.Valid() && replies.msgs != [] && view.msg !in replies.msgs
      modifies replies.Repr()
      ensures fresh(replies.Repr() - old(replies.Repr()))
      ensures replies.kind == old(replies.kind) && replies.popped == old(replies.popped)
      ensures replies.Valid() && replies.msgs != []
      ensures var t := old(view.contents).tlvs[0];
        && (if t.tag != ITEM then named == Rejected(ERR_ERASE_NO_ITEM)
            else match SplitSign(t.value)
              case None => named == Unsigned
              case Some((text, digest)) => named == Chunk(Parse(text), digest, [], true))
        && replies.tlvs == old(replies.tlvs) + (if named.Chunk? then [Tlv(ITEM, t.value)] else [])
    {
      hide Decode, EncodeAll, Parse, SplitSign, Pack, LooksLikeEnd, EndsWithMark;
      if view.tag != ITEM {
        return Rejected(ERR_ERASE_NO_ITEM);
      }
      var sign := view.Value();
      var parts := SplitSign(sign);
      if parts.None? {
        return Unsigned;
      }
      assert view.contents.tlvs[0] in view.contents.tlvs;
      replies.AddTlv(ITEM, sign);
      return Chunk(Parse(parts.value.0), parts.value.1, [], true);
    }

    /** Checks the credentials and opens the user's index. */
    method Login(view: TlvView, user: User) returns (status: Status)
      requires view.Valid() && view.valid && view.shown == 1 && user.Valid()
      modifies view, user
      ensures user.Valid() && SmallStatus(status)
      ensures forall disk, streams ::
                Authenticate(env, disk, streams, old(user.Abstract()), old(view.contents).tlvs)
                == Replied(disk, streams, user.Abstract(), Reply([], status))
      ensures user.dir == old(user.dir) || fresh(user.dir)
    {
      status := Ok;
      if view.tag != USRN {
        return Err(ERR_AUTH_NO_USRN);
      }
      var username := view.Value();
      var more := view.NextTlv();
      if !more || view.tag != PSWD {
        return Err(ERR_AUTH_NO_PSWD);
      }
      if !env.accepts(username, view.Value()) {
        return Err(ERR_AUTH_FAILED);
      }
      user.id := env.userId(username);
      user.dir := new Dir([env.userId(username)]);
      user.auth := true;
    }

    method HandleAuth(view: TlvView, replies: MessageQueue, user: User)
      requires view.Valid() && view.valid && view.shown == 1
      requires replies.Valid() && replies.msgs != [] && replies.tlvs == [] && view.msg !in replies.msgs
      requires user.Valid() && streams.Valid()
      modifies view, user, replies.Repr()
      ensures Reached(
                Authenticate(env, old(fs.disk), old(streams.streams), old(user.Abstract()), old(view.contents).tlvs),
                replies, user)
      ensures fresh(replies.Repr() - old(replies.Repr()))
      ensures replies.kind == old(replies.kind) && replies.popped == old(replies.popped)
      ensures user.dir == old(user.dir) || fresh(user.dir)
    {
      hide Decode, Closing, Pack, Authenticate, Render;
      var status := Login(view, user);
      RenderNone(status);
      CloseResponse(replies, status);
    }

    /** Indexes every regular file of the listing and adds its sign to the reply. */
    method ScanDirectory(replies: MessageQueue, user: User, listing: seq<Path>, unreadable: set<Path>)
      returns (repeated: bool, halted: bool)
      requires replies.Valid() && replies.msgs != [] && replies.tlvs == []
      requires user.Valid() && user.dir != null
      requires forall p <- listing :: |Text(p)| <= PATH_MAX
      modifies user.dir, replies.Repr()
      ensures var scan := ScanFiles(env.hash, fs.disk, user.id, old(user.dir.content), listing, unreadable);
        && halted == scan.ended && repeated == scan.repeated
        && (!repeated && !halted ==> user.dir.content == scan.index)
        && (!halted ==> replies.tlvs == Items(scan.items))
      ensures replies.Valid() && replies.msgs != []
      ensures replies.kind == old(replies.kind) && replies.popped == old(replies.popped)
      ensures fresh(replies.Repr() - old(replies.Repr()))
    {
      hide Decode, Pack, Text, ScanFiles, Disk.Read, CreateSign, EncodeMsg, HasError;
      ghost var index, disk := user.dir.content, fs.disk;
      ScanStart(env.hash, disk, user.id, index, listing, unreadable);
      for i := 0 to |listing|
        invariant replies.Valid() && replies.msgs != []
        invariant replies.kind == old(replies.kind) && replies.popped == old(replies.popped)
        invariant fresh(replies.Repr() - old(replies.Repr()))
        invariant var scan := ScanFiles(env.hash, disk, user.id, index, listing[..i], unreadable);
          !scan.repeated && !scan.ended && user.dir.content == scan.index && replies.tlvs == Items(scan.items)
      {
        var p := listing[i];
        ghost var scan := ScanFiles(env.hash, disk, user.id, index, listing[..i], unreadable);
        ScanNext(env.hash, disk, user.id, index, listing, unreadable, i);
        var path := user.dir.path + p;
        if path in fs.disk.files {
          if p in unreadable {
            ScanStops(env.hash, disk, user.id, index, listing, unreadable, i + 1);
            return false, true;
          }
          var digest := env.hash(p, fs.disk.Read(path));
          var inserted := user.dir.InsertOrAssign(p, Resource(true, digest));
          if !inserted {
            ScanStops(env.hash, disk, user.id, index, listing, unreadable, i + 1);
            return true, false;
          }
          var sign := CreateSign(Text(p), digest);
          SignLength(p, digest, listing);
          replies.AddTlv(ITEM, sign);
          assert Items(scan.items + [sign]) == Items(scan.items) + [Tlv(ITEM, sign)];
        }
      }
      assert listing[..|listing|] == listing;
      return false, false;
    }

    /** Indexes every regular file below the user's directory and lists it in the reply. The listing
        is read through, or throws; wherever it throws the index ends empty and the reply is new. */
    method HandleSync(replies: MessageQueue, user: User, f: Faults) returns (halted: bool)
      requires replies.Valid() && replies.msgs != [] && replies.tlvs == []
      requires replies.kind == SYNC && replies.popped == 0
      requires user.Valid() && user.dir != null && streams.Valid()
      requires forall p <- f.listing :: |Text(p)| <= PATH_MAX
      modifies user, user.dir, replies.Repr()
      ensures var o := Synchronize(env, old(fs.disk), old(streams.streams), old(user.Abstract()), f);
        halted == o.Crashed? && (!halted ==> Reached(o, replies, user))
      ensures fresh(replies.Repr() - old(replies.Repr())) && replies.kind == SYNC && replies.popped == 0
      ensures user.dir == old(user.dir)
    {
      hide Decode, Closing, Pack, Text, ScanFiles, EncodeMsg, HasError, HandleOf;
      var status := Ok;
      halted := false;
      if user.dir.path !in fs.disk.dirs || f.listingFails {
        user.dir.Clear();
        replies.Reset(SYNC);
        status := Err(ERR_SYNC_FAILED);
        RenderNone(status);
      } else {
        var repeated;
        repeated, halted := ScanDirectory(replies, user, f.listing, f.unreadable);
        if halted {
          return;
        }
        if repeated {
          user.dir.Clear();
          status := Err(ERR_SYNC_FAILED);
        } else {
          user.synced := true;
        }
      }
      CloseResponse(replies, status);
    }

    /** The handler for a request that has at least one TLV. */
    method Dispatch(kind: byte, view: TlvView, replies: MessageQueue, user: User, f: Faults) returns (halted: bool)
      requires view.Valid() && view.valid && view.shown == 1 && view.contents.kind == kind && GoodMsg(view.contents)
      requires replies.Valid() && replies.msgs != [] && replies.tlvs == [] && view.msg !in replies.msgs
      requires replies.kind == kind && replies.popped == 0
      requires user.Valid() && streams.Valid()
      requires forall p <- f.listing :: |Text(p)| <= PATH_MAX
      modifies view, fs, streams, user, user.dir, replies.Repr()
      ensures var o := Sessions.HandleRequest(
                env, old(fs.disk), old(streams.streams), old(user.Abstract()), old(view.contents), f);
        halted == o.Crashed? && (!halted ==> Reached(o, replies, user))
      ensures fresh(replies.Repr() - old(replies.Repr())) && replies.kind == kind && replies.popped == 0
      ensures user.dir == old(user.dir) || fresh(user.dir)
    {
      hide Decode, Closing, Pack, Text, ScanFiles, ChangeFiles, Render, EncodeMsg, ValidPath, PathOf, HasError;
      halted := false;
      if !user.auth && kind == AUTH {
        HandleAuth(view, replies, user);
      } else if user.auth && !user.synced && kind == SYNC {
        halted := HandleSync(replies, user, f);
      } else if user.auth && user.synced && kind == CREATE {
        halted := HandleCreate(view, replies, user, f);
      } else if user.auth && user.synced && kind == UPDATE {
        halted := HandleUpdate(view, replies, user, f);
      } else if user.auth && user.synced && kind == ERASE {
        halted := HandleErase(view, replies, user, f);
      } else {
        var status := if user.auth && user.synced && kind == KEEP_ALIVE then Ok else Err(ERR_MSG_TYPE_REJECTED);
        RenderNone(status);
        CloseResponse(replies, status);
      }
    }

    /** Every request of a connection. */
    method HandleRequest(request: Message, replies: MessageQueue, user: User, f: Faults) returns (halted: bool)
      requires request.WellFormed() && GoodMsg(request.Contents())
      requires user.Valid() && streams.Valid()
      requires forall p <- f.listing :: |Text(p)| <= PATH_MAX
      modifies replies, fs, streams, user, user.dir
      ensures var o := Sessions.HandleRequest(
                env, old(fs.disk), old(streams.streams), old(user.Abstract()), old(request.Contents()), f);
        halted == o.Crashed? && (!halted ==> Reached(o, replies, user))
      ensures fresh(replies.Repr() - {replies}) && replies.kind == old(request.Contents()).kind && replies.popped == 0
      ensures user.dir == old(user.dir) || fresh(user.dir)
    {
      hide Decode, Closing, Pack, Text, ChangeFiles, Synchronize, Authenticate, Render, ValidPath, PathOf, HasError;
      var kind := request.Kind();
      replies.Reset(kind);
      var view := new TlvView(request);
      var more := view.NextTlv();
      if more {
        halted := Dispatch(kind, view, replies, user, f);
      } else {
        RenderNone(Err(ERR_NO_CONTENT));
        CloseResponse(replies, Err(ERR_NO_CONTENT));
        halted := false;
      }
    }
  }

  predicate SmallStatus(s: Status) { s.Err? ==> s.code < 1000 }

  lemma RenderNone(status: Status)
    ensures Render(Reply([], status)) == [Closing(status), Tlv(END, [])]
  {
  }

  lemma RenderOne(sign: bytes, status: Status)
    ensures Render(Reply([sign], status)) == [] + [Tlv(ITEM, sign)] + [Closing(status), Tlv(END, [])]
  {
    assert Items([sign]) == [Tlv(ITEM, sign)];
  }

  lemma EraseAlwaysSteps(st: Local, p: Path, digest: bytes, f: Faults)
    requires p != []
    ensures EraseFile(st, p, digest, f).Next?
  {
  }

  /** The four ways through a request for files. */
  lemma ChangeCases(env: Env, disk: Disk, streams: Streams, s: Session, m: Msg, f: Faults)
    requires m.tlvs != [] && ChangesFiles(m.kind) && GoodMsg(m)
    ensures var o := ChangeFiles(env, disk, streams, s, m, f);
      if m.tlvs[0].tag != ITEM then o == Answer(disk, streams, s, Err(NoItem(m.kind)))
      else match SplitSign(m.tlvs[0].value)
        case None => o == Crashed
        case Some((text, digest)) =>
          if m.kind == ERASE then
            Parse(text) != [] &&
            o == Finish(streams, s, m.tlvs[0].value, EraseFile(LocalOf(disk, streams, s), Parse(text), digest, f))
          else if |m.tlvs| < 2 || m.tlvs[1].tag != CONTENT then
            o == Replied(disk, streams, s, Reply([m.tlvs[0].value], Err(NoContent(m.kind))))
          else
            var content, last := m.tlvs[1].value, LooksLikeEnd(Last(m.tlvs));
            Parse(text) != [] &&
            o == Finish(streams, s, m.tlvs[0].value,
                        if m.kind == CREATE then
                          CreateChunk(env.hash, LocalOf(disk, streams, s), Parse(text), digest, content, last, f)
                        else
                          UpdateChunk(env.hash, LocalOf(disk, streams, s), Parse(text), digest, content, last, f))
  {
    hide CreateChunk, UpdateChunk, EraseFile, Parse, SplitSign, LooksLikeEnd;
  }

  lemma SignLength(p: Path, digest: Digest, listing: seq<Path>)
    requires p in listing && forall q <- listing :: |Text(q)| <= PATH_MAX
    ensures |CreateSign(Text(p), digest)| < INT_LIMIT
  {
  }
}

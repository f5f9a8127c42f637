/** From the bytes a client writes to the bytes it reads, over one connection. */
module EndToEnd {
  import opened Bytes
  import opened Tlvs
  import opened Packing
  import opened Paths
  import opened Transfer
  import opened Chunks
  import opened Stores
  import opened AtomicStore
  import opened Sessions
  import opened Servers
  import opened Framing
  import opened Replies
  import opened ClientProtocol
  import Machine = ConnectionMachine

  // What the client writes.

  /** The messages that ask for the requests, as bytes. */
  function Asked(cs: seq<Call>): (ms: seq<bytes>)
    ensures |ms| == |cs|
  {
    seq(|cs|, i requires 0 <= i < |cs| => EncodeMsg(MessageOf(cs[i].request)))
  }

  /** The request fits in one message. */
  predicate FitsMessage(r: Transfer.Request) {
    GroupSize(MessageOf(r).tlvs) <= CHUNK_SIZE
  }

  // What the server does.

  /** A message as the handler sees it. */
  function MsgOf(raw: bytes): Option<Msg> {
    if raw == [] then None
    else match Decode(raw[1..])
      case None => None
      case Some(ts) => Some(Msg(raw[0], ts))
  }

  function Faulted(cs: seq<Call>): (fs: seq<Faults>)
    ensures |fs| == |cs|
  {
    seq(|cs|, i requires 0 <= i < |cs| => cs[i].faults)
  }

  /** The connection has been handed, for the messages it has read, the packed replies of the server. */
  ghost predicate AnswersAsServer(
    env: Env, s: Server, c: nat, faults: seq<Faults>, requests: seq<bytes>, answered: seq<seq<bytes>>)
  {
    && |faults| == |requests| == |answered|
    && (forall raw <- requests :: MsgOf(raw).Some?)
    && var es := EventsOf(c, faults, requests);
      && (forall e <- es :: GoodEvent(e))
      && var p := RunServer(env, s, es);
         && p.Running? && |p.log| == |requests|
         && (forall i :: 0 <= i < |requests| ==>
               answered[i] == Encoded(MsgOf(requests[i]).value.kind, Pack(Render(p.log[i].1))))
  }

  /** The messages as events of the server. */
  function EventsOf(c: nat, faults: seq<Faults>, requests: seq<bytes>): seq<Event>
    requires |faults| == |requests| && forall raw <- requests :: MsgOf(raw).Some?
  {
    seq(|requests|, i requires 0 <= i < |requests| => Incoming(c, MsgOf(requests[i]).value, faults[i]))
  }

  // What the client reads.

  /** The messages received so far as complete replies, and what there is of the next. */
  function Gathered(ms: seq<bytes>): (seq<seq<bytes>>, seq<bytes>) {
    if ms == [] then ([], [])
    else
      var (complete, open) := Gathered(Front(ms));
      if EndsWithMark(Last(ms)) then (complete + [open + [Last(ms)]], []) else (complete, open + [Last(ms)])
  }

  function Digits(d: bytes): nat {
    if d == [] then 0 else 10 * Digits(Front(d)) + (if Last(d) >= 48 then Last(d) - 48 else 0)
  }

  /** The status at the end of a reply's TLVs. */
  function StatusOf(ms: seq<bytes>): Option<Status> {
    match Collect(ms)
    case None => None
    case Some(ts) =>
      if |ts| < 2 then None
      else
        var t := ts[|ts| - 2];
        if t.tag == OK then Some(Ok) else if t.tag == ERROR then Some(Err(Digits(t.value))) else None
  }

  function StatusesOf(replies: seq<seq<bytes>>): Option<seq<Status>> {
    if replies == [] then Some([])
    else match (StatusesOf(Front(replies)), StatusOf(Last(replies)))
      case (Some(before), Some(s)) => Some(before + [s])
      case _ => None
  }

  /** The statuses of all replies in a stream of bytes. */
  function ReadStatuses(wire: bytes): Option<seq<Status>> {
    match Unframe(wire)
    case None => None
    case Some(ms) => StatusesOf(Gathered(ms).0)
  }

  // Reading back.

  lemma {:induction false} DigitsOfDecimal(n: nat)
    ensures Digits(Decimal(n)) == n
  {
    if n >= 10 {
      DigitsOfDecimal(n / 10);
      assert Front(Decimal(n)) == Decimal(n / 10) && Last(Decimal(n)) == 48 + n % 10;
    } else {
      assert Front(Decimal(n)) == [] && Last(Decimal(n)) == 48 + n;
    }
  }

  lemma StatusReadBack(kind: byte, r: Reply)
    requires AllPackable(Render(r))
    ensures StatusOf(Encoded(kind, Pack(Render(r)))) == Some(r.status)
  {
    hide Pack, Collect, Packable;
    ReplyReadBack(kind, r);
    var ts, n := Render(r), |r.items|;
    assert ts[n] == Closing(r.status) && |ts| == n + 2;
    if r.status.Err? && r.status.code != ERR_NONE {
      DigitsOfDecimal(r.status.code);
    }
  }

  /** Only the last message of the reply is marked. */
  ghost predicate WellMarked(ms: seq<bytes>) {
    ms != [] && forall i :: 0 <= i < |ms| ==> (EndsWithMark(ms[i]) <==> i == |ms| - 1)
  }

  lemma {:induction false} OneReply(ms: seq<bytes>, reply: seq<bytes>, n: nat)
    requires WellMarked(reply) && n <= |reply| && Gathered(ms).1 == []
    ensures Gathered(ms + reply[..n])
         == if n == |reply| then (Gathered(ms).0 + [reply], []) else (Gathered(ms).0, reply[..n])
  {
    if n == 0 {
      assert ms + reply[..0] == ms;
    } else {
      OneReply(ms, reply, n - 1);
      assert Front(ms + reply[..n]) == ms + reply[..n - 1] && Last(ms + reply[..n]) == reply[n - 1];
      assert reply[..n - 1] + [reply[n - 1]] == reply[..n];
      assert n == |reply| ==> reply[..n] == reply;
    }
  }

  lemma {:induction false} AllReplies(replies: seq<seq<bytes>>)
    requires forall r <- replies :: WellMarked(r)
    ensures Gathered(Flatten(replies)) == (replies, [])
  {
    hide WellMarked, EndsWithMark;
    if replies != [] {
      var r := Last(replies);
      assert r in replies;
      AllReplies(Front(replies));
      OneReply(Flatten(Front(replies)), r, |r|);
      assert r[..|r|] == r && replies == Front(replies) + [r];
    }
  }

  lemma {:induction false} AllStatuses(replies: seq<seq<bytes>>, statuses: seq<Status>)
    requires |replies| == |statuses|
    requires forall i :: 0 <= i < |replies| ==> StatusOf(replies[i]) == Some(statuses[i])
    ensures StatusesOf(replies) == Some(statuses)
  {
    hide StatusOf;
    if replies != [] {
      AllStatuses(Front(replies), Front(statuses));
      assert statuses == Front(statuses) + [Last(statuses)];
    }
  }

  // The replies to well-formed requests.

  /** A sign ends in a digest without NUL behind a single NUL, so it never ends like END. */
  lemma SignIsNoMark(r: Transfer.Request)
    requires Expressible(r)
    ensures !EndsWithMark(CreateSign(Text(r.path), r.digest))
  {
    hide Text;
    var text, sign := Text(r.path), CreateSign(Text(r.path), r.digest);
    LastOfText(r.path);
    if |r.digest| > 0 {
      assert Last(sign) == Last(r.digest) && Last(r.digest) in r.digest;
    } else {
      assert sign[|sign| - 2] == Last(text);
    }
  }

  lemma LastOfText(p: Path)
    requires ValidPath(p)
    ensures Text(p) != [] && Last(Text(p)) != NUL
  {
    var name := Last(p);
    assert name in p && name != [] && Last(name) in name;
    assert Last(Text(p)) == Last(name);
  }

  lemma EchoReadBack(r: Transfer.Request, status: Status, kind: byte)
    requires Expressible(r) && FitsMessage(r) && SmallCode(status)
    ensures var ms := Encoded(kind, Pack(Render(EchoOf(r, status))));
      && StatusOf(ms) == Some(status) && WellMarked(ms) && (forall m <- ms :: |m| <= CHUNK_SIZE)
  {
    hide Pack, Render, StatusOf, Collect, Text, CreateSign, EndsWithMark, Packable, GroupSize;
    var echo := EchoOf(r, status);
    SignFits(r);
    SignIsNoMark(r);
    ItemsPackable(echo);
    StatusReadBack(kind, echo);
    ReplyReadBack(kind, echo);
    MarkEndsReply(kind, echo);
    SomeMessage(kind, echo);
  }

  lemma SignFits(r: Transfer.Request)
    requires FitsMessage(r)
    ensures |CreateSign(Text(r.path), r.digest)| <= CHUNK_SIZE - 6
  {
    PartSize(MessageOf(r).tlvs, 0);
  }

  lemma SomeMessage(kind: byte, r: Reply)
    requires AllPackable(Render(r))
    ensures Encoded(kind, Pack(Render(r))) != []
  {
    PackKeepsOrder(Render(r));
    RenderShape(r);
  }

  lemma RequestBack(r: Transfer.Request)
    requires Expressible(r)
    ensures MsgOf(EncodeMsg(MessageOf(r))) == Some(MessageOf(r))
  {
    hide Decode, EncodeAll, Text, CreateSign;
    var m := MessageOf(r);
    DecodeEncode(m.tlvs);
    assert EncodeMsg(m)[1..] == EncodeAll(m.tlvs);
  }

  lemma {:induction false} RunCodes(hash: Hasher, st: Local, cs: seq<Call>)
    requires forall x <- cs :: GoodCall(x)
    ensures RunAll(hash, st, cs).Finished? ==> forall s <- RunAll(hash, st, cs).statuses :: SmallCode(s)
  {
    hide Serve;
    if cs != [] {
      assert GoodCall(Last(cs)) by { assert Last(cs) in cs; }
      RunCodes(hash, st, Front(cs));
      var run := RunAll(hash, st, Front(cs));
      if run.Finished? {
        ServeCodes(hash, run.st, Last(cs).request, Last(cs).faults);
      }
    }
  }

  /** A client's requests, as bytes, and back. */
  lemma AskedBack(cs: seq<Call>)
    requires forall x <- cs :: Understood(x) && FitsMessage(x.request)
    ensures Sendable(Asked(cs)) && forall i :: 0 <= i < |cs| ==> MsgOf(Asked(cs)[i]) == Some(MessageOf(cs[i].request))
  {
    hide EncodeMsg, GroupSize;
    forall i | 0 <= i < |cs|
      ensures MsgOf(Asked(cs)[i]) == Some(MessageOf(cs[i].request)) && |Asked(cs)[i]| < WORD64
    {
      assert cs[i] in cs && Understood(cs[i]);
      RequestBack(cs[i].request);
      EncodedSize(MessageOf(cs[i].request));
    }
  }

  /** What the client makes of the bytes of the replies. */
  lemma RepliesBack(cs: seq<Call>, statuses: seq<Status>, answered: seq<seq<bytes>>)
    requires |answered| == |cs| == |statuses|
    requires forall x <- cs :: Understood(x) && FitsMessage(x.request)
    requires forall s <- statuses :: SmallCode(s)
    requires forall i :: 0 <= i < |cs| ==>
               answered[i] == Encoded(MessageOf(cs[i].request).kind, Pack(Render(EchoOf(cs[i].request, statuses[i]))))
    ensures ReadStatuses(FrameAll(Flatten(answered))) == Some(statuses) && Sendable(Flatten(answered))
  {
    hide Encoded, Pack, Render, StatusOf, WellMarked, MessageOf, EchoOf, FitsMessage, Understood;
    forall i | 0 <= i < |cs|
      ensures StatusOf(answered[i]) == Some(statuses[i]) && WellMarked(answered[i])
      ensures forall m <- answered[i] :: |m| <= CHUNK_SIZE
    {
      assert cs[i] in cs && statuses[i] in statuses;
      IsExpressible(cs[i]);
      EchoReadBack(cs[i].request, statuses[i], MessageOf(cs[i].request).kind);
    }
    AllReplies(answered);
    AllStatuses(answered, statuses);
    AllSendable(answered);
    UnframeFrame(Flatten(answered));
  }

  lemma IsExpressible(x: Call)
    requires Understood(x)
    ensures Expressible(x.request)
  {
  }

  lemma {:induction false} AllSendable(replies: seq<seq<bytes>>)
    requires forall ms <- replies, m <- ms :: |m| <= CHUNK_SIZE
    ensures Sendable(Flatten(replies))
  {
    if replies != [] {
      assert Last(replies) in replies;
      assert forall ms <- Front(replies) :: ms in replies;
      AllSendable(Front(replies));
    }
  }

  lemma WhatWasRead(queue: seq<bytes>, es: seq<Machine.Event>)
    requires Machine.GoodRun(Machine.Accepted(queue), es)
    requires var c := Machine.Loop(Machine.Accepted(queue), es); c.Some? && c.value.phase.ReadHeader?
    ensures var c := Machine.Loop(Machine.Accepted(queue), es).value;
      Unframe(c.received) == Some(c.requests) && c.sent == FrameAll(Flatten(c.answered))
  {
    hide Machine.Loop, Machine.GoodRun, Machine.WriteInv, FrameAll, Unframe;
    Machine.LoopSendsReplies(queue, es);
    UnframeFrame(Machine.Loop(Machine.Accepted(queue), es).value.requests);
  }

  lemma SameEvents(c: nat, cs: seq<Call>)
    requires forall i :: 0 <= i < |cs| ==> MsgOf(Asked(cs)[i]) == Some(MessageOf(cs[i].request))
    ensures forall raw <- Asked(cs) :: MsgOf(raw).Some?
    ensures EventsOf(c, Faulted(cs), Asked(cs)) == Sent(c, cs)
  {
    hide MsgOf, EncodeMsg, MessageOf;
    forall raw | raw in Asked(cs) ensures MsgOf(raw).Some? {
      var i :| 0 <= i < |cs| && Asked(cs)[i] == raw;
    }
  }

  lemma StatusesSmall(hash: Hasher, st: Local, a: Store, ops: seq<Op>)
    requires Represents(hash, st, a)
    requires (forall op <- ops :: GoodOp(op)) && AtomicRun(hash, a, ops).Some?
    ensures var at := AtomicRun(hash, a, ops).value;
      !at.Dead? ==> forall s <- at.statuses :: SmallCode(s)
  {
    hide Represents, RunAll, AtomicRun, Refines;
    RefinesAtomicStore(hash, st, a, ops);
    RunEndsAs(hash, RunAll(hash, st, AllMessages(ops)), AtomicRun(hash, a, ops).value);
    RunCodes(hash, st, AllMessages(ops));
  }

  /** A client writes whole transfers and erasures as bytes to a connection and reads the bytes that come
      back. Whenever the connection waits for the next request after all of them, and whatever the
      operating system did, the client can read exactly the statuses of the atomic store from these
      bytes, and the server's state is where the atomic store is. */
  lemma AtomicStoreOnBytes(
    env: Env, s: Server, c: nat, a: Store, ops: seq<Op>, queue: seq<bytes>, es: seq<Machine.Event>)
    requires Ordinary(s) && c in s.live && s.live[c].auth && s.live[c].synced
    requires Represents(env.hash, UserState(s, c), a)
    requires forall op <- ops :: GoodOp(op)
    requires (forall x <- AllMessages(ops) :: Understood(x) && FitsMessage(x.request))
    requires AtomicRun(env.hash, a, ops).Some?
    requires Machine.GoodRun(Machine.Accepted(queue), es) && Machine.Loop(Machine.Accepted(queue), es).Some?
    requires var conn, cs := Machine.Loop(Machine.Accepted(queue), es).value, AllMessages(ops);
      && conn.phase.ReadHeader? && conn.received == FrameAll(Asked(cs))
      && AnswersAsServer(env, s, c, Faulted(cs), conn.requests, conn.answered)
    ensures var conn, at := Machine.Loop(Machine.Accepted(queue), es).value, AtomicRun(env.hash, a, ops).value;
      !at.Dead? && ReadStatuses(conn.sent) == Some(at.statuses)
    ensures forall e <- Sent(c, AllMessages(ops)) :: GoodEvent(e)
    ensures var p, at := RunServer(env, s, Sent(c, AllMessages(ops))), AtomicRun(env.hash, a, ops).value;
      p.Running? && c in p.server.live && EndsAs(env.hash, UserState(p.server, c), at)
  {
    hide Represents, RunAll, RunServer, AtomicRun, Ordinary, Understood, EndsAs, Machine.Loop, Machine.GoodRun,
         Machine.Inv, FitsMessage, FrameAll, Unframe, Encoded, Pack, Render, EncodeMsg, ReadStatuses;
    var cs, conn := AllMessages(ops), Machine.Loop(Machine.Accepted(queue), es).value;
    AskedBack(cs);
    UnframeFrame(Asked(cs));
    WhatWasRead(queue, es);
    assert conn.requests == Asked(cs);
    AtomicStoreOverTheWire(env, s, c, a, ops);
    SameEvents(c, cs);
    StatusesSmall(env.hash, UserState(s, c), a, ops);
    AnsweredEchoes(env, s, c, cs, conn.answered, AtomicRun(env.hash, a, ops).value.statuses);
    RepliesBack(cs, AtomicRun(env.hash, a, ops).value.statuses, conn.answered);
  }

  lemma AnsweredEchoes(env: Env, s: Server, c: nat, cs: seq<Call>, answered: seq<seq<bytes>>, statuses: seq<Status>)
    requires forall i :: 0 <= i < |cs| ==> MsgOf(Asked(cs)[i]) == Some(MessageOf(cs[i].request))
    requires AnswersAsServer(env, s, c, Faulted(cs), Asked(cs), answered)
    requires forall e <- Sent(c, cs) :: GoodEvent(e)
    requires |statuses| == |cs| && RunServer(env, s, Sent(c, cs)).Running?
    requires RunServer(env, s, Sent(c, cs)).log == Echoes(c, cs, statuses)
    ensures |answered| == |cs|
    ensures forall i :: 0 <= i < |cs| ==>
              answered[i] == Encoded(MessageOf(cs[i].request).kind, Pack(Render(EchoOf(cs[i].request, statuses[i]))))
  {
    hide RunServer, Encoded, Pack, Render, EncodeMsg, MsgOf, MessageOf, EchoOf, GoodEvent;
    SameEvents(c, cs);
  }

  /** And such a run exists: unless an operation ends the process, the connection can take in all the
      requests and give all the replies, and the client then reads the statuses from what came back. */
  lemma BytesAreServed(env: Env, s: Server, c: nat, a: Store, ops: seq<Op>, queue: seq<bytes>)
    requires Ordinary(s) && c in s.live && s.live[c].auth && s.live[c].synced
    requires Represents(env.hash, UserState(s, c), a)
    requires forall op <- ops :: GoodOp(op)
    requires (forall x <- AllMessages(ops) :: Understood(x) && FitsMessage(x.request))
    requires AtomicRun(env.hash, a, ops).Some? && !AtomicRun(env.hash, a, ops).value.Dead?
    ensures forall e <- Sent(c, AllMessages(ops)) :: GoodEvent(e)
    ensures var cs, at := AllMessages(ops), AtomicRun(env.hash, a, ops).value;
      && |at.statuses| == |cs|
      && var es := Machine.Exchanges(Asked(cs), Answered(cs, at.statuses));
         && Machine.GoodRun(Machine.Accepted(queue), es) && Machine.Loop(Machine.Accepted(queue), es).Some?
         && var conn := Machine.Loop(Machine.Accepted(queue), es).value;
            && conn.phase.ReadHeader? && conn.received == FrameAll(Asked(cs))
            && AnswersAsServer(env, s, c, Faulted(cs), conn.requests, conn.answered)
            && ReadStatuses(conn.sent) == Some(at.statuses)
  {
    hide Represents, RunAll, RunServer, AtomicRun, Ordinary, Understood, EndsAs, Machine.Loop, Machine.GoodRun,
         FitsMessage, FrameAll, Unframe, Encoded, Pack, Render, EncodeMsg, ReadStatuses, AnswersAsServer;
    var cs, at := AllMessages(ops), AtomicRun(env.hash, a, ops).value;
    AskedBack(cs);
    AtomicStoreOverTheWire(env, s, c, a, ops);
    StatusesSmall(env.hash, UserState(s, c), a, ops);
    AnsweredInFull(cs, at.statuses);
    Machine.AllAnswered(queue, Asked(cs), Answered(cs, at.statuses));
    EchoesAnswer(env, s, c, cs, at.statuses);
    RepliesBack(cs, at.statuses, Answered(cs, at.statuses));
  }

  /** The replies with these statuses, as messages. */
  function Answered(cs: seq<Call>, statuses: seq<Status>): (answers: seq<seq<bytes>>)
    requires |cs| == |statuses|
    ensures |answers| == |cs|
  {
    seq(|cs|, i requires 0 <= i < |cs| =>
      Encoded(MessageOf(cs[i].request).kind, Pack(Render(EchoOf(cs[i].request, statuses[i])))))
  }

  lemma AnsweredInFull(cs: seq<Call>, statuses: seq<Status>)
    requires |cs| == |statuses|
    requires forall x <- cs :: Understood(x) && FitsMessage(x.request)
    requires forall s <- statuses :: SmallCode(s)
    ensures forall a <- Answered(cs, statuses) :: a != []
  {
    hide Encoded, Pack, Render, MessageOf, EchoOf, FitsMessage, Understood;
    forall i | 0 <= i < |cs| ensures Answered(cs, statuses)[i] != [] {
      assert cs[i] in cs && statuses[i] in statuses;
      IsExpressible(cs[i]);
      EchoReadBack(cs[i].request, statuses[i], MessageOf(cs[i].request).kind);
    }
  }

  lemma EchoesAnswer(env: Env, s: Server, c: nat, cs: seq<Call>, statuses: seq<Status>)
    requires forall i :: 0 <= i < |cs| ==> MsgOf(Asked(cs)[i]) == Some(MessageOf(cs[i].request))
    requires forall e <- Sent(c, cs) :: GoodEvent(e)
    requires |statuses| == |cs| && RunServer(env, s, Sent(c, cs)).Running?
    requires RunServer(env, s, Sent(c, cs)).log == Echoes(c, cs, statuses)
    ensures AnswersAsServer(env, s, c, Faulted(cs), Asked(cs), Answered(cs, statuses))
  {
    hide RunServer, Encoded, Pack, Render, EncodeMsg, MsgOf, MessageOf, EchoOf, GoodEvent;
    SameEvents(c, cs);
  }
}

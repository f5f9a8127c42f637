/** The loop of one connection as a state machine over the completions it sees
    (core/connection.cpp:31-202). */
module ConnectionMachine {
  import opened Bytes
  import opened Framing

  /** The operation that is pending on the socket, if any; `last` tells which callback was bound. */
  datatype Phase = Idle | Handshake | ReadHeader | ReadBody | WriteHeader | WriteBody(last: bool)

  /** `queue` holds the messages of the reply that are left, `current` the one being written, `sent`
      the bytes written so far, `received` the bytes read so far, `requests` the messages handled so far
      and `answered` their replies. */
  datatype Conn = Conn(
    phase: Phase,
    header: nat,
    queue: seq<bytes>,
    current: bytes,
    timedOut: bool,
    sent: bytes,
    received: bytes,
    requests: seq<bytes>,
    answered: seq<seq<bytes>>)

  /** The pending operation completes, or the timer fires. `input` is what was read, and `answer` the
      reply's messages, should the completion be one on which a request is handled. */
  datatype Event = Done(error: bool, input: bytes, answer: seq<bytes>) | Timer

  /** A connection that has been accepted; its queue is not empty, but nobody looks at it before the
      first request is handled. */
  function Accepted(queue: seq<bytes>): Conn {
    Conn(Handshake, 0, queue, [], false, [], [], [], [])
  }

  // One function per member function of the class. None stands for undefined behaviour: front() or
  // pop() on an empty queue.

  function Stop(c: Conn): Conn {
    c.(phase := Idle)
  }

  function ReadRequest(c: Conn, error: bool): Conn {
    if c.timedOut || error then Stop(c) else c.(phase := ReadHeader)
  }

  function HeaderRead(c: Conn, error: bool, input: bytes): Conn {
    var c1 := if error then c else c.(received := c.received + input);
    if c.timedOut || error then Stop(c1) else c1.(phase := ReadBody, header := FromLittleEndian(input))
  }

  function WriteResponse(c: Conn, error: bool): Option<Conn> {
    if c.timedOut || error then Some(Stop(c))
    else if c.queue == [] then None
    else Some(c.(phase := WriteHeader, header := |c.queue[0]|))
  }

  function HandleRequest(c: Conn, error: bool, input: bytes, answer: seq<bytes>): Option<Conn> {
    var c1 := if error then c else c.(received := c.received + input);
    if c.timedOut || error then Some(Stop(c1))
    else
      WriteResponse(
        c1.(queue := answer, requests := c.requests + [input], answered := c.answered + [answer]), false)
  }

  function HeaderWritten(c: Conn, error: bool): Option<Conn> {
    var c1 := if error then c else c.(sent := c.sent + LittleEndian(c.header, HEADER));
    if c.timedOut || error then Some(Stop(c1))
    else if c.queue == [] then None
    else Some(c1.(phase := WriteBody(c.queue[1..] == []), current := c.queue[0], queue := c.queue[1..]))
  }

  function HandleCompletion(c: Conn, error: bool): Conn {
    if c.timedOut || error then Stop(c) else ReadRequest(c, error)
  }

  function BodyWritten(c: Conn, error: bool): Option<Conn>
    requires c.phase.WriteBody?
  {
    var c1 := c.(sent := if error then c.sent else c.sent + c.current, current := []);
    if c.phase.last then Some(HandleCompletion(c1, error)) else WriteResponse(c1, error)
  }

  function Next(c: Conn, e: Event): Option<Conn> {
    match e
    case Timer => Some(c.(timedOut := true))
    case Done(error, input, answer) =>
      match c.phase
      case Idle => Some(c)
      case Handshake => Some(ReadRequest(c, error))
      case ReadHeader => Some(HeaderRead(c, error, input))
      case ReadBody => HandleRequest(c, error, input, answer)
      case WriteHeader => HeaderWritten(c, error)
      case WriteBody(_) => BodyWritten(c, error)
  }

  function Loop(c: Conn, es: seq<Event>): Option<Conn> {
    if es == [] then Some(c)
    else match Loop(c, Front(es)) case None => None case Some(before) => Next(before, Last(es))
  }

  /** A handled request always has a reply; and a read ends with as many bytes as were asked for. */
  predicate GoodEvent(c: Conn, e: Event) {
    e.Done? && !e.error ==>
      && e.answer != []
      && (c.phase.ReadHeader? ==> |e.input| == HEADER)
      && (c.phase.ReadBody? ==> |e.input| == c.header)
  }

  predicate GoodRun(c: Conn, es: seq<Event>) {
    es != [] ==>
      && GoodRun(c, Front(es))
      && (Loop(c, Front(es)).Some? ==> GoodEvent(Loop(c, Front(es)).value, Last(es)))
  }

  /** All the bytes the replies so far make. */
  function Framed(c: Conn): bytes {
    FrameAll(Flatten(c.answered))
  }

  /** What is still to be written of the current reply. */
  function Remaining(c: Conn): bytes {
    match c.phase
    case WriteHeader => FrameAll(c.queue)
    case WriteBody(_) => c.current + FrameAll(c.queue)
    case _ => []
  }

  /** What was read are the framed requests and, before a body, its header. */
  ghost predicate ReadInv(c: Conn) {
    && |c.requests| == |c.answered| && Sendable(c.requests)
    && FrameAll(c.requests) <= c.received
    && (c.phase.ReadBody? ==>
          c.received == FrameAll(c.requests) + LittleEndian(c.header, HEADER) && c.header < WORD64)
    && (!c.phase.ReadBody? && !c.phase.Idle? ==> c.received == FrameAll(c.requests))
  }

  /** Between completions: what was sent and what remains are the framed replies; the queue is not
      empty when its head is about to be taken; the callback bound fits the queue. */
  ghost predicate WriteInv(c: Conn) {
    && (c.phase.Idle? ==> c.sent <= Framed(c))
    && (!c.phase.Idle? ==> Framed(c) == c.sent + Remaining(c))
    && (c.phase.WriteHeader? ==> c.queue != [] && c.header == |c.queue[0]|)
    && (c.phase.WriteBody? ==> (c.phase.last <==> c.queue == []))
  }

  ghost predicate Inv(c: Conn) {
    ReadInv(c) && WriteInv(c)
  }

  lemma HeadFrame(c: Conn)
    requires c.queue != []
    ensures FrameAll(c.queue) == LittleEndian(|c.queue[0]|, HEADER) + (c.queue[0] + FrameAll(c.queue[1..]))
  {
    assert c.queue == [c.queue[0]] + c.queue[1..];
    FrameAllCons(c.queue[0], c.queue[1..]);
  }

  lemma AnswerFrame(c: Conn, answer: seq<bytes>)
    ensures FrameAll(Flatten(c.answered + [answer])) == Framed(c) + FrameAll(answer)
  {
    assert Front(c.answered + [answer]) == c.answered;
    FrameAllConcat(Flatten(c.answered), answer);
  }

  /** A body completes the frame its header began. */
  lemma RequestFrame(requests: seq<bytes>, input: bytes)
    ensures FrameAll(requests + [input]) == FrameAll(requests) + LittleEndian(|input|, HEADER) + input
  {
    assert Front(requests + [input]) == requests;
    assert FrameAll(requests) + (LittleEndian(|input|, HEADER) + input)
        == FrameAll(requests) + LittleEndian(|input|, HEADER) + input;
  }

  lemma HeaderBytes(input: bytes)
    requires |input| == HEADER
    ensures LittleEndian(FromLittleEndian(input), HEADER) == input && FromLittleEndian(input) < WORD64
  {
    BytesRoundTrip(input);
    HeaderRange();
  }

  lemma NextKeepsReadInv(c: Conn, e: Event)
    requires ReadInv(c) && GoodEvent(c, e) && Next(c, e).Some?
    ensures ReadInv(Next(c, e).value)
  {
    hide LittleEndian, FromLittleEndian, FrameAll;
    if e.Done? && !e.error {
      match c.phase
      case ReadHeader => HeaderBytes(e.input);
      case ReadBody => RequestFrame(c.requests, e.input);
      case _ =>
    }
  }

  lemma NextKeepsWriteInv(c: Conn, e: Event)
    requires WriteInv(c) && GoodEvent(c, e)
    ensures Next(c, e).Some? && WriteInv(Next(c, e).value)
  {
    hide LittleEndian, FromLittleEndian, FrameAll, Flatten;
    if e.Done? {
      match c.phase
      case ReadBody => AnswerFrame(c, e.answer);
      case WriteHeader => HeadFrame(c);
      case WriteBody(_) => NoFrames();
      case _ =>
    }
  }

  lemma NextKeepsInv(c: Conn, e: Event)
    requires Inv(c) && GoodEvent(c, e)
    ensures Next(c, e).Some? && Inv(Next(c, e).value)
  {
    hide Next, ReadInv, WriteInv;
    NextKeepsWriteInv(c, e);
    NextKeepsReadInv(c, e);
  }

  /** Over every sequence of completions, errors and timeouts: no head is ever taken from an empty
      queue; what was sent is a prefix of the framed replies, in order and once each; and whenever the
      connection waits for a request, it is all of them, what was read are the framed requests, and
      each has its reply. */
  lemma {:induction false} LoopSendsReplies(queue: seq<bytes>, es: seq<Event>)
    requires GoodRun(Accepted(queue), es)
    ensures var r := Loop(Accepted(queue), es);
      && r.Some? && Inv(r.value)
      && r.value.sent <= FrameAll(Flatten(r.value.answered))
      && |r.value.requests| == |r.value.answered|
      && (r.value.phase.ReadHeader? ==>
            && r.value.sent == FrameAll(Flatten(r.value.answered))
            && r.value.received == FrameAll(r.value.requests))
      && (r.value.phase.ReadBody? ==> r.value.sent == FrameAll(Flatten(r.value.answered)))
  {
    if es == [] {
      NoFrames();
      assert Flatten<bytes>([]) == [];
    } else {
      LoopSendsReplies(queue, Front(es));
      NextKeepsInv(Loop(Accepted(queue), Front(es)).value, Last(es));
    }
  }

  /** A peer that unframes what a connection in its reading phase has sent has every message of
      every reply; and the connection has read exactly the requests its peer has framed. */
  lemma PeerUnframes(queue: seq<bytes>, es: seq<Event>)
    requires GoodRun(Accepted(queue), es)
    requires var c := Loop(Accepted(queue), es);
      c.Some? && (c.value.phase.ReadHeader? || c.value.phase.ReadBody?) && Sendable(Flatten(c.value.answered))
    ensures var c := Loop(Accepted(queue), es).value;
      && Unframe(c.sent) == Some(Flatten(c.answered))
      && (c.phase.ReadHeader? ==> Unframe(c.received) == Some(c.requests))
  {
    LoopSendsReplies(queue, es);
    UnframeFrame(Flatten(Loop(Accepted(queue), es).value.answered));
    UnframeFrame(Loop(Accepted(queue), es).value.requests);
  }

  /** The length of the write that is pending. */
  function UnderWay(c: Conn): nat {
    if c.phase.WriteHeader? then HEADER else if c.phase.WriteBody? then |c.current| else 0
  }

  /** The timeout flag absorbs: once it is set, no request is handled any more and at most the one
      write that was under way completes. */
  lemma {:induction false} TimeoutAbsorbs(c: Conn, es: seq<Event>)
    requires c.timedOut && Inv(c)
    requires GoodRun(c, es)
    ensures var r := Loop(c, es);
      && r.Some? && Inv(r.value)
      && r.value.timedOut && r.value.answered == c.answered && r.value.requests == c.requests
      && (r.value.phase == Idle || r.value == c)
      && |r.value.sent| <= |c.sent| + UnderWay(c)
  {
    if es != [] {
      TimeoutAbsorbs(c, Front(es));
      NextKeepsInv(Loop(c, Front(es)).value, Last(es));
    }
  }

  // Runs in pieces.

  lemma {:induction false} LoopConcat(c: Conn, a: seq<Event>, b: seq<Event>)
    ensures Loop(c, a + b) == match Loop(c, a) case None => None case Some(mid) => Loop(mid, b)
    ensures GoodRun(c, a + b) <==> GoodRun(c, a) && (Loop(c, a).Some? ==> GoodRun(Loop(c, a).value, b))
  {
    hide Next, GoodEvent;
    if b == [] {
      assert a + b == a;
    } else {
      assert Front(a + b) == a + Front(b) && Last(a + b) == Last(b);
      LoopConcat(c, a, Front(b));
    }
  }

  lemma OneStep(c: Conn, e: Event)
    ensures Loop(c, [e]) == Next(c, e) && (GoodRun(c, [e]) <==> GoodEvent(c, e))
  {
    hide Next, GoodEvent;
    assert Front([e]) == [];
    assert Loop(c, []) == Some(c) && GoodRun(c, []);
  }

  lemma TwoSteps(c: Conn, e: Event, c1: Conn, f: Event, c2: Conn, rest: seq<Event>)
    requires GoodEvent(c, e) && Next(c, e) == Some(c1) && GoodEvent(c1, f) && Next(c1, f) == Some(c2)
    ensures Loop(c, [e, f] + rest) == Loop(c2, rest)
    ensures GoodRun(c, [e, f] + rest) <==> GoodRun(c2, rest)
  {
    hide Next, GoodEvent;
    assert [e, f] + rest == [e] + ([f] + rest);
    OneStep(c, e);
    OneStep(c1, f);
    LoopConcat(c, [e], [f] + rest);
    LoopConcat(c1, [f], rest);
  }

  // Progress.

  /** A completion without an error. */
  function Fine(input: bytes, answer: seq<bytes>): Event { Done(false, input, answer) }

  /** The completions of the writes of `n` messages: a header and a body each. */
  function Writes(n: nat, answer: seq<bytes>): (es: seq<Event>)
    ensures |es| == 2 * n
  {
    seq(2 * n, _ => Fine([], answer))
  }

  /** A request arrives and its reply goes out. */
  function Exchange(request: bytes, answer: seq<bytes>): seq<Event> {
    [Fine(LittleEndian(|request|, HEADER), answer), Fine(request, answer)] + Writes(|answer|, answer)
  }

  /** What is left of a reply goes out, message by message, and the connection reads on. */
  lemma {:induction false} WritesDrain(c: Conn, answer: seq<bytes>)
    requires c.phase.WriteHeader? && !c.timedOut && c.queue != [] && c.header == |c.queue[0]| && answer != []
    ensures GoodRun(c, Writes(|c.queue|, answer))
    ensures var r := Loop(c, Writes(|c.queue|, answer));
      && r.Some? && r.value.phase.ReadHeader? && r.value.queue == [] && !r.value.timedOut
      && r.value.sent == c.sent + FrameAll(c.queue)
      && r.value.received == c.received && r.value.requests == c.requests && r.value.answered == c.answered
    decreases |c.queue|
  {
    hide Loop, GoodRun, Next, LittleEndian, FrameAll;
    var e, rest := Fine([], answer), Writes(|c.queue| - 1, answer);
    MessageWritten(c, answer);
    var c1 := Next(c, e).value;
    var c2 := Next(c1, e).value;
    assert Writes(|c.queue|, answer) == [e, e] + rest;
    TwoSteps(c, e, c1, e, c2, rest);
    HeadFrame(c);
    if |c.queue| == 1 {
      NoFrames();
      assert rest == [];
      NoEvents(c2);
    } else {
      WritesDrain(c2, answer);
      assert c.sent + (LittleEndian(|c.queue[0]|, HEADER) + (c.queue[0] + FrameAll(c.queue[1..])))
          == c.sent + LittleEndian(|c.queue[0]|, HEADER) + c.queue[0] + FrameAll(c.queue[1..]);
    }
  }

  lemma NoEvents(c: Conn)
    ensures Loop(c, []) == Some(c) && GoodRun(c, [])
  {
  }

  /** The header and the body of one message go out. */
  lemma MessageWritten(c: Conn, answer: seq<bytes>)
    requires c.phase.WriteHeader? && !c.timedOut && c.queue != [] && c.header == |c.queue[0]| && answer != []
    ensures var e := Fine([], answer);
      && GoodEvent(c, e) && Next(c, e).Some? && GoodEvent(Next(c, e).value, e) && Next(Next(c, e).value, e).Some?
      && var r, rest := Next(Next(c, e).value, e).value, c.queue[1..];
         && r == c.(phase := if rest == [] then ReadHeader else WriteHeader, queue := rest, current := [],
                    header := if rest == [] then c.header else |rest[0]|, sent := r.sent)
         && r.sent == c.sent + LittleEndian(|c.queue[0]|, HEADER) + c.queue[0]
  {
    hide LittleEndian;
  }

  /** Without errors and timeouts a request is answered in full, and the connection waits for the next:
      exactly the framed request is read, and exactly the framed reply is written. */
  lemma RequestAnswered(c: Conn, request: bytes, answer: seq<bytes>)
    requires c.phase.ReadHeader? && !c.timedOut && answer != [] && |request| < WORD64
    ensures GoodRun(c, Exchange(request, answer))
    ensures var r := Loop(c, Exchange(request, answer));
      && r.Some? && r.value.phase.ReadHeader? && r.value.queue == [] && !r.value.timedOut
      && r.value.received == c.received + Frame(request) && r.value.requests == c.requests + [request]
      && r.value.sent == c.sent + FrameAll(answer) && r.value.answered == c.answered + [answer]
  {
    hide Loop, GoodRun, Next, LittleEndian, FrameAll;
    var e1, e2 := Fine(LittleEndian(|request|, HEADER), answer), Fine(request, answer);
    var writes := Writes(|answer|, answer);
    RequestRead(c, request, answer);
    var c1 := Next(c, e1).value;
    var c2 := Next(c1, e2).value;
    assert Exchange(request, answer) == [e1, e2] + writes;
    TwoSteps(c, e1, c1, e2, c2, writes);
    WritesDrain(c2, answer);
    assert c.received + LittleEndian(|request|, HEADER) + request == c.received + Frame(request);
  }

  /** The header and the body of a request come in, and its reply begins. */
  lemma RequestRead(c: Conn, request: bytes, answer: seq<bytes>)
    requires c.phase.ReadHeader? && !c.timedOut && answer != [] && |request| < WORD64
    ensures var e1, e2 := Fine(LittleEndian(|request|, HEADER), answer), Fine(request, answer);
      && GoodEvent(c, e1) && Next(c, e1).Some? && GoodEvent(Next(c, e1).value, e2) && Next(Next(c, e1).value, e2).Some?
      && var r := Next(Next(c, e1).value, e2).value;
         && r.phase.WriteHeader? && !r.timedOut && r.queue == answer && r.header == |answer[0]| && r.sent == c.sent
         && r.received == c.received + LittleEndian(|request|, HEADER) + request
         && r.requests == c.requests + [request] && r.answered == c.answered + [answer]
  {
    hide LittleEndian, FromLittleEndian;
    HeaderRange();
    NumberRoundTrip(|request|, HEADER);
  }

  /** The handshake and any number of requests with their replies. */
  function Exchanges(requests: seq<bytes>, answers: seq<seq<bytes>>): seq<Event>
    requires |requests| == |answers|
  {
    if requests == [] then [Fine([], [[]])]
    else Exchanges(Front(requests), Front(answers)) + Exchange(Last(requests), Last(answers))
  }

  /** The connection waits for a request after these, all answered in full. */
  ghost predicate WaitsAfter(c: Conn, requests: seq<bytes>, answers: seq<seq<bytes>>) {
    && c.phase.ReadHeader? && !c.timedOut
    && c.received == FrameAll(requests) && c.requests == requests
    && c.sent == FrameAll(Flatten(answers)) && c.answered == answers
  }

  /** For any list of requests and any replies to them there is a run in which all are answered. */
  lemma {:induction false} AllAnswered(queue: seq<bytes>, requests: seq<bytes>, answers: seq<seq<bytes>>)
    requires |requests| == |answers| && Sendable(requests) && forall a <- answers :: a != []
    ensures GoodRun(Accepted(queue), Exchanges(requests, answers))
    ensures var r := Loop(Accepted(queue), Exchanges(requests, answers));
      r.Some? && WaitsAfter(r.value, requests, answers)
  {
    hide Loop, GoodRun, Exchange, WaitsAfter;
    if requests == [] {
      FirstWait(queue);
    } else {
      var front, before := Front(requests), Front(answers);
      assert Last(answers) in answers && Last(requests) in requests;
      assert forall a <- before :: a in answers;
      assert forall r <- front :: r in requests;
      AllAnswered(queue, front, before);
      LoopConcat(Accepted(queue), Exchanges(front, before), Exchange(Last(requests), Last(answers)));
      OneMoreAnswered(Loop(Accepted(queue), Exchanges(front, before)).value, requests, answers);
    }
  }

  lemma FirstWait(queue: seq<bytes>)
    ensures GoodRun(Accepted(queue), Exchanges([], [])) && Loop(Accepted(queue), Exchanges([], [])).Some?
    ensures WaitsAfter(Loop(Accepted(queue), Exchanges([], [])).value, [], [])
  {
    OneStep(Accepted(queue), Fine([], [[]]));
    assert Flatten<bytes>([]) == [];
  }

  lemma OneMoreAnswered(c: Conn, requests: seq<bytes>, answers: seq<seq<bytes>>)
    requires |requests| == |answers| > 0 && |Last(requests)| < WORD64 && Last(answers) != []
    requires WaitsAfter(c, Front(requests), Front(answers))
    ensures GoodRun(c, Exchange(Last(requests), Last(answers)))
    ensures var r := Loop(c, Exchange(Last(requests), Last(answers)));
      r.Some? && WaitsAfter(r.value, requests, answers)
  {
    hide Loop, GoodRun, Exchange, Frame;
    RequestAnswered(c, Last(requests), Last(answers));
    FrameAllConcat(Flatten(Front(answers)), Last(answers));
    assert requests == Front(requests) + [Last(requests)] && answers == Front(answers) + [Last(answers)];
  }

  // When a connection stops, and what the timer does.

  /** The i-th event is a completion with an error, or one that comes after the timer. */
  predicate Breaks(es: seq<Event>, i: nat) {
    i < |es| && es[i].Done? && (es[i].error || Timer in es[..i])
  }

  /** The flag is set exactly once the timer has fired. */
  lemma {:induction false} TimedOutExactly(queue: seq<bytes>, es: seq<Event>)
    requires GoodRun(Accepted(queue), es)
    ensures Loop(Accepted(queue), es).Some? && (Loop(Accepted(queue), es).value.timedOut <==> Timer in es)
  {
    LoopSendsReplies(queue, es);
    if es != [] {
      TimedOutExactly(queue, Front(es));
      var before := Loop(Accepted(queue), Front(es)).value;
      FlagOnlyByTimer(before, Last(es));
      assert Timer in es <==> Timer in Front(es) || Last(es) == Timer;
    }
  }

  lemma FlagOnlyByTimer(c: Conn, e: Event)
    requires Next(c, e).Some?
    ensures Next(c, e).value.timedOut <==> c.timedOut || e.Timer?
  {
  }

  /** One event of a connection that has not stopped stops it exactly if it is a completion with an
      error or after the timer. */
  lemma StopsNow(c: Conn, e: Event)
    requires Inv(c) && GoodEvent(c, e) && Next(c, e).Some?
    ensures Next(c, e).value.phase.Idle? <==> c.phase.Idle? || (e.Done? && (e.error || c.timedOut))
  {
    hide FrameAll, Flatten, LittleEndian, FromLittleEndian;
  }

  /** A connection stops exactly at an error or at the first completion after the timer; until then it
      reads and writes on. */
  lemma {:induction false} IdleExactly(queue: seq<bytes>, es: seq<Event>)
    requires GoodRun(Accepted(queue), es)
    ensures Loop(Accepted(queue), es).Some?
    ensures Loop(Accepted(queue), es).value.phase.Idle? <==> exists i: nat :: Breaks(es, i)
  {
    LoopSendsReplies(queue, es);
    if es != [] {
      var n, front := |es|, Front(es);
      IdleExactly(queue, front);
      LoopSendsReplies(queue, front);
      TimedOutExactly(queue, front);
      StopsNow(Loop(Accepted(queue), front).value, Last(es));
      assert es[..n - 1] == front;
      forall i: nat | i < n - 1 ensures Breaks(es, i) <==> Breaks(front, i) {
        assert es[..i] == front[..i];
      }
      hide Loop, GoodRun, Inv;
      if i: nat :| Breaks(front, i) {
        assert Breaks(es, i);
      }
      if Last(es).Done? && (Last(es).error || Timer in front) {
        assert Breaks(es, n - 1);
      }
    }
  }

  /** After the timer no request is handled any more, and at most the one write that was under way
      completes. */
  lemma TimerAbsorbs(queue: seq<bytes>, es: seq<Event>, more: seq<Event>)
    requires GoodRun(Accepted(queue), es + [Timer] + more)
    ensures GoodRun(Accepted(queue), es)
    ensures var before, after := Loop(Accepted(queue), es), Loop(Accepted(queue), es + [Timer] + more);
      && before.Some? && after.Some? && after.value.timedOut
      && after.value.requests == before.value.requests && after.value.answered == before.value.answered
      && |after.value.sent| <= |before.value.sent| + UnderWay(before.value)
  {
    LoopConcat(Accepted(queue), es + [Timer], more);
    LoopConcat(Accepted(queue), es, [Timer]);
    LoopSendsReplies(queue, es);
    var before := Loop(Accepted(queue), es).value;
    OneStep(before, Timer);
    TimerKeeps(before);
    TimeoutAbsorbs(before.(timedOut := true), more);
  }

  lemma TimerKeeps(c: Conn)
    requires Inv(c)
    ensures Next(c, Timer) == Some(c.(timedOut := true)) && Inv(c.(timedOut := true))
  {
  }
}

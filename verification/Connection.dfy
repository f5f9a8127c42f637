/** core/connection.cpp as a class: each callback is one step of the connection machine. */
module Connections {
  import opened Bytes
  import opened Tlvs
  import opened Messages
  import opened MessageQueues
  import opened Packing
  import opened Paths
  import opened Transfer
  import opened Sessions
  import opened State
  import opened Handlers
  import opened Framing
  import opened Replies
  import Machine = ConnectionMachine

  class Connection {
    const handler: RequestHandler
    const replies: MessageQueue
    const user: User
    var phase: Machine.Phase
    var header: nat
    var msg: Message?
    var timedOut: bool
    /** The bytes written to the socket so far. */
    ghost var sent: bytes
    /** The bytes read from it. */
    ghost var received: bytes
    /** The messages handled so far. */
    ghost var requests: seq<bytes>
    /** The messages of every reply so far. */
    ghost var answered: seq<seq<bytes>>

    ghost predicate Valid()
      reads this, handler.streams, replies, replies.msgs, user, user.dir
    {
      && replies.Valid() && user.Valid() && handler.streams.Valid()
      && (phase.WriteHeader? ==> replies.msgs != [] && header == |replies.msgs[0].raw|)
      && (phase.WriteBody? ==> msg != null && msg !in replies.msgs && (phase.last <==> replies.msgs == []))
    }

    /** The messages left in the queue. */
    ghost function Queue(): seq<bytes>
      reads this, replies, replies.msgs
    {
      RawOf(replies.msgs)
    }

    /** The machine's state. */
    ghost function View(): Machine.Conn
      reads this, replies, replies.msgs, msg
    {
      var current := if phase.WriteBody? && msg != null then msg.raw else [];
      Machine.Conn(phase, header, Queue(), current, timedOut, sent, received, requests, answered)
    }

    constructor (handler: RequestHandler)
      requires handler.streams.Valid()
      ensures Valid() && this.handler == handler && fresh(replies.Repr()) && fresh(user)
      ensures View() == Machine.Accepted(View().queue) && user.Abstract() == FRESH
    {
      this.handler := handler;
      replies := new MessageQueue(NONE);
      user := new User();
      phase, header, msg, timedOut := Machine.Handshake, 0, null, false;
      sent, received, requests, answered := [], [], [], [];
    }

    /** Releases the user's stream; nothing is pending afterwards. */
    method Shutdown()
      requires Valid() && !phase.WriteBody?
      modifies this`phase, handler.streams
      ensures Valid() && View() == Machine.Stop(old(View()))
      ensures handler.streams.streams == WithHandle(old(handler.streams.streams), user.id, Absent)
    {
      hide Pack, EncodeMsg, HasError, RawOf;
      handler.streams.EraseStream(user.id);
      phase := Machine.Idle;
    }

    /** The outcome the log gets: it describes the whole reply, even when its messages are gone. */
    method LogWrite() returns (error: bool)
      requires Valid()
      ensures error <==> HasError(replies.tlvs)
    {
      error := replies.VerifyError();
    }

    method ReadRequest(e: bool)
      requires Valid() && !phase.WriteBody?
      modifies this`phase, handler.streams
      ensures Valid() && View() == Machine.ReadRequest(old(View()), e)
      ensures !e && !timedOut ==> phase.ReadHeader?
      ensures handler.streams.streams == Released(old(handler.streams.streams), user.id, e && !timedOut)
    {
      if timedOut {
        phase := Machine.Idle;
      } else if e {
        Shutdown();
      } else {
        phase := Machine.ReadHeader;
      }
    }

    method HeaderRead(e: bool, input: bytes)
      requires Valid() && phase.ReadHeader?
      modifies this`phase, this`header, this`received, handler.streams
      ensures Valid() && View() == Machine.HeaderRead(old(View()), e, input)
      ensures handler.streams.streams == Released(old(handler.streams.streams), user.id, e && !timedOut)
    {
      hide FromLittleEndian, Pack, EncodeMsg, HasError, RawOf;
      received := if e then received else received + input;
      if timedOut {
        phase := Machine.Idle;
      } else if e {
        Shutdown();
      } else {
        header := FromLittleEndian(input);
        phase := Machine.ReadBody;
      }
    }

    method WriteResponse(e: bool)
      requires Valid() && !phase.WriteBody? && (!timedOut && !e ==> replies.msgs != [])
      modifies this`phase, this`header, handler.streams
      ensures Valid() && Machine.WriteResponse(old(View()), e) == Some(View())
      ensures handler.streams.streams == Released(old(handler.streams.streams), user.id, e && !timedOut)
    {
      if timedOut {
        phase := Machine.Idle;
      } else if e {
        var _ := LogWrite();
        Shutdown();
      } else {
        header := |replies.FrontMessage().raw|;
        phase := Machine.WriteHeader;
      }
    }

    method HeaderWritten(e: bool)
      requires Valid() && phase.WriteHeader?
      modifies this`phase, this`msg, this`sent, replies, handler.streams
      ensures Valid() && Machine.HeaderWritten(old(View()), e) == Some(View())
      ensures handler.streams.streams == Released(old(handler.streams.streams), user.id, e && !timedOut)
    {
      hide LittleEndian, Pack, EncodeMsg, HasError, RawOf;
      sent := if e then sent else sent + LittleEndian(header, HEADER);
      if timedOut {
        phase := Machine.Idle;
      } else if e {
        var _ := LogWrite();
        Shutdown();
      } else {
        msg := replies.FrontMessage();
        replies.Pop();
        phase := Machine.WriteBody(replies.Empty());
        assert Queue() == old(Queue())[1..];
      }
    }

    method HandleCompletion(e: bool)
      requires Valid() && !phase.WriteBody?
      modifies this`phase, handler.streams
      ensures Valid() && View() == Machine.HandleCompletion(old(View()), e)
      ensures !e && !timedOut ==> phase.ReadHeader?
      ensures handler.streams.streams == Released(old(handler.streams.streams), user.id, e && !timedOut)
    {
      if timedOut {
        phase := Machine.Idle;
        return;
      }
      var _ := LogWrite();
      if e {
        Shutdown();
      } else {
        ReadRequest(e);
      }
    }

    /** The callback that was bound when the write of the body began. */
    method BodyWritten(e: bool)
      requires Valid() && phase.WriteBody?
      modifies this`phase, this`header, this`sent, handler.streams
      ensures Valid() && Machine.BodyWritten(old(View()), e) == Some(View())
      ensures handler.streams.streams == Released(old(handler.streams.streams), user.id, e && !timedOut)
    {
      var last := phase.last;
      sent := if e then sent else sent + msg.raw;
      phase := Machine.Idle;
      if last {
        HandleCompletion(e);
      } else {
        WriteResponse(e);
      }
    }

    /** Before anything is taken out, the queue is the packed reply. */
    lemma QueueIsReply()
      requires replies.Valid() && replies.popped == 0
      ensures Queue() == Encoded(replies.kind, Pack(replies.tlvs))
    {
    }

    /** The request in the buffer is handled; its reply is in the queue. */
    method Answer(input: bytes, f: Faults) returns (halted: bool)
      requires Valid() && phase.ReadBody?
      requires input != [] && Decode(input[1..]).Some? && GoodMsg(Msg(input[0], Decode(input[1..]).value))
      requires forall p <- f.listing :: |Text(p)| <= PATH_MAX
      modifies this`msg, this`requests, this`answered, replies, handler.fs, handler.streams, user, user.dir
      ensures var m := Msg(input[0], Decode(input[1..]).value);
        var o := Sessions.HandleRequest(
          handler.env, old(handler.fs.disk), old(handler.streams.streams), old(user.Abstract()), m, f);
        && halted == o.Crashed?
        && (!halted ==>
              && Valid() && user.Abstract() == o.session && replies.msgs != []
              && handler.fs.disk == o.disk && handler.streams.streams == o.streams
              && Queue() == Encoded(m.kind, Pack(Render(o.reply)))
              && requests == old(requests) + [input] && answered == old(answered) + [Queue()])
    {
      hide Pack, EncodeMsg, HasError, Render, Sessions.HandleRequest, GoodMsg, Text, Decode, Encoded, RawOf;
      msg := new Message.FromBuffer(input);
      halted := handler.HandleRequest(msg, replies, user, f);
      if !halted {
        QueueIsReply();
        requests, answered := requests + [input], answered + [Queue()];
      }
    }

    /** A request has been read: it is handled and the reply's first header goes out. */
    method HandleRequest(e: bool, input: bytes, f: Faults) returns (halted: bool)
      requires Valid() && phase.ReadBody?
      requires !e ==> input != [] && Decode(input[1..]).Some? && GoodMsg(Msg(input[0], Decode(input[1..]).value))
      requires forall p <- f.listing :: |Text(p)| <= PATH_MAX
      modifies this, replies, handler.fs, handler.streams, user, user.dir
      ensures old(timedOut) || e ==>
                && !halted && Valid() && Machine.HandleRequest(old(View()), e, input, []) == Some(View())
                && user.Abstract() == old(user.Abstract()) && handler.fs.disk == old(handler.fs.disk)
                && handler.streams.streams
                   == Released(old(handler.streams.streams), user.id, e && !old(timedOut))
      ensures !old(timedOut) && !e ==>
                var m := Msg(input[0], Decode(input[1..]).value);
                var o := Sessions.HandleRequest(
                  handler.env, old(handler.fs.disk), old(handler.streams.streams), old(user.Abstract()), m, f);
                && halted == o.Crashed?
                && (!halted ==>
                      && Valid() && user.Abstract() == o.session
                      && handler.fs.disk == o.disk && handler.streams.streams == o.streams
                      && Machine.HandleRequest(old(View()), false, input, Encoded(m.kind, Pack(Render(o.reply))))
                         == Some(View()))
    {
      hide Pack, EncodeMsg, HasError, Render, Sessions.HandleRequest, GoodMsg, Text, Decode, Encoded, RawOf;
      halted := false;
      received := if e then received else received + input;
      if timedOut {
        phase := Machine.Idle;
        return;
      }
      if e {
        Shutdown();
        return;
      }
      halted := Answer(input, f);
      if !halted {
        WriteResponse(false);
      }
    }

    /** The timer: the flag is set for good. */
    method TimeOut()
      requires Valid()
      modifies this`timedOut, handler.streams
      ensures timedOut && phase == old(phase)
      ensures Valid() && Machine.Next(old(View()), Machine.Timer) == Some(View())
      ensures handler.streams.streams == WithHandle(old(handler.streams.streams), user.id, Absent)
    {
      timedOut := true;
      handler.streams.EraseStream(user.id);
    }
  }

  /** The stream map, less the user's entry if the connection was shut down. */
  ghost function Released(streams: Streams, id: bytes, shut: bool): Streams {
    if shut then WithHandle(streams, id, Absent) else streams
  }

  ghost function RawOf(ms: seq<Message>): (r: seq<bytes>)
    reads ms
    ensures |r| == |ms| && forall i :: 0 <= i < |ms| ==> r[i] == ms[i].raw
  {
    if ms == [] then [] else [ms[0].raw] + RawOf(ms[1..])
  }
}

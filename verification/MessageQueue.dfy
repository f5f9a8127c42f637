/** communication/message_queue.cpp: the messages of one reply. */
module MessageQueues {
  import opened Bytes
  import opened Tlvs
  import opened Messages
  import opened Packing

  ghost predicate HasError(ts: seq<Tlv>) {
    exists t <- ts :: t.tag == ERROR
  }

  class MessageQueue {
    var msgs: seq<Message>
    var kind: byte
    var error: bool
    /** Every TLV added since the queue was made. */
    ghost var tlvs: seq<Tlv>
    /** How many messages have been taken out. */
    ghost var popped: nat

    ghost predicate Valid()
      reads this, msgs
    {
      && AllFit(tlvs)
      && (forall i, j :: 0 <= i < j < |msgs| ==> msgs[i] != msgs[j])
      && popped + |msgs| == |Pack(tlvs)|
      && (forall i :: 0 <= i < |msgs| ==> msgs[i].raw == EncodeMsg(Msg(kind, Pack(tlvs)[popped + i])))
      && (error <==> HasError(tlvs))
    }

    ghost function Repr(): set<object>
      reads this
    {
      {this} + (set m: Message | m in msgs :: m as object)
    }

    constructor (kind: byte)
      ensures Valid() && fresh(Repr()) && this.kind == kind && tlvs == [] && popped == 0
    {
      var m := new Message(kind);
      msgs := [m];
      this.kind := kind;
      error := false;
      tlvs := [];
      popped := 0;
    }

    /** The assignment of a new queue to this one. */
    method Reset(kind: byte)
      modifies this
      ensures Valid() && fresh(Repr() - {this}) && this.kind == kind && tlvs == [] && popped == 0
    {
      var m := new Message(kind);
      msgs := [m];
      this.kind := kind;
      error := false;
      tlvs := [];
      popped := 0;
    }

    /** Adds a TLV to the last message, or to a new one when it would exceed the chunk size. */
    method AddTlv(tag: byte, value: bytes)
      requires Valid() && msgs != [] && |value| < INT_LIMIT
      modifies Repr()
      ensures Valid() && fresh(Repr() - old(Repr())) && msgs != []
      ensures kind == old(kind) && popped == old(popped)
      ensures tlvs == old(tlvs) + [Tlv(tag, value)]
    {
      hide Encode, EncodeMsg, Pack;
      ghost var t := Tlv(tag, value);
      Added(kind, tlvs, t);
      var back := msgs[|msgs| - 1];
      assert back in msgs;
      if |back.raw| + 1 + 4 + |value| <= CHUNK_SIZE {
        back.AddTlv(tag, value);
      } else {
        var m := new Message(kind);
        m.AddTlv(tag, value);
        msgs := msgs + [m];
      }
      if tag == ERROR {
        error := true;
      }
      tlvs := tlvs + [t];
    }

    method Pop()
      requires Valid() && msgs != []
      modifies this
      ensures Valid() && msgs == old(msgs)[1..] && popped == old(popped) + 1
      ensures kind == old(kind) && tlvs == old(tlvs) && error == old(error)
    {
      msgs := msgs[1..];
      popped := popped + 1;
    }

    /** The message at the head: it is the next one of the packing. */
    function FrontMessage(): (m: Message)
      requires Valid() && msgs != []
      reads this, msgs
      ensures m in msgs && m.raw == EncodeMsg(Msg(kind, Pack(tlvs)[popped]))
    {
      msgs[0]
    }

    predicate Empty()
      reads this
    {
      msgs == []
    }

    /** Describes the whole reply, also after its messages were taken out. */
    predicate VerifyError()
      requires Valid()
      reads this, msgs
      ensures VerifyError() <==> HasError(tlvs)
    {
      error
    }
  }

  /** What adding `t` does to the encoded messages. */
  lemma Added(kind: byte, ts: seq<Tlv>, t: Tlv)
    ensures var gs := Pack(ts);
      var last := EncodeMsg(Msg(kind, Last(gs)));
      if |last| + t.Size() <= CHUNK_SIZE then
        && Pack(ts + [t]) == Front(gs) + [Last(gs) + [t]]
        && EncodeMsg(Msg(kind, Last(gs) + [t])) == last + Encode(t)
      else
        && Pack(ts + [t]) == gs + [[t]]
        && EncodeMsg(Msg(kind, [t])) == EncodeMsg(Msg(kind, [])) + Encode(t)
  {
    hide Encode;
    assert Front(ts + [t]) == ts;
    var last := Msg(kind, Last(Pack(ts)));
    EncodedSize(last);
    EncodeAllSnoc(last.tlvs, t);
    EncodeAllSnoc([], t);
    assert [] + [t] == [t];
    AssocKind(kind, EncodeAll(last.tlvs), Encode(t));
    AssocKind(kind, [], Encode(t));
  }

  lemma AssocKind(k: byte, a: bytes, b: bytes)
    ensures [k] + (a + b) == [k] + a + b
  {
  }
}

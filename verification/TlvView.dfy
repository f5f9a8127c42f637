/** communication/tlv_view.cpp: a cursor over the TLVs of a message. */
module TlvViews {
  import opened Bytes
  import opened Tlvs
  import opened Messages

  /** The encoding of a message, cut around its k-th TLV. */
  lemma CutAround(m: Msg, k: nat)
    requires k < |m.tlvs|
    ensures EncodeMsg(m)
            == EncodeMsg(Msg(m.kind, m.tlvs[..k])) + Encode(m.tlvs[k]) + EncodeAll(m.tlvs[k + 1..])
    ensures EncodeMsg(Msg(m.kind, m.tlvs[..k + 1])) == EncodeMsg(Msg(m.kind, m.tlvs[..k])) + Encode(m.tlvs[k])
  {
    hide Encode, EncodeAll;
    var before, t, after := m.tlvs[..k], m.tlvs[k], m.tlvs[k + 1..];
    assert m.tlvs == before + [t] + after && m.tlvs[..k + 1] == before + [t];
    EncodeAllConcat(before + [t], after);
    EncodeAllSnoc(before, t);
    AssocSnoc(m.kind, EncodeAll(before), Encode(t), EncodeAll(after));
  }

  lemma AssocSnoc(a: byte, b: bytes, c: bytes, d: bytes)
    ensures [a] + (b + c + d) == ([a] + b) + c + d && [a] + (b + c) == ([a] + b) + c
  {
  }

  /** Where the encoding of the k-th TLV lies in the encoding of the whole message. */
  lemma Located(m: Msg, k: nat)
    requires AllFit(m.tlvs) && k < |m.tlvs|
    ensures var b, at, t := EncodeMsg(m), |EncodeMsg(Msg(m.kind, m.tlvs[..k]))|, m.tlvs[k];
      && at + t.Size() == |EncodeMsg(Msg(m.kind, m.tlvs[..k + 1]))| <= |b|
      && b[at] == t.tag
      && DecodedLength(b[at + 1..at + 5]) == |t.value|
      && b[at + 5..at + t.Size()] == t.value
  {
    hide BigEndian, DecodedLength, EncodeAll, EncodeMsg;
    CutAround(m, k);
    assert m.tlvs[k].Fits() by { assert m.tlvs[k] in m.tlvs; }
    var b, at, t := EncodeMsg(m), |EncodeMsg(Msg(m.kind, m.tlvs[..k]))|, m.tlvs[k];
    LengthRoundTrip(|t.value|);
    assert b[at + 1..at + 5] == BigEndian(|t.value|);
    assert b[at + 5..at + t.Size()] == t.value;
  }

  class TlvView {
    const msg: Message
    var tag: byte
    var length: nat
    var dataBegin: nat
    var dataEnd: nat
    var valid: bool
    var finished: bool
    ghost var contents: Msg
    /** How many TLVs have been shown. */
    ghost var shown: nat

    ghost predicate Valid()
      reads this, msg
    {
      && EncodeMsg(contents) == msg.raw && AllFit(contents.tlvs)
      && shown <= |contents.tlvs|
      && dataEnd == |EncodeMsg(Msg(contents.kind, contents.tlvs[..shown]))| <= |msg.raw|
      && (finished ==> shown == |contents.tlvs| && !valid)
      && (!finished && !valid ==> shown == 0)
      && (valid ==>
            && shown > 0
            && tag == contents.tlvs[shown - 1].tag
            && length == |contents.tlvs[shown - 1].value|
            && dataBegin <= dataEnd && msg.raw[dataBegin..dataEnd] == contents.tlvs[shown - 1].value)
    }

    constructor (msg: Message)
      requires msg.WellFormed()
      ensures Valid() && this.msg == msg && contents == msg.Contents() && shown == 0 && !valid && !finished
    {
      this.msg := msg;
      tag, length := 0, 0;
      dataBegin, dataEnd := 1, 1;
      valid, finished := false, false;
      contents := msg.Contents();
      shown := 0;
    }

    /** The four length bytes, accumulated one by one with the source's shifts. */
    method ReadLength(at: nat) returns (length: nat)
      requires at + 4 <= |msg.raw|
      ensures length == DecodedLength(msg.raw[at..at + 4])
    {
      hide ShiftedInt;
      ghost var lengthBytes := msg.raw[at..at + 4];
      length := 0;
      for i := 0 to 4
        invariant length == PartialLength(lengthBytes, i)
      {
        assert msg.raw[at + i] == lengthBytes[i];
        length := (length + ShiftedInt(msg.raw[at + i], i)) % WORD64;
      }
      PartialLengthTotal(lengthBytes);
    }

    /** Shows the next TLV, if there is one, and otherwise stays finished. */
    method NextTlv() returns (more: bool)
      requires Valid()
      modifies this
      ensures Valid() && contents == old(contents)
      ensures more <==> old(shown) < |contents.tlvs|
      ensures more <==> valid
      ensures !more <==> finished
      ensures shown == if more then old(shown) + 1 else old(shown)
    {
      hide BigEndian, DecodedLength, EncodeAll, Encode, ShiftedInt;
      if finished {
        return false;
      }
      dataBegin := dataEnd;
      if shown < |contents.tlvs| {
        Located(contents, shown);
      } else {
        assert contents.tlvs[..shown] == contents.tlvs;
      }
      if dataBegin == |msg.raw| {
        finished := true;
        valid := false;
        return false;
      }
      tag := msg.raw[dataBegin];
      dataBegin := dataBegin + 1;
      length := ReadLength(dataBegin);
      dataBegin := dataBegin + 4;
      dataEnd := dataBegin + length;
      valid := true;
      shown := shown + 1;
      return true;
    }

    /** The value of the TLV shown, between cbegin() and cend(). */
    function Value(): (v: bytes)
      requires Valid() && valid
      reads this, msg
      ensures v == contents.tlvs[shown - 1].value
    {
      msg.raw[dataBegin..dataEnd]
    }

    /** Walks back over the last five bytes, stopping at the first that is not the mark's. */
    method VerifyEnd() returns (end: bool)
      requires Valid() && contents.tlvs != []
      ensures end <==> EndsWithMark(msg.raw)
      ensures end <==> LooksLikeEnd(Last(contents.tlvs))
    {
      VerifyEndMeaning(contents);
      assert |msg.raw| >= 6;
      ghost var tail := msg.raw[|msg.raw| - 5..];
      var ptr := |msg.raw| - 1;
      for i := 0 to 4
        invariant ptr == |msg.raw| - 1 - i
        invariant forall k :: 5 - i <= k < 5 ==> tail[k] == 0
      {
        if msg.raw[ptr] != 0 {
          assert tail[4 - i] != END_MARK[4 - i];
          return false;
        }
        ptr := ptr - 1;
      }
      if msg.raw[ptr] != END {
        assert tail[0] != END_MARK[0];
        return false;
      }
      assert tail == END_MARK;
      return true;
    }
  }

  /** The length after the first `i` of its bytes have been added. */
  ghost function PartialLength(b: bytes, i: nat): nat
    requires |b| == 4 && i <= 4
  {
    if i == 0 then 0 else (PartialLength(b, i - 1) + ShiftedInt(b[i - 1], i - 1)) % WORD64
  }

  lemma PartialLengthTotal(b: bytes)
    requires |b| == 4
    ensures PartialLength(b, 4) == DecodedLength(b)
  {
    hide ShiftedInt;
    var s0, s1, s2, s3 := ShiftedInt(b[0], 0), ShiftedInt(b[1], 1), ShiftedInt(b[2], 2), ShiftedInt(b[3], 3);
    assert PartialLength(b, 1) == s0 % WORD64 by { assert PartialLength(b, 0) == 0; }
    assert PartialLength(b, 2) == (s0 + s1) % WORD64 by { WrapAdd(s0, s1); }
    assert PartialLength(b, 3) == (s0 + s1 + s2) % WORD64 by { WrapAdd(s0 + s1, s2); }
    WrapAdd(s0 + s1 + s2, s3);
  }

  /** Wrapping around early or late is the same. */
  lemma WrapAdd(x: int, y: int)
    ensures (x % WORD64 + y) % WORD64 == (x + y) % WORD64
  {
    var q := (x % WORD64 + y) / WORD64;
    assert x + y == WORD64 * (x / WORD64 + q) + (x % WORD64 + y) % WORD64;
  }

  /** The loop that message.cpp prints a message with: it sees every TLV once, in order. */
  method ShowAll(msg: Message) returns (seen: seq<Tlv>)
    requires msg.WellFormed()
    ensures seen == msg.Contents().tlvs
    ensures Decode(msg.raw[1..]) == Some(seen)
  {
    var view := new TlvView(msg);
    ghost var all := msg.Contents().tlvs;
    seen := [];
    var more := view.NextTlv();
    while more
      invariant view.Valid() && view.msg == msg && view.contents.tlvs == all
      invariant more == view.valid == !view.finished
      invariant more ==> 0 < view.shown <= |all| && seen == all[..view.shown - 1]
      invariant !more ==> seen == all
      decreases |all| - view.shown, more
    {
      seen := seen + [Tlv(view.tag, view.Value())];
      assert seen == all[..view.shown];
      more := view.NextTlv();
    }
  }
}

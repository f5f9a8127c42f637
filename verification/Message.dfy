/** communication/message.cpp: a message is a shared buffer that starts with its type byte. */
module Messages {
  import opened Bytes
  import opened Tlvs

  class Message {
    var raw: bytes

    constructor (kind: byte)
      ensures raw == EncodeMsg(Msg(kind, []))
    {
      raw := [kind];
    }

    constructor FromBuffer(buffer: bytes)
      ensures raw == buffer
    {
      raw := buffer;
    }

    function Kind(): byte
      requires raw != []
      reads this
    {
      raw[0]
    }

    /** Appends one TLV byte by byte: the tag, the length most significant byte first, the value. */
    method AddTlv(tag: byte, value: bytes)
      requires |value| < INT_LIMIT
      modifies this
      ensures raw == old(raw) + Encode(Tlv(tag, value))
    {
      var length := |value|;
      raw := raw + [tag];
      var head := [];
      var divisor := 0x100_0000;
      for i := 0 to 4
        invariant divisor == [0x100_0000, 0x1_0000, 0x100, 1, 0][i]
        invariant head == BigEndian(length)[..i]
        invariant raw == old(raw) + [tag] + head
      {
        raw := raw + [length / divisor % 256];
        head := head + [length / divisor % 256];
        divisor := divisor / 256;
      }
      for i := 0 to length
        invariant raw == old(raw) + [tag] + BigEndian(length) + value[..i]
      {
        raw := raw + [value[i]];
      }
    }

    /** The TLVs the buffer holds, when it is well formed. */
    ghost predicate WellFormed()
      reads this
    {
      raw != [] && Decode(raw[1..]).Some?
    }

    ghost function Contents(): (m: Msg)
      requires WellFormed()
      reads this
      ensures EncodeMsg(m) == raw && AllFit(m.tlvs)
    {
      EncodeDecode(raw[1..], Decode(raw[1..]).value);
      Msg(raw[0], Decode(raw[1..]).value)
    }
  }
}

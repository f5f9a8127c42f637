/** The TLV wire format of communication/message.cpp and communication/tlv_view.cpp, as a
    printer and a parser over byte strings. */
module Tlvs {
  import opened Bytes

  datatype Tlv = Tlv(tag: byte, value: bytes) {
    /** The bytes the TLV takes in a message. */
    function Size(): nat { 5 + |value| }

    /** The decoder gets the length right only below `2^31`. */
    predicate Fits() { |value| < INT_LIMIT }
  }

  datatype Msg = Msg(kind: byte, tlvs: seq<Tlv>)

  ghost predicate AllFit(ts: seq<Tlv>) {
    forall t <- ts :: t.Fits()
  }

  /** The low four bytes of `n`, most significant first. */
  function BigEndian(n: nat): (r: bytes)
    ensures |r| == 4
  {
    [n / 0x100_0000 % 256, n / 0x1_0000 % 256, n / 256 % 256, n % 256]
  }

  /** `b << shift` on a C++ `int`, added to a `size_t`: with `shift == 24` and a top bit set the
      `int` is negative and sign-extends. */
  function ShiftedInt(b: byte, i: nat): int
    requires i < 4
  {
    if i == 0 then (if b < 128 then b else b - 256) * 0x100_0000
    else if i == 1 then b * 0x1_0000
    else if i == 2 then b * 0x100
    else b
  }

  /** The length as next_tlv computes it. */
  function DecodedLength(b: bytes): nat
    requires |b| == 4
  {
    (ShiftedInt(b[0], 0) + ShiftedInt(b[1], 1) + ShiftedInt(b[2], 2) + ShiftedInt(b[3], 3)) % WORD64
  }

  function Encode(t: Tlv): bytes {
    [t.tag] + BigEndian(|t.value|) + t.value
  }

  function EncodeAll(ts: seq<Tlv>): bytes {
    if ts == [] then [] else EncodeAll(Front(ts)) + Encode(Last(ts))
  }

  function EncodeMsg(m: Msg): bytes {
    [m.kind] + EncodeAll(m.tlvs)
  }

  /** Some TLV starts at the head of `b` and ends within it. */
  predicate StartsWithTlv(b: bytes) {
    |b| >= 5 && b[1] < 128 && 5 + DecodedLength(b[1..5]) <= |b|
  }

  function HeadTlv(b: bytes): Tlv
    requires StartsWithTlv(b)
  {
    Tlv(b[0], b[5..5 + DecodedLength(b[1..5])])
  }

  /** The TLVs of a buffer, read front to back; None when it is malformed. */
  function Decode(b: bytes): Option<seq<Tlv>>
    decreases |b|
  {
    if b == [] then Some([])
    else if !StartsWithTlv(b) then None
    else match Decode(b[HeadTlv(b).Size()..])
      case None => None
      case Some(ts) => Some([HeadTlv(b)] + ts)
  }

  /** A 32-bit number is the sum of its four digits in base 256. */
  lemma Digits(n: nat)
    requires n < WORD32
    ensures n == n / 0x100_0000 % 256 * 0x100_0000 + n / 0x1_0000 % 256 * 0x1_0000
                 + n / 256 % 256 * 256 + n % 256
  {
    assert n / 0x1_0000 == n / 256 / 256;
    assert n / 0x100_0000 == n / 0x1_0000 / 256;
  }

  /** Four digits in base 256 are recovered from their sum. */
  lemma DigitsOf(a: byte, b: byte, c: byte, d: byte)
    ensures var n: int := a * 0x100_0000 + b * 0x1_0000 + c * 256 + d;
      && n / 0x100_0000 % 256 == a && n / 0x1_0000 % 256 == b && n / 256 % 256 == c && n % 256 == d
  {
    var n: int := a * 0x100_0000 + b * 0x1_0000 + c * 256 + d;
    assert n / 0x100_0000 == a;
    assert n / 0x1_0000 == a * 256 + b;
    assert n / 256 == a * 0x1_0000 + b * 256 + c;
  }

  /** The reader's length is the written one exactly below `2^31`: the bound is sharp. */
  lemma LengthRoundTrip(n: nat)
    requires n < WORD32
    ensures DecodedLength(BigEndian(n)) == n <==> n < INT_LIMIT
  {
    Digits(n);
    if n >= INT_LIMIT {
      assert DecodedLength(BigEndian(n)) == n + WORD64 - WORD32;
    }
  }

  lemma LengthPrinted(b: bytes)
    requires |b| == 4 && b[0] < 128
    ensures BigEndian(DecodedLength(b)) == b
    ensures DecodedLength(b) < INT_LIMIT
  {
    DigitsOf(b[0], b[1], b[2], b[3]);
    var n := b[0] as int * 0x100_0000 + b[1] as int * 0x1_0000 + b[2] as int * 256 + b[3] as int;
    assert DecodedLength(b) == n;
    assert BigEndian(n) == [b[0], b[1], b[2], b[3]];
  }

  lemma {:induction false} EncodeAllConcat(a: seq<Tlv>, b: seq<Tlv>)
    ensures EncodeAll(a + b) == EncodeAll(a) + EncodeAll(b)
  {
    if b == [] {
      assert a + b == a;
    } else {
      assert Front(a + b) == a + Front(b);
      EncodeAllConcat(a, Front(b));
      var x, y, z := EncodeAll(a), EncodeAll(Front(b)), Encode(Last(b));
      assert x + (y + z) == x + y + z;
    }
  }

  lemma EncodeAllCons(t: Tlv, ts: seq<Tlv>)
    ensures EncodeAll([t] + ts) == Encode(t) + EncodeAll(ts)
  {
    EncodeAllConcat([t], ts);
    assert Front([t]) == [] && EncodeAll([t]) == [] + Encode(t);
  }

  lemma EncodeAllSnoc(ts: seq<Tlv>, t: Tlv)
    ensures EncodeAll(ts + [t]) == EncodeAll(ts) + Encode(t)
  {
    assert Front(ts + [t]) == ts;
  }

  /** What the head parser reads off a buffer that starts with the encoding of `t`. */
  lemma HeadOfEncoded(t: Tlv, rest: bytes)
    requires t.Fits()
    ensures StartsWithTlv(Encode(t) + rest)
    ensures HeadTlv(Encode(t) + rest) == t
    ensures (Encode(t) + rest)[t.Size()..] == rest
  {
    var b := Encode(t) + rest;
    LengthRoundTrip(|t.value|);
    assert b[1..5] == BigEndian(|t.value|);
    assert b[1] == BigEndian(|t.value|)[0];
    assert b[5..5 + |t.value|] == t.value;
  }

  lemma EncodedHead(b: bytes)
    requires StartsWithTlv(b)
    ensures HeadTlv(b).Fits()
    ensures b == Encode(HeadTlv(b)) + b[HeadTlv(b).Size()..]
  {
    LengthPrinted(b[1..5]);
  }

  /** Parsing what the printer wrote gives back exactly the TLVs that were added. */
  lemma {:induction false} DecodeEncode(ts: seq<Tlv>)
    requires AllFit(ts)
    ensures Decode(EncodeAll(ts)) == Some(ts)
  {
    if ts != [] {
      assert ts == [ts[0]] + ts[1..];
      EncodeAllCons(ts[0], ts[1..]);
      HeadOfEncoded(ts[0], EncodeAll(ts[1..]));
      DecodeEncode(ts[1..]);
    }
  }

  /** A buffer the parser accepts is the encoding of what it read, and of nothing else. */
  lemma {:induction false} EncodeDecode(b: bytes, ts: seq<Tlv>)
    ensures Decode(b) == Some(ts) <==> AllFit(ts) && EncodeAll(ts) == b
    decreases |b|
  {
    if AllFit(ts) && EncodeAll(ts) == b {
      DecodeEncode(ts);
    }
    if Decode(b) == Some(ts) && b != [] {
      EncodedHead(b);
      EncodeDecode(b[HeadTlv(b).Size()..], ts[1..]);
      EncodeAllCons(ts[0], ts[1..]);
      assert ts == [ts[0]] + ts[1..];
    }
  }

  /** On the wire a TLV is its tag, four bytes of length with the most significant first, and its
      value. */
  lemma EncodeFormat(t: Tlv)
    ensures var e := Encode(t);
      && |e| == 5 + |t.value| && e[0] == t.tag && e[5..] == t.value
      && e[1] as int * 0x100_0000 + e[2] as int * 0x1_0000 + e[3] as int * 0x100 + e[4] as int
         == |t.value| % WORD32
  {
    var n: nat := |t.value|;
    assert n / 0x100_0000 == n / 0x1_0000 / 256 && n / 0x1_0000 == n / 256 / 256;
  }

  const END_MARK: bytes := [END, 0, 0, 0, 0]

  /** tlv_view::verify_end: the last five bytes are those of an empty END TLV. */
  predicate EndsWithMark(b: bytes)
  {
    |b| >= 5 && b[|b| - 5..] == END_MARK
  }

  /** The TLVs that make verify_end answer true when they come last. */
  predicate LooksLikeEnd(t: Tlv) {
    t == Tlv(END, []) || EndsWithMark(t.value)
  }

  /** verify_end sees only bytes: it is true on an END TLV and on a last value that ends like one;
      a shorter value never misleads it, because the length bytes get in the way. */
  lemma VerifyEndMeaning(m: Msg)
    requires m.tlvs != [] && AllFit(m.tlvs)
    ensures EndsWithMark(EncodeMsg(m)) <==> LooksLikeEnd(Last(m.tlvs))
  {
    var t := Last(m.tlvs);
    var head := [m.kind] + EncodeAll(Front(m.tlvs));
    var b := EncodeMsg(m);
    assert b == head + Encode(t);
    assert t in m.tlvs;
    LengthRoundTrip(|t.value|);
    if |t.value| >= 5 {
      assert b[|b| - 5..] == t.value[|t.value| - 5..];
    } else {
      assert Encode(t)[1..5] == BigEndian(|t.value|) == [0, 0, 0, |t.value|];
      if |t.value| == 0 {
        assert b[|b| - 5..] == Encode(t);
        assert Encode(t) == [t.tag, 0, 0, 0, 0];
      } else {
        assert b[|head| + 4] == Encode(t)[4] == |t.value|;
        assert b[|b| - 5..][4 - |t.value|] == b[|head| + 4];
      }
    }
  }
}

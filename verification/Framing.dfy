/** Length-prefixed framing on the socket (core/connection.cpp:101-135, 174-202): an 8-byte
    `size_t`, least significant byte first, and the message. */
module Framing {
  import opened Bytes

  const HEADER: nat := 8

  /** The `width` low bytes of `n`. */
  function LittleEndian(n: nat, width: nat): (b: bytes)
    ensures |b| == width
  {
    if width == 0 then [] else [n % 256] + LittleEndian(n / 256, width - 1)
  }

  /** The header is a `size_t` in the machine's byte order, least significant byte first. */
  lemma {:induction false} LittleEndianAt(n: nat, width: nat, i: nat)
    requires i < width
    ensures LittleEndian(n, width)[i] == n / Power256(i) % 256
  {
    if i > 0 {
      LittleEndianAt(n / 256, width - 1, i - 1);
      assert LittleEndian(n, width)[1..] == LittleEndian(n / 256, width - 1);
      DivideTwice(n, Power256(i - 1));
    }
  }

  lemma DivideTwice(n: nat, d: nat)
    requires d > 0
    ensures n / (256 * d) == n / 256 / d
  {
    var q, r := n / 256, n % 256;
    var a, b := q / d, q % d;
    assert n == 256 * q + r && q == d * a + b;
    assert n == 256 * d * a + (256 * b + r) && 0 <= 256 * b + r < 256 * d;
    QuotientIs(n, 256 * d, a, 256 * b + r);
  }

  lemma QuotientIs(n: nat, d: nat, q: nat, r: nat)
    requires d > 0 && n == d * q + r && r < d
    ensures n / d == q
  {
    var k := n / d - q;
    assert d * k == r - n % d;
    AtLeastOnce(d, k);
  }

  lemma AtLeastOnce(d: nat, k: int)
    ensures k >= 1 ==> d * k >= d
    ensures k <= -1 ==> d * k + d <= 0
  {
  }

  function FromLittleEndian(b: bytes): nat {
    if b == [] then 0 else b[0] as nat + 256 * FromLittleEndian(b[1..])
  }

  function Power256(width: nat): (r: nat)
    ensures r > 0
  {
    if width == 0 then 1 else 256 * Power256(width - 1)
  }

  lemma {:induction false} NumberRoundTrip(n: nat, width: nat)
    requires n < Power256(width)
    ensures FromLittleEndian(LittleEndian(n, width)) == n
  {
    if width > 0 {
      NumberRoundTrip(n / 256, width - 1);
      assert LittleEndian(n, width)[1..] == LittleEndian(n / 256, width - 1);
    }
  }

  lemma {:induction false} BytesRoundTrip(b: bytes)
    ensures LittleEndian(FromLittleEndian(b), |b|) == b
    ensures FromLittleEndian(b) < Power256(|b|)
  {
    if b != [] {
      BytesRoundTrip(b[1..]);
      var rest: nat := FromLittleEndian(b[1..]);
      assert (b[0] as nat + 256 * rest) % 256 == b[0] && (b[0] as nat + 256 * rest) / 256 == rest;
      assert b == [b[0]] + b[1..];
    }
  }

  function Frame(m: bytes): bytes {
    LittleEndian(|m|, HEADER) + m
  }

  function FrameAll(ms: seq<bytes>): bytes {
    if ms == [] then [] else FrameAll(Front(ms)) + Frame(Last(ms))
  }

  /** The reading side: header, then as many bytes as it says. */
  function Unframe(b: bytes): Option<seq<bytes>>
    decreases |b|
  {
    if b == [] then Some([])
    else if |b| < HEADER then None
    else
      var n := FromLittleEndian(b[..HEADER]);
      if |b| < HEADER + n then None
      else match Unframe(b[HEADER + n..])
        case None => None
        case Some(ms) => Some([b[HEADER..HEADER + n]] + ms)
  }

  lemma {:induction false} FrameAllConcat(a: seq<bytes>, b: seq<bytes>)
    ensures FrameAll(a + b) == FrameAll(a) + FrameAll(b)
  {
    if b == [] {
      assert a + b == a;
    } else {
      assert Front(a + b) == a + Front(b);
      FrameAllConcat(a, Front(b));
      assert FrameAll(a) + (FrameAll(Front(b)) + Frame(Last(b))) == FrameAll(a) + FrameAll(Front(b)) + Frame(Last(b));
    }
  }

  lemma FrameAllCons(m: bytes, ms: seq<bytes>)
    ensures FrameAll([m] + ms) == Frame(m) + FrameAll(ms)
  {
    FrameAllConcat([m], ms);
    assert Front([m]) == [] && FrameAll([m]) == [] + Frame(m);
  }

  ghost predicate Sendable(ms: seq<bytes>) {
    forall m <- ms :: |m| < WORD64
  }

  lemma HeaderRange()
    ensures Power256(HEADER) == WORD64
  {
    assert Power256(4) == 0x1_0000_0000;
    assert Power256(8) == 0x1_0000_0000 * 0x1_0000_0000;
  }

  /** The reader recovers exactly the messages that were written, one by one and in order. */
  lemma {:induction false} UnframeFrame(ms: seq<bytes>)
    requires Sendable(ms)
    ensures Unframe(FrameAll(ms)) == Some(ms)
  {
    if ms != [] {
      var m, rest := ms[0], FrameAll(ms[1..]);
      assert ms == [m] + ms[1..];
      FrameAllCons(m, ms[1..]);
      HeaderRange();
      NumberRoundTrip(|m|, HEADER);
      var b := Frame(m) + rest;
      assert b[..HEADER] == LittleEndian(|m|, HEADER);
      assert b[HEADER..HEADER + |m|] == m && b[HEADER + |m|..] == rest;
      UnframeFrame(ms[1..]);
    }
  }

  /** And whatever it reads without fault is what those messages look like when written. */
  lemma {:induction false} FrameUnframe(b: bytes, ms: seq<bytes>)
    requires Unframe(b) == Some(ms)
    ensures Sendable(ms) && FrameAll(ms) == b
    decreases |b|
  {
    hide LittleEndian, FromLittleEndian, Power256, FrameAll;
    if b == [] {
      assert ms == [];
      NoFrames();
    } else {
      var n := FromLittleEndian(b[..HEADER]);
      BytesRoundTrip(b[..HEADER]);
      HeaderRange();
      FrameUnframe(b[HEADER + n..], ms[1..]);
      assert ms == [ms[0]] + ms[1..];
      FrameAllCons(ms[0], ms[1..]);
      assert Frame(ms[0]) == b[..HEADER] + b[HEADER..HEADER + n];
      assert b == b[..HEADER] + b[HEADER..HEADER + n] + b[HEADER + n..];
    }
  }

  lemma NoFrames()
    ensures FrameAll([]) == []
  {
  }
}

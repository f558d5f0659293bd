/** The two checksums as the usual loop over numbers computes them. */
module ChecksumLoops {
  import opened Bits
  import opened Checksums
  import opened Encoding
  import opened Framing
  import opened Scanning
  import Crc

  // ---- The loop ----

  /** Exclusive or, digit by digit. */
  function XorNat(a: nat, b: nat): nat
    decreases a + b
  {
    if a == 0 && b == 0 then 0 else (a % 2 + b % 2) % 2 + 2 * XorNat(a / 2, b / 2)
  }

  function Shift(poly: nat, r: nat): nat {
    if r % 2 == 1 then XorNat(r / 2, poly) else r / 2
  }

  function Shifts(poly: nat, r: nat, n: nat): nat
    decreases n
  {
    if n == 0 then r else Shifts(poly, Shift(poly, r), n - 1)
  }

  /** Each byte is added to the register, which is then shifted eight times. */
  function Loop(poly: nat, r: nat, bytes: seq<Byte>): nat
    decreases |bytes|
  {
    if bytes == [] then r else Loop(poly, Shifts(poly, XorNat(r, bytes[0]), 8), bytes[1..])
  }

  // ---- The loop is the checksum ----

  /** The lowest bit, and the others. */
  lemma Halves(w: Word, n: nat)
    requires w != [] && n == FromBits(w)
    ensures n % 2 == Digit(w[0]) && n / 2 == FromBits(w[1..])
  {
  }

  lemma OneDigit(i: bool, j: bool)
    ensures Digit(i != j) == (Digit(i) + Digit(j)) % 2
  {
  }

  lemma Unfolded(a: nat, b: nat)
    ensures XorNat(a, b) == (a % 2 + b % 2) % 2 + 2 * XorNat(a / 2, b / 2)
  {
    assert XorNat(0, 0) == 0;
  }

  lemma {:induction false} XorIs(a: Word, b: Word)
    requires |a| == |b|
    ensures FromBits(Xor(a, b)) == XorNat(FromBits(a), FromBits(b))
    decreases |a|
  {
    if a != [] {
      var x := Xor(a, b);
      XorIs(a[1..], b[1..]);
      assert x[1..] == Xor(a[1..], b[1..]);
      Halves(a, FromBits(a));
      Halves(b, FromBits(b));
      OneDigit(a[0], b[0]);
      Unfolded(FromBits(a), FromBits(b));
    }
  }

  lemma {:induction false} ZerosAre(n: nat)
    ensures FromBits(Zeros(n)) == 0
    decreases n
  {
    if n > 0 {
      ZerosAre(n - 1);
      assert Zeros(n)[1..] == Zeros(n - 1);
    }
  }

  lemma PaddedIs(w: Word, n: nat)
    ensures FromBits(w + Zeros(n)) == FromBits(w)
  {
    FromBitsConcat(w, Zeros(n));
    ZerosAre(n);
  }

  lemma ShiftedOut(r: Word, s: Word)
    requires r != [] && s == r[1..] + [false]
    ensures FromBits(r) % 2 == Digit(r[0]) && FromBits(s) == FromBits(r) / 2
  {
    Halves(r, FromBits(r));
    PaddedIs(r[1..], 1);
    assert s == r[1..] + Zeros(1);
  }

  lemma ShiftIs(q: Word, r: Word)
    requires |q| == |r| > 0
    ensures FromBits(Crc.Step(q, r)) == Shift(FromBits(q), FromBits(r))
  {
    var s := r[1..] + [false];
    ShiftedOut(r, s);
    XorIs(s, q);
  }

  lemma {:induction false} ShiftsAre(q: Word, r: Word, n: nat)
    requires |q| == |r| > 0
    ensures FromBits(Crc.Steps(q, r, n)) == Shifts(FromBits(q), FromBits(r), n)
    decreases n
  {
    if n > 0 {
      ShiftIs(q, r);
      ShiftsAre(q, Crc.Step(q, r), n - 1);
    }
  }

  lemma ByteIs(q: Word, r: Word, b: Byte, bits: Word)
    requires |q| == |r| >= 8 && |bits| == 8 && FromBits(bits) == b
    ensures FromBits(Crc.Feed(q, r, bits)) == Shifts(FromBits(q), XorNat(FromBits(r), b), |bits|)
  {
    var pad := bits + Zeros(|r| - 8);
    Crc.FeedIsSteps(q, r, bits);
    PaddedIs(bits, |r| - 8);
    XorIs(r, pad);
    ShiftsAre(q, Xor(r, pad), |bits|);
  }

  lemma {:induction false} LoopIs(q: Word, r: Word, bytes: seq<Byte>)
    requires |q| == |r| >= 8
    ensures FromBits(Crc.Feed(q, r, Crc.MessageBits(true, bytes))) == Loop(FromBits(q), FromBits(r), bytes)
    decreases |bytes|
  {
    if bytes != [] {
      var bits := ToBits(bytes[0], 8);
      Pow2Small();
      FromToBits(bytes[0], 8);
      ByteIs(q, r, bytes[0], bits);
      Crc.FeedConcat(q, r, bits, Crc.MessageBits(true, bytes[1..]));
      LoopIs(q, Crc.Feed(q, r, bits), bytes[1..]);
    }
  }

  // ---- The constants ----

  lemma Mask8(q: Word)
    requires q == Crc.Mask(CRC8)
    ensures FromBits(q) == 0x8C
  {
    assert q == [false, false, true, true, false, false, false, true];
    ByteValue(q);
  }

  lemma Mask16(q: Word)
    requires q == Crc.Mask(CRC16)
    ensures FromBits(q) == 0x8408
  {
    var lo, hi := Reverse(HIGH10), Reverse(LOW21);
    assert q == lo + hi;
    ByteValue(lo);
    ByteValue(hi);
    FromBitsConcat(lo, hi);
    Pow2Small();
  }

  lemma AllOnes(w: Word)
    requires |w| == 8 && forall i :: 0 <= i < 8 ==> w[i]
    ensures FromBits(w) == 0xFF
  {
    ByteValue(w);
  }

  lemma Start8(w: Word)
    requires w == Crc.Null(CRC8)
    ensures |w| == 8 && FromBits(w) == 0xFF
  {
    AllOnes(w);
  }

  lemma Start16(w: Word)
    requires w == Crc.Null(CRC16)
    ensures |w| == 16 && FromBits(w) == 0xFFFF
  {
    AllOnes(w[..8]);
    AllOnes(w[8..]);
    assert w == w[..8] + w[8..];
    FromBitsConcat(w[..8], w[8..]);
    Pow2Small();
  }

  lemma NumberIsLoop(c: Crc.Config, q: Word, start: Word, bytes: seq<Byte>)
    requires Plain(c) && q == Crc.Mask(c) && |start| == c.Width()
    ensures Number(c, bytes, start) == Loop(FromBits(q), FromBits(start), bytes)
  {
    ChecksumIsRegister(c, bytes, start);
    LoopIs(q, start, bytes);
  }

  /** The header checksum of every message: polynomial 0x31 reflected, starting from 0xFF. */
  lemma HeaderCrcIsLoop(bytes: seq<Byte>)
    ensures HeaderCrc(bytes) == Loop(0x8C, 0xFF, bytes)
  {
    BothPlain();
    Mask8(Crc.Mask(CRC8));
    Start8(Crc.Null(CRC8));
    NumberIsLoop(CRC8, Crc.Mask(CRC8), Crc.Null(CRC8), bytes);
  }

  /** The frame checksum of every message: polynomial 0x1021 reflected, starting from 0xFFFF. */
  lemma FrameCrcIsLoop(bytes: seq<Byte>)
    ensures FrameCrc(bytes) == Loop(0x8408, 0xFFFF, bytes)
  {
    BothPlain();
    Mask16(Crc.Mask(CRC16));
    Start16(Crc.Null(CRC16));
    NumberIsLoop(CRC16, Crc.Mask(CRC16), Crc.Null(CRC16), bytes);
  }

  lemma EmptyMessages()
    ensures HeaderCrc([]) == 0xFF && FrameCrc([]) == 0xFFFF
  {
    HeaderCrcIsLoop([]);
    FrameCrcIsLoop([]);
  }

  // ---- A frame, byte by byte ----

  lemma FrameParts(p: Protocol, sequence: Byte, packet: Packet, f: seq<Byte>, n: nat)
    requires Encodable(packet) && f == Encode(p, sequence, packet) && n == |packet.payload|
    ensures |f| == n + 9 && f[..4] == [START_BYTE, Low(n), High(n), sequence]
    ensures f[4] == p.headerCrc(f[..4]) && f[5] == Low(packet.cmd) && f[6] == High(packet.cmd)
    ensures f[7..n + 7] == packet.payload && U16(f[n + 7], f[n + 8]) == p.frameCrc(f[..n + 7])
  {
    EncodeLayout(p, sequence, packet, []);
    assert f + [] == f;
    LowHigh(p.frameCrc(f[..n + 7]));
  }

  /** The start byte, the length and the sequence number with their checksum, the command and the payload,
      and the checksum of all that; numbers of two bytes with the low byte first. */
  lemma FrameBytes(p: Protocol, sequence: Byte, packet: Packet, f: seq<Byte>, n: nat)
    requires p.maxFrame >= 9 && p == Instance(p.maxFrame)
    requires Encodable(packet) && f == Encode(p, sequence, packet) && n == |packet.payload|
    ensures |f| == n + 9 && f[..4] == [0xA5, n % 256, n / 256, sequence]
    ensures f[4] == Loop(0x8C, 0xFF, f[..4])
    ensures f[5] == packet.cmd % 256 && f[6] == packet.cmd / 256 && f[7..n + 7] == packet.payload
    ensures var lo: nat, hi: nat := f[n + 7], f[n + 8]; lo + 256 * hi == Loop(0x8408, 0xFFFF, f[..n + 7])
  {
    FrameParts(p, sequence, packet, f, n);
    HeaderCrcIsLoop(f[..4]);
    FrameCrcIsLoop(f[..n + 7]);
  }
}

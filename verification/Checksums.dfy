/** Checksums as numbers, and the two that the protocol uses. */
module Checksums {
  import opened Basics
  import opened Bits
  import opened Framing
  import Crc

  /** Input and output reflected, nothing added at the end, and a polynomial with a constant term. */
  ghost predicate Plain(c: Crc.Config) {
    && c.Valid()
    && c.reflIn && c.reflOut
    && c.xorOut == Zeros(c.Width())
    && Crc.Proper(Crc.Mask(c))
  }

  /** The checksum of `bytes` continued from an earlier result, as a number. */
  function Number(c: Crc.Config, bytes: seq<Byte>, prior: Word): (n: nat)
    requires c.Valid() && |prior| == c.Width()
    ensures n < Pow2(c.Width())
  {
    FromBits(Crc.Checksum(c, bytes, prior))
  }

  lemma NumberContinues(c: Crc.Config, a: seq<Byte>, b: seq<Byte>, prior: Word)
    requires c.Valid() && |prior| == c.Width()
    ensures Number(c, b, ToBits(Number(c, a, prior), c.Width())) == Number(c, a + b, prior)
  {
    ToFromBits(Crc.Checksum(c, a, prior));
    Crc.Continuation(c, a, b, prior);
  }

  method CalcNumber(c: Crc.Config, table: seq<Word>, bytes: seq<Byte>, prior: Word) returns (n: nat)
    requires c.Valid() && Crc.IsTable(c, table) && |prior| == c.Width()
    ensures n == Number(c, bytes, prior)
  {
    var r := Crc.Calc(c, table, bytes, prior);
    n := FromBits(r);
  }

  /** The register a message leaves. */
  function Register(c: Crc.Config, bytes: seq<Byte>, r: Word): (s: Word)
    requires |r| == c.Width() > 0
    ensures |s| == |r|
  {
    Crc.Feed(Crc.Mask(c), r, Crc.MessageBits(true, bytes))
  }

  lemma ChecksumIsRegister(c: Crc.Config, bytes: seq<Byte>, prior: Word)
    requires Plain(c) && |prior| == c.Width()
    ensures Crc.Checksum(c, bytes, prior) == Register(c, bytes, prior)
  {
    assert Xor(prior, c.xorOut) == prior;
    var r := Register(c, bytes, prior);
    assert Xor(r, c.xorOut) == r;
  }

  // ---- What a checksum detects ----

  lemma RegisterThree(c: Crc.Config, r: Word, a: seq<Byte>, b: seq<Byte>, d: seq<Byte>)
    requires |r| == c.Width() > 0
    ensures Register(c, a + b + d, r) ==
            Crc.Feed(Crc.Mask(c), r,
                     Crc.MessageBits(true, a) + Crc.MessageBits(true, b) + Crc.MessageBits(true, d))
  {
    Crc.MessageBitsConcat(true, a + b, d);
    Crc.MessageBitsConcat(true, a, b);
  }

  lemma {:induction false} MessageBitsInjective(x: seq<Byte>, y: seq<Byte>)
    requires |x| == |y| && Crc.MessageBits(true, x) == Crc.MessageBits(true, y)
    ensures x == y
  {
    if x != [] {
      var xs, ys := Crc.MessageBits(true, x), Crc.MessageBits(true, y);
      assert xs[..8] == ToBits(x[0], 8) && ys[..8] == ToBits(y[0], 8);
      assert xs[8..] == Crc.MessageBits(true, x[1..]) && ys[8..] == Crc.MessageBits(true, y[1..]);
      ByteBitsInjective(x[0], y[0]);
      MessageBitsInjective(x[1..], y[1..]);
      assert x == [x[0]] + x[1..] && y == [y[0]] + y[1..];
    }
  }

  /** Messages that agree but for as many bytes as the register holds, and leave the
      same register, agree there too. */
  lemma WindowSeen(c: Crc.Config, r: Word, before: seq<Byte>, x: seq<Byte>, y: seq<Byte>, after: seq<Byte>)
    requires Plain(c) && |r| == c.Width()
    requires |x| == |y| && 8 * |x| <= c.Width()
    requires Register(c, before + x + after, r) == Register(c, before + y + after, r)
    ensures x == y
  {
    RegisterThree(c, r, before, x, after);
    RegisterThree(c, r, before, y, after);
    Crc.BurstSeen(Crc.Mask(c), r, Crc.MessageBits(true, before),
                  Crc.MessageBits(true, x), Crc.MessageBits(true, y), Crc.MessageBits(true, after));
    MessageBitsInjective(x, y);
  }

  lemma TwoBytes(lo: Byte, hi: Byte)
    ensures Crc.MessageBits(true, [lo, hi]) == ToBits(lo, 8) + ToBits(hi, 8)
  {
    assert [lo] + [hi] == [lo, hi];
    Crc.MessageBitsConcat(true, [lo], [hi]);
    Crc.MessageBitsOne(true, lo);
    Crc.MessageBitsOne(true, hi);
  }

  lemma PairBits(lo: Byte, hi: Byte, one: nat, two: nat)
    requires Pow2(one) == 256 && two == one + one
    ensures ToBits(U16(lo, hi), two) == ToBits(lo, one) + ToBits(hi, one)
  {
    PairNumber(lo, hi, Pow2(one));
    HalvesOfBits(lo, hi, one, two, Pow2(one), U16(lo, hi));
  }

  lemma HalvesOfBits(lo: nat, hi: nat, one: nat, two: nat, p: nat, n: nat)
    requires p == Pow2(one) && lo < p && hi < p && two == one + one && n == lo + p * hi
    ensures ToBits(n, two) == ToBits(lo, one) + ToBits(hi, one)
  {
    ToBitsConcat(lo, hi, one, one);
  }

  lemma PairNumber(lo: Byte, hi: Byte, p: nat)
    requires p == 256
    ensures lo + p * hi == U16(lo, hi)
  {
  }

  /** A message followed by its own 16-bit checksum, low byte first, clears the
      register, and nothing else in the place of the checksum does. */
  lemma Codeword(c: Crc.Config, bytes: seq<Byte>, lo: Byte, hi: Byte, prior: Word)
    requires Plain(c) && c.Width() == 16 == |prior|
    ensures Number(c, bytes, prior) == U16(lo, hi) <==>
            Register(c, bytes + [lo, hi], prior) == Zeros(16)
  {
    var r, tail := Register(c, bytes, prior), ToBits(U16(lo, hi), 16);
    Pow2Small();
    ChecksumIsRegister(c, bytes, prior);
    TwoBytes(lo, hi);
    PairBits(lo, hi, 8, 16);
    Crc.MessageBitsConcat(true, bytes, [lo, hi]);
    Crc.FeedConcat(Crc.Mask(c), prior, Crc.MessageBits(true, bytes), tail);
    Crc.Residue(Crc.Mask(c), r, tail);
    assert Number(c, bytes, prior) == FromBits(r);
    FromToBits(U16(lo, hi), 16);
    ToFromBits(r);
  }

  // ---- The two checksums ----

  function Ones(n: nat): (w: Word)
    ensures |w| == n
  {
    seq(n, _ => true)
  }

  /** The bits of 0x31, and of the low and high bytes of 0x1021. */
  const POLY8: Word := [true, false, false, false, true, true, false, false]
  const LOW21: Word := [true, false, false, false, false, true, false, false]
  const HIGH10: Word := [false, false, false, false, true, false, false, false]

  /** Poly 0x31, initially 0xFF, input and output reflected. */
  const CRC8: Crc.Config := Crc.Config(POLY8, Ones(8), true, true, Zeros(8))

  /** CRC-16/MCRF4XX: poly 0x1021, initially 0xFFFF, input and output reflected. */
  const CRC16: Crc.Config := Crc.Config(LOW21 + HIGH10, Ones(16), true, true, Zeros(16))

  lemma BothPlain()
    ensures Plain(CRC8) && CRC8.Width() == 8
    ensures Plain(CRC16) && CRC16.Width() == 16
  {
  }

  /** The feedback polynomials are 0x31 and 0x1021. */
  lemma Constants(poly8: Word, poly16: Word)
    requires poly8 == CRC8.poly && poly16 == CRC16.poly
    ensures FromBits(poly8) == 0x31 && FromBits(poly16) == 0x1021
  {
    var lo, hi := poly16[..8], poly16[8..];
    assert lo == LOW21 && hi == HIGH10 && poly16 == lo + hi;
    Byte31(poly8);
    Byte21(lo);
    Byte10(hi);
    FromBitsConcat(lo, hi);
    Pow2Small();
  }

  lemma Byte31(w: Word)
    requires w == POLY8
    ensures FromBits(w) == 0x31
  {
    ByteValue(w);
  }

  lemma Byte21(w: Word)
    requires w == LOW21
    ensures FromBits(w) == 0x21
  {
    ByteValue(w);
  }

  lemma Byte10(w: Word)
    requires w == HIGH10
    ensures FromBits(w) == 0x10
  {
    ByteValue(w);
  }

  function Digit(b: bool): nat { if b then 1 else 0 }

  lemma FromBitsTail(w: Word, i: nat)
    requires i < |w|
    ensures FromBits(w[i..]) == Digit(w[i]) + 2 * FromBits(w[i + 1..])
  {
    assert w[i..][1..] == w[i + 1..];
  }

  lemma ByteValue(w: Word)
    requires |w| == 8
    ensures FromBits(w) == Digit(w[0]) + 2 * Digit(w[1]) + 4 * Digit(w[2]) + 8 * Digit(w[3])
                           + 16 * Digit(w[4]) + 32 * Digit(w[5]) + 64 * Digit(w[6]) + 128 * Digit(w[7])
  {
    assert w[0..] == w && w[8..] == [];
    forall i: nat | i < 8
      ensures FromBits(w[i..]) == Digit(w[i]) + 2 * FromBits(w[i + 1..])
    {
      FromBitsTail(w, i);
    }
  }

  function HeaderCrc(bytes: seq<Byte>): (crc: Byte)
  {
    BothPlain();
    Pow2Small();
    Number(CRC8, bytes, Crc.Null(CRC8))
  }

  /** The checksum of a frame so far, and continued from the checksum of the bytes before. */
  function FrameCrc(bytes: seq<Byte>): (crc: Half)
  {
    BothPlain();
    Pow2Small();
    Number(CRC16, bytes, Crc.Null(CRC16))
  }

  function FrameCrcFrom(bytes: seq<Byte>, prior: Half): (crc: Half)
  {
    BothPlain();
    Pow2Small();
    Number(CRC16, bytes, ToBits(prior, 16))
  }

  /** The parser's second call continues the first: two segments check like one. */
  lemma SegmentsCheckAsOne(a: seq<Byte>, b: seq<Byte>)
    ensures FrameCrcFrom(b, FrameCrc(a)) == FrameCrc(a + b)
  {
    BothPlain();
    NumberContinues(CRC16, a, b, Crc.Null(CRC16));
  }

  /** The protocol the stack uses, for a given largest frame. */
  function Instance(maxFrame: nat): (p: Protocol)
    requires maxFrame >= HEADER_SIZE + TAIL_SIZE
    ensures p.maxFrame == maxFrame
  {
    Template(HeaderCrc, FrameCrc, maxFrame)
  }

  /** The lookup tables of both checksums. */
  datatype Tables = Tables(header: seq<Word>, frame: seq<Word>)
  {
    ghost predicate Valid() {
      BothPlain();
      Crc.IsTable(CRC8, header) && Crc.IsTable(CRC16, frame)
    }
  }

  method MakeTables() returns (t: Tables)
    ensures t.Valid()
  {
    BothPlain();
    var header := Crc.MakeTable(CRC8);
    var frame := Crc.MakeTable(CRC16);
    t := Tables(header, frame);
  }

  /** The protocol `p` uses these checksums, and `t` holds their tables. The fact lies
      behind a trigger: a proof sees it only where it mentions `Opened`. */
  ghost predicate Fit(p: Protocol, t: Tables) {
    forall k: nat {:trigger Opened(k)} :: Opened(k) ==> t.Valid() && p == Instance(p.maxFrame)
  }

  method CalcHeader(p: Protocol, t: Tables, bytes: seq<Byte>) returns (crc: Byte)
    requires Fit(p, t)
    ensures crc == p.headerCrc(bytes)
  {
    assert Opened(0);
    BothPlain();
    Pow2Small();
    crc := CalcNumber(CRC8, t.header, bytes, Crc.Null(CRC8));
  }

  /** The frame checksum of `s1` and `s2`, the second continuing from the first. */
  method CalcFrame(p: Protocol, t: Tables, s1: seq<Byte>, s2: seq<Byte>) returns (crc: Half)
    requires Fit(p, t)
    ensures crc == p.frameCrc(s1 + s2)
  {
    assert Opened(0);
    BothPlain();
    Pow2Small();
    crc := CalcNumber(CRC16, t.frame, s1, Crc.Null(CRC16));
    if s2 != [] {
      SegmentsCheckAsOne(s1, s2);
      crc := CalcNumber(CRC16, t.frame, s2, ToBits(crc, 16));
    } else {
      assert s1 + s2 == s1;
    }
  }
}

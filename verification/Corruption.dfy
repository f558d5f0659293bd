/** A damaged frame is not accepted where it starts. */
module Corruption {
  import opened Bits
  import opened Scanning
  import opened Framing
  import opened Encoding
  import opened Checksums

  /** The received bytes differ from the frame at most in `n` bytes from `i` on. */
  ghost predicate Within(f: seq<Byte>, r: seq<Byte>, i: nat, n: nat) {
    && |r| == |f| && i + n <= |f|
    && forall k :: 0 <= k < |f| && !(i <= k < i + n) ==> r[k] == f[k]
  }

  lemma Parts(s: seq<Byte>, i: nat, j: nat)
    requires i <= j <= |s|
    ensures s == s[..i] + s[i..j] + s[j..]
  {
  }

  /** A checksum under which messages differing only in a window it can hold are equal there. */
  lemma WindowOf(c: Crc.Config, f: seq<Byte>, r: seq<Byte>, i: nat, n: nat, start: Word)
    requires Plain(c) && |start| == c.Width() && Within(f, r, i, n) && 8 * n <= c.Width()
    requires Register(c, f, start) == Register(c, r, start)
    ensures f == r
  {
    var before, after := f[..i], f[i + n..];
    assert r[..i] == before && r[i + n..] == after;
    Parts(f, i, i + n);
    Parts(r, i, i + n);
    WindowSeen(c, start, before, f[i..i + n], r[i..i + n], after);
  }

  /** The header checksum tells apart headers that differ in one byte. */
  lemma HeaderDiffers(f: seq<Byte>, r: seq<Byte>, i: nat)
    requires Within(f, r, i, 1) && HeaderCrc(f) == HeaderCrc(r)
    ensures f == r
  {
    BothPlain();
    var start := Crc.Null(CRC8);
    FromBitsInjective(Crc.Checksum(CRC8, f, start), Crc.Checksum(CRC8, r, start));
    ChecksumIsRegister(CRC8, f, start);
    ChecksumIsRegister(CRC8, r, start);
    WindowOf(CRC8, f, r, i, 1, start);
  }

  lemma SoundHeadersAgree(f: seq<Byte>, r: seq<Byte>, i: nat)
    requires |f| >= 5 && i < 4 && Within(f, r, i, 1)
    requires HeaderCrc(f[..4]) == f[4] && HeaderCrc(r[..4]) == r[4]
    ensures r == f
  {
    var hf, hr := f[..4], r[..4];
    HeaderDiffers(hf, hr, i);
    assert r[i] == hr[i] && hf[i] == f[i];
  }

  /** Frames of the same length that both carry their checksum do not differ in two adjacent bytes only. */
  lemma FrameDiffers(f: seq<Byte>, r: seq<Byte>, i: nat)
    requires Within(f, r, i, 2) && |f| >= 2
    requires FrameCrc(f[..|f| - 2]) == U16(f[|f| - 2], f[|f| - 1])
    requires FrameCrc(r[..|f| - 2]) == U16(r[|f| - 2], r[|f| - 1])
    ensures f == r
  {
    BothPlain();
    var start := Crc.Null(CRC16);
    SoundClears(CRC16, f, start);
    SoundClears(CRC16, r, start);
    WindowOf(CRC16, f, r, i, 2, start);
  }

  /** A frame that carries its checksum clears the register. */
  lemma SoundClears(c: Crc.Config, f: seq<Byte>, start: Word)
    requires Plain(c) && c.Width() == 16 == |start| && |f| >= 2
    requires Number(c, f[..|f| - 2], start) == U16(f[|f| - 2], f[|f| - 1])
    ensures Register(c, f, start) == Zeros(16)
  {
    var n := |f|;
    Codeword(c, f[..n - 2], f[n - 2], f[n - 1], start);
    assert f == f[..n - 2] + [f[n - 2], f[n - 1]];
  }

  /** A frame accepted at the head of a stream. */
  predicate AcceptedAtHead(p: Protocol, s: seq<Byte>) {
    s != [] && s[0] == START_BYTE && Judge(p, s).Success?
  }

  /** What acceptance means for the received bytes, if they carry the length of the frame sent. */
  lemma AcceptedMeans(p: Protocol, r: seq<Byte>, t: seq<Byte>)
    requires |r| >= HEADER_SIZE + TAIL_SIZE && AcceptedAtHead(p, r + t)
    ensures r[0] == START_BYTE && p.headerCrc(r[..4]) == r[4]
    ensures HEADER_SIZE + U16(r[1], r[2]) + TAIL_SIZE == |r| ==>
              p.frameCrc(r[..|r| - 2]) == U16(r[|r| - 2], r[|r| - 1])
  {
    var s := r + t;
    assert s[..4] == r[..4];
    assert s[..|r| - 2] == r[..|r| - 2];
  }

  /** What the sender put into the frame. */
  lemma EncodedMeans(p: Protocol, sequence: Byte, packet: Packet)
    requires Encodable(packet)
    ensures var f := Encode(p, sequence, packet);
            && f[0] == START_BYTE && p.headerCrc(f[..4]) == f[4]
            && HEADER_SIZE + U16(f[1], f[2]) + TAIL_SIZE == |f|
            && p.frameCrc(f[..|f| - 2]) == U16(f[|f| - 2], f[|f| - 1])
  {
    var f := Encode(p, sequence, packet);
    EncodeLayout(p, sequence, packet, []);
    assert f + [] == f;
    LowHigh(|packet.payload|);
    LowHigh(p.frameCrc(Header(p, sequence, packet) + packet.payload));
    assert f[1] == f[..4][1] && f[2] == f[..4][2];
  }

  /** If the received bytes differ from the frame sent at most in two adjacent bytes and
      carry its length, acceptance means that they are the frame, whatever follows them. */
  lemma TwoByteDamageRejected(maxFrame: nat, sequence: Byte, packet: Packet, r: seq<Byte>, i: nat, t: seq<Byte>)
    requires maxFrame >= HEADER_SIZE + TAIL_SIZE && Encodable(packet)
    requires var f := Encode(Instance(maxFrame), sequence, packet);
             Within(f, r, i, 2) && r[1] == f[1] && r[2] == f[2]
    requires AcceptedAtHead(Instance(maxFrame), r + t)
    ensures r == Encode(Instance(maxFrame), sequence, packet)
  {
    var p := Instance(maxFrame);
    EncodedMeans(p, sequence, packet);
    AcceptedMeans(p, r, t);
    FrameDiffers(Encode(p, sequence, packet), r, i);
  }

  /** One byte of the length field is enough for the header checksum. */
  lemma LengthDamageRejected(maxFrame: nat, sequence: Byte, packet: Packet, r: seq<Byte>, i: nat, t: seq<Byte>)
    requires maxFrame >= HEADER_SIZE + TAIL_SIZE && Encodable(packet) && 1 <= i <= 2
    requires Within(Encode(Instance(maxFrame), sequence, packet), r, i, 1)
    requires AcceptedAtHead(Instance(maxFrame), r + t)
    ensures r == Encode(Instance(maxFrame), sequence, packet)
  {
    var p := Instance(maxFrame);
    var f := Encode(p, sequence, packet);
    EncodedMeans(p, sequence, packet);
    AcceptedMeans(p, r, t);
    SoundHeadersAgree(f, r, i);
  }

  /** If the received bytes differ from the frame sent at most in one byte, be it of the
      start, the length, a checksum or the payload, acceptance means that they are the frame. */
  lemma OneByteDamageRejected(maxFrame: nat, sequence: Byte, packet: Packet, r: seq<Byte>, i: nat, t: seq<Byte>)
    requires maxFrame >= HEADER_SIZE + TAIL_SIZE && Encodable(packet)
    requires Within(Encode(Instance(maxFrame), sequence, packet), r, i, 1)
    requires AcceptedAtHead(Instance(maxFrame), r + t)
    ensures r == Encode(Instance(maxFrame), sequence, packet)
  {
    if 1 <= i <= 2 {
      LengthDamageRejected(maxFrame, sequence, packet, r, i, t);
    } else {
      var j := if i + 1 < |r| then i else i - 1;
      assert Within(Encode(Instance(maxFrame), sequence, packet), r, j, 2);
      TwoByteDamageRejected(maxFrame, sequence, packet, r, j, t);
    }
  }
}

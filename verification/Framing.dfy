/** The frame format, the verdict on one frame, and the pure stream scanner. */
module Framing {
  import opened Bits
  import opened Scanning

  const HEADER_SIZE: nat := 7
  const TAIL_SIZE: nat := 2

  type Half = n: nat | n < 65536

  /** What the parser is instantiated with: its two checksums and its largest frame. */
  datatype Template = Template(headerCrc: seq<Byte> -> Byte, frameCrc: seq<Byte> -> Half, maxFrame: nat)

  /** The largest frame is at least a header and a tail. */
  type Protocol = t: Template | t.maxFrame >= 9 witness Template(_ => 0, _ => 0, 9)

  /** A little-endian 16-bit field. */
  function U16(lo: Byte, hi: Byte): (n: Half)
  {
    lo + 256 * hi
  }

  function Judge(p: Protocol, s: seq<Byte>): (v: Verdict)
    ensures v.Success? ==> HEADER_SIZE + TAIL_SIZE <= v.length <= |s| && v.length <= p.maxFrame
                           && |v.packet.payload| == v.length - (HEADER_SIZE + TAIL_SIZE)
    ensures v.Incomplete? ==> |s| < p.maxFrame
    ensures v.Failure? ==> s != []
  {
    if |s| < HEADER_SIZE then Incomplete
    else if p.headerCrc(s[..4]) != s[4] then Failure
    else
      var dataLen := U16(s[1], s[2]);
      if dataLen > p.maxFrame - HEADER_SIZE - TAIL_SIZE then Failure
      else
        var total := HEADER_SIZE + dataLen + TAIL_SIZE;
        if |s| < total then Incomplete
        else if p.frameCrc(s[..total - 2]) != U16(s[total - 2], s[total - 1]) then Failure
        else Success(Packet(U16(s[5], s[6]), s[HEADER_SIZE..HEADER_SIZE + dataLen]), total)
  }

  /** A verdict other than Incomplete is not changed by the bytes that follow. */
  lemma JudgeStable(p: Protocol, s: seq<Byte>, t: seq<Byte>)
    requires !Judge(p, s).Incomplete?
    ensures Judge(p, s + t) == Judge(p, s)
  {
    var u := s + t;
    assert u[..4] == s[..4];
    var total := HEADER_SIZE + U16(s[1], s[2]) + TAIL_SIZE;
    if total <= |s| {
      assert u[..total - 2] == s[..total - 2];
      assert u[HEADER_SIZE..total - 2] == s[HEADER_SIZE..total - 2];
    }
  }

  /** The scanner a parser for `p` is meant to be. */
  function ScannerOf(p: Protocol): (c: Scanner)
    ensures c.maxFrame == p.maxFrame
  {
    Scanner(s => Judge(p, s), p.maxFrame)
  }

  lemma ScannerIsSane(p: Protocol)
    ensures ScannerOf(p).Sane() && ScannerOf(p).Stable()
  {
    var c := ScannerOf(p);
    forall s, u | s <= u && !c.judge(s).Incomplete?
      ensures c.judge(u) == c.judge(s)
    {
      assert u == s + u[|s|..];
      JudgeStable(p, s, u[|s|..]);
    }
  }
}

/** The streaming parser: a loop over the two-region buffer that does what the pure scanner does. */
module Parsers {
  import opened Bits
  import opened BipRegions
  import opened BipBuffers
  import opened Scanning
  import opened Framing
  import Checksums
  import Encoding

  // ---- Sizes fixed at compile time ----

  /** The smallest of `from`, `2 * from`, `4 * from`, ... that is at least `n`. */
  function BitCeil(n: nat, from: nat): (c: nat)
    requires from > 0
    ensures c >= n && c >= from
    ensures c > from ==> c < 2 * n
    decreases n - from
  {
    if from >= n then from else BitCeil(n, 2 * from)
  }

  lemma {:induction false} BitCeilIsPower(n: nat, k: nat)
    ensures exists m :: m >= k && BitCeil(n, Pow2(k)) == Pow2(m)
    decreases n - Pow2(k)
  {
    if Pow2(k) < n {
      BitCeilIsPower(n, k + 1);
    }
  }

  function BufferSize(maxFrame: nat): (size: nat)
    ensures size >= 4 * maxFrame
  {
    BitCeil(4 * maxFrame, 1)
  }

  // ---- The two segments of a frame that wraps ----

  function Received(s1: seq<Byte>, s2: seq<Byte>, at: nat): (crc: Half)
    requires at + 2 <= |s1| + |s2|
    ensures crc == U16((s1 + s2)[at], (s1 + s2)[at + 1])
  {
    if at + 2 <= |s1| then U16(s1[at], s1[at + 1])
    else if at >= |s1| then U16(s2[at - |s1|], s2[at - |s1| + 1])
    else U16(s1[at], s2[0])
  }

  function PayloadSpans(s1: seq<Byte>, s2: seq<Byte>, dataLen: nat): (spans: (seq<Byte>, seq<Byte>))
    requires HEADER_SIZE + dataLen <= |s1| + |s2|
  {
    if HEADER_SIZE < |s1| then
      var p1 := s1[HEADER_SIZE..];
      if |p1| >= dataLen then (p1[..dataLen], []) else (p1, s2[..dataLen - |p1|])
    else
      ([], s2[HEADER_SIZE - |s1|..][..dataLen])
  }

  lemma PayloadSpansSlice(s1: seq<Byte>, s2: seq<Byte>, dataLen: nat)
    requires HEADER_SIZE + dataLen <= |s1| + |s2|
    ensures PayloadSpans(s1, s2, dataLen).0 + PayloadSpans(s1, s2, dataLen).1 ==
            (s1 + s2)[HEADER_SIZE..HEADER_SIZE + dataLen]
  {
  }

  /** memchr: the first position of `b`. */
  method FindByte(bytes: seq<Byte>, b: Byte) returns (found: bool, at: nat)
    ensures found ==> at < |bytes| && bytes[at] == b
    ensures !found ==> at == |bytes|
    ensures b !in bytes[..at]
  {
    at := 0;
    while at < |bytes| && bytes[at] != b
      invariant at <= |bytes| && b !in bytes[..at]
    {
      at := at + 1;
    }
    found := at < |bytes|;
  }

  class Parser {
    const p: Protocol
    const tables: Checksums.Tables
    const buffer: BipBuffer

    /** The packets dispatched so far. */
    var log: seq<Packet>

    ghost predicate Valid()
      reads this, buffer
    {
      Checksums.Fit(p, tables) && buffer.Valid()
    }

    constructor (maxFrame: nat)
      requires maxFrame >= HEADER_SIZE + TAIL_SIZE
      ensures Valid() && fresh(buffer) && fresh(buffer.data)
      ensures p.maxFrame == maxFrame && buffer.data.Length == BufferSize(maxFrame)
      ensures buffer.Layout() == Regions(0, 0, 0) && log == []
    {
      p := Checksums.Instance(maxFrame);
      var both := Checksums.MakeTables();
      tables := both;
      buffer := new BipBuffer(BufferSize(maxFrame));
      log := [];
    }

    method HeaderChecksum(bytes: seq<Byte>) returns (crc: Byte)
      requires Valid()
      ensures crc == p.headerCrc(bytes)
    {
      crc := Checksums.CalcHeader(p, tables, bytes);
    }

    /** The frame checksum over the first `length` bytes of two segments. */
    method FrameChecksum(s1: seq<Byte>, s2: seq<Byte>, length: nat) returns (crc: Half)
      requires Valid() && length <= |s1| + |s2|
      ensures crc == p.frameCrc((s1 + s2)[..length])
    {
      if length <= |s1| {
        assert (s1 + s2)[..length] == s1[..length] + [];
        crc := Checksums.CalcFrame(p, tables, s1[..length], []);
      } else {
        assert (s1 + s2)[..length] == s1 + s2[..length - |s1|];
        crc := Checksums.CalcFrame(p, tables, s1, s2[..length - |s1|]);
      }
    }

    /** The first `length` bytes of the queue, as two segments. */
    method Segments(length: nat) returns (s1: seq<Byte>, s2: seq<Byte>)
      requires Valid() && length <= buffer.Available()
      ensures s1 + s2 == buffer.Contents()[..length]
    {
      var spans := buffer.GetReadSpans(0, length);
      ReadSpansSlice(buffer.data[..], buffer.Layout(), 0, length);
      s1 := buffer.data[spans.0.start..spans.0.start + spans.0.len];
      s2 := buffer.data[spans.1.start..spans.1.start + spans.1.len];
    }

    /** The header at the head of the queue, copied only if it wraps. */
    method ReadHeader() returns (header: seq<Byte>)
      requires Valid() && buffer.Available() >= HEADER_SIZE
      ensures header == buffer.Contents()[..HEADER_SIZE]
    {
      var hs1, hs2 := Segments(HEADER_SIZE);
      if hs2 == [] {
        return hs1;
      }
      var _, copy := buffer.Peek(0, HEADER_SIZE);
      return copy;
    }

    /** The verdict on a complete frame whose header is sound. */
    method CheckFrame(cmdId: Half, dataLen: nat) returns (v: Verdict)
      requires Valid() && HEADER_SIZE + dataLen + TAIL_SIZE <= buffer.Available()
      ensures var s, calcLen := buffer.Contents(), HEADER_SIZE + dataLen;
              v == if p.frameCrc(s[..calcLen]) != U16(s[calcLen], s[calcLen + 1]) then Failure
                   else Success(Packet(cmdId, s[HEADER_SIZE..calcLen]), calcLen + TAIL_SIZE)
    {
      var calcLen := HEADER_SIZE + dataLen;
      var totalLen := calcLen + TAIL_SIZE;
      var s1, s2 := Segments(totalLen);
      ghost var s := buffer.Contents();
      assert (s1 + s2)[..calcLen] == s[..calcLen];
      assert (s1 + s2)[HEADER_SIZE..calcLen] == s[HEADER_SIZE..calcLen];
      assert (s1 + s2)[calcLen] == s[calcLen] && (s1 + s2)[calcLen + 1] == s[calcLen + 1];
      var calcCrc := FrameChecksum(s1, s2, calcLen);
      var recvCrc := Received(s1, s2, calcLen);
      if calcCrc != recvCrc {
        return Failure;
      }
      var payload := PayloadSpans(s1, s2, dataLen);
      PayloadSpansSlice(s1, s2, dataLen);
      return Success(Packet(cmdId, payload.0 + payload.1), totalLen);
    }

    /** Whether the header at the head of the queue is sound, and its fields. */
    method ParseHeader() returns (sound: bool, dataLen: Half, cmdId: Half)
      requires Valid() && buffer.Available() >= HEADER_SIZE
      ensures var s := buffer.Contents();
              && sound == (p.headerCrc(s[..4]) == s[4])
              && dataLen == U16(s[1], s[2]) && cmdId == U16(s[5], s[6])
    {
      var header := ReadHeader();
      ghost var s := buffer.Contents();
      assert forall i :: 0 <= i < HEADER_SIZE ==> header[i] == s[i];
      assert header[..4] == s[..4];
      var headerCrc := HeaderChecksum(header[..4]);
      sound := headerCrc == header[4];
      dataLen, cmdId := U16(header[1], header[2]), U16(header[5], header[6]);
    }

    /** The verdict on what the queue starts with. */
    method JudgeHead() returns (v: Verdict)
      requires Valid()
      ensures v == Judge(p, buffer.Contents())
    {
      if buffer.Available() < HEADER_SIZE {
        return Incomplete;
      }
      var sound, dataLen, cmdId := ParseHeader();
      if !sound {
        return Failure;
      }
      if dataLen > p.maxFrame - HEADER_SIZE - TAIL_SIZE {
        return Failure;
      }
      if buffer.Available() < HEADER_SIZE + dataLen + TAIL_SIZE {
        return Incomplete;
      }
      v := CheckFrame(cmdId, dataLen);
    }

    /** Judges what the queue starts with; a complete and sound frame is dispatched
        and taken off the queue. */
    method ParseFrame() returns (v: Verdict)
      requires Valid()
      modifies this, buffer
      ensures Valid()
      ensures v == Judge(p, old(buffer.Contents()))
      ensures v.Success? ==> log == old(log) + [v.packet]
                             && buffer.Contents() == old(buffer.Contents())[v.length..]
      ensures !v.Success? ==> log == old(log) && buffer.Layout() == old(buffer.Layout())
      ensures Drops(buffer.data.Length, old(buffer.Layout()), buffer.Layout())
    {
      v := JudgeHead();
      DropsNothing(buffer.data.Length, buffer.Layout());
      if v.Success? {
        log := log + [v.packet];
        var _ := buffer.Discard(v.length);
      }
    }

    /** The first contiguous block of the queue. */
    method View() returns (bytes: seq<Byte>)
      requires Valid()
      ensures |bytes| <= buffer.Available() && bytes == buffer.Contents()[..|bytes|]
      ensures buffer.Available() > 0 ==> bytes != []
    {
      var view := buffer.GetContiguousReadBuffer();
      var end := view.start + view.len;
      bytes := buffer.data[..][view.start..end];
      if view.len > 0 {
        SliceOfA(buffer.data[..], buffer.Layout(), 0, view.len, view.start, end);
      }
    }

    /** On to the next start byte of the view, or past the view. */
    method SkipNoise(ghost c: Scanner) returns (found: bool)
      requires Valid() && buffer.Available() > 0 && c.Sane()
      modifies buffer
      ensures Valid()
      ensures Scan(c, buffer.Contents()) == Scan(c, old(buffer.Contents()))
      ensures found ==> buffer.Available() > 0 && buffer.Contents()[0] == START_BYTE
      ensures buffer.Available() <= old(buffer.Available()) - if found then 0 else 1
      ensures Drops(buffer.data.Length, old(buffer.Layout()), buffer.Layout())
    {
      DropsNothing(buffer.data.Length, buffer.Layout());
      var view := View();
      var at;
      found, at := FindByte(view, START_BYTE);
      ghost var s := buffer.Contents();
      assert view[..at] == s[..at];
      PrefixSkipped(c, s, at);
      assert s[0..] == s;
      if at > 0 {
        var _ := buffer.Discard(at);
      }
    }

    /** Past the frame or the byte at the head of the queue, unless the frame is incomplete. */
    method HandleStart(ghost c: Scanner) returns (more: bool)
      requires Valid() && buffer.Available() > 0 && buffer.Contents()[0] == START_BYTE
      requires c == ScannerOf(p) && c.Sane()
      modifies this, buffer
      ensures Valid()
      ensures ScansTo(c, old(buffer.Contents()), old(log), buffer.Contents(), log)
      ensures more ==> buffer.Available() < old(buffer.Available())
      ensures !more ==> Scan(c, buffer.Contents()) == Scanned([], buffer.Contents())
      ensures Drops(buffer.data.Length, old(buffer.Layout()), buffer.Layout())
    {
      StartHandled(c, p, buffer.Contents(), log);
      var v := ParseFrame();
      if v.Failure? {
        var _ := buffer.Discard(1);
      }
      return !v.Incomplete?;
    }

    /** One turn of the scanning loop. */
    method ScanOnce(ghost c: Scanner) returns (more: bool)
      requires Valid() && buffer.Available() > 0 && c == ScannerOf(p) && c.Sane()
      modifies this, buffer
      ensures Valid()
      ensures more ==> buffer.Available() < old(buffer.Available())
      ensures ScansTo(c, old(buffer.Contents()), old(log), buffer.Contents(), log)
      ensures !more ==> Scan(c, buffer.Contents()) == Scanned([], buffer.Contents())
      ensures Drops(buffer.data.Length, old(buffer.Layout()), buffer.Layout())
    {
      ghost var r := buffer.Layout();
      var found := SkipNoise(c);
      if !found {
        return true;
      }
      ghost var r' := buffer.Layout();
      more := HandleStart(c);
      DropsTwice(buffer.data.Length, r, r', buffer.Layout());
    }

    /** The scanning loop: goes on until a frame is incomplete or nothing is left. */
    method TryParsePackets()
      requires Valid()
      modifies this, buffer
      ensures Valid()
      ensures ScannerOf(p).Sane()
      ensures log == old(log) + Scan(ScannerOf(p), old(buffer.Contents())).packets
      ensures buffer.Contents() == Scan(ScannerOf(p), old(buffer.Contents())).rest
      ensures Drops(buffer.data.Length, old(buffer.Layout()), buffer.Layout())
    {
      ScannerIsSane(p);
      ScanLoop(ScannerOf(p));
    }

    method ScanLoop(ghost c: Scanner)
      requires Valid() && c == ScannerOf(p) && c.Sane()
      modifies this, buffer
      ensures Valid()
      ensures log == old(log) + Scan(c, old(buffer.Contents())).packets
      ensures buffer.Contents() == Scan(c, old(buffer.Contents())).rest
      ensures Drops(buffer.data.Length, old(buffer.Layout()), buffer.Layout())
    {
      ghost var before, queue, r := log, buffer.Contents(), buffer.Layout();
      DropsNothing(buffer.data.Length, r);
      var availableBytes, waiting := buffer.Available(), false;
      while availableBytes > 0 && !waiting
        invariant Valid() && availableBytes == buffer.Available()
        invariant ScansTo(c, queue, before, buffer.Contents(), log)
        invariant Drops(buffer.data.Length, r, buffer.Layout())
        invariant waiting ==> Scan(c, buffer.Contents()) == Scanned([], buffer.Contents())
        decreases availableBytes, !waiting
      {
        ghost var r' := buffer.Layout();
        var more := ScanOnce(c);
        DropsTwice(buffer.data.Length, r, r', buffer.Layout());
        waiting := !more;
        availableBytes := buffer.Available();
      }
      ScanOver(c, queue, before, buffer.Contents(), log);
    }

    /** The parser's state apart from where the array keeps its bytes. */
    ghost function State(): ParserState
      requires Valid()
      reads this, buffer, buffer.data
    {
      ParserState(buffer.Layout(), buffer.Contents())
    }

    /** Takes a chunk in and scans, or refuses it and changes nothing. */
    method PushData(bytes: seq<Byte>) returns (ok: bool)
      requires Valid()
      modifies this, buffer, buffer.data
      ensures Valid() && ScannerOf(p).Sane()
      ensures ok <==> old(State()).Accepts(buffer.data.Length, |bytes|)
      ensures ok ==> State() == old(State()).AfterPush(ScannerOf(p), buffer.data.Length, bytes)
      ensures ok ==> log == old(log) + Scan(ScannerOf(p), old(buffer.Contents()) + bytes).packets
      ensures !ok ==> State() == old(State()) && log == old(log)
    {
      ScannerIsSane(p);
      ok := buffer.Write(bytes);
      if ok {
        TryParsePackets();
      }
    }
  }

  /** The regions in use and the bytes they hold. */
  datatype ParserState = ParserState(regions: Regions, queue: seq<Byte>)
  {
    ghost predicate Valid(size: nat) {
      regions.Valid(size) && regions.Available() == |queue|
    }

    predicate Accepts(size: nat, n: nat) {
      regions.Accepts(size, n)
    }

    /** After an accepted chunk: written, scanned, and everything but the rest dropped. */
    ghost function AfterPush(c: Scanner, size: nat, bytes: seq<Byte>): (st: ParserState)
      requires c.Sane() && Valid(size) && Accepts(size, |bytes|)
      ensures st.Valid(size)
    {
      var rest := Scan(c, queue + bytes).rest;
      ParserState(regions.AfterWrite(size, |bytes|).AfterDiscard(size, |queue + bytes| - |rest|), rest)
    }
  }

  /** Scanning the queue `s` with `log` packets behind and scanning `t` with `later` come to the same. */
  ghost predicate ScansTo(c: Scanner, s: seq<Byte>, log: seq<Packet>, t: seq<Byte>, later: seq<Packet>)
    requires c.Sane()
  {
    log + Scan(c, s).packets == later + Scan(c, t).packets && Scan(c, s).rest == Scan(c, t).rest
  }

  lemma ScanOver(c: Scanner, s: seq<Byte>, log: seq<Packet>, t: seq<Byte>, later: seq<Packet>)
    requires c.Sane() && ScansTo(c, s, log, t, later) && (t == [] || Scan(c, t) == Scanned([], t))
    ensures later == log + Scan(c, s).packets && t == Scan(c, s).rest
  {
    assert later + [] == later;
  }

  lemma PrefixSkipped(c: Scanner, s: seq<Byte>, n: nat)
    requires c.Sane() && n <= |s| && START_BYTE !in s[..n]
    ensures Scan(c, s) == Scan(c, s[n..])
  {
    Encoding.NoiseSkipped(c, s[..n], s[n..]);
    assert s == s[..n] + s[n..];
  }

  lemma HeadMove(c: Scanner, s: seq<Byte>)
    requires c.Sane() && s != [] && s[0] == START_BYTE
    ensures c.judge(s).Success? ==>
              c.judge(s).length <= |s| &&
              Scan(c, s) == Prepend(c.judge(s).packet, Scan(c, s[c.judge(s).length..]))
    ensures c.judge(s).Failure? ==> Scan(c, s) == Scan(c, s[1..])
    ensures c.judge(s).Incomplete? ==> Scan(c, s) == Scanned([], s)
  {
  }

  /** What each verdict on a queue that begins with a start byte means for the scan. */
  lemma StartHandled(c: Scanner, p: Protocol, s: seq<Byte>, log: seq<Packet>)
    requires c == ScannerOf(p) && c.Sane() && s != [] && s[0] == START_BYTE
    ensures var v := Judge(p, s);
            && (v.Success? ==> ScansTo(c, s, log, s[v.length..], log + [v.packet]))
            && (v.Failure? ==> ScansTo(c, s, log, s[1..], log))
            && (v.Incomplete? ==> Scan(c, s) == Scanned([], s))
  {
    var v := Judge(p, s);
    assert c.judge(s) == v;
    HeadMove(c, s);
    if v.Success? {
      Associative(log, [v.packet], Scan(c, s[v.length..]).packets);
    }
  }
}

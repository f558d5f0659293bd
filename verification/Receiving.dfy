/** From the interrupt's ring to the packets handed to the stack. */
module Receiving {
  import opened Bits
  import opened Capacity
  import opened Framing
  import opened IsrRingBuffers
  import opened Parsers
  import opened Scanning

  /** The parser, and the packets it has dispatched. */
  datatype Reception = Reception(st: ParserState, log: seq<Packet>)

  /** One chunk is pushed; if the buffer has no room for it, it is lost. */
  ghost function Pushed(c: Scanner, size: nat, r: Reception, chunk: seq<Byte>): (r': Reception)
    requires c.Sane() && r.st.Valid(size)
    ensures r'.st.Valid(size)
  {
    if r.st.Accepts(size, |chunk|)
    then Reception(r.st.AfterPush(c, size, chunk), r.log + Scan(c, r.st.queue + chunk).packets)
    else r
  }

  function ChunkSize(n: nat): (m: nat)
    ensures m <= n && m <= DRAIN_CHUNK && (n > 0 ==> m > 0)
  {
    if n < DRAIN_CHUNK then n else DRAIN_CHUNK
  }

  /** Bytes taken from the ring go to the parser in chunks of up to 256. */
  ghost function Drained(c: Scanner, size: nat, r: Reception, bytes: seq<Byte>): (r': Reception)
    requires c.Sane() && r.st.Valid(size)
    ensures r'.st.Valid(size)
    decreases |bytes|
  {
    if bytes == [] then r
    else
      var n := ChunkSize(|bytes|);
      Drained(c, size, Pushed(c, size, r, bytes[..n]), bytes[n..])
  }

  /** All packets, and the rest, when `bytes` follow the queue of a parser that has dispatched `log`. */
  function Whole(c: Scanner, log: seq<Packet>, queue: seq<Byte>, bytes: seq<Byte>): Scanned
    requires c.Sane()
  {
    Scanned(log + Scan(c, queue + bytes).packets, Scan(c, queue + bytes).rest)
  }

  /** A chunk the buffer refuses is lost as a whole, 256 bytes or the rest of the stream, and nothing else is. */
  lemma RefusedChunkLost(c: Scanner, size: nat, r: Reception, bytes: seq<Byte>, n: nat)
    requires c.Sane() && r.st.Valid(size) && bytes != [] && n == (if |bytes| <= 256 then |bytes| else 256)
    requires !r.st.Accepts(size, n)
    ensures Drained(c, size, r, bytes) == Drained(c, size, r, bytes[n..])
  {
  }

  /** With room enough, nothing is lost: the packets and the rest are those of the whole stream. */
  lemma {:induction false} DrainedIsScan(c: Scanner, size: nat, r: Reception, bytes: seq<Byte>)
    requires c.Sane() && c.Stable() && Roomy(c, size, DRAIN_CHUNK, r.st)
    requires 2 * DRAIN_CHUNK + c.maxFrame <= size + 2 && Scan(c, r.st.queue) == Scanned([], r.st.queue)
    ensures var d := Drained(c, size, r, bytes);
            && Scanned(d.log, d.st.queue) == Whole(c, r.log, r.st.queue, bytes)
            && Roomy(c, size, DRAIN_CHUNK, d.st)
    decreases |bytes|
  {
    if bytes == [] {
      assert r.st.queue + bytes == r.st.queue && r.log + [] == r.log;
    } else {
      var n := ChunkSize(|bytes|);
      var chunk, more := bytes[..n], bytes[n..];
      var r' := Pushed(c, size, r, chunk);
      assert bytes == chunk + more;
      ChunkTaken(c, size, r, chunk);
      DrainedIsScan(c, size, r', more);
      ChunkMoves(c, r.log, r.st.queue, chunk, more, bytes);
      assert Drained(c, size, r, bytes) == Drained(c, size, r', more);
    }
  }

  lemma ChunkTaken(c: Scanner, size: nat, r: Reception, chunk: seq<Byte>)
    requires c.Sane() && Roomy(c, size, DRAIN_CHUNK, r.st) && |chunk| <= DRAIN_CHUNK
    requires 2 * DRAIN_CHUNK + c.maxFrame <= size + 2
    ensures var (r', s) := (Pushed(c, size, r, chunk), Scan(c, r.st.queue + chunk));
            && Roomy(c, size, DRAIN_CHUNK, r'.st) && r'.log == r.log + s.packets && r'.st.queue == s.rest
            && Scan(c, r'.st.queue) == Scanned([], r'.st.queue)
  {
    RoomyAccepts(c, size, DRAIN_CHUNK, r.st, |chunk|);
    RoomyKept(c, size, DRAIN_CHUNK, r.st, chunk);
    ScanRest(c, r.st.queue + chunk);
  }

  lemma ChunkMoves(c: Scanner, log: seq<Packet>, queue: seq<Byte>, chunk: seq<Byte>, more: seq<Byte>, bytes: seq<Byte>)
    requires c.Sane() && c.Stable() && bytes == chunk + more
    ensures var s := Scan(c, queue + chunk);
            Whole(c, log + s.packets, s.rest, more) == Whole(c, log, queue, bytes)
  {
    ScanConcat(c, queue + chunk, more);
    Associative(queue, chunk, more);
    var s := Scan(c, queue + chunk);
    Associative(log, s.packets, Scan(c, s.rest + more).packets);
  }

  lemma NothingWaits(c: Scanner, queue: seq<Byte>)
    requires c.Sane() && queue == []
    ensures Scan(c, queue) == Scanned([], queue)
  {
  }

  lemma WholeFromNothing(c: Scanner, bytes: seq<Byte>)
    requires c.Sane()
    ensures Whole(c, [], [], bytes).packets == Scan(c, bytes).packets
  {
    assert [] + bytes == bytes;
  }

  /** A parser with a largest frame of over 128 bytes starts with room for every chunk. */
  lemma StartsRoomy(c: Scanner, size: nat)
    requires c.maxFrame > 128 && size == BufferSize(c.maxFrame)
    ensures Roomy(c, size, DRAIN_CHUNK, EMPTY) && 2 * DRAIN_CHUNK + c.maxFrame <= size + 2
  {
    BufferSizeValues(c.maxFrame);
  }

  lemma ReceivesAll(c: Scanner, size: nat, start: Reception, bytes: seq<Byte>)
    requires c.Sane() && c.Stable() && c.maxFrame > 128 && size == BufferSize(c.maxFrame)
    requires start == Reception(EMPTY, [])
    ensures start.st.Valid(size) && Drained(c, size, start, bytes).log == Scan(c, bytes).packets
  {
    StartsRoomy(c, size);
    NothingWaits(c, start.st.queue);
    DrainedIsScan(c, size, start, bytes);
    WholeFromNothing(c, bytes);
  }

  /** For a parser with a largest frame of over 128 bytes, everything the interrupt stored is parsed. */
  lemma StackReceivesAll(p: Protocol, bytes: seq<Byte>)
    requires p.maxFrame > 128
    ensures var c := ScannerOf(p);
            && c.Sane()
            && Drained(c, BufferSize(p.maxFrame), Reception(EMPTY, []), bytes).log == Scan(c, bytes).packets
  {
    ScannerIsSane(p);
    ReceivesAll(ScannerOf(p), BufferSize(p.maxFrame), Reception(EMPTY, []), bytes);
  }

  // ---- What the stack gets to see ----

  /** Commands are two bytes long. */
  ghost predicate Commands(packets: seq<Packet>) {
    forall i :: 0 <= i < |packets| ==> packets[i].cmd < 0x1_0000
  }

  lemma {:induction false} ScannedCommands(p: Protocol, c: Scanner, s: seq<Byte>)
    requires c == ScannerOf(p) && c.Sane()
    ensures Commands(Scan(c, s).packets)
    decreases |s|
  {
    if s != [] {
      if s[0] == START_BYTE && c.judge(s).Success? {
        ScannedCommands(p, c, s[c.judge(s).length..]);
      } else if s[0] != START_BYTE || c.judge(s).Failure? {
        ScannedCommands(p, c, s[1..]);
      }
    }
  }

  /** What a drain adds to the log. */
  lemma {:induction false} DrainedLog(p: Protocol, c: Scanner, size: nat, r: Reception, bytes: seq<Byte>)
    returns (packets: seq<Packet>)
    requires c == ScannerOf(p) && c.Sane() && r.st.Valid(size)
    ensures Drained(c, size, r, bytes).log == r.log + packets && Commands(packets)
    decreases |bytes|
  {
    if bytes == [] {
      packets := [];
      assert r.log + [] == r.log;
    } else {
      var n := ChunkSize(|bytes|);
      var more := DrainedLog(p, c, size, Pushed(c, size, r, bytes[..n]), bytes[n..]);
      var first := PushedLog(p, c, size, r, bytes[..n]);
      packets := first + more;
      Associative(r.log, first, more);
    }
  }

  lemma PushedLog(p: Protocol, c: Scanner, size: nat, r: Reception, chunk: seq<Byte>) returns (packets: seq<Packet>)
    requires c == ScannerOf(p) && c.Sane() && r.st.Valid(size)
    ensures Pushed(c, size, r, chunk).log == r.log + packets && Commands(packets)
  {
    packets := if r.st.Accepts(size, |chunk|) then Scan(c, r.st.queue + chunk).packets else [];
    ScannedCommands(p, c, r.st.queue + chunk);
  }

  /** Empties the ring into the parser, and returns what it dispatched meanwhile. */
  method DrainRx(ring: ISRRingBuffer, parser: Parser) returns (packets: seq<Packet>)
    requires ring.Valid() && parser.Valid() && ring.buf != parser.buffer.data
    modifies ring, parser, parser.buffer, parser.buffer.data
    ensures ring.Valid() && parser.Valid() && ring.Contents() == [] && ScannerOf(parser.p).Sane()
    ensures Reception(parser.State(), parser.log)
            == Drained(ScannerOf(parser.p), parser.buffer.data.Length,
                       Reception(old(parser.State()), old(parser.log)), old(ring.Contents()))
    ensures parser.log == old(parser.log) + packets && Commands(packets)
  {
    var before := |parser.log|;
    ScannerIsSane(parser.p);
    ghost var c, size := ScannerOf(parser.p), parser.buffer.data.Length;
    ghost var all := Drained(c, size, Reception(parser.State(), parser.log), ring.Contents());
    ghost var more := DrainedLog(parser.p, c, size, Reception(parser.State(), parser.log), ring.Contents());
    while true
      invariant ring.Valid() && parser.Valid()
      invariant Drained(c, size, Reception(parser.State(), parser.log), ring.Contents()) == all
      decreases |ring.Contents()|
    {
      var avail := ring.Available();
      if avail == 0 {
        break;
      }
      DrainChunk(ring, parser, avail, c);
    }
    packets := parser.log[before..];
    assert packets == more;
  }

  method DrainChunk(ring: ISRRingBuffer, parser: Parser, avail: nat, ghost c: Scanner)
    requires ring.Valid() && parser.Valid() && ring.buf != parser.buffer.data
    requires c == ScannerOf(parser.p) && c.Sane() && avail == |ring.Contents()| > 0
    modifies ring, parser, parser.buffer, parser.buffer.data
    ensures ring.Valid() && parser.Valid()
    ensures var n, before := ChunkSize(avail), old(ring.Contents());
            && ring.Contents() == before[n..]
            && Reception(parser.State(), parser.log)
               == Pushed(c, parser.buffer.data.Length, Reception(old(parser.State()), old(parser.log)), before[..n])
  {
    var chunk := ring.Read(if avail < 256 then avail else 256);
    var _ := parser.PushData(chunk);
  }
}

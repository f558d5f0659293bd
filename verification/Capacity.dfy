/** Exactly when the parser's buffer is large enough that no push is ever refused. */
module Capacity {
  import opened Bits
  import opened BipRegions
  import opened Scanning
  import opened Framing
  import opened Encoding
  import opened Parsers

  const EMPTY: ParserState := ParserState(Regions(0, 0, 0), [])

  /** Every chunk of the run is accepted. */
  ghost predicate AllAccepted(c: Scanner, size: nat, st: ParserState, chunks: seq<seq<Byte>>)
    requires c.Sane() && st.Valid(size)
    decreases chunks
  {
    chunks == [] ||
    (st.Accepts(size, |chunks[0]|) && AllAccepted(c, size, st.AfterPush(c, size, chunks[0]), chunks[1..]))
  }

  predicate Bounded(chunks: seq<seq<Byte>>, limit: nat) {
    forall i :: 0 <= i < |chunks| ==> |chunks[i]| <= limit
  }

  /** No run of chunks of at most `limit` bytes meets a refusal. */
  ghost predicate NeverRefuses(c: Scanner, size: nat, limit: nat)
    requires c.Sane()
  {
    forall chunks :: Bounded(chunks, limit) ==> AllAccepted(c, size, EMPTY, chunks)
  }

  // ---- Enough room ----

  /** What every run keeps: less than a frame is waiting, and while region B is in use
      region A ends within one chunk of the end of the array. */
  ghost predicate Roomy(c: Scanner, size: nat, limit: nat, st: ParserState) {
    && st.Valid(size)
    && |st.queue| < c.maxFrame
    && (st.regions.bSize > 0 ==> st.regions.aStart + st.regions.aSize + limit > size)
  }

  lemma RoomyAccepts(c: Scanner, size: nat, limit: nat, st: ParserState, n: nat)
    requires Roomy(c, size, limit, st) && n <= limit && 2 * limit + c.maxFrame <= size + 2
    ensures st.Accepts(size, n)
  {
  }

  lemma RoomyKept(c: Scanner, size: nat, limit: nat, st: ParserState, bytes: seq<Byte>)
    requires c.Sane() && Roomy(c, size, limit, st) && |bytes| <= limit && st.Accepts(size, |bytes|)
    ensures Roomy(c, size, limit, st.AfterPush(c, size, bytes))
  {
    var r := st.regions.AfterWrite(size, |bytes|);
    assert r.bSize > 0 ==> r.aStart + r.aSize + limit > size;
  }

  lemma {:induction false} EnoughRoom(c: Scanner, size: nat, limit: nat, st: ParserState, chunks: seq<seq<Byte>>)
    requires c.Sane() && Roomy(c, size, limit, st) && 2 * limit + c.maxFrame <= size + 2 && Bounded(chunks, limit)
    ensures AllAccepted(c, size, st, chunks)
    decreases chunks
  {
    if chunks != [] {
      RoomyAccepts(c, size, limit, st, |chunks[0]|);
      RoomyKept(c, size, limit, st, chunks[0]);
      assert Bounded(chunks[1..], limit);
      EnoughRoom(c, size, limit, st.AfterPush(c, size, chunks[0]), chunks[1..]);
    }
  }

  // ---- Too little room ----

  /** A frame that the parser accepts and consumes whole. */
  predicate WholeFrame(p: Protocol, f: seq<Byte>) {
    f != [] && f[0] == START_BYTE && Judge(p, f).Success? && Judge(p, f).length == |f|
  }

  /** A proper prefix of an acceptable frame is waited for. */
  lemma PrefixWaits(p: Protocol, c: Scanner, f: seq<Byte>, k: nat)
    requires WholeFrame(p, f) && 0 < k < |f| && c == ScannerOf(p) && c.Sane()
    ensures Scan(c, f[..k]) == Scanned([], f[..k])
  {
    var prefix := f[..k];
    assert prefix + f[k..] == f;
    if !Judge(p, prefix).Incomplete? {
      JudgeStable(p, prefix, f[k..]);
      assert false;
    }
    assert c.judge(prefix) == Judge(p, prefix);
  }

  /** The bytes of a frame from `from` on but its last, one by one, and then a last chunk. */
  function Trickle(f: seq<Byte>, from: nat, last: seq<Byte>): (chunks: seq<seq<Byte>>)
    requires 0 < from < |f|
    decreases |f| - from
  {
    if from == |f| - 1 then [last] else [f[from..from + 1]] + Trickle(f, from + 1, last)
  }

  lemma {:induction false} TrickleBounded(f: seq<Byte>, from: nat, last: seq<Byte>, limit: nat)
    requires 0 < from < |f| && 1 <= |last| <= limit
    ensures Bounded(Trickle(f, from, last), limit)
    decreases |f| - from
  {
    if from < |f| - 1 {
      TrickleBounded(f, from + 1, last, limit);
    }
  }

  /** With `k` bytes of the frame waiting at `at`, the trickle ends in a refusal if neither
      end of the array has room for the last chunk. */
  lemma {:induction false} TrickleRefused(p: Protocol, c: Scanner, size: nat, f: seq<Byte>, k: nat,
                                          at: nat, last: seq<Byte>)
    requires WholeFrame(p, f) && c == ScannerOf(p) && c.Sane() && 0 < k < |f|
    requires at + |f| - 1 <= size < at + |f| - 1 + |last| && at < |last|
    ensures ParserState(Regions(at, k, 0), f[..k]).Valid(size)
    ensures !AllAccepted(c, size, ParserState(Regions(at, k, 0), f[..k]), Trickle(f, k, last))
    decreases |f| - k
  {
    if k < |f| - 1 {
      OneByteMore(p, c, size, f, k, k + 1, at);
      TrickleRefused(p, c, size, f, k + 1, at, last);
    }
  }

  lemma OneByteMore(p: Protocol, c: Scanner, size: nat, f: seq<Byte>, k: nat, n: nat, at: nat)
    requires WholeFrame(p, f) && c == ScannerOf(p) && c.Sane() && 0 < k && n == k + 1 < |f| && at + n <= size
    ensures var st := ParserState(Regions(at, k, 0), f[..k]);
            && st.Valid(size) && st.Accepts(size, |f[k..n]|)
            && st.AfterPush(c, size, f[k..n]) == ParserState(Regions(at, n, 0), f[..n])
  {
    assert f[..k] + f[k..n] == f[..n];
    PrefixWaits(p, c, f, n);
  }

  function Noise(n: nat): (noise: seq<Byte>)
    ensures |noise| == n && START_BYTE !in noise
  {
    seq(n, _ => 0)
  }

  /** A push, with the bytes consumed named. */
  lemma PushLeaves(c: Scanner, size: nat, st: ParserState, bytes: seq<Byte>, rest: seq<Byte>, consumed: nat)
    requires c.Sane() && st.Valid(size) && st.Accepts(size, |bytes|)
    requires rest == Scan(c, st.queue + bytes).rest && consumed + |rest| == |st.queue| + |bytes|
    ensures st.AfterPush(c, size, bytes) ==
            ParserState(st.regions.AfterWrite(size, |bytes|).AfterDiscard(size, consumed), rest)
  {
  }

  lemma FirstPush(size: nat, r: Regions, n: nat, dropped: nat)
    requires r == Regions(0, 0, 0) && n == dropped + 1 <= size
    ensures r.Valid(size) && r.Accepts(size, n)
    ensures r.AfterWrite(size, n).AfterDiscard(size, dropped) == Regions(dropped, 1, 0)
  {
    r.FirstWrite(size, n);
    OneLeft(size, Regions(0, n, 0), n, dropped);
  }

  lemma OneLeft(size: nat, r: Regions, n: nat, dropped: nat)
    requires r == Regions(0, n, 0) && n == dropped + 1 <= size
    ensures r.Valid(size) && r.AfterDiscard(size, dropped) == Regions(dropped, 1, 0)
  {
  }

  /** Noise and the first byte of a frame, in one chunk, leave that byte behind the place of the noise. */
  lemma NoiseMovesStart(c: Scanner, size: nat, st: ParserState, noise: seq<Byte>, start: seq<Byte>, first: seq<Byte>)
    requires c.Sane() && st.regions == Regions(0, 0, 0) && st.queue == [] && first == noise + start
    requires START_BYTE !in noise && |start| == 1 && Scan(c, start) == Scanned([], start) && |noise| < size
    ensures st.Valid(size) && st.Accepts(size, |first|)
    ensures st.AfterPush(c, size, first) == ParserState(Regions(|noise|, 1, 0), start)
  {
    Encoding.NoiseSkipped(c, noise, start);
    assert st.queue + first == first;
    FirstPush(size, st.regions, |first|, |noise|);
    PushLeaves(c, size, st, first, start, |noise|);
  }

  lemma RefusedAfter(c: Scanner, size: nat, st: ParserState, first: seq<Byte>, chunks: seq<seq<Byte>>)
    requires c.Sane() && st.Valid(size) && st.Accepts(size, |first|)
    requires !AllAccepted(c, size, st.AfterPush(c, size, first), chunks)
    ensures !AllAccepted(c, size, st, [first] + chunks)
  {
    assert ([first] + chunks)[1..] == chunks;
  }

  lemma RefusedAtOnce(c: Scanner, size: nat, st: ParserState, chunks: seq<seq<Byte>>)
    requires c.Sane() && st.Valid(size) && chunks != [] && !st.Accepts(size, |chunks[0]|)
    ensures !AllAccepted(c, size, st, chunks)
  {
  }

  lemma NoiseThenTrickle(p: Protocol, c: Scanner, size: nat, st: ParserState, f: seq<Byte>, at: nat, last: seq<Byte>)
    requires c == ScannerOf(p) && c.Sane() && WholeFrame(p, f) && |f| > 1
    requires st.regions == Regions(0, 0, 0) && st.queue == []
    requires at + |f| - 1 <= size < at + |f| - 1 + |last| && at < |last|
    ensures st.Valid(size) && !AllAccepted(c, size, st, [Noise(at) + f[..1]] + Trickle(f, 1, last))
  {
    var first := Noise(at) + f[..1];
    PrefixWaits(p, c, f, 1);
    NoiseMovesStart(c, size, st, Noise(at), f[..1], first);
    TrickleRefused(p, c, size, f, 1, at, last);
    RefusedAfter(c, size, st, first, Trickle(f, 1, last));
  }

  /** Where a waiting frame of `m - 1` bytes leaves no room for `limit` bytes at either end. */
  function WorstPlace(size: nat, limit: nat, m: nat): (at: nat)
    requires 1 < m <= size && limit <= size && 2 * limit + m > size + 2
    ensures at + m - 1 <= size < at + m - 1 + limit && at < limit
  {
    if size <= limit + m - 2 then size - (m - 1) else limit - 1
  }

  lemma BoundedCons(first: seq<Byte>, chunks: seq<seq<Byte>>, limit: nat)
    requires |first| <= limit && Bounded(chunks, limit)
    ensures Bounded([first] + chunks, limit)
  {
  }

  /** A run of bounded chunks that is refused, if the bound is too large for the buffer. */
  lemma TooLittleRoom(p: Protocol, c: Scanner, size: nat, st: ParserState, limit: nat, f: seq<Byte>)
    returns (chunks: seq<seq<Byte>>)
    requires c == ScannerOf(p) && c.Sane() && WholeFrame(p, f) && 1 < |f| <= size
    requires st.regions == Regions(0, 0, 0) && st.queue == []
    requires limit <= size && 2 * limit + |f| > size + 2
    ensures st.Valid(size) && Bounded(chunks, limit) && !AllAccepted(c, size, st, chunks)
  {
    var last, at := Noise(limit), WorstPlace(size, limit, |f|);
    var first, trickle := Noise(at) + f[..1], Trickle(f, 1, last);
    TrickleBounded(f, 1, last, limit);
    BoundedCons(first, trickle, limit);
    NoiseThenTrickle(p, c, size, st, f, at, last);
    chunks := [first] + trickle;
  }

  /** A frame of the largest size exists. */
  lemma LargestFrame(p: Protocol) returns (f: seq<Byte>)
    requires p.maxFrame - HEADER_SIZE - TAIL_SIZE < 65536
    ensures WholeFrame(p, f) && |f| == p.maxFrame
  {
    var packet := Packet(0, seq(p.maxFrame - HEADER_SIZE - TAIL_SIZE, _ => 0));
    f := Encode(p, 0, packet);
    EncodeAccepted(p, 0, packet, []);
    assert f + [] == f;
  }

  /** No run is ever refused a chunk exactly when twice the largest chunk and a largest
      frame exceed the buffer by at most two bytes. */
  lemma NeverRefusesIff(p: Protocol, size: nat, limit: nat)
    requires p.maxFrame <= size && p.maxFrame - HEADER_SIZE - TAIL_SIZE < 65536
    ensures ScannerOf(p).Sane()
    ensures NeverRefuses(ScannerOf(p), size, limit) <==> 2 * limit + p.maxFrame <= size + 2
  {
    ScannerIsSane(p);
    var c := ScannerOf(p);
    if 2 * limit + p.maxFrame <= size + 2 {
      forall chunks | Bounded(chunks, limit)
        ensures AllAccepted(c, size, EMPTY, chunks)
      {
        EnoughRoom(c, size, limit, EMPTY, chunks);
      }
    } else {
      var f := LargestFrame(p);
      if limit <= size {
        var chunks := TooLittleRoom(p, c, size, EMPTY, limit, f);
      } else {
        var chunks := [Noise(limit)];
        RefusedAtOnce(c, size, EMPTY, chunks);
        assert Bounded(chunks, limit);
      }
    }
  }

  /** The buffer the parser chooses never refuses chunks of up to a largest frame. */
  lemma OwnBufferSuffices(p: Protocol, limit: nat)
    requires p.maxFrame - HEADER_SIZE - TAIL_SIZE < 65536 && limit <= p.maxFrame
    ensures ScannerOf(p).Sane() && NeverRefuses(ScannerOf(p), BufferSize(p.maxFrame), limit)
  {
    NeverRefusesIff(p, BufferSize(p.maxFrame), limit);
  }

  const DRAIN_CHUNK: nat := 256

  lemma BufferSizeValues(maxFrame: nat)
    ensures maxFrame <= 128 ==> BufferSize(maxFrame) <= 512
    ensures maxFrame > 128 ==> BufferSize(maxFrame) >= 1024
  {
    var n := 4 * maxFrame;
    assert BitCeil(n, 512) == if 512 >= n then 512 else BitCeil(n, 1024);
    assert BitCeil(n, 128) == if 128 >= n then 128 else if 256 >= n then 256 else BitCeil(n, 512);
    assert BitCeil(n, 32) == if 32 >= n then 32 else if 64 >= n then 64 else BitCeil(n, 128);
    assert BitCeil(n, 8) == if 8 >= n then 8 else if 16 >= n then 16 else BitCeil(n, 32);
    assert BitCeil(n, 2) == if 2 >= n then 2 else if 4 >= n then 4 else BitCeil(n, 8);
  }

  /** The stack hands over what it received in chunks of up to 256 bytes, whatever the packet
      types are. None of them can be refused exactly when the largest frame has over 128 bytes. */
  lemma DrainNeverRefusedIff(p: Protocol)
    requires p.maxFrame - HEADER_SIZE - TAIL_SIZE < 65536
    ensures ScannerOf(p).Sane()
    ensures NeverRefuses(ScannerOf(p), BufferSize(p.maxFrame), DRAIN_CHUNK) <==> p.maxFrame > 128
  {
    NeverRefusesIff(p, BufferSize(p.maxFrame), DRAIN_CHUNK);
    BufferSizeValues(p.maxFrame);
  }
}

/** The pure stream scanner: skip to a start byte, then take a frame, step over one byte, or wait. */
module Scanning {
  import opened Bits

  const START_BYTE: Byte := 0xA5

  datatype Packet = Packet(cmd: nat, payload: seq<Byte>)

  /** What the parser says about the bytes from a start byte on. */
  datatype Verdict = Success(packet: Packet, length: nat) | Failure | Incomplete

  datatype Scanner = Scanner(judge: seq<Byte> -> Verdict, maxFrame: nat)
  {
    /** Frames are not longer than they should be, and bytes are waited for only to complete one. */
    ghost predicate Sane() {
      maxFrame > 0 && forall s :: Bounded(s, judge(s))
    }

    /** More bytes change no verdict but Incomplete. */
    ghost predicate Stable() {
      forall s, u :: s <= u && !judge(s).Incomplete? ==> judge(u) == judge(s)
    }

    predicate Bounded(s: seq<Byte>, v: Verdict) {
      match v
      case Success(_, length) => 0 < length <= |s| && length <= maxFrame
      case Failure => s != []
      case Incomplete => |s| < maxFrame
    }
  }

  lemma Associative<T>(a: seq<T>, b: seq<T>, c: seq<T>)
    ensures a + b + c == a + (b + c)
  {
  }

  /** The packets found in a stream, and what stays to be scanned again with more bytes. */
  datatype Scanned = Scanned(packets: seq<Packet>, rest: seq<Byte>)

  function Prepend(packet: Packet, r: Scanned): Scanned {
    Scanned([packet] + r.packets, r.rest)
  }

  function Scan(c: Scanner, s: seq<Byte>): (r: Scanned)
    requires c.Sane()
    ensures |r.rest| <= |s| && |r.rest| < c.maxFrame
    decreases |s|
  {
    if s == [] then Scanned([], [])
    else if s[0] != START_BYTE then Scan(c, s[1..])
    else match c.judge(s)
      case Incomplete => Scanned([], s)
      case Failure => Scan(c, s[1..])
      case Success(packet, length) => Prepend(packet, Scan(c, s[length..]))
  }

  /** Scanning a longer stream continues from the rest. */
  lemma {:induction false} ScanConcat(c: Scanner, s: seq<Byte>, t: seq<Byte>)
    requires c.Sane() && c.Stable()
    ensures Scan(c, s + t).packets == Scan(c, s).packets + Scan(c, Scan(c, s).rest + t).packets
    ensures Scan(c, s + t).rest == Scan(c, Scan(c, s).rest + t).rest
    decreases |s|
  {
    var u := s + t;
    if s == [] {
      assert u == t == [] + t;
    } else if s[0] != START_BYTE {
      assert u[1..] == s[1..] + t;
      ScanConcat(c, s[1..], t);
    } else {
      var v := c.judge(s);
      if v.Incomplete? {
        assert Scan(c, s) == Scanned([], s);
      } else {
        assert s <= u && c.judge(u) == v;
        var n := if v.Failure? then 1 else v.length;
        assert u[n..] == s[n..] + t;
        ScanConcat(c, s[n..], t);
        if v.Success? {
          var a, b := Scan(c, s[n..]).packets, Scan(c, Scan(c, s[n..]).rest + t).packets;
          Associative([v.packet], a, b);
        }
      }
    }
  }

  /** Feeding a list of chunks one after the other. */
  function ScanChunks(c: Scanner, rest: seq<Byte>, chunks: seq<seq<Byte>>): (r: Scanned)
    requires c.Sane()
    decreases chunks
  {
    if chunks == [] then Scanned([], rest)
    else
      var first := Scan(c, rest + chunks[0]);
      var others := ScanChunks(c, first.rest, chunks[1..]);
      Scanned(first.packets + others.packets, others.rest)
  }

  function Flatten(chunks: seq<seq<Byte>>): seq<Byte>
  {
    if chunks == [] then [] else chunks[0] + Flatten(chunks[1..])
  }

  /** A rest scans to itself. */
  lemma {:induction false} ScanRest(c: Scanner, s: seq<Byte>)
    requires c.Sane()
    ensures Scan(c, Scan(c, s).rest) == Scanned([], Scan(c, s).rest)
    decreases |s|
  {
    if s != [] {
      if s[0] != START_BYTE {
        ScanRest(c, s[1..]);
      } else {
        var v := c.judge(s);
        if v.Failure? {
          ScanRest(c, s[1..]);
        } else if v.Success? {
          ScanRest(c, s[v.length..]);
        }
      }
    }
  }

  /** However a stream is cut into chunks, the packets and the rest are those of the whole stream. */
  lemma {:induction false} ChunkingIrrelevant(c: Scanner, rest: seq<Byte>, chunks: seq<seq<Byte>>)
    requires c.Sane() && c.Stable() && Scan(c, rest) == Scanned([], rest)
    ensures ScanChunks(c, rest, chunks) == Scan(c, rest + Flatten(chunks))
    decreases chunks
  {
    if chunks == [] {
      assert rest + Flatten(chunks) == rest;
    } else {
      var first := Scan(c, rest + chunks[0]);
      ScanRest(c, rest + chunks[0]);
      ChunkingIrrelevant(c, first.rest, chunks[1..]);
      ScanConcat(c, rest + chunks[0], Flatten(chunks[1..]));
      Associative(rest, chunks[0], Flatten(chunks[1..]));
    }
  }

  // ---- Resynchronisation ----

  /** The positions at which frames are taken from a stream, scanning from `at` on,
      and the position where scanning stops. */
  function Taken(c: Scanner, s: seq<Byte>, at: nat): (r: (seq<nat>, nat))
    requires c.Sane() && at <= |s|
    ensures at <= r.1 <= |s|
    decreases |s| - at
  {
    if at == |s| then ([], at)
    else if s[at] != START_BYTE then Taken(c, s, at + 1)
    else match c.judge(s[at..])
      case Incomplete => ([], at)
      case Failure => Taken(c, s, at + 1)
      case Success(_, length) =>
        var r := Taken(c, s, at + length);
        ([at] + r.0, r.1)
  }

  /** A complete valid frame starts at position `k`. */
  predicate FrameAt(c: Scanner, s: seq<Byte>, k: nat)
    requires c.Sane()
  {
    k < |s| && s[k] == START_BYTE && c.judge(s[k..]).Success?
  }

  /** A frame at `e` extends over position `k`. */
  predicate Covers(c: Scanner, s: seq<Byte>, e: nat, k: nat)
    requires c.Sane()
  {
    FrameAt(c, s, e) && e < k < e + c.judge(s[e..]).length
  }

  /** The packets are, in order, those of the frames at the given positions. */
  ghost predicate PacketsAt(c: Scanner, s: seq<Byte>, starts: seq<nat>, packets: seq<Packet>)
    requires c.Sane()
  {
    |starts| == |packets| &&
    (starts != [] ==>
       && FrameAt(c, s, starts[0])
       && packets[0] == c.judge(s[starts[0]..]).packet
       && PacketsAt(c, s, starts[1..], packets[1..]))
  }

  lemma Suffix<T>(s: seq<T>, at: nat, n: nat)
    requires at + n <= |s|
    ensures s[at..][n..] == s[at + n..]
  {
  }

  lemma PacketsAtCons(c: Scanner, s: seq<Byte>, at: nat, starts: seq<nat>, packets: seq<Packet>)
    requires c.Sane() && FrameAt(c, s, at) && PacketsAt(c, s, starts, packets)
    ensures PacketsAt(c, s, [at] + starts, [c.judge(s[at..]).packet] + packets)
  {
    assert ([at] + starts)[1..] == starts;
    assert ([c.judge(s[at..]).packet] + packets)[1..] == packets;
  }

  /** One move of the scan, seen on the stream from position `at` on: how far it goes. */
  lemma ScanMove(c: Scanner, s: seq<Byte>, at: nat)
    requires c.Sane() && at < |s|
    ensures s[at] != START_BYTE || c.judge(s[at..]).Failure? ==> Scan(c, s[at..]) == Scan(c, s[at + 1..])
    ensures FrameAt(c, s, at) ==>
              var v := c.judge(s[at..]);
              at + v.length <= |s| && Scan(c, s[at..]) == Prepend(v.packet, Scan(c, s[at + v.length..]))
  {
    Suffix(s, at, 1);
    if FrameAt(c, s, at) {
      Suffix(s, at, c.judge(s[at..]).length);
    }
  }

  /** The packets the scanner emits are those of the frames at the positions taken. */
  lemma {:induction false} TakenIsScan(c: Scanner, s: seq<Byte>, at: nat)
    requires c.Sane() && at <= |s|
    ensures Scan(c, s[at..]).rest == s[Taken(c, s, at).1..]
    ensures PacketsAt(c, s, Taken(c, s, at).0, Scan(c, s[at..]).packets)
    decreases |s| - at
  {
    if at < |s| {
      ScanMove(c, s, at);
      if s[at] != START_BYTE || c.judge(s[at..]).Failure? {
        TakenIsScan(c, s, at + 1);
      } else if c.judge(s[at..]).Success? {
        var next := at + c.judge(s[at..]).length;
        TakenIsScan(c, s, next);
        PacketsAtCons(c, s, at, Taken(c, s, next).0, Scan(c, s[next..]).packets);
      }
    }
  }

  /** No valid frame is lost: each one is taken, or lies under a frame that was taken
      before it, or is still ahead of the scan. */
  lemma {:induction false} Resynchronises(c: Scanner, s: seq<Byte>, at: nat, k: nat)
    requires c.Sane() && at <= k && FrameAt(c, s, k)
    ensures var (starts, end) := Taken(c, s, at);
            k >= end || k in starts || exists e :: e in starts && Covers(c, s, e, k)
    decreases |s| - at
  {
    if s[at] == START_BYTE && c.judge(s[at..]).Success? {
      var n := c.judge(s[at..]).length;
      var starts := Taken(c, s, at).0;
      assert at in starts;
      if k >= at + n {
        Resynchronises(c, s, at + n, k);
        var later := Taken(c, s, at + n).0;
        assert starts == [at] + later;
        assert forall e :: e in later ==> e in starts;
      } else if k > at {
        assert Covers(c, s, at, k);
      }
    } else if k > at && !(s[at] == START_BYTE && c.judge(s[at..]).Incomplete?) {
      Resynchronises(c, s, at + 1, k);
    }
  }

  /** The scan lags the end of the stream by less than the largest frame. */
  lemma LagBounded(c: Scanner, s: seq<Byte>)
    requires c.Sane()
    ensures |s| - Taken(c, s, 0).1 < c.maxFrame
  {
    TakenIsScan(c, s, 0);
    assert s[0..] == s;
  }
}

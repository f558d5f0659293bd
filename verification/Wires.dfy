/** The frames the stacks exchange, as bytes: why a link may be seen as a sequence of whole frames. */
module Wires {
  import opened Basics
  import opened Bits
  import opened Encoding
  import opened EndToEnd
  import opened EndToEndRuns
  import opened Framing
  import opened Scanning
  import opened Stacks
  import opened TxQueues

  /** The packet of a frame that is complete and nothing else. */
  function DecodeFrame(p: Protocol, f: Frame): Option<Packet> {
    if f != [] && f[0] == START_BYTE && Judge(p, f).Success? && Judge(p, f).length == |f|
    then Some(Judge(p, f).packet) else None
  }

  /** The wire of a protocol, for given packet types. */
  function WireOf(p: Protocol, types: Packet -> bool, txIdOf: Packet -> Word32,
                  ack: (Word32, Half) -> Packet, ackSize: nat): Wire
  {
    Wire((n, packet) => if Encodable(packet) then Encode(p, n, packet) else [],
         f => DecodeFrame(p, f),
         packet => types(packet) && Encodable(packet)
                   && HEADER_SIZE + |packet.payload| + TAIL_SIZE <= p.maxFrame
                   && HEADER_SIZE + |packet.payload| + TAIL_SIZE <= MAX_FRAME_SIZE,
         txIdOf, ack, ackSize)
  }

  /** The parser makes of a frame exactly the packet it was made from. */
  lemma WireIsFaithful(p: Protocol, types: Packet -> bool, txIdOf: Packet -> Word32,
                       ack: (Word32, Half) -> Packet, ackSize: nat)
    requires forall k: Word32, c: Half :: ack(k, c).cmd == ACK_CMD
    ensures WireOf(p, types, txIdOf, ack, ackSize).Faithful()
  {
    var w := WireOf(p, types, txIdOf, ack, ackSize);
    forall n: Byte, packet | w.known(packet)
      ensures w.Carries(w.encode(n, packet), packet)
    {
      EncodeAccepted(p, n, packet, []);
      assert Encode(p, n, packet) + [] == Encode(p, n, packet);
    }
  }

  /** What the queue of frames to send takes for telemetry. */
  lemma TelemetryIff(p: Protocol, n: Byte, packet: Packet)
    requires Encodable(packet)
    ensures IsTelemetryFrame(Encode(p, n, packet)) <==> 0x6000 <= packet.cmd <= 0x60FF
  {
    EncodeLayout(p, n, packet, []);
    assert Encode(p, n, packet) + [] == Encode(p, n, packet);
    LowHigh(packet.cmd);
  }

  /** An acknowledgement is not. */
  lemma AcksAreNoTelemetry(p: Protocol, n: Byte, ack: Packet)
    requires ack.cmd == 0x6FF0 && Encodable(ack)
    ensures !IsTelemetryFrame(Encode(p, n, ack))
  {
    TelemetryIff(p, n, ack);
  }

  /** Two stacks speaking this protocol with a window of one, joined by lossy links that keep order: in every run
      each request runs at most once, and its callback gets what its handler answered. */
  lemma ProtocolAtMostOnce(p: Protocol, types: Packet -> bool, txIdOf: Packet -> Word32,
                           ack: (Word32, Half) -> Packet, ackSize: nat, c: Setup, start: World, steps: seq<Step>)
    requires forall k: Word32, c: Half :: ack(k, c).cmd == ACK_CMD
    requires c.ring > 0 && c.window <= 1 && start == FreshWorld(c)
    requires ValidSteps(WireOf(p, types, txIdOf, ack, ackSize), start, steps)
    ensures Guarantees(RunOf(WireOf(p, types, txIdOf, ack, ackSize), start, steps).log)
  {
    WireIsFaithful(p, types, txIdOf, ack, ackSize);
    AtMostOnce(WireOf(p, types, txIdOf, ack, ackSize), c, start, steps);
  }

  // ---- From frames to bytes ----

  function DecodeAll(p: Protocol, frames: seq<Frame>): seq<Packet>
    requires forall f :: f in frames ==> DecodeFrame(p, f).Some?
  {
    if frames == [] then [] else [DecodeFrame(p, frames[0]).value] + DecodeAll(p, frames[1..])
  }

  /** Whatever sequence of whole frames gets through, their bytes scan to their packets, one by one. */
  lemma {:induction false} FramesScan(p: Protocol, frames: seq<Frame>)
    requires ScannerOf(p).Sane() && forall f :: f in frames ==> DecodeFrame(p, f).Some?
    ensures Scan(ScannerOf(p), Flatten(frames)) == Scanned(DecodeAll(p, frames), [])
    decreases |frames|
  {
    if frames != [] {
      var f, t := frames[0], Flatten(frames[1..]);
      assert DecodeFrame(p, f).Some?;
      FramesScan(p, frames[1..]);
      JudgeStable(p, f, t);
      assert (f + t)[|f|..] == t;
    }
  }

  /** The same however the bytes are cut into the chunks that the receiver pushes. */
  lemma FramesScanInChunks(p: Protocol, frames: seq<Frame>, chunks: seq<seq<Byte>>)
    requires forall f :: f in frames ==> DecodeFrame(p, f).Some?
    requires Flatten(chunks) == Flatten(frames)
    ensures ScannerOf(p).Sane()
    ensures ScanChunks(ScannerOf(p), [], chunks) == Scanned(DecodeAll(p, frames), [])
  {
    ScannerIsSane(p);
    ChunkingIrrelevant(ScannerOf(p), [], chunks);
    assert [] + Flatten(chunks) == Flatten(chunks);
    FramesScan(p, frames);
  }
}

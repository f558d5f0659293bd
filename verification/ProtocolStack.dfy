/** The stack as an object around a session. */
module ProtocolStacks {
  import opened Bits
  import opened Dedup
  import opened DeviceCache
  import opened Framing
  import opened IsrRingBuffers
  import opened Parsers
  import opened Receiving
  import opened ReliableSessions
  import opened Scanning
  import opened Session
  import opened SessionRuns
  import opened Stacks
  import Tx = TxQueues

  class ProtocolStack {
    const wire: Wire
    const session: ReliableSession
    var txQueue: seq<Tx.TxEntry>
    var serial: Byte
    var handlers: set<nat>

    /** What the session has done since it was made. */
    ghost var run: Run

    ghost predicate Valid()
      reads this, session, session.seenRequests, session.seenResponses
      reads session.seenRequests.ids, session.seenResponses.ids
    {
      session.Valid() && run.host == session.HostState() && run.nextTxId == session.nextTxId
    }

    ghost function State(): Stack
      requires Valid()
      reads this, session, session.seenRequests, session.seenResponses
      reads session.seenRequests.ids, session.seenResponses.ids
    {
      Stack(run, session.DeviceState(), txQueue, serial, handlers, session.deviceCacheCapacity)
    }

    constructor (wire: Wire, window: nat, cacheCapacity: nat, ring: nat)
      requires ring > 0
      ensures Valid() && State() == Stack(Start(window, ring), Device(EmptySlots(ring), map[], []), [], 0, {}, cacheCapacity)
      ensures fresh(session) && fresh(session.seenRequests) && fresh(session.seenResponses)
      ensures fresh(session.seenRequests.ids) && fresh(session.seenResponses.ids) && this.wire == wire
    {
      this.wire := wire;
      session := new ReliableSession(window, cacheCapacity, ring);
      txQueue, serial, handlers := [], 0, {};
      run := Start(window, ring);
    }

    // ---- The queue of frames to send ----

    method DropOneTelemetry() returns (dropped: bool)
      modifies this`txQueue
      ensures dropped <==> Tx.FirstTelemetry(old(txQueue)) < |old(txQueue)|
      ensures txQueue == Tx.Without(old(txQueue), Tx.FirstTelemetry(old(txQueue)))
    {
      var i := 0;
      while i < |txQueue|
        invariant 0 <= i <= |txQueue| && txQueue == old(txQueue)
        invariant Tx.FirstTelemetry(txQueue) == i + Tx.FirstTelemetry(txQueue[i..])
      {
        assert txQueue[i..][1..] == txQueue[i + 1..];
        if txQueue[i].telemetry {
          txQueue := txQueue[..i] + txQueue[i + 1..];
          return true;
        }
        i := i + 1;
      }
      return false;
    }

    method EnqueuePendingFrame(cmd: nat, raw: seq<Byte>) returns (ok: bool)
      requires Valid()
      modifies this`txQueue, this`serial
      ensures Valid()
      ensures forall p: Pending :: p.requestCmd == cmd && p.request == raw ==>
                State() == Enqueue(wire, old(State()), p) && ok == Enters(wire, old(State()), p)
    {
      if |txQueue| >= Tx.TX_QUEUE_CAP {
        var dropped := DropOneTelemetry();
        if !dropped {
          return false;
        }
      }
      if !wire.known(Packet(cmd, raw)) {
        return false;
      }
      txQueue := txQueue + [Tx.TxEntry(wire.encode(serial, Packet(cmd, raw)), Tx.IsTelemetryCmd(cmd))];
      serial := (serial + 1) % 256;
      return true;
    }

    method EnqueuePrebuiltFrame(frame: Tx.Frame, priority: bool) returns (ok: bool)
      requires Valid()
      modifies this`txQueue
      ensures Valid()
      ensures var r := Tx.EnqueuePrebuilt(old(txQueue), frame, priority);
              ok == r.ok && State() == old(State()).(queue := r.queue)
    {
      if |frame| > Tx.MAX_FRAME_SIZE {
        return false;
      }
      var telemetry := Tx.IsTelemetryFrame(frame);
      if |txQueue| >= Tx.TX_QUEUE_CAP {
        if priority || telemetry {
          var dropped := DropOneTelemetry();
          if !dropped {
            txQueue := txQueue[..|txQueue| - 1];
          }
        } else {
          return false;
        }
      }
      txQueue := txQueue + [Tx.TxEntry(frame, telemetry)];
      return true;
    }

    /** Offers the oldest frame to the transport, whose answer is `taken`. */
    method DrainTx(taken: bool) returns (sent: seq<Tx.Frame>)
      requires Valid()
      modifies this`txQueue
      ensures Valid()
      ensures (State(), sent) == if taken then Transmit(old(State())) else (old(State()), [])
    {
      if txQueue == [] || !taken {
        return [];
      }
      sent := [txQueue[0].frame];
      txQueue := txQueue[1..];
    }

    /** Serialises a packet and queues its frame. */
    method SendPacket(p: Packet, priority: bool)
      requires Valid()
      modifies this`txQueue, this`serial
      ensures Valid() && State() == Emit(wire, old(State()), p, priority)
    {
      if wire.known(p) {
        var frame := wire.encode(serial, p);
        serial := (serial + 1) % 256;
        var _ := EnqueuePrebuiltFrame(frame, priority);
      }
    }

    // ---- Requests ----

    /** Registers a request, built for the id it gets. */
    method Send(requestCmd: nat, responseCmd: nat, build: TxId -> seq<Byte>, timeout: nat, maxRetries: nat, at: Time)
      returns (txId: TxId)
      requires Valid()
      modifies this`run, session
      ensures Valid() && txId == old(run).nextTxId
      ensures State() == old(State()).(run := Apply(old(run),
                SessionRuns.Send(requestCmd, responseCmd, build(txId), timeout, maxRetries, at)))
    {
      txId := session.NextTxId();
      session.RegisterPending(txId, requestCmd, responseCmd, build(txId), timeout, maxRetries, at);
      run := Apply(run, SessionRuns.Send(requestCmd, responseCmd, build(txId), timeout, maxRetries, at));
    }

    /** Serialises the answer to a request, queues it ahead of telemetry, and keeps it. */
    method SendResponseAndCache(requestCmd: Half, txId: Word32, response: Packet) returns (ok: bool)
      requires Valid()
      modifies this`txQueue, this`serial, session
      ensures Valid() && State() == Answer(wire, old(State()), requestCmd, txId, response)
      ensures ok <==> wire.known(response) && |wire.encode(old(serial), response)| <= Tx.MAX_FRAME_SIZE
    {
      if !wire.known(response) {
        return false;
      }
      var frame := wire.encode(serial, response);
      serial := (serial + 1) % 256;
      ok := EnqueuePrebuiltFrame(frame, true);
      if !ok {
        return false;
      }
      session.CacheResponse(requestCmd, txId, response.cmd, frame);
    }

    // ---- The phases of a cycle ----

    /** Hands out requests until the window is full, none waits, or the queue takes no more. */
    method HandleSessionOutbound(clock: nat -> Time)
      requires Valid()
      modifies this`txQueue, this`serial, this`run, session
      ensures Valid() && State() == PumpAll(wire, old(State()), clock, 0)
    {
      var n := 0;
      var more := true;
      while more
        invariant Valid() && 0 <= n
        invariant more ==> PumpAll(wire, State(), clock, n) == PumpAll(wire, old(State()), clock, 0)
        invariant !more ==> State() == PumpAll(wire, old(State()), clock, 0)
        decreases more, if session.inflightCount < session.windowSize then session.windowSize - session.inflightCount else 0
      {
        more := PumpRound(clock(n));
        n := n + 1;
      }
    }

    /** One round of the loop. */
    method PumpRound(at: Time) returns (more: bool)
      requires Valid()
      modifies this`txQueue, this`serial, this`run, session
      ensures Valid() && State() == PumpOnce(wire, old(State()), at)
      ensures more <==> HandsOut(old(State()).run.host)
                        && Enters(wire, old(State()), old(State()).run.host.pending[NextId(old(State()).run.host)])
      ensures more ==> old(session.inflightCount) < session.windowSize && session.inflightCount == old(session.inflightCount) + 1
    {
      ghost var s := State();
      var entry := session.NextOutbound(at);
      run := Apply(run, SessionRuns.NextOutbound(at));
      if entry.None? {
        return false;
      }
      ghost var p := s.run.host.pending[NextId(s.run.host)];
      more := EnqueuePendingFrame(entry.value.cmd, entry.value.request);
      assert p.requestCmd == entry.value.cmd && p.request == entry.value.request;
    }

    /** Sends again what is due; reports the requests given up. */
    method HandleSessionRetries(now: Time, clock: TxId -> Time) returns (ids: seq<TxId>, timeouts: seq<Outbound>)
      requires Valid()
      modifies this`txQueue, this`serial, this`run, session
      ensures forall k :: k in ids <==> k in RetriedIds(old(session.pending), now)
      ensures |ids| == |RetriedIds(old(session.pending), now)|
      ensures Valid() && State() == PollOnce(wire, old(State()), now, clock, ids)
      ensures Lists(timeouts, ExpiredIds(old(session.pending), now), old(session.pending))
    {
      ghost var s, pending := State(), session.pending;
      var retries;
      retries, timeouts := session.Poll(now, clock);
      run := Apply(run, DoPoll(now, clock));
      ids := IdsOf(retries);
      EntriesListed(retries, ids, RetriedIds(pending, now), pending);
      EnqueueRetries(retries, ids, pending);
    }

    method EnqueueRetries(retries: seq<Outbound>, ghost ids: seq<TxId>, ghost pending: map<TxId, Pending>)
      requires Valid() && ids == IdsOf(retries)
      requires forall e :: e in retries ==> e.txId in pending && e == Entry(pending, e.txId)
      requires forall k :: k in ids ==> k in pending
      modifies this`txQueue, this`serial
      ensures Valid() && State() == EnqueueAll(wire, old(State()), pending, ids)
    {
      for i := 0 to |retries|
        invariant Valid()
        invariant EnqueueAll(wire, State(), pending, ids[i..]) == EnqueueAll(wire, old(State()), pending, ids)
      {
        assert ids[i..][0] == ids[i] && ids[i..][1..] == ids[i + 1..];
        assert retries[i] in retries;
        ghost var p := pending[ids[i]];
        assert p.requestCmd == retries[i].cmd && p.request == retries[i].request;
        var _ := EnqueuePendingFrame(retries[i].cmd, retries[i].request);
      }
      assert ids[|retries|..] == [];
    }

    // ---- Received packets ----

    method HandleAckPacket(p: Packet, at: Time)
      requires Valid() && p.cmd == ACK_CMD
      modifies this`run, session
      ensures Valid() && State() == Stacks.HandlePacket(wire, old(State()), p, at).stack
    {
      if |p.payload| != wire.ackSize {
        return;
      }
      session.OnAck(wire.txIdOf(p), at);
      run := Apply(run, SessionRuns.OnAck(wire.txIdOf(p), at));
    }

    method HandleRequestPacket(p: Arrived) returns (event: Event)
      requires Valid()
      modifies this`txQueue, this`serial, session.seenRequests, session.seenRequests.ids
      ensures Valid() && Outcome(State(), event) == HandleRequest(wire, old(State()), p)
    {
      var txId := wire.txIdOf(p);
      if p.cmd >= 0x6300 {
        return if p.cmd in handlers then Dispatched(p) else Nothing;
      }
      if txId == 0 {
        if 0x6000 <= p.cmd < 0x6100 && p.cmd in handlers {
          return Dispatched(p);
        }
        return Nothing;
      }
      event := HandleReliablePacket(p, txId);
    }

    method HandleReliablePacket(p: Arrived, txId: Word32) returns (event: Event)
      requires Valid()
      modifies this`txQueue, this`serial, session.seenRequests, session.seenRequests.ids
      ensures Valid() && Outcome(State(), event) == HandleReliable(wire, old(State()), p, txId)
    {
      var duplicate, cached := session.OnRequest(p.cmd, txId);
      SendPacket(wire.ack(txId, p.cmd), true);
      if duplicate {
        if cached.Some? && cached.value.frame != [] {
          var _ := EnqueuePrebuiltFrame(cached.value.frame, true);
        }
        return Nothing;
      }
      return Accepted(txId, p, p.cmd in handlers);
    }

    method HandleResponsePacket(p: Arrived) returns (event: Event)
      requires Valid()
      modifies this`run, session, session.seenResponses, session.seenResponses.ids
      ensures Valid() && Outcome(State(), event) == HandleResponse(wire, old(State()), p)
    {
      var txId := wire.txIdOf(p);
      if txId == 0 {
        return Nothing;
      }
      var called := session.OnResponse(p.cmd, txId);
      run := Apply(run, SessionRuns.OnResponse(p.cmd, txId));
      return if called then Answered(txId, p) else Nothing;
    }

    method HandlePacket(p: Arrived, at: Time) returns (event: Event)
      requires Valid()
      modifies this`txQueue, this`serial, this`run, session
      modifies session.seenRequests, session.seenRequests.ids, session.seenResponses, session.seenResponses.ids
      ensures Valid() && Outcome(State(), event) == Stacks.HandlePacket(wire, old(State()), p, at)
    {
      if p.cmd == ACK_CMD {
        HandleAckPacket(p, at);
        return Nothing;
      }
      if IsRequestCmd(p.cmd) {
        event := HandleRequestPacket(p);
      } else {
        event := HandleResponsePacket(p);
      }
    }

    method HandleReceived(packets: seq<Arrived>, clock: nat -> Time) returns (events: seq<Event>)
      requires Valid()
      modifies this`txQueue, this`serial, this`run, session
      modifies session.seenRequests, session.seenRequests.ids, session.seenResponses, session.seenResponses.ids
      ensures Valid() && (State(), events) == HandleAll(wire, old(State()), packets, clock)
    {
      events := [];
      for i := 0 to |packets|
        invariant Valid() && (State(), events) == HandleAll(wire, old(State()), packets[..i], clock)
      {
        assert packets[..i + 1][..i] == packets[..i];
        var event := HandlePacket(packets[i], clock(i));
        events := events + [event];
      }
      assert packets[..|packets|] == packets;
    }

    /** The ring and the parser share no array with each other or with the session. */
    ghost predicate Apart(ring: ISRRingBuffer, parser: Parser)
      reads parser, parser.buffer, ring, session, session.seenRequests, session.seenResponses
    {
      && ring.buf != parser.buffer.data
      && parser.buffer.data as object !in {session.seenRequests.ids as object, session.seenResponses.ids as object}
    }

    /** One cycle: the bytes of the ring go through the parser, its packets are handled, requests are
        handed out, retries go out, and `taken` is what the transport says to the frame offered. */
    method RunOneCycle(ring: ISRRingBuffer, parser: Parser, arrival: nat -> Time, handOut: nat -> Time,
                       now: Time, clock: TxId -> Time, taken: bool)
      returns (packets: seq<Arrived>, events: seq<Event>, ids: seq<TxId>, timeouts: seq<Outbound>, sent: seq<Tx.Frame>)
      requires Valid() && ring.Valid() && parser.Valid() && Apart(ring, parser)
      modifies this`txQueue, this`serial, this`run, session
      modifies session.seenRequests, session.seenRequests.ids, session.seenResponses, session.seenResponses.ids
      modifies ring, parser, parser.buffer, parser.buffer.data
      ensures Valid() && ring.Valid() && parser.Valid() && ring.Contents() == [] && ScannerOf(parser.p).Sane()
      ensures Reception(parser.State(), parser.log)
              == Drained(ScannerOf(parser.p), parser.buffer.data.Length,
                         Reception(old(parser.State()), old(parser.log)), old(ring.Contents()))
      ensures parser.log == old(parser.log) + packets && events == HandleAll(wire, old(State()), packets, arrival).1
      ensures var s := Pumped(wire, old(State()), packets, arrival, handOut);
              InSomeOrder(ids, s, now) && (State(), sent) == Finished(wire, s, now, clock, ids, taken)
              && Lists(timeouts, ExpiredIds(s.run.host.pending, now), s.run.host.pending)
    {
      packets := DrainRx(ring, parser);
      events := HandleReceived(packets, arrival);
      HandleSessionOutbound(handOut);
      ids, timeouts := HandleSessionRetries(now, clock);
      sent := DrainTx(taken);
    }
  }

  function IdsOf(entries: seq<Outbound>): (ids: seq<TxId>)
    ensures |ids| == |entries| && forall i :: 0 <= i < |ids| ==> ids[i] == entries[i].txId
  {
    seq(|entries|, i requires 0 <= i < |entries| => entries[i].txId)
  }

  lemma EntriesListed(entries: seq<Outbound>, ids: seq<TxId>, all: set<TxId>, pending: map<TxId, Pending>)
    requires all <= pending.Keys && Lists(entries, all, pending) && ids == IdsOf(entries)
    ensures forall k :: k in ids <==> k in all
    ensures |ids| == |all|
  {
    forall k | k in all
      ensures k in ids
    {
      var i :| 0 <= i < |entries| && entries[i] == Entry(pending, k);
      assert ids[i] == k;
    }
    forall k | k in ids
      ensures k in all
    {
      var i :| 0 <= i < |ids| && ids[i] == k;
      assert entries[i] in entries;
    }
  }
}

/** What the application gets to see of a packet, by its command, its id and its size. */
module Dispatching {
  import opened Dedup
  import opened Scanning
  import opened Session
  import opened SessionProgress
  import opened SessionRuns
  import opened Stacks

  /** Unreliable packets for a handler: real-time commands, and status packets without an id whose
      command is odd. */
  predicate ForHandler(w: Wire, handlers: set<nat>, p: Packet) {
    && p.cmd in handlers
    && (p.cmd % 2 == 1 || 0x6300 <= p.cmd < 0x6400)
    && (p.cmd >= 0x6300 || (0x6000 <= p.cmd < 0x6100 && w.txIdOf(p) == 0))
  }

  /** Exactly these are handed to their handler, unchanged; they are not acknowledged, and leave the
      stack as it is. */
  lemma DispatchedIff(w: Wire, s: Stack, p: Arrived, at: Time)
    requires s.device.seen != [] && s.run.host.seenResponses != []
    ensures var r := HandlePacket(w, s, p, at);
            && (r.event.Dispatched? <==> ForHandler(w, s.handlers, p))
            && (r.event.Dispatched? ==> r == Outcome(s, Dispatched(p)))
  {
  }

  /** Of the status packets only those with an odd command reach the handler registered for them. */
  lemma StatusDeliveredIff(w: Wire, s: Stack, p: Arrived, at: Time)
    requires s.device.seen != [] && s.run.host.seenResponses != []
    requires 0x6000 <= p.cmd < 0x6100 && w.txIdOf(p) == 0 && p.cmd in s.handlers
    ensures HandlePacket(w, s, p, at).event == Dispatched(p) <==> p.cmd % 2 == 1
    ensures HandlePacket(w, s, p, at).stack == s
  {
  }

  /** The feedback of the motors is command 0x6002. */
  lemma MotorFeedbackUnheard(w: Wire, s: Stack, p: Arrived, at: Time)
    requires s.device.seen != [] && s.run.host.seenResponses != []
    requires p.cmd == 0x6002 && w.txIdOf(p) == 0 && p.cmd in s.handlers
    ensures HandlePacket(w, s, p, at) == Outcome(s, Nothing)
  {
  }

  /** Without an id, reliable requests and responses are ignored. */
  lemma WithoutIdIgnored(w: Wire, s: Stack, p: Arrived, at: Time)
    requires s.device.seen != [] && s.run.host.seenResponses != []
    requires w.txIdOf(p) == 0 && p.cmd < 0x6300 && p.cmd != 0x6FF0 && !(0x6000 <= p.cmd < 0x6100)
    ensures HandlePacket(w, s, p, at) == Outcome(s, Nothing)
  {
  }

  /** The first response to a request on the books takes it off, whatever the command of the response;
      the callback is called with it, once, exactly if the command is the expected one. Any other
      response changes no more than the memory of responses. */
  lemma ResponseOutcome(w: Wire, s: Stack, p: Arrived, k: TxId, at: Time)
    requires s.device.seen != [] && s.run.host.seenResponses != []
    requires p.cmd % 2 == 0 && !(0x6300 <= p.cmd < 0x6400) && p.cmd != 0x6FF0 && k == w.txIdOf(p)
    ensures var (r, h) := (HandlePacket(w, s, p, at), s.run.host);
            var first := k != 0 && ComposeDedupKey(p.cmd, k) !in h.seenResponses && k in h.pending;
            && r.stack == s.(run := r.stack.run)
            && (k != 0 ==> ComposeDedupKey(p.cmd, k) in r.stack.run.host.seenResponses)
            && (first ==> r.stack.run.host.pending == h.pending - {k})
            && (!first ==> r.stack.run.host.pending == h.pending)
            && r.event == (if first && h.pending[k].responseCmd == p.cmd then Answered(k, p) else Nothing)
  {
    var key := ComposeDedupKey(p.cmd, k);
    var seen := Insert(s.run.host.seenResponses, key);
    assert k != 0 && key !in s.run.host.seenResponses ==> seen[|seen| - 1] == key;
  }

  /** The books count a callback for a request exactly when the application sees it called. */
  lemma CallbacksCounted(w: Wire, s: Stack, p: Arrived, at: Time, k: TxId)
    requires s.device.seen != [] && s.run.host.seenResponses != []
    ensures var r := HandlePacket(w, s, p, at);
            Count(r.stack.run.callbacks, k)
            == Count(s.run.callbacks, k) + if r.event.Answered? && r.event.txId == k then 1 else 0
  {
  }

  /** An acknowledgement of the right size keeps polls off its request for one timeout from now; one of
      another size is ignored. The application sees neither. */
  lemma AckOutcome(w: Wire, s: Stack, p: Arrived, at: Time, later: Time)
    requires s.device.seen != [] && s.run.host.seenResponses != [] && p.cmd == 0x6FF0
    ensures var (r, k, h) := (HandlePacket(w, s, p, at), w.txIdOf(p), s.run.host);
            && r.event == Nothing
            && (|p.payload| != w.ackSize ==> r.stack == s)
            && (|p.payload| == w.ackSize && k in h.pending && h.pending[k].inflight ==>
                  (PollTouches(r.stack.run.host, k, later) <==> later >= at + h.pending[k].timeout))
  {
    AckPutsOff(s.run.host, w.txIdOf(p), at, later);
  }
}

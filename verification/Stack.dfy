/** One protocol stack: how it dispatches the packets it receives and what it sends. */
module Stacks {
  import opened Basics
  import opened Bits
  import opened Dedup
  import opened DeviceCache
  import opened Framing
  import opened Scanning
  import opened Session
  import opened SessionRuns
  import opened TxQueues

  const ACK_CMD: nat := 0x6FF0

  type Word32 = n: nat | n < 0x1_0000_0000

  /** A packet as it comes out of the parser. */
  type Arrived = p: Packet | p.cmd < 0x1_0000 witness Packet(0, [])

  /** The packet types and the frame format the two ends of a link agree on. */
  datatype Wire = Wire(
    encode: (Byte, Packet) -> Frame,     // the frame of a known packet, for a sequence number
    decode: Frame -> Option<Packet>,     // what the parser makes of a frame
    known: Packet -> bool,               // the command is that of a packet type, the payload has its size, the frame fits
    txIdOf: Packet -> Word32,            // the transaction id field, zero if there is none
    ack: (Word32, Half) -> Packet,       // the acknowledgement of a request
    ackSize: nat)
  {
    /** What is sent is what arrives; acknowledgements are packets of their own command. */
    ghost predicate Faithful() {
      && (forall n: Byte, p :: known(p) ==> Carries(encode(n, p), p))
      && (forall k: Word32, c: Half :: ack(k, c).cmd == ACK_CMD)
    }

    predicate Carries(f: Frame, p: Packet) {
      p.cmd < 0x1_0000 && decode(f) == Some(p) && |f| <= MAX_FRAME_SIZE
    }
  }

  predicate IsRequestCmd(cmd: nat) {
    cmd % 2 == 1 || 0x6300 <= cmd < 0x6400
  }

  /** A request with retransmission and duplicate suppression. */
  predicate IsReliableRequest(cmd: nat) {
    IsRequestCmd(cmd) && cmd < 0x6300
  }

  datatype Stack = Stack(
    run: Run, device: Device, queue: seq<TxEntry>, serial: Byte, handlers: set<nat>, cacheCapacity: nat)

  /** What the application sees of one packet. */
  datatype Event =
    | Nothing
    | Dispatched(packet: Packet)               // an unreliable packet goes to its handler
    | Accepted(txId: TxId, packet: Packet, handled: bool)     // a fresh reliable request, and whether a handler got it
    | Answered(txId: TxId, packet: Packet)     // a response goes to the callback of its request

  datatype Outcome = Outcome(stack: Stack, event: Event)

  function Next(n: Byte): Byte { (n + 1) % 256 }

  /** Serialises a packet and queues its frame; nothing happens if it is not known. */
  function Emit(w: Wire, s: Stack, p: Packet, priority: bool): Stack {
    if !w.known(p) then s
    else s.(queue := EnqueuePrebuilt(s.queue, w.encode(s.serial, p), priority).queue, serial := Next(s.serial))
  }

  function Replay(s: Stack, f: Frame): Stack {
    s.(queue := EnqueuePrebuilt(s.queue, f, true).queue)
  }

  function HandlePacket(w: Wire, s: Stack, p: Arrived, at: Time): (r: Outcome)
    requires s.device.seen != [] && s.run.host.seenResponses != []
    ensures r.stack.device.seen != [] && r.stack.run.host.seenResponses != []
  {
    if p.cmd == ACK_CMD then
      Outcome(if |p.payload| != w.ackSize then s else s.(run := Apply(s.run, OnAck(w.txIdOf(p), at))), Nothing)
    else if IsRequestCmd(p.cmd) then HandleRequest(w, s, p)
    else HandleResponse(w, s, p)
  }

  function HandleRequest(w: Wire, s: Stack, p: Arrived): Outcome
    requires s.device.seen != []
  {
    var txId := w.txIdOf(p);
    if p.cmd >= 0x6300 || (txId == 0 && 0x6000 <= p.cmd < 0x6100) then
      Outcome(s, if p.cmd in s.handlers then Dispatched(p) else Nothing)
    else if txId == 0 then Outcome(s, Nothing)
    else HandleReliable(w, s, p, txId)
  }

  /** The acknowledgement goes out first; a repetition gets the response kept for it. */
  function HandleReliable(w: Wire, s: Stack, p: Arrived, txId: Word32): Outcome
    requires s.device.seen != []
  {
    var key := ComposeDedupKey(p.cmd, txId);
    var s' := Emit(w, s.(device := s.device.(seen := Insert(s.device.seen, key))), w.ack(txId, p.cmd), true);
    if key !in s.device.seen then Outcome(s', Accepted(txId, p, p.cmd in s.handlers))
    else if key in s.device.cache && s.device.cache[key].frame != [] then
      Outcome(Replay(s', s.device.cache[key].frame), Nothing)
    else Outcome(s', Nothing)
  }

  function HandleResponse(w: Wire, s: Stack, p: Arrived): Outcome
    requires s.run.host.seenResponses != []
  {
    var txId := w.txIdOf(p);
    if txId == 0 then Outcome(s, Nothing)
    else
      var key := ComposeDedupKey(p.cmd, txId);
      Outcome(s.(run := Apply(s.run, OnResponse(p.cmd, txId))),
              if Completes(s.run.host, key, txId) && s.run.host.pending[txId].responseCmd == p.cmd
              then Answered(txId, p) else Nothing)
  }

  /** Packets handled one after the other, and what the application sees of each. */
  function HandleAll(w: Wire, s: Stack, packets: seq<Arrived>, clock: nat -> Time): (r: (Stack, seq<Event>))
    requires s.device.seen != [] && s.run.host.seenResponses != []
    ensures r.0.device.seen != [] && r.0.run.host.seenResponses != []
    decreases |packets|
  {
    if packets == [] then (s, [])
    else
      var n := |packets| - 1;
      var before := HandleAll(w, s, packets[..n], clock);
      var last := HandlePacket(w, before.0, packets[n], clock(n));
      (last.stack, before.1 + [last.event])
  }

  /** The application answers a request: the frame is queued and kept. */
  function Answer(w: Wire, s: Stack, requestCmd: Half, txId: Word32, response: Packet): Stack {
    if !w.known(response) then s
    else
      var f := w.encode(s.serial, response);
      var r := EnqueuePrebuilt(s.queue, f, true);
      var s' := s.(serial := Next(s.serial));
      if !r.ok then s'
      else s'.(queue := r.queue,
               device := CacheResponse(s.device, s.cacheCapacity, ComposeDedupKey(requestCmd, txId),
                                       Completed(response.cmd, f)))
  }

  /** Puts the frame of a request on the books into the queue, if it fits its packet type. */
  function Enqueue(w: Wire, s: Stack, p: Pending): Stack {
    var packet := Packet(p.requestCmd, p.request);
    if |s.queue| >= TX_QUEUE_CAP && FirstTelemetry(s.queue) == |s.queue| then s
    else if w.known(packet) then
      s.(queue := EnqueuePending(s.queue, p.requestCmd, Some(w.encode(s.serial, packet))).queue,
         serial := Next(s.serial))
    else s.(queue := EnqueuePending(s.queue, p.requestCmd, None).queue)
  }

  /** One round of handing out requests. */
  function PumpOnce(w: Wire, s: Stack, at: Time): Stack {
    var s' := s.(run := Apply(s.run, NextOutbound(at)));
    if HandsOut(s.run.host) then Enqueue(w, s', s.run.host.pending[NextId(s.run.host)]) else s'
  }

  /** Whether the frame of a request on the books gets into the queue. */
  predicate Enters(w: Wire, s: Stack, p: Pending) {
    (|s.queue| >= TX_QUEUE_CAP ==> FirstTelemetry(s.queue) < |s.queue|) && w.known(Packet(p.requestCmd, p.request))
  }

  /** Hands out requests until the window is full, none waits, or one does not get into the queue. */
  function PumpAll(w: Wire, s: Stack, clock: nat -> Time, n: nat): Stack
    decreases if s.run.host.inflightCount < s.run.host.window then s.run.host.window - s.run.host.inflightCount else 0
  {
    if HandsOut(s.run.host) && Enters(w, s, s.run.host.pending[NextId(s.run.host)])
    then PumpAll(w, PumpOnce(w, s, clock(n)), clock, n + 1)
    else PumpOnce(w, s, clock(n))
  }

  function EnqueueAll(w: Wire, s: Stack, pending: map<TxId, Pending>, ids: seq<TxId>): Stack
    requires forall k :: k in ids ==> k in pending
    decreases |ids|
  {
    if ids == [] then s else EnqueueAll(w, Enqueue(w, s, pending[ids[0]]), pending, ids[1..])
  }

  /** A poll, which sends the retries again in the order `ids` in which it came upon them. */
  function PollOnce(w: Wire, s: Stack, at: Time, clock: TxId -> Time, ids: seq<TxId>): Stack
    requires forall k :: k in ids ==> k in s.run.host.pending
  {
    EnqueueAll(w, s.(run := Apply(s.run, DoPoll(at, clock))), s.run.host.pending, ids)
  }

  /** Hands the oldest frame to the transport. */
  function Transmit(s: Stack): (r: (Stack, seq<Frame>)) {
    if s.queue == [] then (s, []) else (s.(queue := s.queue[1..]), [s.queue[0].frame])
  }

  // ---- A cycle ----

  /** The stack after its packets were handled and requests were handed out. */
  function Pumped(w: Wire, s: Stack, packets: seq<Arrived>, arrival: nat -> Time, handOut: nat -> Time): (r: Stack)
    requires s.device.seen != [] && s.run.host.seenResponses != []
  {
    PumpAll(w, HandleAll(w, s, packets, arrival).0, handOut, 0)
  }

  /** The retries of a stack, in the order in which a poll came upon them. */
  ghost predicate InSomeOrder(ids: seq<TxId>, s: Stack, now: Time) {
    (forall k :: k in ids <==> k in RetriedIds(s.run.host.pending, now)) && |ids| == |RetriedIds(s.run.host.pending, now)|
  }

  /** The retries go out, and then one frame if the transport takes it: the stack, and what it sent. */
  ghost function Finished(w: Wire, s: Stack, now: Time, clock: TxId -> Time, ids: seq<TxId>, taken: bool): (Stack, seq<Frame>)
    requires InSomeOrder(ids, s, now)
  {
    var polled := PollOnce(w, s, now, clock, ids);
    if taken then Transmit(polled) else (polled, [])
  }

  // ---- What a request always gets ----

  function Last(q: seq<TxEntry>): Frame
    requires q != []
  {
    q[|q| - 1].frame
  }

  /** A fresh request is acknowledged, whatever the state of the queue, before its handler runs. */
  lemma FreshGetsAck(w: Wire, s: Stack, p: Arrived, txId: Word32)
    requires w.Faithful() && s.device.seen != [] && w.known(w.ack(txId, p.cmd))
    requires ComposeDedupKey(p.cmd, txId) !in s.device.seen
    ensures var (r, f) := (HandleReliable(w, s, p, txId), w.encode(s.serial, w.ack(txId, p.cmd)));
            && r.event == Accepted(txId, p, p.cmd in s.handlers)
            && r.stack.queue != [] && Last(r.stack.queue) == f && w.Carries(f, w.ack(txId, p.cmd))
  {
    assert w.Carries(w.encode(s.serial, w.ack(txId, p.cmd)), w.ack(txId, p.cmd));
  }

  /** A repetition whose response is not kept is acknowledged again, and no more. */
  lemma RepeatedGetsAck(w: Wire, s: Stack, p: Arrived, txId: Word32)
    requires w.Faithful() && s.device.seen != [] && w.known(w.ack(txId, p.cmd))
    requires var key := ComposeDedupKey(p.cmd, txId);
             key in s.device.seen && (key in s.device.cache ==> s.device.cache[key].frame == [])
    ensures var (r, f) := (HandleReliable(w, s, p, txId), w.encode(s.serial, w.ack(txId, p.cmd)));
            && r.event == Nothing && r.stack == s.(queue := r.stack.queue, serial := (s.serial + 1) % 256)
            && r.stack.queue != [] && Last(r.stack.queue) == f && |r.stack.queue| <= |s.queue| + 1
  {
    assert w.Carries(w.encode(s.serial, w.ack(txId, p.cmd)), w.ack(txId, p.cmd));
    InsertKnown(s.device.seen, ComposeDedupKey(p.cmd, txId));
  }

  lemma InsertKnown(seen: seq<Key>, key: Key)
    requires seen != [] && key in seen
    ensures Insert(seen, key) == seen
  {
  }

  /** The answer of the application is always queued, as the newest entry, and kept as well if the cache has
      room for it. */
  lemma AnswerQueuedAndKept(w: Wire, s: Stack, requestCmd: Half, txId: Word32, p: Packet, n: nat)
    requires w.known(p) && |w.encode(s.serial, p)| <= 512 && |s.queue| <= 16
    requires n == Excess(|s.device.order| + 1, s.cacheCapacity)
    ensures var (r, f, key) := (Answer(w, s, requestCmd, txId, p), w.encode(s.serial, p), ComposeDedupKey(requestCmd, txId));
            && r.queue != [] && Last(r.queue) == f && r.serial == (s.serial + 1) % 256 && r.device.seen == s.device.seen
            && (key in r.device.cache <==> s.cacheCapacity > 0 && key !in s.device.order[..n])
            && (key in r.device.cache && |f| <= 256 ==> r.device.cache[key] == Completed(p.cmd, f))
  {
    var f := w.encode(s.serial, p);
    KeptIff(s.device, s.cacheCapacity, ComposeDedupKey(requestCmd, txId), Completed(p.cmd, f), n);
    assert f[..|f|] == f;
  }

  /** How many entries of a queue are telemetry. */
  function TelemetryCount(q: seq<TxEntry>): nat {
    if q == [] then 0 else (if q[0].telemetry then 1 else 0) + TelemetryCount(q[1..])
  }

  lemma {:induction false} CountsNoneIff(q: seq<TxEntry>)
    ensures TelemetryCount(q) == 0 <==> FirstTelemetry(q) == |q|
    decreases |q|
  {
    if q != [] {
      CountsNoneIff(q[1..]);
    }
  }

  lemma {:induction false} CountConcat(a: seq<TxEntry>, b: seq<TxEntry>)
    ensures TelemetryCount(a + b) == TelemetryCount(a) + TelemetryCount(b)
    decreases |a|
  {
    if a == [] {
      assert a + b == b;
    } else {
      CountConcat(a[1..], b);
      assert (a + b)[1..] == a[1..] + b;
    }
  }

  lemma CountOne(e: TxEntry, q: seq<TxEntry>)
    requires q == [e]
    ensures TelemetryCount(q) == if e.telemetry then 1 else 0
  {
    assert q[1..] == [];
  }

  lemma CountAppend(q: seq<TxEntry>, e: TxEntry)
    ensures TelemetryCount(q + [e]) == TelemetryCount(q) + if e.telemetry then 1 else 0
  {
    CountConcat(q, [e]);
    CountOne(e, [e]);
  }

  lemma CountAround(front: seq<TxEntry>, e: TxEntry, back: seq<TxEntry>)
    ensures TelemetryCount(front + [e] + back) == TelemetryCount(front + back) + if e.telemetry then 1 else 0
  {
    CountConcat(front + [e], back);
    CountAppend(front, e);
    CountConcat(front, back);
  }

  lemma OneFewer(q: seq<TxEntry>, i: nat)
    requires i < |q| && q[i].telemetry
    ensures TelemetryCount(Without(q, i)) == TelemetryCount(q) - 1
  {
    CountAround(q[..i], q[i], q[i + 1..]);
    Around(q, i);
  }

  /** Two replies in a row, and the second has to make room: too little telemetry is left to drop. */
  predicate NoRoomForTwo(q: seq<TxEntry>) {
    |q| >= TX_QUEUE_CAP - 1 && TelemetryCount(q) <= |q| - (TX_QUEUE_CAP - 1)
  }

  /** A second reply displaces the first exactly when there is no room for two. */
  lemma SecondDisplacesFirstIff(q: seq<TxEntry>, f: Frame, acked: seq<TxEntry>)
    requires |q| <= TX_QUEUE_CAP && |f| <= MAX_FRAME_SIZE && !IsTelemetryFrame(f)
    requires acked == EnqueuePrebuilt(q, f, true).queue
    ensures acked != [] && (Victim(acked) == |acked| - 1 <==> NoRoomForTwo(q))
  {
    var room := Without(q, Victim(q));
    CountAppend(room, TxEntry(f, false));
    CountsNoneIff(q);
    CountsNoneIff(acked);
    if |q| == TX_QUEUE_CAP && FirstTelemetry(q) < |q| {
      OneFewer(q, FirstTelemetry(q));
    } else if |q| == TX_QUEUE_CAP {
      assert q == room + [q[|q| - 1]];
      CountAppend(room, q[|q| - 1]);
    }
  }

  /** A repeated request whose response is kept always gets that response again. It gets the
      acknowledgement as well, right in front of it, unless the queue had no room for two:
      then the response takes the place of the acknowledgement. */
  lemma RepeatedGetsAnswer(w: Wire, s: Stack, p: Arrived, txId: Word32)
    requires w.Faithful() && s.device.seen != [] && w.known(w.ack(txId, p.cmd)) && |s.queue| <= TX_QUEUE_CAP
    requires !IsTelemetryFrame(w.encode(s.serial, w.ack(txId, p.cmd)))
    requires var key := ComposeDedupKey(p.cmd, txId);
             key in s.device.seen && key in s.device.cache && 0 < |s.device.cache[key].frame| <= MAX_FRAME_SIZE
    ensures var (r, f) := (HandleReliable(w, s, p, txId), w.encode(s.serial, w.ack(txId, p.cmd)));
            var (q, answer) := (r.stack.queue, s.device.cache[ComposeDedupKey(p.cmd, txId)].frame);
            && r.event == Nothing && q != [] && Last(q) == answer
            && if NoRoomForTwo(s.queue) then q[..|q| - 1] == Without(s.queue, Victim(s.queue))
               else q[..|q| - 1] != [] && Last(q[..|q| - 1]) == f
  {
    var f := w.encode(s.serial, w.ack(txId, p.cmd));
    assert w.Carries(f, w.ack(txId, p.cmd));
    var acked := EnqueuePrebuilt(s.queue, f, true).queue;
    WithoutKeepsLast(acked, Victim(acked));
    SecondDisplacesFirstIff(s.queue, f, acked);
  }

  /** Fifteen replies are waiting: the acknowledgement of a repetition does not go out. */
  lemma AcknowledgementLost(w: Wire, s: Stack, p: Arrived, txId: Word32, e: TxEntry)
    requires w.Faithful() && s.device.seen != [] && w.known(w.ack(txId, p.cmd))
    requires s.queue == seq(15, _ => e) && !e.telemetry
    requires var (key, f) := (ComposeDedupKey(p.cmd, txId), w.encode(s.serial, w.ack(txId, p.cmd)));
             && key in s.device.seen && key in s.device.cache && 0 < |s.device.cache[key].frame| <= MAX_FRAME_SIZE
             && !IsTelemetryFrame(f) && f != e.frame && f != s.device.cache[key].frame
    ensures forall t :: t in HandleReliable(w, s, p, txId).stack.queue ==>
              t.frame != w.encode(s.serial, w.ack(txId, p.cmd))
  {
    RepeatedGetsAnswer(w, s, p, txId);
    NoTelemetryAmong(s.queue, e);
    var q := HandleReliable(w, s, p, txId).stack.queue;
    forall t | t in q
      ensures t.frame != w.encode(s.serial, w.ack(txId, p.cmd))
    {
      assert q == q[..|q| - 1] + [q[|q| - 1]];
    }
  }

  lemma {:induction false} NoTelemetryAmong(q: seq<TxEntry>, e: TxEntry)
    requires (forall i :: 0 <= i < |q| ==> q[i] == e) && !e.telemetry
    ensures TelemetryCount(q) == 0
    decreases |q|
  {
    if q != [] {
      NoTelemetryAmong(q[1..], e);
    }
  }

  lemma WithoutKeepsLast(q: seq<TxEntry>, i: nat)
    requires q != []
    ensures i == |q| - 1 ==> Without(q, i) == q[..|q| - 1]
    ensures i != |q| - 1 ==> Without(q, i) != [] && Last(Without(q, i)) == Last(q)
  {
  }
}

/** Two stacks joined by links that may lose frames but keep their order: the steps of such a world,
    and what they do to the frames under way. */
module EndToEnd {
  import opened Basics
  import opened Framing
  import opened Scanning
  import opened Session
  import opened SessionRuns
  import opened Stacks
  import opened TxQueues

  /** A packet handed to a handler or a callback, under a transaction id. */
  datatype Delivery = Delivery(txId: TxId, packet: Packet)

  /** What happened so far: the request registered under each id, the ids the device accepted,
      what its handlers were given, what they answered, and what the callbacks were given; and the
      unreliable packets that handlers at either end were given. */
  datatype Log = Log(
    sent: map<TxId, Packet>, accepted: seq<TxId>, ran: seq<Delivery>,
    answers: map<TxId, Packet>, called: seq<Delivery>,
    heardByDevice: seq<Packet>, heardByHost: seq<Packet>)

  datatype World = World(host: Stack, device: Stack, down: seq<Frame>, up: seq<Frame>, log: Log)

  datatype Step =
    | Request(packet: Packet, responseCmd: nat, timeout: nat, maxRetries: nat, at: Time)
    | HandOut(at: Time)
    | Retry(at: Time, clock: TxId -> Time, ids: seq<TxId>)
    | HostBroadcast(packet: Packet)
    | HostTransmit
    | LoseDown(i: nat)
    | DeviceReceive(at: Time)
    | DeviceAnswer(txId: Word32, requestCmd: Half, response: Packet)
    | DeviceBroadcast(packet: Packet)
    | DeviceTransmit
    | LoseUp(i: nat)
    | HostReceive(at: Time)

  /** The request as it is kept on the books. */
  function Booked(p: Packet): Packet {
    Packet(p.cmd, Slots.Truncated(p.payload))
  }

  /** Ids are still fresh, and the request is a reliable one that carries the id it gets. */
  predicate CanRequest(w: Wire, v: World, p: Packet) {
    && |v.host.run.registered| < TWO32 - 1
    && IsReliableRequest(p.cmd)
    && (w.known(Booked(p)) ==> w.txIdOf(Booked(p)) == v.host.run.nextTxId)
  }

  /** The clock does not go back, and `ids` is an order in which the retries are come upon. */
  ghost predicate CanRetry(v: World, at: Time, clock: TxId -> Time, ids: seq<TxId>) {
    && (forall k :: clock(k) >= at)
    && NoDuplicates(ids) && (forall k :: k in ids <==> k in RetriedIds(v.host.run.host.pending, at))
  }

  /** Broadcasts carry no id and are no acknowledgements. */
  predicate CanBroadcast(w: Wire, p: Packet) {
    w.txIdOf(p) == 0 && p.cmd != ACK_CMD
  }

  /** A handler answers an id it was given, once, with a response that fits a cache slot. */
  ghost predicate CanAnswer(w: Wire, v: World, txId: Word32, p: Packet) {
    && (exists d :: d in v.log.ran && d.txId == txId) && txId !in v.log.answers
    && w.txIdOf(p) == txId && !IsRequestCmd(p.cmd) && p.cmd != ACK_CMD
    && (w.known(p) ==> |w.encode(v.device.serial, p)| <= Slots.MAX_PACKET_SIZE)
  }

  ghost predicate ValidStep(w: Wire, v: World, s: Step) {
    match s
    case Request(p, _, _, _, _) => CanRequest(w, v, p)
    case HandOut(_) => true
    case Retry(at, clock, ids) => CanRetry(v, at, clock, ids)
    case HostBroadcast(p) => CanBroadcast(w, p)
    case HostTransmit => true
    case LoseDown(i) => i < |v.down|
    case DeviceReceive(_) => v.down != []
    case DeviceAnswer(txId, _, p) => CanAnswer(w, v, txId, p)
    case DeviceBroadcast(p) => CanBroadcast(w, p)
    case DeviceTransmit => true
    case LoseUp(i) => i < |v.up|
    case HostReceive(_) => v.up != []
  }

  ghost predicate RingsExist(v: World) {
    v.host.device.seen != [] && v.host.run.host.seenResponses != []
    && v.device.device.seen != [] && v.device.run.host.seenResponses != []
  }

  function Received(w: Wire, f: Frame): Option<Packet> {
    if w.decode(f).Some? && w.decode(f).value.cmd < 0x1_0000 then w.decode(f) else None
  }

  /** The log after the device handled a packet. */
  function LogAfter(log: Log, r: Outcome, p: Packet): Log {
    if r.event.Dispatched? then log.(heardByDevice := log.heardByDevice + [r.event.packet])
    else if !r.event.Accepted? then log
    else log.(accepted := log.accepted + [r.event.txId],
              ran := if r.event.handled then log.ran + [Delivery(r.event.txId, p)] else log.ran)
  }

  /** The same for the host. */
  function HostLogAfter(log: Log, r: Outcome, p: Packet): Log {
    if r.event.Dispatched? then log.(heardByHost := log.heardByHost + [r.event.packet])
    else if !r.event.Answered? then log
    else log.(called := log.called + [Delivery(r.event.txId, p)])
  }

  function AtDevice(w: Wire, v: World, f: Frame, at: Time): World
    requires v.device.device.seen != [] && v.device.run.host.seenResponses != []
  {
    match Received(w, f)
    case None => v
    case Some(p) =>
      var r := HandlePacket(w, v.device, p, at);
      v.(device := r.stack, log := LogAfter(v.log, r, p))
  }

  function AtHost(w: Wire, v: World, f: Frame, at: Time): World
    requires v.host.device.seen != [] && v.host.run.host.seenResponses != []
  {
    match Received(w, f)
    case None => v
    case Some(p) =>
      var r := HandlePacket(w, v.host, p, at);
      v.(host := r.stack, log := HostLogAfter(v.log, r, p))
  }

  // ---- The steps ----

  function Registered(v: World, p: Packet, responseCmd: nat, timeout: nat, maxRetries: nat, at: Time): World {
    v.(host := v.host.(run := Apply(v.host.run, Send(p.cmd, responseCmd, p.payload, timeout, maxRetries, at))),
       log := v.log.(sent := v.log.sent[v.host.run.nextTxId := Booked(p)]))
  }

  function HandedOut(w: Wire, v: World, at: Time): World {
    v.(host := PumpOnce(w, v.host, at))
  }

  function Resent(w: Wire, v: World, at: Time, clock: TxId -> Time, ids: seq<TxId>): World
    requires forall k :: k in ids ==> k in v.host.run.host.pending
  {
    v.(host := PollOnce(w, v.host, at, clock, ids))
  }

  function HostSpoke(w: Wire, v: World, p: Packet): World {
    v.(host := Emit(w, v.host, p, false))
  }

  function HostSent(v: World): World {
    v.(host := Transmit(v.host).0, down := v.down + Transmit(v.host).1)
  }

  function DeviceGot(w: Wire, v: World, at: Time): World
    requires v.down != [] && v.device.device.seen != [] && v.device.run.host.seenResponses != []
  {
    AtDevice(w, v.(down := v.down[1..]), v.down[0], at)
  }

  function AnswerGiven(w: Wire, v: World, txId: Word32, requestCmd: Half, p: Packet): World {
    v.(device := Answer(w, v.device, requestCmd, txId, p),
       log := if w.known(p) then v.log.(answers := v.log.answers[txId := p]) else v.log)
  }

  function DeviceSpoke(w: Wire, v: World, p: Packet): World {
    v.(device := Emit(w, v.device, p, false))
  }

  function DeviceSent(v: World): World {
    v.(device := Transmit(v.device).0, up := v.up + Transmit(v.device).1)
  }

  function HostGot(w: Wire, v: World, at: Time): World
    requires v.up != [] && v.host.device.seen != [] && v.host.run.host.seenResponses != []
  {
    AtHost(w, v.(up := v.up[1..]), v.up[0], at)
  }

  ghost function Do(w: Wire, v: World, s: Step): World
    requires RingsExist(v) && ValidStep(w, v, s)
  {
    match s
    case Request(p, responseCmd, timeout, maxRetries, at) => Registered(v, p, responseCmd, timeout, maxRetries, at)
    case HandOut(at) => HandedOut(w, v, at)
    case Retry(at, clock, ids) => Resent(w, v, at, clock, ids)
    case HostBroadcast(p) => HostSpoke(w, v, p)
    case HostTransmit => HostSent(v)
    case LoseDown(i) => v.(down := Without(v.down, i))
    case DeviceReceive(at) => DeviceGot(w, v, at)
    case DeviceAnswer(txId, requestCmd, p) => AnswerGiven(w, v, txId, requestCmd, p)
    case DeviceBroadcast(p) => DeviceSpoke(w, v, p)
    case DeviceTransmit => DeviceSent(v)
    case LoseUp(i) => v.(up := Without(v.up, i))
    case HostReceive(at) => HostGot(w, v, at)
  }

  // ---- Frames under way ----

  function Frames(q: seq<TxEntry>): (r: seq<Frame>)
    ensures |r| == |q| && forall i :: 0 <= i < |q| ==> r[i] == q[i].frame
  {
    seq(|q|, i requires 0 <= i < |q| => q[i].frame)
  }

  /** All frames on their way in one direction, the next to arrive first. */
  function UnderWay(link: seq<Frame>, q: seq<TxEntry>): seq<Frame> {
    link + Frames(q)
  }

  /** At most one frame was lost, and none gained. */
  ghost predicate Shrank(a: seq<Frame>, b: seq<Frame>) {
    exists i: nat :: b == Without(a, i)
  }

  /** At most one frame was lost, and then at most `f` gained at the end. */
  ghost predicate Grew(a: seq<Frame>, b: seq<Frame>, f: Frame) {
    Shrank(a, b) || exists c :: Shrank(a, c) && b == c + [f]
  }

  lemma QueueShrinks(link: seq<Frame>, q: seq<TxEntry>, i: nat)
    ensures Shrank(UnderWay(link, q), UnderWay(link, Without(q, i)))
  {
    assert UnderWay(link, Without(q, i)) == Without(UnderWay(link, q), |link| + i);
  }

  lemma QueueGrows(link: seq<Frame>, q: seq<TxEntry>, i: nat, e: TxEntry)
    ensures Grew(UnderWay(link, q), UnderWay(link, Without(q, i) + [e]), e.frame)
  {
    QueueShrinks(link, q, i);
    assert UnderWay(link, Without(q, i) + [e]) == UnderWay(link, Without(q, i)) + [e.frame];
  }

  lemma PrebuiltGrows(link: seq<Frame>, q: seq<TxEntry>, f: Frame, priority: bool)
    ensures Grew(UnderWay(link, q), UnderWay(link, EnqueuePrebuilt(q, f, priority).queue), f)
  {
    QueueShrinks(link, q, |q|);
    QueueGrows(link, q, Victim(q), TxEntry(f, IsTelemetryFrame(f)));
  }

  lemma EnqueueGrows(w: Wire, s: Stack, p: Pending, link: seq<Frame>)
    ensures var packet, a, b := Packet(p.requestCmd, p.request), UnderWay(link, s.queue),
                                UnderWay(link, Enqueue(w, s, p).queue);
            if w.known(packet) then Grew(a, b, w.encode(s.serial, packet)) else Shrank(a, b)
  {
    QueueShrinks(link, s.queue, |s.queue|);
    QueueShrinks(link, s.queue, Victim(s.queue));
    if w.known(Packet(p.requestCmd, p.request)) {
      QueueGrows(link, s.queue, Victim(s.queue),
                 TxEntry(w.encode(s.serial, Packet(p.requestCmd, p.request)), IsTelemetryCmd(p.requestCmd)));
    }
  }

  lemma TransmitMoves(s: Stack, link: seq<Frame>)
    ensures UnderWay(link + Transmit(s).1, Transmit(s).0.queue) == UnderWay(link, s.queue)
  {
    if s.queue != [] {
      assert Frames(s.queue) == [s.queue[0].frame] + Frames(s.queue[1..]);
    }
  }

  // ---- Towards the device: ids never go back ----

  function IdOf(w: Wire, f: Frame): Word32 {
    if w.decode(f).Some? then w.txIdOf(w.decode(f).value) else 0
  }

  /** A frame towards the device is a broadcast, or the request registered under its id. */
  ghost predicate DownOk(w: Wire, sent: map<TxId, Packet>, f: Frame) {
    && w.decode(f).Some?
    && var p := w.decode(f).value;
       && p.cmd < 0x1_0000
       && if w.txIdOf(p) == 0 then p.cmd != ACK_CMD else w.txIdOf(p) in sent && sent[w.txIdOf(p)] == p
  }

  /** Broadcasts aside, ids do not decrease, and lie between `lo` and `hi`. */
  ghost predicate Ordered(w: Wire, frames: seq<Frame>, lo: TxId, hi: TxId) {
    && (forall f :: f in frames && IdOf(w, f) != 0 ==> lo <= IdOf(w, f) <= hi)
    && (forall i, j :: 0 <= i < j < |frames| && IdOf(w, frames[i]) != 0 && IdOf(w, frames[j]) != 0 ==>
          IdOf(w, frames[i]) <= IdOf(w, frames[j]))
  }

  ghost predicate DownWire(w: Wire, sent: map<TxId, Packet>, frames: seq<Frame>, lo: TxId, hi: TxId) {
    && lo <= hi
    && (forall f :: f in frames ==> DownOk(w, sent, f))
    && Ordered(w, frames, lo, hi)
  }

  lemma WithoutElements<T>(q: seq<T>, i: nat)
    ensures |Without(q, i)| <= |q|
    ensures forall k :: 0 <= k < |Without(q, i)| ==> Without(q, i)[k] == q[if k < i then k else k + 1]
    ensures forall x :: x in Without(q, i) ==> x in q
  {
    var r := Without(q, i);
    forall k | 0 <= k < |r|
      ensures r[k] == q[if k < i then k else k + 1] && r[k] in q
    {
    }
  }

  lemma DownLoses(w: Wire, sent: map<TxId, Packet>, a: seq<Frame>, b: seq<Frame>, lo: TxId, hi: TxId)
    requires DownWire(w, sent, a, lo, hi) && Shrank(a, b)
    ensures DownWire(w, sent, b, lo, hi)
  {
    var i: nat :| b == Without(a, i);
    WithoutElements(a, i);
  }

  lemma DownGains(w: Wire, sent: map<TxId, Packet>, a: seq<Frame>, b: seq<Frame>, f: Frame, lo: TxId, hi: TxId)
    requires DownWire(w, sent, a, lo, hi) && Grew(a, b, f)
    requires DownOk(w, sent, f) && (IdOf(w, f) == 0 || IdOf(w, f) == hi)
    ensures DownWire(w, sent, b, lo, hi)
  {
    if Shrank(a, b) {
      DownLoses(w, sent, a, b, lo, hi);
    } else {
      var c :| Shrank(a, c) && b == c + [f];
      DownLoses(w, sent, a, c, lo, hi);
      DownAppend(w, sent, c, f, lo, hi);
    }
  }

  lemma DownAppend(w: Wire, sent: map<TxId, Packet>, c: seq<Frame>, f: Frame, lo: TxId, hi: TxId)
    requires DownWire(w, sent, c, lo, hi)
    requires DownOk(w, sent, f) && (IdOf(w, f) == 0 || IdOf(w, f) == hi)
    ensures DownWire(w, sent, c + [f], lo, hi)
  {
    var b := c + [f];
    forall g | g in b
      ensures DownOk(w, sent, g) && (IdOf(w, g) != 0 ==> lo <= IdOf(w, g) <= hi)
    {
      assert g in c || g == f;
    }
    forall i, j | 0 <= i < j < |b| && IdOf(w, b[i]) != 0 && IdOf(w, b[j]) != 0
      ensures IdOf(w, b[i]) <= IdOf(w, b[j])
    {
      assert b[i] == c[i] && c[i] in c;
      assert j < |c| ==> b[j] == c[j];
    }
  }

  lemma DownRaise(w: Wire, sent: map<TxId, Packet>, a: seq<Frame>, lo: TxId, hi: TxId, hi': TxId)
    requires DownWire(w, sent, a, lo, hi) && hi <= hi'
    ensures DownWire(w, sent, a, lo, hi')
  {
  }

  lemma DownMore(w: Wire, sent: map<TxId, Packet>, sent': map<TxId, Packet>, a: seq<Frame>, lo: TxId, hi: TxId)
    requires DownWire(w, sent, a, lo, hi)
    requires forall k :: k in sent ==> k in sent' && sent'[k] == sent[k]
    ensures DownWire(w, sent', a, lo, hi)
  {
    forall f | f in a
      ensures DownOk(w, sent', f)
    {
      assert DownOk(w, sent, f);
    }
  }

  /** Once the first frame has arrived, nothing behind it has a smaller id. */
  lemma DownArrives(w: Wire, sent: map<TxId, Packet>, a: seq<Frame>, lo: TxId, hi: TxId)
    requires a != [] && DownWire(w, sent, a, lo, hi)
    ensures DownOk(w, sent, a[0]) && DownWire(w, sent, a[1..], lo, hi)
    ensures IdOf(w, a[0]) != 0 ==> lo <= IdOf(w, a[0]) <= hi && DownWire(w, sent, a[1..], IdOf(w, a[0]), hi)
  {
    var b := a[1..];
    assert a[0] in a;
    assert forall k :: 0 <= k < |b| ==> b[k] == a[k + 1];
    forall f | f in b
      ensures f in a
    {
    }
  }
}

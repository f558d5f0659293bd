/** Broadcasts over lossy links: none is heard twice, none out of order, none that was not spoken. */
module BroadcastOrder {
  import opened Bits
  import opened Broadcasts
  import opened Dedup
  import opened DeviceCache
  import opened Dispatching
  import opened EndToEnd
  import opened EndToEndRuns
  import opened Framing
  import opened Scanning
  import opened Session
  import opened SessionRuns
  import opened Stacks
  import opened TxQueues

  // ---- Subsequences ----

  ghost predicate Picks<T>(f: seq<nat>, a: seq<T>, b: seq<T>) {
    && |f| == |a|
    && (forall i :: 0 <= i < |f| ==> f[i] < |b| && b[f[i]] == a[i])
    && (forall i, j :: 0 <= i < j < |f| ==> f[i] < f[j])
  }

  /** `a` is what is left of `b` when some elements are taken out. */
  ghost predicate Within<T>(a: seq<T>, b: seq<T>) {
    exists f: seq<nat> :: Picks(f, a, b)
  }

  lemma WithinNothing<T>(a: seq<T>, b: seq<T>)
    requires a == []
    ensures Within(a, b)
  {
    assert Picks([], a, b);
  }

  lemma WithinDrops<T>(x: seq<T>, y: seq<T>, z: seq<T>, b: seq<T>)
    requires Within(x + y + z, b)
    ensures Within(x + z, b)
  {
    var f: seq<nat> :| Picks(f, x + y + z, b);
    var g: seq<nat> := f[..|x|] + f[|x| + |y|..];
    forall i | 0 <= i < |g|
      ensures g[i] < |b| && b[g[i]] == (x + z)[i]
    {
      assert i >= |x| ==> g[i] == f[i + |y|] && (x + z)[i] == (x + y + z)[i + |y|];
    }
    assert Picks(g, x + z, b);
  }

  lemma WithinMore<T>(a: seq<T>, b: seq<T>, more: seq<T>)
    requires Within(a, b)
    ensures Within(a, b + more)
  {
    var f: seq<nat> :| Picks(f, a, b);
    assert Picks(f, a, b + more);
  }

  lemma WithinBoth<T>(a: seq<T>, b: seq<T>, last: T)
    requires Within(a, b)
    ensures Within(a + [last], b + [last])
  {
    var f: seq<nat> :| Picks(f, a, b);
    var g: seq<nat> := f + [|b|];
    assert Picks(g, a + [last], b + [last]);
  }

  // ---- Frames under way ----

  /** What will be heard of these frames, if none of them is lost. */
  function HeardIn(w: Wire, handlers: set<nat>, frames: seq<Frame>): (r: seq<Packet>)
    decreases |frames|
  {
    if frames == [] then []
    else Select(w, handlers, PacketsOf(w, frames[0])) + HeardIn(w, handlers, frames[1..])
  }

  lemma {:induction false} HeardInConcat(w: Wire, handlers: set<nat>, a: seq<Frame>, b: seq<Frame>)
    ensures HeardIn(w, handlers, a + b) == HeardIn(w, handlers, a) + HeardIn(w, handlers, b)
    decreases |a|
  {
    if a == [] {
      assert a + b == b;
    } else {
      HeardInConcat(w, handlers, a[1..], b);
      assert (a + b)[1..] == a[1..] + b;
    }
  }

  lemma HeardInOne(w: Wire, handlers: set<nat>, f: Frame, fs: seq<Frame>)
    requires fs == [f]
    ensures HeardIn(w, handlers, fs) == Select(w, handlers, PacketsOf(w, f))
  {
    assert fs[1..] == [];
  }

  /** Nobody hears this frame. */
  ghost predicate Quiet(w: Wire, handlers: set<nat>, f: Frame) {
    Select(w, handlers, PacketsOf(w, f)) == []
  }

  /** What was heard, and what may still be, was spoken, in this order. */
  ghost predicate Flow(w: Wire, handlers: set<nat>, heard: seq<Packet>, frames: seq<Frame>, spoken: seq<Packet>) {
    Within(heard + HeardIn(w, handlers, frames), spoken)
  }

  lemma FlowShrinks(w: Wire, handlers: set<nat>, heard: seq<Packet>, a: seq<Frame>, b: seq<Frame>, spoken: seq<Packet>)
    requires Flow(w, handlers, heard, a, spoken) && Shrank(a, b)
    ensures Flow(w, handlers, heard, b, spoken)
  {
    var i: nat :| b == Without(a, i);
    if i < |a| {
      HeardWithout(w, handlers, a, i);
      var x, y, z := HeardIn(w, handlers, a[..i]), Select(w, handlers, PacketsOf(w, a[i])), HeardIn(w, handlers, a[i + 1..]);
      Regroup(heard, x, y, z);
      WithinDrops(heard + x, y, z, spoken);
    }
  }

  lemma HeardWithout(w: Wire, handlers: set<nat>, a: seq<Frame>, i: nat)
    requires i < |a|
    ensures var (x, z) := (HeardIn(w, handlers, a[..i]), HeardIn(w, handlers, a[i + 1..]));
            var y := Select(w, handlers, PacketsOf(w, a[i]));
            HeardIn(w, handlers, a) == x + y + z && HeardIn(w, handlers, Without(a, i)) == x + z
  {
    HeardInConcat(w, handlers, a[..i], a[i + 1..]);
    HeardInConcat(w, handlers, a[..i] + [a[i]], a[i + 1..]);
    HeardInConcat(w, handlers, a[..i], [a[i]]);
    HeardInOne(w, handlers, a[i], [a[i]]);
    Around(a, i);
  }

  lemma Regroup<T>(h: seq<T>, x: seq<T>, y: seq<T>, z: seq<T>)
    ensures h + (x + y + z) == h + x + y + z && h + (x + z) == h + x + z
  {
  }

  /** A frame that enters can at most be heard after everything else. */
  lemma FlowGrows(w: Wire, handlers: set<nat>, heard: seq<Packet>, a: seq<Frame>, b: seq<Frame>, f: Frame,
                  spoken: seq<Packet>, said: seq<Packet>)
    requires Flow(w, handlers, heard, a, spoken) && Grew(a, b, f)
    requires Quiet(w, handlers, f) || (|said| == 1 && Select(w, handlers, PacketsOf(w, f)) == said)
    ensures Flow(w, handlers, heard, b, spoken + said)
  {
    if Shrank(a, b) {
      FlowShrinks(w, handlers, heard, a, b, spoken);
      WithinMore(heard + HeardIn(w, handlers, b), spoken, said);
    } else {
      var c :| Shrank(a, c) && b == c + [f];
      FlowShrinks(w, handlers, heard, a, c, spoken);
      HeardInConcat(w, handlers, c, [f]);
      HeardInOne(w, handlers, f, [f]);
      var before := heard + HeardIn(w, handlers, c);
      if Quiet(w, handlers, f) {
        assert HeardIn(w, handlers, c) + [] == HeardIn(w, handlers, c);
        WithinMore(before, spoken, said);
      } else {
        Associative(heard, HeardIn(w, handlers, c), said);
        WithinBoth(before, spoken, said[0]);
        assert said == [said[0]];
      }
    }
  }

  /** The next frame arrives. */
  lemma FlowArrives(w: Wire, handlers: set<nat>, heard: seq<Packet>, a: seq<Frame>, rest: seq<Frame>, spoken: seq<Packet>)
    requires a != [] && rest == a[1..] && Flow(w, handlers, heard, a, spoken)
    ensures Flow(w, handlers, heard + Select(w, handlers, PacketsOf(w, a[0])), rest, spoken)
  {
    Associative(heard, Select(w, handlers, PacketsOf(w, a[0])), HeardIn(w, handlers, rest));
  }

  /** The same if nobody hears it. */
  lemma FlowKept(w: Wire, handlers: set<nat>, heard: seq<Packet>, a: seq<Frame>, b: seq<Frame>, f: Frame, spoken: seq<Packet>)
    requires Flow(w, handlers, heard, a, spoken) && Grew(a, b, f) && Quiet(w, handlers, f)
    ensures Flow(w, handlers, heard, b, spoken)
  {
    FlowGrows(w, handlers, heard, a, b, f, spoken, []);
    assert spoken + [] == spoken;
  }

  // ---- What a stack puts into its queue ----

  /** A packet that no handler is given, if it can be serialised at all. */
  predicate QuietPacket(w: Wire, handlers: set<nat>, p: Packet) {
    w.known(p) ==> !ForHandler(w, handlers, p)
  }

  lemma EncodedIsHeard(w: Wire, handlers: set<nat>, n: Byte, p: Packet)
    requires w.Faithful() && w.known(p)
    ensures Select(w, handlers, PacketsOf(w, w.encode(n, p))) == if ForHandler(w, handlers, p) then [p] else []
  {
    assert w.Carries(w.encode(n, p), p);
    SelectOne(w, handlers, PacketsOf(w, w.encode(n, p)), p);
  }

  lemma EmitFlow(w: Wire, handlers: set<nat>, s: Stack, p: Packet, priority: bool, link: seq<Frame>,
                 heard: seq<Packet>, spoken: seq<Packet>)
    requires w.Faithful() && Flow(w, handlers, heard, UnderWay(link, s.queue), spoken)
    ensures Flow(w, handlers, heard, UnderWay(link, Emit(w, s, p, priority).queue), spoken + if w.known(p) then [p] else [])
    ensures QuietPacket(w, handlers, p) ==> Flow(w, handlers, heard, UnderWay(link, Emit(w, s, p, priority).queue), spoken)
  {
    var a := UnderWay(link, s.queue);
    if w.known(p) {
      var f := w.encode(s.serial, p);
      PrebuiltGrows(link, s.queue, f, priority);
      EncodedIsHeard(w, handlers, s.serial, p);
      FlowGrows(w, handlers, heard, a, UnderWay(link, Emit(w, s, p, priority).queue), f, spoken, [p]);
      if QuietPacket(w, handlers, p) {
        FlowKept(w, handlers, heard, a, UnderWay(link, Emit(w, s, p, priority).queue), f, spoken);
      }
    } else {
      assert spoken + [] == spoken;
    }
  }

  lemma EnqueueFlow(w: Wire, handlers: set<nat>, s: Stack, p: Pending, link: seq<Frame>, heard: seq<Packet>,
                    spoken: seq<Packet>)
    requires w.Faithful() && Flow(w, handlers, heard, UnderWay(link, s.queue), spoken)
    requires QuietPacket(w, handlers, Packet(p.requestCmd, p.request))
    ensures Flow(w, handlers, heard, UnderWay(link, Enqueue(w, s, p).queue), spoken)
  {
    var packet, a, b := Packet(p.requestCmd, p.request), UnderWay(link, s.queue), UnderWay(link, Enqueue(w, s, p).queue);
    EnqueueGrows(w, s, p, link);
    if w.known(packet) {
      EncodedIsHeard(w, handlers, s.serial, packet);
      FlowKept(w, handlers, heard, a, b, w.encode(s.serial, packet), spoken);
    } else {
      FlowShrinks(w, handlers, heard, a, b, spoken);
    }
  }

  /** None of the requests on the books is for a handler of the unreliable kind. */
  ghost predicate QuietBooks(w: Wire, handlers: set<nat>, pending: map<TxId, Pending>) {
    forall k :: k in pending ==> QuietPacket(w, handlers, Packet(pending[k].requestCmd, pending[k].request))
  }

  lemma {:induction false} EnqueueAllFlow(w: Wire, handlers: set<nat>, s: Stack, pending: map<TxId, Pending>, ids: seq<TxId>,
                                          link: seq<Frame>, heard: seq<Packet>, spoken: seq<Packet>)
    requires w.Faithful() && Flow(w, handlers, heard, UnderWay(link, s.queue), spoken)
    requires QuietBooks(w, handlers, pending) && forall k :: k in ids ==> k in pending
    ensures Flow(w, handlers, heard, UnderWay(link, EnqueueAll(w, s, pending, ids).queue), spoken)
    decreases |ids|
  {
    if ids != [] {
      assert ids[0] in ids;
      EnqueueFlow(w, handlers, s, pending[ids[0]], link, heard, spoken);
      assert forall k :: k in ids[1..] ==> k in ids;
      EnqueueAllFlow(w, handlers, Enqueue(w, s, pending[ids[0]]), pending, ids[1..], link, heard, spoken);
    }
  }

  /** None of the responses kept is either. */
  ghost predicate QuietCache(w: Wire, handlers: set<nat>, cache: map<Key, Completed>) {
    forall k :: k in cache ==> Quiet(w, handlers, cache[k].frame)
  }

  /** What a stack does with a packet it receives: acknowledgements and kept responses go out. */
  lemma ReceiveFlow(w: Wire, handlers: set<nat>, s: Stack, p: Arrived, at: Time, link: seq<Frame>,
                    heard: seq<Packet>, spoken: seq<Packet>)
    requires w.Faithful() && s.device.seen != [] && s.run.host.seenResponses != []
    requires QuietCache(w, handlers, s.device.cache) && Flow(w, handlers, heard, UnderWay(link, s.queue), spoken)
    ensures var s' := HandlePacket(w, s, p, at).stack;
            s'.device.cache == s.device.cache && Flow(w, handlers, heard, UnderWay(link, s'.queue), spoken)
  {
    if p.cmd != ACK_CMD && IsReliableRequest(p.cmd) && w.txIdOf(p) != 0 {
      ReliableFlow(w, handlers, s, p, w.txIdOf(p), link, heard, spoken);
    }
  }

  lemma AckFlow(w: Wire, handlers: set<nat>, s: Stack, cmd: Half, k: Word32, link: seq<Frame>,
                heard: seq<Packet>, spoken: seq<Packet>)
    requires w.Faithful() && Flow(w, handlers, heard, UnderWay(link, s.queue), spoken)
    ensures Flow(w, handlers, heard, UnderWay(link, Emit(w, s, w.ack(k, cmd), true).queue), spoken)
    ensures Emit(w, s, w.ack(k, cmd), true).device == s.device
  {
    assert w.ack(k, cmd).cmd == ACK_CMD;
    EmitFlow(w, handlers, s, w.ack(k, cmd), true, link, heard, spoken);
  }

  lemma ReplayFlow(w: Wire, handlers: set<nat>, s: Stack, f: Frame, link: seq<Frame>, heard: seq<Packet>, spoken: seq<Packet>)
    requires Flow(w, handlers, heard, UnderWay(link, s.queue), spoken) && Quiet(w, handlers, f)
    ensures Flow(w, handlers, heard, UnderWay(link, Replay(s, f).queue), spoken) && Replay(s, f).device == s.device
  {
    PrebuiltGrows(link, s.queue, f, true);
    FlowKept(w, handlers, heard, UnderWay(link, s.queue), UnderWay(link, Replay(s, f).queue), f, spoken);
  }

  lemma ReliableFlow(w: Wire, handlers: set<nat>, s: Stack, p: Arrived, k: Word32, link: seq<Frame>,
                     heard: seq<Packet>, spoken: seq<Packet>)
    requires w.Faithful() && s.device.seen != []
    requires QuietCache(w, handlers, s.device.cache) && Flow(w, handlers, heard, UnderWay(link, s.queue), spoken)
    ensures var s' := HandleReliable(w, s, p, k).stack;
            s'.device.cache == s.device.cache && Flow(w, handlers, heard, UnderWay(link, s'.queue), spoken)
  {
    var key := ComposeDedupKey(p.cmd, k);
    var s0 := s.(device := s.device.(seen := Insert(s.device.seen, key)));
    AckFlow(w, handlers, s0, p.cmd, k, link, heard, spoken);
    if key in s.device.cache {
      ReplayFlow(w, handlers, Emit(w, s0, w.ack(k, p.cmd), true), s.device.cache[key].frame, link, heard, spoken);
    }
  }

  // ---- Towards the device ----

  ghost predicate DownFlow(w: Wire, v: World, spoken: seq<Packet>) {
    && FreshIds(v.host.run)
    && QuietBooks(w, v.device.handlers, v.host.run.host.pending)
    && QuietCache(w, v.device.handlers, v.host.device.cache)
    && Flow(w, v.device.handlers, v.log.heardByDevice, UnderWay(v.down, v.host.queue), spoken)
  }

  lemma DownRegistered(w: Wire, v: World, p: Packet, responseCmd: nat, timeout: nat, maxRetries: nat, at: Time,
                       spoken: seq<Packet>)
    requires DownFlow(w, v, spoken) && CanRequest(w, v, p)
    ensures DownFlow(w, Registered(v, p, responseCmd, timeout, maxRetries, at), spoken)
  {
    assert v.host.run.nextTxId != 0;
    assert QuietPacket(w, v.device.handlers, Booked(p));
  }

  lemma DownHandedOut(w: Wire, v: World, at: Time, spoken: seq<Packet>)
    requires w.Faithful() && DownFlow(w, v, spoken)
    ensures DownFlow(w, HandedOut(w, v, at), spoken)
  {
    var h := v.host.run.host;
    if HandsOut(h) {
      var s := v.host.(run := Apply(v.host.run, NextOutbound(at)));
      EnqueueFlow(w, v.device.handlers, s, h.pending[NextId(h)], v.down, v.log.heardByDevice, spoken);
    }
  }

  lemma DownResent(w: Wire, v: World, at: Time, clock: TxId -> Time, ids: seq<TxId>, spoken: seq<Packet>)
    requires w.Faithful() && DownFlow(w, v, spoken) && forall k :: k in ids ==> k in v.host.run.host.pending
    ensures DownFlow(w, Resent(w, v, at, clock, ids), spoken)
  {
    var s := v.host.(run := Apply(v.host.run, DoPoll(at, clock)));
    EnqueueAllFlow(w, v.device.handlers, s, v.host.run.host.pending, ids, v.down, v.log.heardByDevice, spoken);
    EnqueueAllOnlyQueues(w, s, v.host.run.host.pending, ids);
  }

  lemma {:induction false} EnqueueAllOnlyQueues(w: Wire, s: Stack, pending: map<TxId, Pending>, ids: seq<TxId>)
    requires forall k :: k in ids ==> k in pending
    ensures var s' := EnqueueAll(w, s, pending, ids); s' == s.(queue := s'.queue, serial := s'.serial)
    decreases |ids|
  {
    if ids != [] {
      EnqueueAllOnlyQueues(w, Enqueue(w, s, pending[ids[0]]), pending, ids[1..]);
    }
  }

  lemma DownSpoke(w: Wire, v: World, p: Packet, spoken: seq<Packet>)
    requires w.Faithful() && DownFlow(w, v, spoken)
    ensures DownFlow(w, HostSpoke(w, v, p), spoken + if w.known(p) then [p] else [])
  {
    EmitFlow(w, v.device.handlers, v.host, p, false, v.down, v.log.heardByDevice, spoken);
  }

  lemma DownSent(w: Wire, v: World, spoken: seq<Packet>)
    requires DownFlow(w, v, spoken)
    ensures DownFlow(w, HostSent(v), spoken)
  {
    TransmitMoves(v.host, v.down);
  }

  lemma DownLost(w: Wire, v: World, i: nat, spoken: seq<Packet>)
    requires DownFlow(w, v, spoken) && i < |v.down|
    ensures DownFlow(w, v.(down := Without(v.down, i)), spoken)
  {
    LinkShrinks(v.down, v.host.queue, i);
    FlowShrinks(w, v.device.handlers, v.log.heardByDevice, UnderWay(v.down, v.host.queue),
                UnderWay(Without(v.down, i), v.host.queue), spoken);
  }

  lemma DownGot(w: Wire, v: World, at: Time, spoken: seq<Packet>)
    requires RingsExist(v) && v.down != [] && DownFlow(w, v, spoken)
    ensures DownFlow(w, DeviceGot(w, v, at), spoken)
  {
    var a := UnderWay(v.down, v.host.queue);
    NextArrives(v.down, v.host.queue);
    DeviceHears(w, v, at);
    FlowArrives(w, v.device.handlers, v.log.heardByDevice, a, a[1..], spoken);
  }

  lemma DownHostGot(w: Wire, v: World, at: Time, spoken: seq<Packet>)
    requires w.Faithful() && RingsExist(v) && v.up != [] && DownFlow(w, v, spoken)
    ensures DownFlow(w, HostGot(w, v, at), spoken)
  {
    HostHears(w, v, at);
    if Received(w, v.up[0]).Some? {
      var p := Received(w, v.up[0]).value;
      ReceiveFlow(w, v.device.handlers, v.host, p, at, v.down, v.log.heardByDevice, spoken);
      BooksOnlyShrink(w, v.host, p, at, v.device.handlers);
    }
  }

  lemma BooksAcknowledged(w: Wire, run: Run, k: TxId, at: Time, handlers: set<nat>)
    requires FreshIds(run) && QuietBooks(w, handlers, run.host.pending)
    ensures var r := Apply(run, OnAck(k, at)); FreshIds(r) && QuietBooks(w, handlers, r.host.pending)
  {
  }

  lemma BooksAnswered(w: Wire, run: Run, cmd: Half, k: Word32, handlers: set<nat>)
    requires FreshIds(run) && QuietBooks(w, handlers, run.host.pending) && run.host.seenResponses != []
    ensures var r := Apply(run, OnResponse(cmd, k)); FreshIds(r) && QuietBooks(w, handlers, r.host.pending)
  {
  }

  /** A packet received by a stack is at most an acknowledgement or a response to its session. */
  lemma RunAfter(w: Wire, s: Stack, p: Arrived, at: Time)
    requires s.device.seen != [] && s.run.host.seenResponses != []
    ensures HandlePacket(w, s, p, at).stack.run
            in {s.run, Apply(s.run, OnAck(w.txIdOf(p), at)), Apply(s.run, OnResponse(p.cmd, w.txIdOf(p)))}
  {
  }

  lemma BooksOnlyShrink(w: Wire, s: Stack, p: Arrived, at: Time, handlers: set<nat>)
    requires s.device.seen != [] && s.run.host.seenResponses != []
    requires FreshIds(s.run) && QuietBooks(w, handlers, s.run.host.pending)
    ensures var run := HandlePacket(w, s, p, at).stack.run; FreshIds(run) && QuietBooks(w, handlers, run.host.pending)
  {
    RunAfter(w, s, p, at);
    BooksAcknowledged(w, s.run, w.txIdOf(p), at, handlers);
    BooksAnswered(w, s.run, p.cmd, w.txIdOf(p), handlers);
  }

  /** The other steps do not concern this direction. */
  lemma DownUnmoved(w: Wire, v: World, v': World, spoken: seq<Packet>)
    requires DownFlow(w, v, spoken) && v'.host == v.host && v'.down == v.down
    requires v'.device.handlers == v.device.handlers && v'.log.heardByDevice == v.log.heardByDevice
    ensures DownFlow(w, v', spoken)
  {
  }

  /** What a step adds to what the host, or the device, has broadcast. */
  function SpokenDown(w: Wire, s: Step): seq<Packet> {
    if s.HostBroadcast? && w.known(s.packet) then [s.packet] else []
  }

  function SpokenUp(w: Wire, s: Step): seq<Packet> {
    if s.DeviceBroadcast? && w.known(s.packet) then [s.packet] else []
  }

  lemma StepDown(w: Wire, v: World, s: Step, spoken: seq<Packet>)
    requires w.Faithful() && RingsExist(v) && ValidStep(w, v, s) && DownFlow(w, v, spoken)
    ensures DownFlow(w, Do(w, v, s), spoken + SpokenDown(w, s))
  {
    assert spoken + [] == spoken;
    match s
    case Request(p, responseCmd, timeout, maxRetries, at) =>
      DownRegistered(w, v, p, responseCmd, timeout, maxRetries, at, spoken);
    case HandOut(at) => DownHandedOut(w, v, at, spoken);
    case Retry(at, clock, ids) => DownResent(w, v, at, clock, ids, spoken);
    case HostBroadcast(p) => DownSpoke(w, v, p, spoken);
    case HostTransmit => DownSent(w, v, spoken);
    case LoseDown(i) => DownLost(w, v, i, spoken);
    case DeviceReceive(at) => DownGot(w, v, at, spoken);
    case DeviceAnswer(txId, requestCmd, p) => DownUnmoved(w, v, AnswerGiven(w, v, txId, requestCmd, p), spoken);
    case DeviceBroadcast(p) => DownUnmoved(w, v, DeviceSpoke(w, v, p), spoken);
    case DeviceTransmit => DownUnmoved(w, v, DeviceSent(v), spoken);
    case LoseUp(i) => DownUnmoved(w, v, v.(up := Without(v.up, i)), spoken);
    case HostReceive(at) => DownHostGot(w, v, at, spoken);
  }

  // ---- Towards the host ----

  ghost predicate UpFlow(w: Wire, v: World, spoken: seq<Packet>) {
    && QuietCache(w, v.host.handlers, v.device.device.cache)
    && Flow(w, v.host.handlers, v.log.heardByHost, UnderWay(v.up, v.device.queue), spoken)
  }

  lemma UpDeviceGot(w: Wire, v: World, at: Time, spoken: seq<Packet>)
    requires w.Faithful() && RingsExist(v) && v.down != [] && UpFlow(w, v, spoken)
    ensures UpFlow(w, DeviceGot(w, v, at), spoken)
  {
    DeviceHears(w, v, at);
    if Received(w, v.down[0]).Some? {
      ReceiveFlow(w, v.host.handlers, v.device, Received(w, v.down[0]).value, at, v.up, v.log.heardByHost, spoken);
    }
  }

  lemma KeepsQuietCache(w: Wire, handlers: set<nat>, d: Device, capacity: nat, key: Key, c: Completed)
    requires QuietCache(w, handlers, d.cache) && Quiet(w, handlers, c.frame) && Kept(c) == c
    ensures QuietCache(w, handlers, CacheResponse(d, capacity, key, c).cache)
  {
    ShrinkOnlyDrops(d.(cache := d.cache[key := c], order := d.order + [key]), capacity);
  }

  lemma UpAnswered(w: Wire, v: World, txId: Word32, requestCmd: Half, p: Packet, spoken: seq<Packet>)
    requires w.Faithful() && UpFlow(w, v, spoken) && CanAnswer(w, v, txId, p)
    ensures UpFlow(w, AnswerGiven(w, v, txId, requestCmd, p), spoken)
  {
    if w.known(p) {
      var s := v.device;
      var f := w.encode(s.serial, p);
      EncodedIsHeard(w, v.host.handlers, s.serial, p);
      PrebuiltGrows(v.up, s.queue, f, true);
      FlowKept(w, v.host.handlers, v.log.heardByHost, UnderWay(v.up, s.queue),
               UnderWay(v.up, EnqueuePrebuilt(s.queue, f, true).queue), f, spoken);
      KeepsQuietCache(w, v.host.handlers, s.device, s.cacheCapacity, ComposeDedupKey(requestCmd, txId), Completed(p.cmd, f));
    }
  }

  lemma UpSpoke(w: Wire, v: World, p: Packet, spoken: seq<Packet>)
    requires w.Faithful() && UpFlow(w, v, spoken)
    ensures UpFlow(w, DeviceSpoke(w, v, p), spoken + if w.known(p) then [p] else [])
  {
    EmitFlow(w, v.host.handlers, v.device, p, false, v.up, v.log.heardByHost, spoken);
  }

  lemma UpSent(w: Wire, v: World, spoken: seq<Packet>)
    requires UpFlow(w, v, spoken)
    ensures UpFlow(w, DeviceSent(v), spoken)
  {
    TransmitMoves(v.device, v.up);
  }

  lemma UpLost(w: Wire, v: World, i: nat, spoken: seq<Packet>)
    requires UpFlow(w, v, spoken) && i < |v.up|
    ensures UpFlow(w, v.(up := Without(v.up, i)), spoken)
  {
    LinkShrinks(v.up, v.device.queue, i);
    FlowShrinks(w, v.host.handlers, v.log.heardByHost, UnderWay(v.up, v.device.queue),
                UnderWay(Without(v.up, i), v.device.queue), spoken);
  }

  lemma UpGot(w: Wire, v: World, at: Time, spoken: seq<Packet>)
    requires RingsExist(v) && v.up != [] && UpFlow(w, v, spoken)
    ensures UpFlow(w, HostGot(w, v, at), spoken)
  {
    var a := UnderWay(v.up, v.device.queue);
    NextArrives(v.up, v.device.queue);
    HostHears(w, v, at);
    FlowArrives(w, v.host.handlers, v.log.heardByHost, a, a[1..], spoken);
  }

  lemma UpUnmoved(w: Wire, v: World, v': World, spoken: seq<Packet>)
    requires UpFlow(w, v, spoken) && v'.device == v.device && v'.up == v.up
    requires v'.host.handlers == v.host.handlers && v'.log.heardByHost == v.log.heardByHost
    ensures UpFlow(w, v', spoken)
  {
  }

  lemma StepUp(w: Wire, v: World, s: Step, spoken: seq<Packet>)
    requires w.Faithful() && RingsExist(v) && ValidStep(w, v, s) && UpFlow(w, v, spoken)
    ensures UpFlow(w, Do(w, v, s), spoken + SpokenUp(w, s))
  {
    assert spoken + [] == spoken;
    match s
    case Request(p, responseCmd, timeout, maxRetries, at) =>
      UpUnmoved(w, v, Registered(v, p, responseCmd, timeout, maxRetries, at), spoken);
    case HandOut(at) => UpUnmoved(w, v, HandedOut(w, v, at), spoken);
    case Retry(at, clock, ids) =>
      EnqueueAllOnlyQueues(w, v.host.(run := Apply(v.host.run, DoPoll(at, clock))), v.host.run.host.pending, ids);
      UpUnmoved(w, v, Resent(w, v, at, clock, ids), spoken);
    case HostBroadcast(p) => UpUnmoved(w, v, HostSpoke(w, v, p), spoken);
    case HostTransmit => UpUnmoved(w, v, HostSent(v), spoken);
    case LoseDown(i) => UpUnmoved(w, v, v.(down := Without(v.down, i)), spoken);
    case DeviceReceive(at) => UpDeviceGot(w, v, at, spoken);
    case DeviceAnswer(txId, requestCmd, p) => UpAnswered(w, v, txId, requestCmd, p, spoken);
    case DeviceBroadcast(p) => UpSpoke(w, v, p, spoken);
    case DeviceTransmit => UpSent(w, v, spoken);
    case LoseUp(i) => UpLost(w, v, i, spoken);
    case HostReceive(at) => UpGot(w, v, at, spoken);
  }

  // ---- Every run ----

  /** All that an end has broadcast in a run. */
  function AllSpokenDown(w: Wire, steps: seq<Step>): seq<Packet> {
    if steps == [] then [] else SpokenDown(w, steps[0]) + AllSpokenDown(w, steps[1..])
  }

  function AllSpokenUp(w: Wire, steps: seq<Step>): seq<Packet> {
    if steps == [] then [] else SpokenUp(w, steps[0]) + AllSpokenUp(w, steps[1..])
  }

  lemma {:induction false} RunFlows(w: Wire, v: World, steps: seq<Step>, down: seq<Packet>, up: seq<Packet>)
    requires w.Faithful() && ValidSteps(w, v, steps) && DownFlow(w, v, down) && UpFlow(w, v, up)
    ensures var v' := RunOf(w, v, steps);
            DownFlow(w, v', down + AllSpokenDown(w, steps)) && UpFlow(w, v', up + AllSpokenUp(w, steps))
    decreases |steps|
  {
    if steps == [] {
      assert down + [] == down && up + [] == up;
    } else {
      var s, rest := steps[0], steps[1..];
      StepDown(w, v, s, down);
      StepUp(w, v, s, up);
      RunFlows(w, Do(w, v, s), rest, down + SpokenDown(w, s), up + SpokenUp(w, s));
      Associative(down, SpokenDown(w, s), AllSpokenDown(w, rest));
      Associative(up, SpokenUp(w, s), AllSpokenUp(w, rest));
    }
  }

  lemma HeardWithin(w: Wire, handlers: set<nat>, heard: seq<Packet>, frames: seq<Frame>, spoken: seq<Packet>)
    requires Flow(w, handlers, heard, frames, spoken)
    ensures Within(heard, spoken)
  {
    WithinDrops(heard, HeardIn(w, handlers, frames), [], spoken);
    assert heard + HeardIn(w, handlers, frames) + [] == heard + HeardIn(w, handlers, frames);
    assert heard + [] == heard;
  }

  /** In every run of two new stacks, whatever the window, and whatever is lost or sent again: what the handlers
      for unreliable packets were given at one end is what the other end broadcast, in that order, each at most
      once, and nothing else. */
  lemma BroadcastsInOrder(w: Wire, c: Setup, start: World, steps: seq<Step>)
    requires w.Faithful() && c.ring > 0 && start == FreshWorld(c) && ValidSteps(w, start, steps)
    ensures var log := RunOf(w, start, steps).log;
            && Within(log.heardByDevice, AllSpokenDown(w, steps))
            && Within(log.heardByHost, AllSpokenUp(w, steps))
  {
    var v := RunOf(w, start, steps);
    FreshFlows(w, c, start);
    RunFlows(w, start, steps, [], []);
    assert [] + AllSpokenDown(w, steps) == AllSpokenDown(w, steps) && [] + AllSpokenUp(w, steps) == AllSpokenUp(w, steps);
    HeardWithin(w, v.device.handlers, v.log.heardByDevice, UnderWay(v.down, v.host.queue), AllSpokenDown(w, steps));
    HeardWithin(w, v.host.handlers, v.log.heardByHost, UnderWay(v.up, v.device.queue), AllSpokenUp(w, steps));
  }

  lemma FreshFlows(w: Wire, c: Setup, start: World)
    requires start == FreshWorld(c)
    ensures DownFlow(w, start, []) && UpFlow(w, start, [])
  {
    assert UnderWay(start.down, start.host.queue) == [] && UnderWay(start.up, start.device.queue) == [];
    WithinNothing<Packet>([] + HeardIn(w, start.device.handlers, []), []);
    WithinNothing<Packet>([] + HeardIn(w, start.host.handlers, []), []);
  }

  /** And each gets there if nothing is lost: spoken into an empty queue and an empty link, sent, and received,
      a broadcast is heard. */
  lemma HeardUnlessLost(w: Wire, v: World, p: Packet, at: Time)
    requires w.Faithful() && RingsExist(v) && v.host.queue == [] && v.down == []
    requires w.known(p) && ForHandler(w, v.device.handlers, p)
    ensures var sent := HostSent(HostSpoke(w, v, p));
            && sent.down == [w.encode(v.host.serial, p)]
            && RingsExist(sent) && DeviceGot(w, sent, at).log.heardByDevice == v.log.heardByDevice + [p]
  {
    var f, sent := w.encode(v.host.serial, p), HostSent(HostSpoke(w, v, p));
    assert w.Carries(f, p);
    assert sent.down == [f];
    DeviceHears(w, sent, at);
    EncodedIsHeard(w, v.device.handlers, v.host.serial, p);
  }
}

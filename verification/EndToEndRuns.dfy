/** The invariant of two joined stacks, and the guarantees it gives in every run. */
module EndToEndRuns {
  import opened Basics
  import opened Bits
  import opened Dedup
  import opened DeviceCache
  import opened EndToEnd
  import opened Framing
  import opened Scanning
  import opened Session
  import opened SessionRuns
  import opened Stacks
  import opened TxQueues

  function Latest(ids: seq<TxId>): TxId {
    if ids == [] then 0 else ids[|ids| - 1]
  }

  // ---- The parts of the invariant ----

  /** A request on the books is the one that was registered; only the one handed out last is in flight. */
  ghost predicate Books(w: Wire, pending: map<TxId, Pending>, latest: TxId, issued: nat, sent: map<TxId, Packet>) {
    && (forall k :: k in pending ==> k in sent && Packet(pending[k].requestCmd, pending[k].request) == sent[k])
    && (forall k :: k in pending && pending[k].inflight ==> k == latest)
    && (forall k :: k in sent ==> 1 <= k <= issued && IsReliableRequest(sent[k].cmd)
                                  && (w.known(sent[k]) ==> w.txIdOf(sent[k]) == k))
  }

  /** The device remembers the request it accepted last, and accepted none twice. */
  ghost predicate AcceptedOk(seen: seq<Key>, sent: map<TxId, Packet>, accepted: seq<TxId>) {
    && seen != []
    && Increasing(accepted)
    && (accepted != [] ==>
          var k := Latest(accepted);
          && k in sent && sent[k].cmd < 0x1_0000 && k < 0x1_0000_0000
          && seen[|seen| - 1] == ComposeDedupKey(sent[k].cmd, k))
  }

  /** Handlers were given the requests as they were registered, each id at most once and in order. */
  ghost predicate RanOk(sent: map<TxId, Packet>, ran: seq<Delivery>, latest: TxId) {
    && (forall i, j :: 0 <= i < j < |ran| ==> ran[i].txId < ran[j].txId)
    && (forall d :: d in ran ==> 0 < d.txId <= latest && d.txId in sent && sent[d.txId] == d.packet)
  }

  ghost predicate AnswersOk(w: Wire, ran: seq<Delivery>, answers: map<TxId, Packet>) {
    forall k :: k in answers ==> (exists d :: d in ran && d.txId == k)
  }

  /** A frame towards the host is an acknowledgement, a broadcast, or the answer to its id. */
  ghost predicate UpOk(w: Wire, answers: map<TxId, Packet>, f: Frame) {
    && w.decode(f).Some?
    && var p := w.decode(f).value;
       && p.cmd < 0x1_0000
       && (p.cmd == ACK_CMD || w.txIdOf(p) == 0
           || (!IsRequestCmd(p.cmd) && w.txIdOf(p) in answers && answers[w.txIdOf(p)] == p))
  }

  ghost predicate UpWire(w: Wire, answers: map<TxId, Packet>, frames: seq<Frame>) {
    forall f :: f in frames ==> UpOk(w, answers, f)
  }

  ghost predicate CacheOk(w: Wire, answers: map<TxId, Packet>, cache: map<Key, Completed>) {
    forall k :: k in cache ==> UpOk(w, answers, cache[k].frame)
  }

  /** Callbacks were given the answers, and no id two of them. */
  ghost predicate CalledOk(answers: map<TxId, Packet>, called: seq<Delivery>, callbacks: map<TxId, nat>) {
    && (forall d :: d in called ==> d.txId in answers && answers[d.txId] == d.packet && Count(callbacks, d.txId) > 0)
    && (forall i, j :: 0 <= i < j < |called| ==> called[i].txId != called[j].txId)
  }

  /** This and the next hold what is known of one end; a proof sees it only where it mentions `Opened`. */
  ghost predicate HostOk(w: Wire, run: Run, sent: map<TxId, Packet>) {
    forall i: nat {:trigger Opened(i)} :: Opened(i) ==>
      && Inv(run) && run.host.window == 1
      && Books(w, run.host.pending, Latest(run.first), |run.registered|, sent)
  }

  ghost predicate DeviceOk(w: Wire, s: Stack, link: seq<Frame>, log: Log) {
    forall i: nat {:trigger Opened(i)} :: Opened(i) ==>
      && AcceptedOk(s.device.seen, log.sent, log.accepted)
      && RanOk(log.sent, log.ran, Latest(log.accepted))
      && AnswersOk(w, log.ran, log.answers)
      && UpWire(w, log.answers, UnderWay(link, s.queue))
      && CacheOk(w, log.answers, s.device.cache)
  }

  ghost predicate WorldOk(w: Wire, v: World) {
    && RingsExist(v)
    && HostOk(w, v.host.run, v.log.sent)
    && DownWire(w, v.log.sent, UnderWay(v.down, v.host.queue), Latest(v.log.accepted), Latest(v.host.run.first))
    && DeviceOk(w, v.device, v.up, v.log)
    && CalledOk(v.log.answers, v.log.called, v.host.run.callbacks)
  }

  // ---- Frames the stacks build ----

  lemma EncodedDown(w: Wire, n: Byte, p: Packet, sent: map<TxId, Packet>)
    requires w.Faithful() && w.known(p)
    requires if w.txIdOf(p) == 0 then p.cmd != ACK_CMD else w.txIdOf(p) in sent && sent[w.txIdOf(p)] == p
    ensures DownOk(w, sent, w.encode(n, p)) && IdOf(w, w.encode(n, p)) == w.txIdOf(p)
  {
    assert w.Carries(w.encode(n, p), p);
  }

  lemma EncodedUp(w: Wire, n: Byte, p: Packet, answers: map<TxId, Packet>)
    requires w.Faithful() && w.known(p)
    requires p.cmd == ACK_CMD || w.txIdOf(p) == 0
             || (!IsRequestCmd(p.cmd) && w.txIdOf(p) in answers && answers[w.txIdOf(p)] == p)
    ensures UpOk(w, answers, w.encode(n, p)) && |w.encode(n, p)| <= MAX_FRAME_SIZE
  {
    assert w.Carries(w.encode(n, p), p);
  }

  lemma UpLoses(w: Wire, answers: map<TxId, Packet>, a: seq<Frame>, b: seq<Frame>)
    requires UpWire(w, answers, a) && Shrank(a, b)
    ensures UpWire(w, answers, b)
  {
    var i: nat :| b == Without(a, i);
    WithoutElements(a, i);
  }

  lemma UpGains(w: Wire, answers: map<TxId, Packet>, a: seq<Frame>, b: seq<Frame>, f: Frame)
    requires UpWire(w, answers, a) && Grew(a, b, f) && UpOk(w, answers, f)
    ensures UpWire(w, answers, b)
  {
    if Shrank(a, b) {
      UpLoses(w, answers, a, b);
    } else {
      var c :| Shrank(a, c) && b == c + [f];
      UpLoses(w, answers, a, c);
    }
  }

  // ---- The host ----

  /** A registered request gets an id no frame carries yet. */
  lemma RequestKeeps(w: Wire, v: World, p: Packet, responseCmd: nat, timeout: nat, maxRetries: nat, at: Time)
    requires WorldOk(w, v) && CanRequest(w, v, p)
    ensures WorldOk(w, Registered(v, p, responseCmd, timeout, maxRetries, at))
  {
    var run, sent, sent' := v.host.run, v.log.sent, v.log.sent[v.host.run.nextTxId := Booked(p)];
    HostRequests(w, run, sent, p, Send(p.cmd, responseCmd, p.payload, timeout, maxRetries, at));
    DownMore(w, sent, sent', UnderWay(v.down, v.host.queue), Latest(v.log.accepted), Latest(run.first));
    DeviceUnaware(w, v.device, v.up, v.log, run.nextTxId, Booked(p));
  }

  lemma HostRequests(w: Wire, run: Run, sent: map<TxId, Packet>, p: Packet, c: Call)
    requires HostOk(w, run, sent) && c.Send? && c.requestCmd == p.cmd && c.request == p.payload
    requires |run.registered| < TWO32 - 1 && IsReliableRequest(p.cmd)
    requires w.known(Booked(p)) ==> w.txIdOf(Booked(p)) == run.nextTxId
    ensures run.nextTxId !in sent
    ensures HostOk(w, Apply(run, c), sent[run.nextTxId := Booked(p)])
  {
    assert Opened(0);
    NextIdUnknown(run);
    StepKeeps(run, c);
    BooksRequest(w, run, sent, p, c);
  }

  /** The device has not heard of a request that was just registered. */
  lemma DeviceUnaware(w: Wire, s: Stack, link: seq<Frame>, log: Log, k: TxId, p: Packet)
    requires DeviceOk(w, s, link, log) && k !in log.sent
    ensures DeviceOk(w, s, link, log.(sent := log.sent[k := p]))
  {
    assert Opened(0);
  }

  lemma BooksRequest(w: Wire, run: Run, sent: map<TxId, Packet>, p: Packet, c: Call)
    requires IsReliableRequest(p.cmd) && run.nextTxId == |run.registered| + 1
    requires c.Send? && c.requestCmd == p.cmd && c.request == p.payload
    requires w.known(Booked(p)) ==> w.txIdOf(Booked(p)) == run.nextTxId
    requires Books(w, run.host.pending, Latest(run.first), |run.registered|, sent)
    requires run.nextTxId !in run.host.pending
    ensures Books(w, Apply(run, c).host.pending, Latest(Apply(run, c).first), |Apply(run, c).registered|,
                  sent[run.nextTxId := Booked(p)])
  {
  }

  /** Nothing is in flight when a request is handed out, since the window is one. */
  lemma NothingInflight(h: Host)
    requires Sound(h) && h.inflightCount < h.window == 1
    ensures forall k :: k in h.pending ==> !h.pending[k].inflight
  {
    assert InflightIds(h.pending) == {};
    assert forall k :: k in h.pending && h.pending[k].inflight ==> k in InflightIds(h.pending);
  }

  lemma BooksHandOut(w: Wire, run: Run, sent: map<TxId, Packet>, at: Time)
    requires HostOk(w, run, sent)
    ensures HostOk(w, Apply(run, NextOutbound(at)), sent)
    ensures Latest(run.first) <= Latest(Apply(run, NextOutbound(at)).first)
    ensures HandsOut(run.host) ==> Latest(Apply(run, NextOutbound(at)).first) == NextId(run.host)
  {
    assert Opened(0);
    StepKeeps(run, NextOutbound(at));
    if HandsOut(run.host) {
      NothingInflight(run.host);
      LatestRises(run.first, NextId(run.host), Apply(run, NextOutbound(at)).first);
      BooksPump(w, run.host, at, Latest(run.first), |run.registered|, sent);
    }
  }

  lemma BooksPump(w: Wire, h: Host, at: Time, latest: TxId, issued: nat, sent: map<TxId, Packet>)
    requires HandsOut(h) && Books(w, h.pending, latest, issued, sent)
    requires forall k :: k in h.pending ==> !h.pending[k].inflight
    ensures Books(w, Pump(h, at).pending, NextId(h), issued, sent)
  {
  }

  lemma LatestRises(first: seq<TxId>, k: TxId, first': seq<TxId>)
    requires first' == first + [k] && Increasing(first')
    ensures Latest(first) <= Latest(first') == k
  {
    if first != [] {
      assert first'[|first| - 1] == first[|first| - 1];
    }
  }

  /** Queuing the frame of a request in flight. */
  lemma EnqueueKeepsDown(w: Wire, s: Stack, p: Pending, k: TxId, link: seq<Frame>, sent: map<TxId, Packet>, lo: TxId)
    requires w.Faithful() && k in sent && Packet(p.requestCmd, p.request) == sent[k]
    requires k != 0 && (w.known(sent[k]) ==> w.txIdOf(sent[k]) == k)
    requires DownWire(w, sent, UnderWay(link, s.queue), lo, k)
    ensures DownWire(w, sent, UnderWay(link, Enqueue(w, s, p).queue), lo, k)
    ensures Enqueue(w, s, p).run == s.run && Enqueue(w, s, p).device == s.device
  {
    var a, b := UnderWay(link, s.queue), UnderWay(link, Enqueue(w, s, p).queue);
    EnqueueGrows(w, s, p, link);
    if w.known(sent[k]) {
      EncodedDown(w, s.serial, sent[k], sent);
      DownGains(w, sent, a, b, w.encode(s.serial, sent[k]), lo, k);
    } else {
      DownLoses(w, sent, a, b, lo, k);
    }
  }

  lemma HandOutKeeps(w: Wire, v: World, at: Time)
    requires w.Faithful() && WorldOk(w, v)
    ensures WorldOk(w, HandedOut(w, v, at))
  {
    var run, lo := v.host.run, Latest(v.log.accepted);
    BooksHandOut(w, run, v.log.sent, at);
    if HandsOut(run.host) {
      NextIsSent(w, run, v.log.sent);
      HandOutKeepsDown(w, v.host, v.down, v.log.sent, lo, at, NextId(run.host));
    }
  }

  lemma NextIsSent(w: Wire, run: Run, sent: map<TxId, Packet>)
    requires HandsOut(run.host) && HostOk(w, run, sent)
    ensures var k, p := NextId(run.host), run.host.pending[NextId(run.host)];
            && k in sent && k != 0 && (w.known(sent[k]) ==> w.txIdOf(sent[k]) == k)
            && Packet(p.requestCmd, p.request) == sent[k]
  {
    assert Opened(0);
  }

  lemma HandOutKeepsDown(w: Wire, s: Stack, link: seq<Frame>, sent: map<TxId, Packet>, lo: TxId, at: Time, k: TxId)
    requires w.Faithful() && HandsOut(s.run.host) && k == NextId(s.run.host) && Latest(s.run.first) <= k != 0
    requires k in sent && (w.known(sent[k]) ==> w.txIdOf(sent[k]) == k)
    requires Packet(s.run.host.pending[k].requestCmd, s.run.host.pending[k].request) == sent[k]
    requires DownWire(w, sent, UnderWay(link, s.queue), lo, Latest(s.run.first))
    ensures DownWire(w, sent, UnderWay(link, PumpOnce(w, s, at).queue), lo, k)
    ensures PumpOnce(w, s, at).run == Apply(s.run, NextOutbound(at)) && PumpOnce(w, s, at).device == s.device
  {
    DownRaise(w, sent, UnderWay(link, s.queue), lo, Latest(s.run.first), k);
    EnqueueKeepsDown(w, s.(run := Apply(s.run, NextOutbound(at))), s.run.host.pending[k], k, link, sent, lo);
  }

  lemma BooksRetry(w: Wire, run: Run, sent: map<TxId, Packet>, c: Call)
    requires HostOk(w, run, sent) && c.DoPoll? && ValidCall(run, c)
    ensures HostOk(w, Apply(run, c), sent)
  {
    assert Opened(0);
    StepKeeps(run, c);
    BooksPoll(w, run.host, c.at, c.clock, Latest(run.first), |run.registered|, sent);
  }

  lemma BooksPoll(w: Wire, h: Host, at: Time, clock: TxId -> Time, latest: TxId, issued: nat, sent: map<TxId, Packet>)
    requires Books(w, h.pending, latest, issued, sent)
    ensures Books(w, Session.Poll(h, at, clock).pending, latest, issued, sent)
  {
  }

  lemma {:induction false} EnqueueAllKeepsDown(w: Wire, s: Stack, pending: map<TxId, Pending>, ids: seq<TxId>,
                                               k: TxId, link: seq<Frame>, sent: map<TxId, Packet>, lo: TxId)
    requires w.Faithful() && forall j :: j in ids ==> j in pending && j == k
    requires ids != [] ==> k in sent && k in pending && k != 0 && (w.known(sent[k]) ==> w.txIdOf(sent[k]) == k)
                           && Packet(pending[k].requestCmd, pending[k].request) == sent[k]
    requires DownWire(w, sent, UnderWay(link, s.queue), lo, k)
    ensures var s' := EnqueueAll(w, s, pending, ids);
            DownWire(w, sent, UnderWay(link, s'.queue), lo, k) && s'.run == s.run && s'.device == s.device
    decreases |ids|
  {
    if ids != [] {
      assert ids[0] in ids;
      EnqueueKeepsDown(w, s, pending[k], k, link, sent, lo);
      assert forall j :: j in ids[1..] ==> j in ids;
      EnqueueAllKeepsDown(w, Enqueue(w, s, pending[k]), pending, ids[1..], k, link, sent, lo);
    }
  }

  lemma RetriedIsLatest(w: Wire, run: Run, sent: map<TxId, Packet>, at: Time, ids: seq<TxId>)
    requires HostOk(w, run, sent)
    requires forall k :: k in ids ==> k in RetriedIds(run.host.pending, at)
    ensures var k := Latest(run.first);
            && (forall j :: j in ids ==> j in run.host.pending && j == k)
            && (ids != [] ==> k in sent && k in run.host.pending && k != 0
                              && (w.known(sent[k]) ==> w.txIdOf(sent[k]) == k)
                              && Packet(run.host.pending[k].requestCmd, run.host.pending[k].request) == sent[k])
  {
    assert Opened(0);
    if ids != [] {
      assert ids[0] in ids;
    }
  }

  lemma RetryKeeps(w: Wire, v: World, at: Time, clock: TxId -> Time, ids: seq<TxId>)
    requires w.Faithful() && WorldOk(w, v) && CanRetry(v, at, clock, ids)
    ensures WorldOk(w, Resent(w, v, at, clock, ids))
  {
    var run, c, k := v.host.run, DoPoll(at, clock), Latest(v.host.run.first);
    BooksRetry(w, run, v.log.sent, c);
    RetriedIsLatest(w, run, v.log.sent, at, ids);
    EnqueueAllKeepsDown(w, v.host.(run := Apply(run, c)), run.host.pending, ids, k, v.down, v.log.sent,
                        Latest(v.log.accepted));
    CallbacksKept(run, c, v.log);
  }

  /** Callbacks already counted stay counted. */
  lemma CallbacksKept(run: Run, c: Call, log: Log)
    requires c.DoPoll? && CalledOk(log.answers, log.called, run.callbacks)
    ensures CalledOk(log.answers, log.called, Apply(run, c).callbacks)
  {
    forall d | d in log.called
      ensures Count(Apply(run, c).callbacks, d.txId) > 0
    {
    }
  }

  lemma EmitDown(w: Wire, s: Stack, p: Packet, link: seq<Frame>, sent: map<TxId, Packet>, lo: TxId, hi: TxId)
    requires w.Faithful() && w.txIdOf(p) == 0 && p.cmd != ACK_CMD
    requires DownWire(w, sent, UnderWay(link, s.queue), lo, hi)
    ensures DownWire(w, sent, UnderWay(link, Emit(w, s, p, false).queue), lo, hi)
  {
    if w.known(p) {
      var f := w.encode(s.serial, p);
      PrebuiltGrows(link, s.queue, f, false);
      EncodedDown(w, s.serial, p, sent);
      DownGains(w, sent, UnderWay(link, s.queue), UnderWay(link, EnqueuePrebuilt(s.queue, f, false).queue), f, lo, hi);
    }
  }

  lemma HostBroadcastKeeps(w: Wire, v: World, p: Packet)
    requires w.Faithful() && WorldOk(w, v) && CanBroadcast(w, p)
    ensures WorldOk(w, HostSpoke(w, v, p))
  {
    EmitDown(w, v.host, p, v.down, v.log.sent, Latest(v.log.accepted), Latest(v.host.run.first));
  }

  lemma HostTransmitKeeps(w: Wire, v: World)
    requires WorldOk(w, v)
    ensures WorldOk(w, HostSent(v))
  {
    TransmitMoves(v.host, v.down);
  }

  lemma LoseDownKeeps(w: Wire, v: World, i: nat)
    requires WorldOk(w, v) && i < |v.down|
    ensures WorldOk(w, v.(down := Without(v.down, i)))
  {
    LinkShrinks(v.down, v.host.queue, i);
    DownLoses(w, v.log.sent, UnderWay(v.down, v.host.queue), UnderWay(Without(v.down, i), v.host.queue),
              Latest(v.log.accepted), Latest(v.host.run.first));
  }

  lemma LinkShrinks(link: seq<Frame>, q: seq<TxEntry>, i: nat)
    requires i < |link|
    ensures Shrank(UnderWay(link, q), UnderWay(Without(link, i), q))
  {
    assert UnderWay(Without(link, i), q) == Without(UnderWay(link, q), i);
  }

  // ---- The device ----

  lemma ZeroIdIgnored(w: Wire, s: Stack, p: Arrived, at: Time)
    requires s.device.seen != [] && s.run.host.seenResponses != []
    requires w.txIdOf(p) == 0 && p.cmd != ACK_CMD
    ensures var r := HandlePacket(w, s, p, at);
            r.stack == s && !r.event.Accepted? && !r.event.Answered?
  {
  }

  lemma ReliableHandled(w: Wire, s: Stack, p: Arrived, at: Time)
    requires s.device.seen != [] && s.run.host.seenResponses != []
    requires w.txIdOf(p) != 0 && IsReliableRequest(p.cmd)
    ensures HandlePacket(w, s, p, at) == HandleReliable(w, s, p, w.txIdOf(p))
    ensures var r := HandlePacket(w, s, p, at);
            && r.stack.run == s.run && r.stack.device == s.device.(seen := r.stack.device.seen)
  {
  }

  /** A request taken for a fresh one has a later id than any accepted before. */
  lemma FreshIsLater(seen: seq<Key>, sent: map<TxId, Packet>, accepted: seq<TxId>, k: TxId)
    requires AcceptedOk(seen, sent, accepted) && k in sent && sent[k].cmd < 0x1_0000 && 0 < k < 0x1_0000_0000
    requires Latest(accepted) <= k && ComposeDedupKey(sent[k].cmd, k) !in seen
    ensures Latest(accepted) < k
    ensures AcceptedOk(Insert(seen, ComposeDedupKey(sent[k].cmd, k)), sent, accepted + [k])
  {
    assert seen[|seen| - 1] in seen;
    if accepted != [] {
      assert accepted[|accepted| - 1] < k;
    }
  }

  lemma EmitUp(w: Wire, s: Stack, p: Packet, priority: bool, link: seq<Frame>, answers: map<TxId, Packet>)
    requires w.Faithful() && (p.cmd == ACK_CMD || w.txIdOf(p) == 0)
    requires UpWire(w, answers, UnderWay(link, s.queue))
    ensures UpWire(w, answers, UnderWay(link, Emit(w, s, p, priority).queue))
    ensures Emit(w, s, p, priority).device == s.device && Emit(w, s, p, priority).run == s.run
  {
    if w.known(p) {
      var f := w.encode(s.serial, p);
      PrebuiltGrows(link, s.queue, f, priority);
      EncodedUp(w, s.serial, p, answers);
      UpGains(w, answers, UnderWay(link, s.queue), UnderWay(link, EnqueuePrebuilt(s.queue, f, priority).queue), f);
    }
  }

  lemma ReplayUp(w: Wire, s: Stack, f: Frame, link: seq<Frame>, answers: map<TxId, Packet>)
    requires UpWire(w, answers, UnderWay(link, s.queue)) && UpOk(w, answers, f)
    ensures UpWire(w, answers, UnderWay(link, Replay(s, f).queue))
  {
    PrebuiltGrows(link, s.queue, f, true);
    UpGains(w, answers, UnderWay(link, s.queue), UnderWay(link, Replay(s, f).queue), f);
  }

  /** Whatever a request makes the device send is an acknowledgement or an answer given before. */
  lemma ReliableKeepsUp(w: Wire, s: Stack, p: Arrived, k: Word32, link: seq<Frame>, answers: map<TxId, Packet>)
    requires w.Faithful() && s.device.seen != []
    requires UpWire(w, answers, UnderWay(link, s.queue)) && CacheOk(w, answers, s.device.cache)
    ensures UpWire(w, answers, UnderWay(link, HandleReliable(w, s, p, k).stack.queue))
  {
    var key := ComposeDedupKey(p.cmd, k);
    var s1 := s.(device := s.device.(seen := Insert(s.device.seen, key)));
    assert w.ack(k, p.cmd).cmd == ACK_CMD;
    EmitUp(w, s1, w.ack(k, p.cmd), true, link, answers);
    if key in s.device.seen && key in s.device.cache {
      ReplayUp(w, Emit(w, s1, w.ack(k, p.cmd), true), s.device.cache[key].frame, link, answers);
    }
  }

  lemma ReliableKeeps(w: Wire, s: Stack, p: Arrived, k: Word32, link: seq<Frame>, log: Log)
    requires w.Faithful() && s.device.seen != [] && DeviceOk(w, s, link, log)
    requires k != 0 && Latest(log.accepted) <= k && k in log.sent && log.sent[k] == p
    ensures var r := HandleReliable(w, s, p, k);
            && DeviceOk(w, r.stack, link, LogAfter(log, r, p))
            && Latest(LogAfter(log, r, p).accepted) in {Latest(log.accepted), k}
  {
    assert Opened(0);
    var key, r := ComposeDedupKey(p.cmd, k), HandleReliable(w, s, p, k);
    ReliableKeepsUp(w, s, p, k, link, log.answers);
    if key !in s.device.seen {
      FreshIsLater(s.device.seen, log.sent, log.accepted, k);
      RanMore(w, log, k, p);
    }
  }

  lemma RanMore(w: Wire, log: Log, k: TxId, p: Packet)
    requires RanOk(log.sent, log.ran, Latest(log.accepted)) && AnswersOk(w, log.ran, log.answers)
    requires Latest(log.accepted) < k && k in log.sent && log.sent[k] == p
    ensures RanOk(log.sent, log.ran, k) && RanOk(log.sent, log.ran + [Delivery(k, p)], k)
    ensures AnswersOk(w, log.ran + [Delivery(k, p)], log.answers)
  {
    forall j | j in log.answers
      ensures exists d :: d in log.ran + [Delivery(k, p)] && d.txId == j
    {
      var d :| d in log.ran && d.txId == j;
      assert d in log.ran + [Delivery(k, p)];
    }
  }

  lemma NextArrives(link: seq<Frame>, q: seq<TxEntry>)
    requires link != []
    ensures UnderWay(link, q)[0] == link[0] && UnderWay(link, q)[1..] == UnderWay(link[1..], q)
  {
  }

  lemma DeviceReceiveKeeps(w: Wire, v: World, at: Time)
    requires w.Faithful() && WorldOk(w, v) && v.down != []
    ensures WorldOk(w, DeviceGot(w, v, at))
  {
    var f, sent, lo, hi := v.down[0], v.log.sent, Latest(v.log.accepted), Latest(v.host.run.first);
    NextArrives(v.down, v.host.queue);
    DownArrives(w, sent, UnderWay(v.down, v.host.queue), lo, hi);
    var p, rest := w.decode(f).value, UnderWay(v.down[1..], v.host.queue);
    if w.txIdOf(p) == 0 {
      BroadcastReceived(w, v, p, at);
    } else {
      RequestReceived(w, v, p, w.txIdOf(p), rest, at);
    }
  }

  lemma BroadcastReceived(w: Wire, v: World, p: Packet, at: Time)
    requires WorldOk(w, v) && v.down != [] && w.decode(v.down[0]) == Some(p) && p.cmd < 0x1_0000
    requires w.txIdOf(p) == 0 && p.cmd != ACK_CMD
    requires DownWire(w, v.log.sent, UnderWay(v.down[1..], v.host.queue), Latest(v.log.accepted), Latest(v.host.run.first))
    ensures WorldOk(w, DeviceGot(w, v, at))
  {
    ZeroIdIgnored(w, v.device, p, at);
    var log := DeviceGot(w, v, at).log;
    OthersHear(w, v.device, v.up, v.log, log);
  }

  /** What is heard does not matter to the rest. */
  lemma OthersHear(w: Wire, s: Stack, link: seq<Frame>, log: Log, log': Log)
    requires DeviceOk(w, s, link, log) && log' == log.(heardByDevice := log'.heardByDevice, heardByHost := log'.heardByHost)
    ensures DeviceOk(w, s, link, log')
  {
    assert Opened(0);
  }

  lemma RequestReceived(w: Wire, v: World, p: Packet, k: Word32, rest: seq<Frame>, at: Time)
    requires w.Faithful() && WorldOk(w, v) && v.down != [] && w.decode(v.down[0]) == Some(p) && p.cmd < 0x1_0000
    requires k == w.txIdOf(p) != 0 && k in v.log.sent && v.log.sent[k] == p && Latest(v.log.accepted) <= k
    requires rest == UnderWay(v.down[1..], v.host.queue)
    requires DownWire(w, v.log.sent, rest, Latest(v.log.accepted), Latest(v.host.run.first))
    requires DownWire(w, v.log.sent, rest, k, Latest(v.host.run.first))
    ensures WorldOk(w, DeviceGot(w, v, at))
  {
    SentAreReliable(w, v.host.run, v.log.sent, k);
    ReliableHandled(w, v.device, p, at);
    ReliableKeeps(w, v.device, p, k, v.up, v.log);
  }

  lemma SentAreReliable(w: Wire, run: Run, sent: map<TxId, Packet>, k: TxId)
    requires HostOk(w, run, sent) && k in sent
    ensures IsReliableRequest(sent[k].cmd)
  {
    assert Opened(0);
  }

  // ---- Answers ----

  lemma AnswersMore(w: Wire, answers: map<TxId, Packet>, k: TxId, p: Packet, frames: seq<Frame>, cache: map<Key, Completed>)
    requires UpWire(w, answers, frames) && CacheOk(w, answers, cache) && k !in answers
    ensures UpWire(w, answers[k := p], frames) && CacheOk(w, answers[k := p], cache)
  {
    forall f | UpOk(w, answers, f)
      ensures UpOk(w, answers[k := p], f)
    {
    }
  }

  lemma AnswerKeepsCache(w: Wire, answers: map<TxId, Packet>, d: Device, capacity: nat, key: Key, c: Completed)
    requires CacheOk(w, answers, d.cache) && UpOk(w, answers, c.frame) && Kept(c) == c
    ensures CacheOk(w, answers, CacheResponse(d, capacity, key, c).cache)
  {
    ShrinkOnlyDrops(d.(cache := d.cache[key := c], order := d.order + [key]), capacity);
  }

  lemma AnswerKeeps(w: Wire, s: Stack, requestCmd: Half, k: Word32, p: Packet, link: seq<Frame>, log: Log)
    requires w.Faithful() && w.known(p) && DeviceOk(w, s, link, log)
    requires k !in log.answers && (exists d :: d in log.ran && d.txId == k)
    requires w.txIdOf(p) == k && !IsRequestCmd(p.cmd) && |w.encode(s.serial, p)| <= Slots.MAX_PACKET_SIZE
    ensures DeviceOk(w, Answer(w, s, requestCmd, k, p), link, log.(answers := log.answers[k := p]))
  {
    assert Opened(0);
    var f, answers := w.encode(s.serial, p), log.answers[k := p];
    AnswersMore(w, log.answers, k, p, UnderWay(link, s.queue), s.device.cache);
    EncodedUp(w, s.serial, p, answers);
    PrebuiltGrows(link, s.queue, f, true);
    UpGains(w, answers, UnderWay(link, s.queue), UnderWay(link, EnqueuePrebuilt(s.queue, f, true).queue), f);
    AnswerKeepsCache(w, answers, s.device, s.cacheCapacity, ComposeDedupKey(requestCmd, k), Completed(p.cmd, f));
  }

  lemma DeviceAnswerKeeps(w: Wire, v: World, txId: Word32, requestCmd: Half, p: Packet)
    requires w.Faithful() && WorldOk(w, v) && CanAnswer(w, v, txId, p)
    ensures WorldOk(w, AnswerGiven(w, v, txId, requestCmd, p))
  {
    if w.known(p) {
      AnswerKeeps(w, v.device, requestCmd, txId, p, v.up, v.log);
    }
  }

  lemma DeviceQueueKeeps(w: Wire, s: Stack, s': Stack, link: seq<Frame>, link': seq<Frame>, log: Log)
    requires DeviceOk(w, s, link, log) && s'.device == s.device
    requires UpWire(w, log.answers, UnderWay(link, s.queue)) ==> UpWire(w, log.answers, UnderWay(link', s'.queue))
    ensures DeviceOk(w, s', link', log)
  {
    assert Opened(0);
  }

  lemma DeviceBroadcastKeeps(w: Wire, v: World, p: Packet)
    requires w.Faithful() && WorldOk(w, v) && CanBroadcast(w, p)
    ensures WorldOk(w, DeviceSpoke(w, v, p))
  {
    if UpWire(w, v.log.answers, UnderWay(v.up, v.device.queue)) {
      EmitUp(w, v.device, p, false, v.up, v.log.answers);
    }
    EmitOnlyQueues(w, v.device, p);
    DeviceQueueKeeps(w, v.device, Emit(w, v.device, p, false), v.up, v.up, v.log);
  }

  lemma EmitOnlyQueues(w: Wire, s: Stack, p: Packet)
    ensures Emit(w, s, p, false).device == s.device && Emit(w, s, p, false).run == s.run
  {
  }

  lemma DeviceTransmitKeeps(w: Wire, v: World)
    requires WorldOk(w, v)
    ensures WorldOk(w, DeviceSent(v))
  {
    TransmitMoves(v.device, v.up);
    DeviceQueueKeeps(w, v.device, Transmit(v.device).0, v.up, v.up + Transmit(v.device).1, v.log);
  }

  lemma LoseUpKeeps(w: Wire, v: World, i: nat)
    requires WorldOk(w, v) && i < |v.up|
    ensures WorldOk(w, v.(up := Without(v.up, i)))
  {
    LinkShrinks(v.up, v.device.queue, i);
    if UpWire(w, v.log.answers, UnderWay(v.up, v.device.queue)) {
      UpLoses(w, v.log.answers, UnderWay(v.up, v.device.queue), UnderWay(Without(v.up, i), v.device.queue));
    }
    DeviceQueueKeeps(w, v.device, v.device, v.up, Without(v.up, i), v.log);
  }

  // ---- What comes back to the host ----

  lemma BooksReceive(w: Wire, run: Run, sent: map<TxId, Packet>, c: Call)
    requires HostOk(w, run, sent) && (c.OnAck? || c.OnResponse?) && ValidCall(run, c) && run.host.seenResponses != []
    ensures HostOk(w, Apply(run, c), sent) && Apply(run, c).first == run.first
    ensures Apply(run, c).host.seenResponses != []
  {
    assert Opened(0);
    StepKeeps(run, c);
    if c.OnAck? {
      BooksAck(w, run.host, c.txId, c.at, Latest(run.first), |run.registered|, sent);
    } else {
      BooksRespond(w, run.host, ComposeDedupKey(c.cmd, c.txId), c.txId, Latest(run.first), |run.registered|, sent);
    }
  }

  lemma BooksAck(w: Wire, h: Host, k: TxId, at: Time, latest: TxId, issued: nat, sent: map<TxId, Packet>)
    requires Books(w, h.pending, latest, issued, sent)
    ensures Books(w, Session.Ack(h, k, at).pending, latest, issued, sent)
  {
  }

  lemma BooksRespond(w: Wire, h: Host, key: Key, k: TxId, latest: TxId, issued: nat, sent: map<TxId, Packet>)
    requires Books(w, h.pending, latest, issued, sent) && h.seenResponses != []
    ensures Books(w, Respond(h, key, k).pending, latest, issued, sent) && Respond(h, key, k).window == h.window
  {
  }

  lemma PendingNotCalled(w: Wire, run: Run, sent: map<TxId, Packet>, k: TxId)
    requires HostOk(w, run, sent) && k in run.host.pending
    ensures Count(run.callbacks, k) == 0
  {
    assert Opened(0);
    assert PendingCounted(run, k);
  }

  /** A response that completes its request comes before any other outcome of it. */
  lemma CalledOnce(w: Wire, run: Run, sent: map<TxId, Packet>, log: Log, p: Arrived, k: Word32)
    requires HostOk(w, run, sent) && CalledOk(log.answers, log.called, run.callbacks) && run.host.seenResponses != []
    requires k in log.answers && log.answers[k] == p
    ensures var c := OnResponse(p.cmd, k);
            if Completes(run.host, ComposeDedupKey(p.cmd, k), k) && run.host.pending[k].responseCmd == p.cmd
            then CalledOk(log.answers, log.called + [Delivery(k, p)], Apply(run, c).callbacks)
            else CalledOk(log.answers, log.called, Apply(run, c).callbacks)
  {
    if Completes(run.host, ComposeDedupKey(p.cmd, k), k) && run.host.pending[k].responseCmd == p.cmd {
      PendingNotCalled(w, run, sent, k);
      CalledMore(log.answers, log.called, run.callbacks, k, p);
    }
  }

  lemma CalledMore(answers: map<TxId, Packet>, called: seq<Delivery>, callbacks: map<TxId, nat>, k: TxId, p: Packet)
    requires CalledOk(answers, called, callbacks) && Count(callbacks, k) == 0 && k in answers && answers[k] == p
    ensures CalledOk(answers, called + [Delivery(k, p)], Bump(callbacks, {k}))
  {
    var more := called + [Delivery(k, p)];
    forall i, j | 0 <= i < j < |more|
      ensures more[i].txId != more[j].txId
    {
      assert more[i] == called[i] && called[i] in called;
    }
  }

  /** The response of an id gets where `CalledOnce` and `BooksReceive` speak of it. */
  lemma ResponseHandled(w: Wire, s: Stack, p: Arrived, at: Time)
    requires s.device.seen != [] && s.run.host.seenResponses != []
    requires p.cmd != ACK_CMD && !IsRequestCmd(p.cmd) && w.txIdOf(p) != 0
    ensures var (r, k) := (HandlePacket(w, s, p, at), w.txIdOf(p));
            && r.stack == s.(run := Apply(s.run, OnResponse(p.cmd, k)))
            && r.event == if Completes(s.run.host, ComposeDedupKey(p.cmd, k), k) && s.run.host.pending[k].responseCmd == p.cmd
                          then Answered(k, p) else Nothing
  {
  }

  lemma AckHandled(w: Wire, s: Stack, p: Arrived, at: Time)
    requires s.device.seen != [] && s.run.host.seenResponses != [] && p.cmd == ACK_CMD
    ensures var r := HandlePacket(w, s, p, at);
            && r.stack in {s, s.(run := Apply(s.run, OnAck(w.txIdOf(p), at)))} && r.event == Nothing
            && r.stack.run.callbacks == s.run.callbacks
  {
  }

  lemma HostReceiveKeeps(w: Wire, v: World, at: Time)
    requires w.Faithful() && WorldOk(w, v) && v.up != []
    ensures WorldOk(w, HostGot(w, v, at))
  {
    UpArrives(w, v.device, v.up, v.log);
    var p := w.decode(v.up[0]).value;
    if p.cmd != ACK_CMD && w.txIdOf(p) != 0 {
      ResponseReceived(w, v, p, w.txIdOf(p), at);
    } else {
      OtherReceived(w, v, p, w.txIdOf(p), at);
    }
  }

  lemma OtherReceived(w: Wire, v: World, p: Packet, k: Word32, at: Time)
    requires WorldOk(w, v) && v.up != [] && w.decode(v.up[0]) == Some(p) && p.cmd < 0x1_0000
    requires k == w.txIdOf(p) && (p.cmd == ACK_CMD || k == 0) && DeviceOk(w, v.device, v.up[1..], v.log)
    ensures WorldOk(w, HostGot(w, v, at))
  {
    if p.cmd == ACK_CMD {
      AckHandled(w, v.host, p, at);
      BooksReceive(w, v.host.run, v.log.sent, OnAck(k, at));
    } else {
      ZeroIdIgnored(w, v.host, p, at);
      OthersHear(w, v.device, v.up[1..], v.log, HostGot(w, v, at).log);
    }
  }

  lemma ResponseReceived(w: Wire, v: World, p: Packet, k: Word32, at: Time)
    requires WorldOk(w, v) && v.up != [] && w.decode(v.up[0]) == Some(p) && p.cmd < 0x1_0000
    requires k == w.txIdOf(p) != 0 && p.cmd != ACK_CMD && UpOk(w, v.log.answers, v.up[0])
    requires DeviceOk(w, v.device, v.up[1..], v.log)
    ensures WorldOk(w, HostGot(w, v, at))
  {
    ResponseHandled(w, v.host, p, at);
    BooksReceive(w, v.host.run, v.log.sent, OnResponse(p.cmd, k));
    CalledOnce(w, v.host.run, v.log.sent, v.log, p, k);
  }

  lemma UpArrives(w: Wire, s: Stack, link: seq<Frame>, log: Log)
    requires link != [] && DeviceOk(w, s, link, log)
    ensures UpOk(w, log.answers, link[0]) && DeviceOk(w, s, link[1..], log)
  {
    assert Opened(0);
    NextArrives(link, s.queue);
    assert UnderWay(link, s.queue)[0] in UnderWay(link, s.queue);
    assert forall f :: f in UnderWay(link[1..], s.queue) ==> f in UnderWay(link, s.queue);
  }

  // ---- Every run ----

  lemma StepKeepsWorld(w: Wire, v: World, s: Step)
    requires w.Faithful() && WorldOk(w, v) && ValidStep(w, v, s)
    ensures WorldOk(w, Do(w, v, s))
  {
    match s
    case Request(p, responseCmd, timeout, maxRetries, at) =>
      RequestKeeps(w, v, p, responseCmd, timeout, maxRetries, at);
    case HandOut(at) => HandOutKeeps(w, v, at);
    case Retry(at, clock, ids) => RetryKeeps(w, v, at, clock, ids);
    case HostBroadcast(p) => HostBroadcastKeeps(w, v, p);
    case HostTransmit => HostTransmitKeeps(w, v);
    case LoseDown(i) => LoseDownKeeps(w, v, i);
    case DeviceReceive(at) => DeviceReceiveKeeps(w, v, at);
    case DeviceAnswer(txId, requestCmd, p) => DeviceAnswerKeeps(w, v, txId, requestCmd, p);
    case DeviceBroadcast(p) => DeviceBroadcastKeeps(w, v, p);
    case DeviceTransmit => DeviceTransmitKeeps(w, v);
    case LoseUp(i) => LoseUpKeeps(w, v, i);
    case HostReceive(at) => HostReceiveKeeps(w, v, at);
  }

  ghost predicate ValidSteps(w: Wire, v: World, steps: seq<Step>)
    decreases |steps|
  {
    steps == [] || (RingsExist(v) && ValidStep(w, v, steps[0]) && ValidSteps(w, Do(w, v, steps[0]), steps[1..]))
  }

  ghost function RunOf(w: Wire, v: World, steps: seq<Step>): World
    requires ValidSteps(w, v, steps)
    decreases |steps|
  {
    if steps == [] then v else RunOf(w, Do(w, v, steps[0]), steps[1..])
  }

  lemma {:induction false} RunsKeepWorld(w: Wire, v: World, steps: seq<Step>)
    requires w.Faithful() && WorldOk(w, v) && ValidSteps(w, v, steps)
    ensures WorldOk(w, RunOf(w, v, steps))
    decreases |steps|
  {
    if steps != [] {
      StepKeepsWorld(w, v, steps[0]);
      RunsKeepWorld(w, Do(w, v, steps[0]), steps[1..]);
    }
  }

  /** What the two stacks are made with; the ring and the cache have the same sizes at both ends. */
  datatype Setup = Setup(window: nat, ring: nat, cacheCapacity: nat, hostHandlers: set<nat>, deviceHandlers: set<nat>)

  function FreshStack(c: Setup, handlers: set<nat>): Stack {
    Stack(Start(c.window, c.ring), Device(EmptySlots(c.ring), map[], []), [], 0, handlers, c.cacheCapacity)
  }

  /** Two new stacks and empty links. */
  function FreshWorld(c: Setup): World {
    World(FreshStack(c, c.hostHandlers), FreshStack(c, c.deviceHandlers), [], [], Log(map[], [], [], map[], [], [], []))
  }

  lemma FreshWorldOk(w: Wire, c: Setup)
    requires c.ring > 0 && c.window <= 1
    ensures WorldOk(w, FreshWorld(c))
  {
    StartKeeps(c.window, c.ring);
  }

  /** The device accepts ids in strictly increasing order; each handler runs at most once for an
      id, and on the very request that was registered; and each callback gets what the handler
      answered to its id, at most once. */
  ghost predicate Guarantees(log: Log) {
    && Increasing(log.accepted)
    && (forall i, j :: 0 <= i < j < |log.ran| ==> log.ran[i].txId < log.ran[j].txId)
    && (forall d :: d in log.ran ==> d.txId in log.sent && log.sent[d.txId] == d.packet)
    && (forall d :: d in log.called ==> d.txId in log.answers && log.answers[d.txId] == d.packet
                                        && exists r :: r in log.ran && r.txId == d.txId)
    && (forall i, j :: 0 <= i < j < |log.called| ==> log.called[i].txId != log.called[j].txId)
  }

  /** The guarantees hold in every run with a window of one, whatever is lost, repeated or delayed. */
  lemma AtMostOnce(w: Wire, c: Setup, start: World, steps: seq<Step>)
    requires w.Faithful() && c.ring > 0 && c.window <= 1
    requires start == FreshWorld(c) && ValidSteps(w, start, steps)
    ensures Guarantees(RunOf(w, start, steps).log)
  {
    FreshWorldOk(w, c);
    RunsKeepWorld(w, start, steps);
    LogGuarantees(w, RunOf(w, start, steps));
  }

  lemma LogGuarantees(w: Wire, v: World)
    requires WorldOk(w, v)
    ensures Increasing(v.log.accepted)
    ensures RanOk(v.log.sent, v.log.ran, Latest(v.log.accepted)) && AnswersOk(w, v.log.ran, v.log.answers)
    ensures CalledOk(v.log.answers, v.log.called, v.host.run.callbacks)
  {
    assert Opened(0);
  }
}

/** Why the window has to be one: in a wider one, a request can outlive the memory of the ring. */
module WindowLimit {
  import opened Bits
  import opened Dedup
  import opened EndToEnd
  import opened EndToEndRuns
  import opened Framing
  import opened Reaching
  import opened Scanning
  import opened Session
  import opened SessionRuns
  import opened Stacks
  import opened TxQueues

  /** A reliable request of one type, for each id. */
  datatype Requests = Requests(cmd: Half, payload: TxId -> seq<Byte>)
  {
    function Of(k: TxId): Packet { Packet(cmd, payload(k)) }

    /** They are known packets that carry their id and fit a slot of the session. */
    ghost predicate Usable(w: Wire) {
      && w.Faithful() && IsReliableRequest(cmd)
      && forall k: TxId :: 0 < k < TWO32 ==>
           w.known(Of(k)) && w.txIdOf(Of(k)) == k && |payload(k)| <= Slots.MAX_PACKET_SIZE
    }
  }

  // ---- What matters of the world between rounds ----

  /** The keys of the first `n` ids. */
  function Keys(cmd: Half, n: nat): (ks: seq<Key>)
    requires n < TWO32
    ensures |ks| == n && forall i :: 0 <= i < n ==> ks[i] == ComposeDedupKey(cmd, i + 1)
  {
    seq(n, i requires 0 <= i < n => ComposeDedupKey(cmd, i + 1))
  }

  /** A request in flight, to be retried once. */
  function Stubborn(r: Requests): Pending {
    Pending(r.cmd, 0, r.payload(1), 2, 1, 0, true, 2)
  }

  /** The books, when the ids before `next` have been registered and `pending` and `queue` are left. */
  ghost predicate HostAt(v: World, window: nat, next: TxId, pending: map<TxId, Pending>, queue: seq<TxId>, inflight: nat) {
    var run := v.host.run;
    && RingsExist(v)
    && run.host == Host(window, pending, queue, inflight, run.host.seenResponses)
    && run.nextTxId == next && |run.registered| == next - 1
  }

  /** The ids up to `n` have been accepted, one by one. */
  ghost predicate DeviceAt(v: World, cmd: Half, ring: nat, n: nat) {
    && n < TWO32 && ring > 0
    && v.device.device.seen == Recent(ring, Keys(cmd, n))
    && |v.log.accepted| == n && (n > 0 ==> v.log.accepted[0] == 1)
  }

  ghost predicate LinkAt(v: World, queue: seq<Frame>, down: seq<Frame>) {
    Frames(v.host.queue) == queue && v.down == down
  }

  // ---- The steps of a round ----

  lemma Registers(w: Wire, r: Requests, v: World, window: nat, k: TxId, pending: map<TxId, Pending>, inflight: nat,
                  responseCmd: nat, timeout: nat, maxRetries: nat)
    requires r.Usable(w) && HostAt(v, window, k, pending, [], inflight) && 0 < k < TWO32 - 1
    ensures CanRequest(w, v, r.Of(k))
    ensures var v' := Registered(v, r.Of(k), responseCmd, timeout, maxRetries, 0);
            && HostAt(v', window, k + 1,
                      pending[k := Pending(r.cmd, responseCmd, r.payload(k), timeout, maxRetries, 0, false, timeout)],
                      [k], inflight)
            && v' == v.(host := v.host.(run := v'.host.run), log := v.log.(sent := v'.log.sent))
            && v'.host.run.host.seenResponses == v.host.run.host.seenResponses
  {
    assert Booked(r.Of(k)) == r.Of(k);
  }

  lemma HandsItOut(w: Wire, r: Requests, v: World, window: nat, k: TxId, pending: map<TxId, Pending>, inflight: nat)
    requires r.Usable(w) && HostAt(v, window, k + 1, pending, [k], inflight) && inflight < window
    requires 0 < k < TWO32 && k in pending && pending[k].requestCmd == r.cmd && pending[k].request == r.payload(k)
    requires LinkAt(v, [], [])
    ensures var (v', f) := (HandedOut(w, v, 0), w.encode(v.host.serial, r.Of(k)));
            && HostAt(v', window, k + 1,
                      pending[k := pending[k].(inflight := true, deadline := pending[k].timeout)], [], inflight + 1)
            && LinkAt(v', [f], []) && w.Carries(f, r.Of(k))
            && v' == v.(host := v'.host) && v'.host.run.host.seenResponses == v.host.run.host.seenResponses
  {
    var h := v.host.run.host;
    assert Skipped(h.queue, h.pending) == 0;
    assert HandsOut(h) && NextId(h) == k && h.queue[1..] == [];
    EnqueuesOne(w, r, v.host.(run := Apply(v.host.run, NextOutbound(0))), pending[k], k);
  }

  lemma EnqueuesOne(w: Wire, r: Requests, s: Stack, p: Pending, k: TxId)
    requires r.Usable(w) && 0 < k < TWO32 && p.requestCmd == r.cmd && p.request == r.payload(k)
    requires s.queue == []
    ensures var f := w.encode(s.serial, r.Of(k));
            && Frames(Enqueue(w, s, p).queue) == [f] && w.Carries(f, r.Of(k))
            && Enqueue(w, s, p).run == s.run && Enqueue(w, s, p).device == s.device
  {
    assert w.known(r.Of(k));
    assert Packet(p.requestCmd, p.request) == r.Of(k);
  }

  lemma Transmits(w: Wire, v: World, f: Frame)
    requires RingsExist(v) && LinkAt(v, [f], [])
    ensures var v' := HostSent(v);
            LinkAt(v', [], [f]) && v'.host.run == v.host.run && v' == v.(host := v'.host, down := [f])
            && v'.host.device == v.host.device
  {
    assert Frames(v.host.queue)[0] == v.host.queue[0].frame;
  }

  /** A request whose key the ring does not hold is accepted, whether it was before or not. */
  lemma Accepts(w: Wire, r: Requests, v: World, k: TxId, f: Frame)
    requires r.Usable(w) && RingsExist(v) && v.down == [f] && w.Carries(f, r.Of(k)) && 0 < k < TWO32
    requires ComposeDedupKey(r.cmd, k) !in v.device.device.seen
    ensures var v' := DeviceGot(w, v, 0);
            && RingsExist(v') && v'.host == v.host && v'.down == []
            && v'.log.accepted == v.log.accepted + [k]
            && v'.device.device.seen == Insert(v.device.device.seen, ComposeDedupKey(r.cmd, k))
  {
    assert w.txIdOf(r.Of(k)) == k;
    ReliableHandled(w, v.device, r.Of(k), 0);
  }

  lemma NotYetSeen(cmd: Half, ring: nat, n: nat, k: TxId)
    requires k == n + 1 < TWO32
    ensures ComposeDedupKey(cmd, k) !in Recent(ring, Keys(cmd, n))
  {
    var all, key := EmptySlots(ring) + Keys(cmd, n), ComposeDedupKey(cmd, k);
    assert key !in all;
  }

  lemma NextKey(cmd: Half, ring: nat, n: nat, k: TxId)
    requires k == n + 1 < TWO32 && ring > 0
    ensures Insert(Recent(ring, Keys(cmd, n)), ComposeDedupKey(cmd, k)) == Recent(ring, Keys(cmd, k))
  {
    NotYetSeen(cmd, ring, n, k);
    RecentGrows(ring, Keys(cmd, n), ComposeDedupKey(cmd, k));
    assert Keys(cmd, k) == Keys(cmd, n) + [ComposeDedupKey(cmd, k)];
  }

  /** A request without retries is given up as soon as it was handed out. */
  lemma GivesUp(w: Wire, r: Requests, v: World, window: nat, k: TxId, p: Pending)
    requires HostAt(v, window, k + 1, map[1 := Stubborn(r), k := p], [], 2) && k > 1
    requires p.inflight && p.deadline == 0 && p.retryCount == p.maxRetries == 0
    ensures CanRetry(v, 0, Clock(0), [])
    ensures var v' := Resent(w, v, 0, Clock(0), []);
            && HostAt(v', window, k + 1, map[1 := Stubborn(r)], [], 1)
            && v' == v.(host := v.host.(run := v'.host.run))
  {
    PollDrops(r, v.host.run.host, k, p, Clock(0));
    assert EnqueueAll(w, v.host.(run := Apply(v.host.run, DoPoll(0, Clock(0)))), v.host.run.host.pending, [])
           == v.host.(run := Apply(v.host.run, DoPoll(0, Clock(0))));
  }

  lemma PollDrops(r: Requests, h: Host, k: TxId, p: Pending, clock: TxId -> Time)
    requires h.pending == map[1 := Stubborn(r), k := p] && k > 1 && h.inflightCount == 2
    requires p.inflight && p.deadline == 0 && p.retryCount == p.maxRetries == 0
    ensures RetriedIds(h.pending, 0) == {}
    ensures Session.Poll(h, 0, clock) == h.(pending := map[1 := Stubborn(r)], inflightCount := 1)
  {
    assert RetriedIds(h.pending, 0) == {};
    assert ExpiredIds(h.pending, 0) == {k};
    assert Session.Poll(h, 0, clock).pending == map[1 := Stubborn(r)];
  }

  /** A further request goes through while the first one stays unanswered. */
  lemma Round(w: Wire, r: Requests, start: World, v: World, window: nat, ring: nat, k: TxId) returns (v': World)
    requires r.Usable(w) && Reaches(w, start, v) && window >= 2 && 1 < k < TWO32 - 1
    requires HostAt(v, window, k, map[1 := Stubborn(r)], [], 1) && LinkAt(v, [], []) && DeviceAt(v, r.cmd, ring, k - 1)
    ensures Reaches(w, start, v')
    ensures HostAt(v', window, k + 1, map[1 := Stubborn(r)], [], 1) && LinkAt(v', [], []) && DeviceAt(v', r.cmd, ring, k)
  {
    var p := Pending(r.cmd, 0, r.payload(k), 0, 0, 0, false, 0);
    Registers(w, r, v, window, k, map[1 := Stubborn(r)], 1, 0, 0, 0);
    ReachRegistered(w, start, v, r.Of(k), 0, 0, 0, 0);
    var v1 := Registered(v, r.Of(k), 0, 0, 0, 0);
    var v4 := Delivered(w, r, start, v1, window, ring, k, map[1 := Stubborn(r)][k := p], 1);
    assert map[1 := Stubborn(r)][k := p][k := p.(inflight := true)] == map[1 := Stubborn(r), k := p.(inflight := true)];
    GivesUp(w, r, v4, window, k, p.(inflight := true));
    ReachResent(w, start, v4, 0, Clock(0), []);
    v' := Resent(w, v4, 0, Clock(0), []);
  }

  /** A registered request is handed out, sent, and accepted by the device. */
  lemma Delivered(w: Wire, r: Requests, start: World, v1: World, window: nat, ring: nat, k: TxId,
                  pending: map<TxId, Pending>, inflight: nat) returns (v4: World)
    requires r.Usable(w) && Reaches(w, start, v1) && 0 < k < TWO32 - 1 && inflight < window
    requires HostAt(v1, window, k + 1, pending, [k], inflight) && LinkAt(v1, [], []) && DeviceAt(v1, r.cmd, ring, k - 1)
    requires k in pending && pending[k].requestCmd == r.cmd && pending[k].request == r.payload(k)
    ensures Reaches(w, start, v4) && LinkAt(v4, [], []) && DeviceAt(v4, r.cmd, ring, k)
    ensures HostAt(v4, window, k + 1,
                   pending[k := pending[k].(inflight := true, deadline := pending[k].timeout)], [], inflight + 1)
  {
    var f := w.encode(v1.host.serial, r.Of(k));
    HandsItOut(w, r, v1, window, k, pending, inflight);
    ReachHandedOut(w, start, v1, 0);
    var v2 := HandedOut(w, v1, 0);
    Transmits(w, v2, f);
    ReachHostSent(w, start, v2);
    v4 := Arrives(w, r, start, HostSent(v2), ring, k, f);
  }

  lemma Arrives(w: Wire, r: Requests, start: World, v3: World, ring: nat, k: TxId, f: Frame) returns (v4: World)
    requires r.Usable(w) && Reaches(w, start, v3) && RingsExist(v3) && 0 < k < TWO32 - 1
    requires LinkAt(v3, [], [f]) && w.Carries(f, r.Of(k)) && DeviceAt(v3, r.cmd, ring, k - 1)
    ensures Reaches(w, start, v4) && LinkAt(v4, [], []) && DeviceAt(v4, r.cmd, ring, k)
    ensures v4.host == v3.host && RingsExist(v4)
  {
    NotYetSeen(r.cmd, ring, k - 1, k);
    Accepts(w, r, v3, k, f);
    ReachDeviceGot(w, start, v3, 0);
    v4 := DeviceGot(w, v3, 0);
    OneMoreAccepted(v3, v4, r.cmd, ring, k - 1, k);
  }

  lemma OneMoreAccepted(v: World, v': World, cmd: Half, ring: nat, n: nat, k: TxId)
    requires DeviceAt(v, cmd, ring, n) && k == n + 1 < TWO32
    requires v'.device.device.seen == Insert(v.device.device.seen, ComposeDedupKey(cmd, k))
    requires v'.log.accepted == v.log.accepted + [k]
    ensures DeviceAt(v', cmd, ring, k)
  {
    NextKey(cmd, ring, n, k);
    FirstStays(v.log.accepted, k);
  }

  lemma FirstStays(accepted: seq<TxId>, k: TxId)
    requires |accepted| == k - 1 && (accepted != [] ==> accepted[0] == 1)
    ensures |accepted + [k]| == k && (accepted + [k])[0] == 1
  {
  }

  lemma {:induction false} Rounds(w: Wire, r: Requests, start: World, v: World, window: nat, ring: nat, k: TxId, n: nat)
    returns (v': World)
    requires r.Usable(w) && Reaches(w, start, v) && window >= 2 && 1 < k && k + n < TWO32
    requires HostAt(v, window, k, map[1 := Stubborn(r)], [], 1) && LinkAt(v, [], []) && DeviceAt(v, r.cmd, ring, k - 1)
    ensures Reaches(w, start, v') && HostAt(v', window, k + n, map[1 := Stubborn(r)], [], 1)
    ensures LinkAt(v', [], []) && DeviceAt(v', r.cmd, ring, k + n - 1)
    decreases n
  {
    if n == 0 {
      v' := v;
    } else {
      var u := Round(w, r, start, v, window, ring, k);
      v' := Rounds(w, r, start, u, window, ring, k + 1, n - 1);
    }
  }

  /** The first request is sent again, when it is due. */
  lemma Retries(w: Wire, r: Requests, v: World, window: nat, next: TxId, p: Pending, at: Time)
    requires r.Usable(w) && HostAt(v, window, next, map[1 := p], [], 1) && LinkAt(v, [], [])
    requires Retried(p, at) && p.requestCmd == r.cmd && p.request == r.payload(1)
    ensures CanRetry(v, at, Clock(at), [1])
    ensures var (v', f) := (Resent(w, v, at, Clock(at), [1]), w.encode(v.host.serial, r.Of(1)));
            && HostAt(v', window, next, map[1 := Polled(p, at, at)], [], 1)
            && LinkAt(v', [f], []) && w.Carries(f, r.Of(1))
            && v' == v.(host := v'.host) && v'.host.run.host.seenResponses == v.host.run.host.seenResponses
  {
    var h := v.host.run.host;
    PollRetries(h, p, at, Clock(at));
    var s1 := v.host.(run := Apply(v.host.run, DoPoll(at, Clock(at))));
    EnqueuesOne(w, r, s1, p, 1);
    EnqueuesJustOne(w, s1, h.pending, 1);
  }

  lemma PollRetries(h: Host, p: Pending, at: Time, clock: TxId -> Time)
    requires h.pending == map[1 := p] && Retried(p, at) && clock(1) == at
    ensures RetriedIds(h.pending, at) == {1}
    ensures Session.Poll(h, at, clock) == h.(pending := map[1 := Polled(p, at, at)])
  {
    assert RetriedIds(h.pending, at) == {1};
    assert ExpiredIds(h.pending, at) == {};
    assert Session.Poll(h, at, clock).pending == map[1 := Polled(p, at, at)];
  }

  lemma EnqueuesJustOne(w: Wire, s: Stack, pending: map<TxId, Pending>, k: TxId)
    requires k in pending
    ensures EnqueueAll(w, s, pending, [k]) == Enqueue(w, s, pending[k])
  {
    assert [k][1..] == [];
  }

  lemma ForgottenKey(cmd: Half, ring: nat, n: nat)
    requires n == ring + 1 < TWO32
    ensures ComposeDedupKey(cmd, 1) !in Recent(ring, Keys(cmd, n))
  {
    var w, all := Recent(ring, Keys(cmd, n)), EmptySlots(ring) + Keys(cmd, n);
    assert forall i :: 0 <= i < ring ==> w[i] == all[n + i] == Keys(cmd, n)[i + 1];
  }

  /** No id is accepted a second time. */
  predicate AllDifferent(ids: seq<TxId>) {
    forall i, j :: 0 <= i < j < |ids| ==> ids[i] != ids[j]
  }

  ghost predicate NeverTwice(w: Wire, c: Setup) {
    forall v :: Reaches(w, FreshWorld(c), v) ==> AllDifferent(v.log.accepted)
  }

  /** With a window of two or more, a run of as many requests as the ring holds makes the device
      forget one that is still in flight; sent again, it is accepted again. */
  lemma WiderWindowRepeats(w: Wire, r: Requests, c: Setup) returns (v: World)
    requires r.Usable(w) && c.window >= 2 && 0 < c.ring < TWO32 - 2
    ensures Reaches(w, FreshWorld(c), v) && !AllDifferent(v.log.accepted)
  {
    var start := FreshWorld(c);
    var v2 := FirstAccepted(w, r, start, c);
    var v3 := Rounds(w, r, start, v2, c.window, c.ring, 2, c.ring);
    v := SentAgain(w, r, start, v3, c.window, c.ring);
  }

  /** The first request reaches the device, and stays in flight. */
  lemma FirstAccepted(w: Wire, r: Requests, start: World, c: Setup) returns (v: World)
    requires r.Usable(w) && c.window >= 2 && c.ring > 0 && start == FreshWorld(c)
    ensures Reaches(w, start, v) && HostAt(v, c.window, 2, map[1 := Stubborn(r)], [], 1)
    ensures LinkAt(v, [], []) && DeviceAt(v, r.cmd, c.ring, 1)
  {
    var p := Pending(r.cmd, 0, r.payload(1), 2, 1, 0, false, 2);
    var v1 := FirstRegistered(w, r, start, c, p);
    var pending := map[1 := p];
    BecomesStubborn(r, pending, p);
    v := Delivered(w, r, start, v1, c.window, c.ring, 1, pending, 0);
  }

  lemma BecomesStubborn(r: Requests, pending: map<TxId, Pending>, p: Pending)
    requires p == Pending(r.cmd, 0, r.payload(1), 2, 1, 0, false, 2) && pending == map[1 := p]
    ensures pending[1 := pending[1].(inflight := true, deadline := pending[1].timeout)] == map[1 := Stubborn(r)]
  {
  }

  lemma FirstRegistered(w: Wire, r: Requests, start: World, c: Setup, p: Pending) returns (v1: World)
    requires r.Usable(w) && c.window >= 2 && c.ring > 0 && start == FreshWorld(c)
    requires p == Pending(r.cmd, 0, r.payload(1), 2, 1, 0, false, 2)
    ensures Reaches(w, start, v1) && HostAt(v1, c.window, 2, map[1 := p], [1], 0)
    ensures LinkAt(v1, [], []) && DeviceAt(v1, r.cmd, c.ring, 0)
  {
    StartAt(r, start, c);
    Registers(w, r, start, c.window, 1, map[], 0, 0, 2, 1);
    ReachStart(w, start);
    ReachRegistered(w, start, start, r.Of(1), 0, 2, 1, 0);
    v1 := Registered(start, r.Of(1), 0, 2, 1, 0);
    assert map[][1 := p] == map[1 := p];
  }

  lemma StartAt(r: Requests, start: World, c: Setup)
    requires c.window >= 2 && c.ring > 0 && start == FreshWorld(c)
    ensures HostAt(start, c.window, 1, map[], [], 0) && LinkAt(start, [], []) && DeviceAt(start, r.cmd, c.ring, 0)
  {
    assert EmptySlots(c.ring) + [] == EmptySlots(c.ring);
  }

  lemma SentAgain(w: Wire, r: Requests, start: World, v: World, window: nat, ring: nat) returns (v': World)
    requires r.Usable(w) && Reaches(w, start, v) && 0 < ring < TWO32 - 2
    requires HostAt(v, window, ring + 2, map[1 := Stubborn(r)], [], 1) && LinkAt(v, [], [])
    requires DeviceAt(v, r.cmd, ring, ring + 1)
    ensures Reaches(w, start, v') && !AllDifferent(v'.log.accepted)
  {
    var f := w.encode(v.host.serial, r.Of(1));
    Retries(w, r, v, window, ring + 2, Stubborn(r), 2);
    ReachResent(w, start, v, 2, Clock(2), [1]);
    var v1 := Resent(w, v, 2, Clock(2), [1]);
    Transmits(w, v1, f);
    ReachHostSent(w, start, v1);
    var v2 := HostSent(v1);
    ForgottenKey(r.cmd, ring, ring + 1);
    Accepts(w, r, v2, 1, f);
    ReachDeviceGot(w, start, v2, 0);
    v' := DeviceGot(w, v2, 0);
    assert v'.log.accepted[0] == 1 == v'.log.accepted[ring + 1];
  }

  /** No request is ever accepted twice exactly when the window is one (to which zero is
      corrected); the size of the ring makes no difference. */
  lemma NeverTwiceIff(w: Wire, r: Requests, c: Setup)
    requires r.Usable(w) && 0 < c.ring < TWO32 - 2
    ensures NeverTwice(w, c) <==> c.window <= 1
  {
    var start := FreshWorld(c);
    if c.window <= 1 {
      forall v | Reaches(w, start, v)
        ensures AllDifferent(v.log.accepted)
      {
        ReachedGuarantees(w, c, v);
      }
    } else {
      var v := WiderWindowRepeats(w, r, c);
    }
  }
}

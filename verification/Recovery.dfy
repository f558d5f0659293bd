/** Losses: whatever is lost in as many rounds as a request may be sent again, its callback gets
    the answer of a handler that ran only once; with one more lost round it is given up. */
module Recovery {
  import opened Basics
  import opened Bits
  import opened Dedup
  import opened DeviceCache
  import opened EndToEnd
  import opened EndToEndRuns
  import opened Reaching
  import opened Scanning
  import opened Session
  import opened Stacks
  import opened TxQueues
  import opened WindowLimit

  /** A request type, its handler's answer to id 1, and how both ends see them. */
  ghost predicate Answerable(w: Wire, r: Requests, response: Packet) {
    && r.Usable(w)
    && w.known(response) && w.txIdOf(response) == 1 && !IsRequestCmd(response.cmd) && response.cmd != ACK_CMD
    && (forall n: Byte :: 0 < |w.encode(n, response)| <= Slots.MAX_PACKET_SIZE)
    && w.known(w.ack(1, r.cmd)) && |w.ack(1, r.cmd).payload| == w.ackSize && w.txIdOf(w.ack(1, r.cmd)) == 1
  }

  /** After how long, and how often, a request is sent again. */
  datatype Patience = Patience(timeout: nat, maxRetries: nat)

  /** What is lost of a round in which the answer does not get through; if it is only the response,
      the acknowledgement arrives `delay` after the request was sent last or acknowledged. */
  datatype Loss = OfRequest | OfResponse(delay: nat) | OfBothReplies

  /** The request while it waits for its answer; `at` is when it was last sent or acknowledged. */
  function Waiting(r: Requests, response: Packet, c: Patience, retries: nat, at: Time): Pending {
    Pending(r.cmd, response.cmd, r.payload(1), c.timeout, c.maxRetries, retries, true, at + c.timeout)
  }

  /** One request is on the books, in flight. */
  ghost predicate Asking(v: World, ring: nat, p: Pending) {
    HostAt(v, 1, 2, map[1 := p], [], 1) && v.host.run.host.seenResponses == EmptySlots(ring)
  }

  /** What is on its way to the device, in the device's queue, and on its way back. */
  ghost predicate Moving(v: World, down: seq<Frame>, queued: seq<Frame>, up: seq<Frame>) {
    LinkAt(v, [], down) && Frames(v.device.queue) == queued && v.up == up
  }

  /** The device has not seen the request yet, or its handler has run once and `kept` is what it answered. */
  ghost predicate DeviceIs(w: Wire, r: Requests, response: Packet, v: World, kept: Option<Frame>) {
    && r.cmd in v.device.handlers && v.device.cacheCapacity > 0 && v.log.called == []
    && match kept
       case None => Unasked(v, ComposeDedupKey(r.cmd, 1))
       case Some(f) =>
         && Holding(v, ComposeDedupKey(r.cmd, 1), map[ComposeDedupKey(r.cmd, 1) := Completed(response.cmd, f)])
         && v.log.ran == [Delivery(1, r.Of(1))] && w.Carries(f, response) && 0 < |f| <= Slots.MAX_PACKET_SIZE
  }

  ghost predicate Unasked(v: World, key: Key) {
    && key !in v.device.device.seen && v.device.device.cache == map[] && v.device.device.order == []
    && v.log.ran == [] && v.log.answers == map[]
  }

  /** The device has accepted the request and holds its response, if it was answered. */
  ghost predicate Holding(v: World, key: Key, cache: map<Key, Completed>) {
    key in v.device.device.seen && v.device.device.cache == cache
  }

  // ---- Asking ----

  lemma Asked(w: Wire, r: Requests, response: Packet, c: Patience, start: World, s: Setup)
    returns (v: World, f: Frame)
    requires Answerable(w, r, response) && s.ring > 0 && s.window == 1 && start == FreshWorld(s)
    ensures Reaches(w, start, v) && Asking(v, s.ring, Waiting(r, response, c, 0, 0)) && Moving(v, [f], [], [])
    ensures w.Carries(f, r.Of(1)) && v.device == start.device && v.log == start.log.(sent := v.log.sent)
  {
    ReachStart(w, start);
    Registers(w, r, start, 1, 1, map[], 0, response.cmd, c.timeout, c.maxRetries);
    ReachRegistered(w, start, start, r.Of(1), response.cmd, c.timeout, c.maxRetries, 0);
    var v1 := Registered(start, r.Of(1), response.cmd, c.timeout, c.maxRetries, 0);
    var p := Pending(r.cmd, response.cmd, r.payload(1), c.timeout, c.maxRetries, 0, false, c.timeout);
    v, f := FirstSentOut(w, r, response, c, start, v1, s.ring, p, map[][1 := p]);
  }

  lemma FirstSentOut(w: Wire, r: Requests, response: Packet, c: Patience, start: World, v1: World, ring: nat,
                     p: Pending, pending: map<TxId, Pending>) returns (v: World, f: Frame)
    requires r.Usable(w) && Reaches(w, start, v1) && HostAt(v1, 1, 2, pending, [1], 0) && Moving(v1, [], [], [])
    requires p == Pending(r.cmd, response.cmd, r.payload(1), c.timeout, c.maxRetries, 0, false, c.timeout)
    requires pending == map[1 := p] && v1.host.run.host.seenResponses == EmptySlots(ring)
    ensures Reaches(w, start, v) && Asking(v, ring, Waiting(r, response, c, 0, 0)) && Moving(v, [f], [], [])
    ensures w.Carries(f, r.Of(1)) && v.device == v1.device && v.log == v1.log
  {
    f := w.encode(v1.host.serial, r.Of(1));
    HandsItOut(w, r, v1, 1, 1, pending, 0);
    ReachHandedOut(w, start, v1, 0);
    var v2 := HandedOut(w, v1, 0);
    OnlyEntry(pending, p, pending[1].(inflight := true, deadline := pending[1].timeout));
    Transmits(w, v2, f);
    ReachHostSent(w, start, v2);
    v := HostSent(v2);
  }

  lemma OnlyEntry(pending: map<TxId, Pending>, p: Pending, q: Pending)
    requires pending == map[1 := p]
    ensures pending[1 := q] == map[1 := q] && pending - {1} == map[]
  {
  }

  /** Once it is due, and while retries are left, the request is sent again. */
  lemma AskedAgain(w: Wire, r: Requests, response: Packet, c: Patience, start: World, v: World, ring: nat,
                   n: nat, at: Time, due: Time)
    returns (v': World, f: Frame)
    requires Answerable(w, r, response) && Reaches(w, start, v) && Asking(v, ring, Waiting(r, response, c, n, at))
    requires Moving(v, [], [], []) && n < c.maxRetries && due == at + c.timeout
    ensures Reaches(w, start, v') && Asking(v', ring, Waiting(r, response, c, n + 1, due))
    ensures Moving(v', [f], [], []) && w.Carries(f, r.Of(1)) && v'.device == v.device && v'.log == v.log
  {
    var p := Waiting(r, response, c, n, at);
    f := w.encode(v.host.serial, r.Of(1));
    SentOnceMore(r, response, c, n, at, due);
    Retries(w, r, v, 1, 2, p, due);
    ReachResent(w, start, v, due, Clock(due), [1]);
    var v1 := Resent(w, v, due, Clock(due), [1]);
    Transmits(w, v1, f);
    ReachHostSent(w, start, v1);
    v' := HostSent(v1);
  }

  lemma SentOnceMore(r: Requests, response: Packet, c: Patience, n: nat, at: Time, due: Time)
    requires n < c.maxRetries && due == at + c.timeout
    ensures Retried(Waiting(r, response, c, n, at), due)
    ensures Polled(Waiting(r, response, c, n, at), due, due) == Waiting(r, response, c, n + 1, due)
  {
  }

  // ---- The device ----

  /** The device accepts the request, acknowledges it, and runs the handler. */
  lemma Handled(w: Wire, r: Requests, response: Packet, start: World, v: World, ring: nat, p: Pending, f: Frame)
    returns (v': World, ack: Frame)
    requires Answerable(w, r, response) && Reaches(w, start, v) && Asking(v, ring, p) && Moving(v, [f], [], [])
    requires w.Carries(f, r.Of(1)) && r.cmd in v.device.handlers
    requires v.device.device.cache == map[] && ComposeDedupKey(r.cmd, 1) !in v.device.device.seen
    ensures Reaches(w, start, v') && Asking(v', ring, p) && Moving(v', [], [ack], [])
    ensures w.Carries(ack, w.ack(1, r.cmd)) && Holding(v', ComposeDedupKey(r.cmd, 1), map[])
    ensures v'.log == v.log.(accepted := v'.log.accepted, ran := v.log.ran + [Delivery(1, r.Of(1))])
    ensures v'.device == v.device.(device := v'.device.device, queue := v'.device.queue, serial := v'.device.serial)
    ensures v'.device.device.order == v.device.device.order
  {
    assert w.txIdOf(r.Of(1)) == 1;
    ReliableHandled(w, v.device, r.Of(1), 0);
    AckQueued(w, v.device, r.Of(1), 1);
    ReachDeviceGot(w, start, v, 0);
    v' := DeviceGot(w, v, 0);
    ack := w.encode(v.device.serial, w.ack(1, r.cmd));
    InsertContains(v.device.device.seen, ComposeDedupKey(r.cmd, 1));
  }

  lemma InsertContains(seen: seq<Key>, key: Key)
    requires seen != []
    ensures key in Insert(seen, key)
  {
    if key !in seen {
      assert Insert(seen, key)[|seen| - 1] == key;
    }
  }

  /** An empty queue holds just the acknowledgement afterwards, and the kept response if there is one. */
  lemma AckQueued(w: Wire, s: Stack, p: Arrived, k: Word32)
    requires w.Faithful() && s.device.seen != [] && Frames(s.queue) == [] && w.known(w.ack(k, p.cmd))
    ensures var (r, ack, key) := (HandleReliable(w, s, p, k), w.encode(s.serial, w.ack(k, p.cmd)), ComposeDedupKey(p.cmd, k));
            && w.Carries(ack, w.ack(k, p.cmd))
            && r.stack == s.(device := s.device.(seen := Insert(s.device.seen, key)), queue := r.stack.queue,
                             serial := r.stack.serial)
            && Frames(r.stack.queue)
               == if key in s.device.seen && key in s.device.cache && 0 < |s.device.cache[key].frame| <= MAX_FRAME_SIZE
                  then [ack, s.device.cache[key].frame] else [ack]
  {
    assert |Frames(s.queue)| == |s.queue| == 0;
    assert w.Carries(w.encode(s.serial, w.ack(k, p.cmd)), w.ack(k, p.cmd));
  }

  /** The handler's answer is queued behind the acknowledgement, and kept. */
  lemma AnsweredAndKept(w: Wire, r: Requests, response: Packet, start: World, v: World, ring: nat, p: Pending, ack: Frame)
    returns (v': World, f: Frame)
    requires Answerable(w, r, response) && Reaches(w, start, v) && Asking(v, ring, p) && Moving(v, [], [ack], [])
    requires Holding(v, ComposeDedupKey(r.cmd, 1), map[]) && v.device.device.order == [] && v.device.cacheCapacity > 0
    requires (exists d :: d in v.log.ran && d.txId == 1) && v.log.answers == map[]
    ensures Reaches(w, start, v') && Asking(v', ring, p) && Moving(v', [], [ack, f], []) && w.Carries(f, response)
    ensures Holding(v', ComposeDedupKey(r.cmd, 1), map[ComposeDedupKey(r.cmd, 1) := Completed(response.cmd, f)])
    ensures 0 < |f| <= Slots.MAX_PACKET_SIZE && v'.log == v.log.(answers := v'.log.answers)
    ensures v'.device == v.device.(device := v'.device.device, queue := v'.device.queue, serial := v'.device.serial)
  {
    var key := ComposeDedupKey(r.cmd, 1);
    f := w.encode(v.device.serial, response);
    assert w.Carries(f, response);
    assert |Frames(v.device.queue)| == |v.device.queue| == 1;
    FillSlot(v.device.device, v.device.cacheCapacity, key, Completed(response.cmd, f));
    ReachAnswerGiven(w, start, v, 1, r.cmd, response);
    v' := AnswerGiven(w, v, 1, r.cmd, response);
    assert map[][key := Completed(response.cmd, f)] == map[key := Completed(response.cmd, f)];
  }

  /** The device recognises the repetition, and sends the kept response without asking the handler. */
  lemma Replayed(w: Wire, r: Requests, response: Packet, start: World, v: World, ring: nat, p: Pending, f: Frame, kept: Frame)
    returns (v': World, ack: Frame)
    requires Answerable(w, r, response) && Reaches(w, start, v) && Asking(v, ring, p) && Moving(v, [f], [], [])
    requires w.Carries(f, r.Of(1)) && 0 < |kept| <= Slots.MAX_PACKET_SIZE
    requires Holding(v, ComposeDedupKey(r.cmd, 1), map[ComposeDedupKey(r.cmd, 1) := Completed(response.cmd, kept)])
    ensures Reaches(w, start, v') && Asking(v', ring, p) && Moving(v', [], [ack, kept], [])
    ensures w.Carries(ack, w.ack(1, r.cmd)) && v'.log == v.log && Holding(v', ComposeDedupKey(r.cmd, 1), v.device.device.cache)
    ensures v'.device == v.device.(device := v'.device.device, queue := v'.device.queue, serial := v'.device.serial)
  {
    assert w.txIdOf(r.Of(1)) == 1;
    ReliableHandled(w, v.device, r.Of(1), 0);
    AckQueued(w, v.device, r.Of(1), 1);
    ReachDeviceGot(w, start, v, 0);
    v' := DeviceGot(w, v, 0);
    ack := w.encode(v.device.serial, w.ack(1, r.cmd));
  }

  /** Two frames leave the device. */
  lemma BothSent(w: Wire, start: World, v: World, a: Frame, f: Frame) returns (v': World)
    requires Reaches(w, start, v) && RingsExist(v) && Frames(v.device.queue) == [a, f] && v.up == []
    ensures Reaches(w, start, v') && Frames(v'.device.queue) == [] && v'.up == [a, f]
    ensures v' == v.(device := v.device.(queue := v'.device.queue), up := [a, f])
  {
    var v1 := OneSent(w, start, v, a, [f]);
    v' := OneSent(w, start, v1, f, []);
  }

  lemma OneSent(w: Wire, start: World, v: World, a: Frame, rest: seq<Frame>) returns (v': World)
    requires Reaches(w, start, v) && RingsExist(v) && Frames(v.device.queue) == [a] + rest
    ensures Reaches(w, start, v') && RingsExist(v') && Frames(v'.device.queue) == rest
    ensures v' == v.(device := v.device.(queue := v'.device.queue), up := v.up + [a])
  {
    ReachDeviceSent(w, start, v);
    v' := DeviceSent(v);
    assert Frames(v.device.queue)[0] == v.device.queue[0].frame;
    assert Frames(v.device.queue[1..]) == Frames(v.device.queue)[1..];
  }

  /** Whether it sees the request for the first time or again, the device answers it. */
  lemma Served(w: Wire, r: Requests, response: Packet, start: World, v: World, ring: nat, p: Pending,
               f: Frame, kept: Option<Frame>)
    returns (v': World, ack: Frame, answer: Frame)
    requires Answerable(w, r, response) && Reaches(w, start, v) && Asking(v, ring, p) && Moving(v, [f], [], [])
    requires w.Carries(f, r.Of(1)) && DeviceIs(w, r, response, v, kept)
    ensures Reaches(w, start, v') && Asking(v', ring, p) && Moving(v', [], [], [ack, answer])
    ensures w.Carries(ack, w.ack(1, r.cmd)) && w.Carries(answer, response) && DeviceIs(w, r, response, v', Some(answer))
  {
    var u: World;
    if kept.None? {
      u, ack, answer := ServedFirst(w, r, response, start, v, ring, p, f);
    } else {
      answer := kept.value;
      u, ack := Replayed(w, r, response, start, v, ring, p, f, answer);
    }
    v' := BothSent(w, start, u, ack, answer);
  }

  lemma ServedFirst(w: Wire, r: Requests, response: Packet, start: World, v: World, ring: nat, p: Pending, f: Frame)
    returns (u: World, ack: Frame, answer: Frame)
    requires Answerable(w, r, response) && Reaches(w, start, v) && Asking(v, ring, p) && Moving(v, [f], [], [])
    requires w.Carries(f, r.Of(1)) && DeviceIs(w, r, response, v, None)
    ensures Reaches(w, start, u) && Asking(u, ring, p) && Moving(u, [], [ack, answer], [])
    ensures w.Carries(ack, w.ack(1, r.cmd)) && DeviceIs(w, r, response, u, Some(answer))
  {
    var v1, a := Handled(w, r, response, start, v, ring, p, f);
    assert Delivery(1, r.Of(1)) in v1.log.ran;
    u, answer := AnsweredAndKept(w, r, response, start, v1, ring, p, a);
    ack := a;
  }

  // ---- What becomes of the replies ----

  /** An acknowledgement puts the deadline off. */
  lemma Acknowledged(w: Wire, r: Requests, response: Packet, c: Patience, start: World, v: World, ring: nat,
                     n: nat, at: Time, now: Time, ack: Frame, f: Frame)
    returns (v1: World)
    requires Answerable(w, r, response) && Reaches(w, start, v) && Asking(v, ring, Waiting(r, response, c, n, at))
    requires v.up == [ack, f] && w.Carries(ack, w.ack(1, r.cmd))
    ensures Reaches(w, start, v1) && Asking(v1, ring, Waiting(r, response, c, n, now))
    ensures v1 == v.(host := v.host.(run := v1.host.run), up := [f])
  {
    var p := Waiting(r, response, c, n, at);
    ReachHostGot(w, start, v, now);
    v1 := HostGot(w, v, now);
    OnlyEntry(v.host.run.host.pending, p, Waiting(r, response, c, n, now));
    AckHandled(w, v.host, w.ack(1, r.cmd), now);
  }

  /** The response ends the wait. */
  lemma AnswerTaken(w: Wire, r: Requests, response: Packet, c: Patience, start: World, v: World, ring: nat,
                    n: nat, at: Time, f: Frame)
    returns (v': World)
    requires Answerable(w, r, response) && Reaches(w, start, v) && Asking(v, ring, Waiting(r, response, c, n, at))
    requires v.up == [f] && w.Carries(f, response) && ring > 0
    ensures Reaches(w, start, v') && v'.host.run.host.pending == map[]
    ensures v'.log == v.log.(called := v.log.called + [Delivery(1, response)])
  {
    ReachHostGot(w, start, v, at);
    v' := HostGot(w, v, at);
    ResponseHandled(w, v.host, response, at);
    assert ComposeDedupKey(response.cmd, 1) !in EmptySlots(ring);
    OnlyEntry(v.host.run.host.pending, Waiting(r, response, c, n, at), Waiting(r, response, c, n, at));
  }

  lemma FirstLost(w: Wire, start: World, v: World, a: Frame, rest: seq<Frame>) returns (v': World)
    requires Reaches(w, start, v) && RingsExist(v) && v.up == [a] + rest
    ensures Reaches(w, start, v') && v' == v.(up := rest)
  {
    ReachUpLost(w, start, v, 0);
    v' := v.(up := Without(v.up, 0));
    assert v'.up == rest;
  }

  lemma RequestLost(w: Wire, start: World, v: World, f: Frame) returns (v': World)
    requires Reaches(w, start, v) && RingsExist(v) && v.down == [f]
    ensures Reaches(w, start, v') && v' == v.(down := [])
  {
    ReachDownLost(w, start, v, 0);
    v' := v.(down := Without(v.down, 0));
    assert v'.down == [];
  }

  // ---- Rounds ----

  /** The request is on its way. */
  ghost predicate Sent(w: Wire, r: Requests, response: Packet, c: Patience, v: World, ring: nat,
                       n: nat, at: Time, f: Frame, kept: Option<Frame>) {
    && Asking(v, ring, Waiting(r, response, c, n, at)) && Moving(v, [f], [], [])
    && w.Carries(f, r.Of(1)) && DeviceIs(w, r, response, v, kept)
  }

  /** Nothing is on its way. */
  ghost predicate Silent(w: Wire, r: Requests, response: Packet, c: Patience, v: World, ring: nat,
                         n: nat, at: Time, kept: Option<Frame>) {
    && Asking(v, ring, Waiting(r, response, c, n, at)) && Moving(v, [], [], []) && DeviceIs(w, r, response, v, kept)
  }

  lemma RoundLost(w: Wire, r: Requests, response: Packet, c: Patience, start: World, v: World, ring: nat,
                  n: nat, at: Time, f: Frame, kept: Option<Frame>, loss: Loss)
    returns (v': World, at': Time, kept': Option<Frame>)
    requires Answerable(w, r, response) && Reaches(w, start, v) && Sent(w, r, response, c, v, ring, n, at, f, kept)
    ensures Reaches(w, start, v') && Silent(w, r, response, c, v', ring, n, at', kept')
    ensures at' == if loss.OfResponse? then at + loss.delay else at
  {
    at' := at;
    if loss.OfRequest? {
      v' := RequestLost(w, start, v, f);
      kept' := kept;
    } else {
      var u, ack, answer := Served(w, r, response, start, v, ring, Waiting(r, response, c, n, at), f, kept);
      if loss.OfResponse? {
        at' := at + loss.delay;
        u := Acknowledged(w, r, response, c, start, u, ring, n, at, at', ack, answer);
      } else {
        u := FirstLost(w, start, u, ack, [answer]);
      }
      v' := FirstLost(w, start, u, answer, []);
      kept' := Some(answer);
    }
  }

  /** A round in which the response gets through, with or without the acknowledgement. */
  lemma RoundWon(w: Wire, r: Requests, response: Packet, c: Patience, start: World, v: World, ring: nat,
                 n: nat, at: Time, f: Frame, kept: Option<Frame>, delay: Option<nat>)
    returns (v': World)
    requires Answerable(w, r, response) && Reaches(w, start, v) && ring > 0
    requires Sent(w, r, response, c, v, ring, n, at, f, kept)
    ensures Reaches(w, start, v') && v'.host.run.host.pending == map[]
    ensures v'.log.ran == [Delivery(1, r.Of(1))] && v'.log.called == [Delivery(1, response)]
  {
    var u, ack, answer := Served(w, r, response, start, v, ring, Waiting(r, response, c, n, at), f, kept);
    var now := at;
    if delay.None? {
      u := FirstLost(w, start, u, ack, [answer]);
    } else {
      now := at + delay.value;
      u := Acknowledged(w, r, response, c, start, u, ring, n, at, now, ack, answer);
    }
    v' := AnswerTaken(w, r, response, c, start, u, ring, n, now, answer);
  }

  /** As many rounds as `losses` says are lost, one after the other. */
  lemma {:induction false} RoundsLost(w: Wire, r: Requests, response: Packet, c: Patience, start: World, v: World, ring: nat,
                                      n: nat, at: Time, f: Frame, kept: Option<Frame>, losses: seq<Loss>, last: nat)
    returns (v': World, at': Time, kept': Option<Frame>)
    requires Answerable(w, r, response) && Reaches(w, start, v) && Sent(w, r, response, c, v, ring, n, at, f, kept)
    requires 1 <= |losses| && n + |losses| == last + 1 <= c.maxRetries + 1
    ensures Reaches(w, start, v') && Silent(w, r, response, c, v', ring, last, at', kept')
    decreases |losses|
  {
    v', at', kept' := RoundLost(w, r, response, c, start, v, ring, n, at, f, kept, losses[0]);
    if |losses| > 1 {
      var due := at' + c.timeout;
      var u, g := AskedAgain(w, r, response, c, start, v', ring, n, at', due);
      v', at', kept' := RoundsLost(w, r, response, c, start, u, ring, n + 1, due, g, kept', losses[1..], last);
    }
  }

  lemma FirstSent(w: Wire, r: Requests, response: Packet, c: Patience, start: World, s: Setup)
    returns (v: World, f: Frame)
    requires Answerable(w, r, response) && s.ring > 0 && s.window == 1 && start == FreshWorld(s)
    requires r.cmd in s.deviceHandlers && s.cacheCapacity > 0
    ensures Reaches(w, start, v) && Sent(w, r, response, c, v, s.ring, 0, 0, f, None)
  {
    v, f := Asked(w, r, response, c, start, s);
    assert ComposeDedupKey(r.cmd, 1) !in EmptySlots(s.ring);
  }

  /** Whatever is lost in each of up to `maxRetries` rounds, whenever the acknowledgements arrive that are
      not, and whether or not the last one does (`delay` says when): the handler runs once, on the request as
      it was registered, and the callback is given its answer; nothing is left to wait for. */
  lemma LossRecovered(w: Wire, r: Requests, response: Packet, c: Patience, s: Setup, losses: seq<Loss>, delay: Option<nat>)
    returns (v: World)
    requires Answerable(w, r, response) && s.ring > 0 && s.window == 1
    requires r.cmd in s.deviceHandlers && s.cacheCapacity > 0 && |losses| <= c.maxRetries
    ensures Reaches(w, FreshWorld(s), v) && v.host.run.host.pending == map[]
    ensures v.log.ran == [Delivery(1, r.Of(1))] && v.log.called == [Delivery(1, response)]
  {
    var start := FreshWorld(s);
    var u, f := FirstSent(w, r, response, c, start, s);
    var at, kept := 0, None;
    if losses != [] {
      u, at, kept := RoundsLost(w, r, response, c, start, u, s.ring, 0, at, f, kept, losses, |losses| - 1);
      u, f := AskedAgain(w, r, response, c, start, u, s.ring, |losses| - 1, at, at + c.timeout);
      at := at + c.timeout;
    }
    v := RoundWon(w, r, response, c, start, u, s.ring, |losses|, at, f, kept, delay);
  }

  /** With one more lost round the request is given up, and its callback is never called. */
  lemma OneLossTooMany(w: Wire, r: Requests, response: Packet, c: Patience, s: Setup, losses: seq<Loss>)
    returns (v: World)
    requires Answerable(w, r, response) && s.ring > 0 && s.window == 1
    requires r.cmd in s.deviceHandlers && s.cacheCapacity > 0 && |losses| == c.maxRetries + 1
    ensures Reaches(w, FreshWorld(s), v) && v.host.run.host.pending == map[] && v.log.called == []
  {
    var start := FreshWorld(s);
    var u, f := FirstSent(w, r, response, c, start, s);
    var at, kept := 0, None;
    u, at, kept := RoundsLost(w, r, response, c, start, u, s.ring, 0, at, f, kept, losses, c.maxRetries);
    var p, due := Waiting(r, response, c, c.maxRetries, at), at + c.timeout;
    PollGivesUp(w, u, p, due);
    ReachResent(w, start, u, due, Clock(due), []);
    v := Resent(w, u, due, Clock(due), []);
  }

  lemma PollGivesUp(w: Wire, v: World, p: Pending, at: Time)
    requires v.host.run.host.pending == map[1 := p] && Expired(p, at)
    ensures CanRetry(v, at, Clock(at), [])
    ensures Resent(w, v, at, Clock(at), []).host.run.host.pending == map[]
    ensures Resent(w, v, at, Clock(at), []).log == v.log
  {
    assert RetriedIds(v.host.run.host.pending, at) == {};
    assert Session.Poll(v.host.run.host, at, Clock(at)).pending == map[];
  }
}

/** A cycle of the stack object is a sequence of steps of a run: what holds in every run holds for cycles. */
module Cycles {
  import opened EndToEnd
  import opened Reaching
  import opened Session
  import opened SessionRuns
  import opened Stacks
  import opened TxQueues

  predicate Becomes(w: Wire, f: Frame, p: Arrived) {
    Received(w, f).Some? && Received(w, f).value == p
  }

  /** The frames decode to these packets, one by one. */
  ghost predicate Decoded(w: Wire, frames: seq<Frame>, packets: seq<Arrived>) {
    |frames| == |packets| && forall i :: 0 <= i < |frames| ==> Becomes(w, frames[i], packets[i])
  }

  /** The log after these events at the device. */
  function LogAccepted(log: Log, events: seq<Event>): Log {
    if events == [] then log
    else
      var n := |events| - 1;
      var before := LogAccepted(log, events[..n]);
      match events[n]
      case Accepted(k, p, handled) =>
        before.(accepted := before.accepted + [k], ran := if handled then before.ran + [Delivery(k, p)] else before.ran)
      case Dispatched(p) => before.(heardByDevice := before.heardByDevice + [p])
      case _ => before
  }

  /** The log after these events at the host. */
  function LogAnswered(log: Log, events: seq<Event>): Log {
    if events == [] then log
    else
      var n := |events| - 1;
      var before := LogAnswered(log, events[..n]);
      match events[n]
      case Answered(k, p) => before.(called := before.called + [Delivery(k, p)])
      case Dispatched(p) => before.(heardByHost := before.heardByHost + [p])
      case _ => before
  }

  // ---- Receiving ----

  lemma {:induction false} HostReceivesAll(w: Wire, start: World, v: World, frames: seq<Frame>, packets: seq<Arrived>,
                                           rest: seq<Frame>, clock: nat -> Time) returns (v': World)
    requires Reaches(w, start, v) && RingsExist(v) && Decoded(w, frames, packets) && v.up == frames + rest
    ensures Reaches(w, start, v') && RingsExist(v')
    ensures var r := HandleAll(w, v.host, packets, clock);
            v' == v.(host := r.0, up := rest, log := LogAnswered(v.log, r.1))
    decreases |packets|
  {
    if packets == [] {
      v' := v;
    } else {
      var n := |packets| - 1;
      assert frames + rest == frames[..n] + ([frames[n]] + rest);
      var u := HostReceivesAll(w, start, v, frames[..n], packets[..n], [frames[n]] + rest, clock);
      v' := HostReceivesOne(w, start, u, frames[n], packets[n], rest, clock(n));
      LastAnswered(v.log, HandleAll(w, v.host, packets[..n], clock).1, HandlePacket(w, u.host, packets[n], clock(n)).event);
    }
  }

  lemma HostReceivesOne(w: Wire, start: World, u: World, f: Frame, p: Arrived, rest: seq<Frame>, at: Time)
    returns (v': World)
    requires Reaches(w, start, u) && RingsExist(u) && Becomes(w, f, p) && u.up == [f] + rest
    ensures Reaches(w, start, v') && RingsExist(v')
    ensures var r := HandlePacket(w, u.host, p, at);
            v' == u.(host := r.stack, up := rest, log := LogAnswered(u.log, [r.event]))
  {
    ReachHostGot(w, start, u, at);
    v' := HostGot(w, u, at);
    assert u.up[1..] == rest;
    var event := HandlePacket(w, u.host, p, at).event;
    assert [event][..0] == [];
  }

  lemma LastAnswered(log: Log, events: seq<Event>, last: Event)
    ensures LogAnswered(LogAnswered(log, events), [last]) == LogAnswered(log, events + [last])
  {
    assert (events + [last])[..|events|] == events && [last][..0] == [];
  }

  lemma {:induction false} DeviceReceivesAll(w: Wire, start: World, v: World, frames: seq<Frame>, packets: seq<Arrived>,
                                             rest: seq<Frame>, clock: nat -> Time) returns (v': World)
    requires Reaches(w, start, v) && RingsExist(v) && Decoded(w, frames, packets) && v.down == frames + rest
    ensures Reaches(w, start, v') && RingsExist(v')
    ensures var r := HandleAll(w, v.device, packets, clock);
            v' == v.(device := r.0, down := rest, log := LogAccepted(v.log, r.1))
    decreases |packets|
  {
    if packets == [] {
      v' := v;
    } else {
      var n := |packets| - 1;
      assert frames + rest == frames[..n] + ([frames[n]] + rest);
      var u := DeviceReceivesAll(w, start, v, frames[..n], packets[..n], [frames[n]] + rest, clock);
      v' := DeviceReceivesOne(w, start, u, frames[n], packets[n], rest, clock(n));
      LastAccepted(v.log, HandleAll(w, v.device, packets[..n], clock).1, HandlePacket(w, u.device, packets[n], clock(n)).event);
    }
  }

  lemma DeviceReceivesOne(w: Wire, start: World, u: World, f: Frame, p: Arrived, rest: seq<Frame>, at: Time)
    returns (v': World)
    requires Reaches(w, start, u) && RingsExist(u) && Becomes(w, f, p) && u.down == [f] + rest
    ensures Reaches(w, start, v') && RingsExist(v')
    ensures var r := HandlePacket(w, u.device, p, at);
            v' == u.(device := r.stack, down := rest, log := LogAccepted(u.log, [r.event]))
  {
    ReachDeviceGot(w, start, u, at);
    v' := DeviceGot(w, u, at);
    assert u.down[1..] == rest;
    var event := HandlePacket(w, u.device, p, at).event;
    assert [event][..0] == [];
  }

  lemma LastAccepted(log: Log, events: seq<Event>, last: Event)
    ensures LogAccepted(LogAccepted(log, events), [last]) == LogAccepted(log, events + [last])
  {
    assert (events + [last])[..|events|] == events && [last][..0] == [];
  }

  // ---- Handing out, retrying, sending ----

  lemma {:induction false} PumpsAll(w: Wire, start: World, v: World, clock: nat -> Time, n: nat) returns (v': World)
    requires Reaches(w, start, v) && RingsExist(v)
    ensures Reaches(w, start, v') && RingsExist(v') && v' == v.(host := PumpAll(w, v.host, clock, n))
    decreases if v.host.run.host.inflightCount < v.host.run.host.window
              then v.host.run.host.window - v.host.run.host.inflightCount else 0
  {
    ReachHandedOut(w, start, v, clock(n));
    v' := HandedOut(w, v, clock(n));
    if HandsOut(v.host.run.host) && Enters(w, v.host, v.host.run.host.pending[NextId(v.host.run.host)]) {
      v' := PumpsAll(w, start, v', clock, n + 1);
    }
  }

  lemma {:induction false} DistinctByCount(ids: seq<TxId>, all: set<TxId>)
    requires (forall k :: k in ids <==> k in all) && |ids| <= |all|
    ensures NoDuplicates(ids)
    decreases |ids|
  {
    if ids != [] {
      var k, rest := ids[0], ids[1..];
      assert forall i :: i in ids <==> i == k || i in rest;
      if k in rest {
        FewerThan(rest, all);
        assert false;
      }
      DistinctByCount(rest, all - {k});
    }
  }

  lemma {:induction false} FewerThan(ids: seq<TxId>, all: set<TxId>)
    requires forall k :: k in all ==> k in ids
    ensures |all| <= |ids|
    decreases |ids|
  {
    if ids == [] {
      assert all == {};
    } else {
      FewerThan(ids[1..], all - {ids[0]});
    }
  }

  lemma {:induction false} EnqueueAllKeeps(w: Wire, s: Stack, pending: map<TxId, Pending>, ids: seq<TxId>)
    requires forall k :: k in ids ==> k in pending
    ensures EnqueueAll(w, s, pending, ids).run == s.run && EnqueueAll(w, s, pending, ids).device == s.device
    decreases |ids|
  {
    if ids != [] {
      EnqueueAllKeeps(w, Enqueue(w, s, pending[ids[0]]), pending, ids[1..]);
    }
  }

  lemma Finishes(w: Wire, start: World, v: World, now: Time, clock: TxId -> Time, ids: seq<TxId>, taken: bool)
    returns (v': World)
    requires Reaches(w, start, v) && RingsExist(v) && InSomeOrder(ids, v.host, now) && forall k :: clock(k) >= now
    ensures Reaches(w, start, v')
    ensures var (s, sent) := Finished(w, v.host, now, clock, ids, taken); v' == v.(host := s, down := v.down + sent)
  {
    DistinctByCount(ids, RetriedIds(v.host.run.host.pending, now));
    ReachResent(w, start, v, now, clock, ids);
    v' := Resent(w, v, now, clock, ids);
    if taken {
      EnqueueAllKeeps(w, v.host.(run := Apply(v.host.run, DoPoll(now, clock))), v.host.run.host.pending, ids);
      ReachHostSent(w, start, v');
      v' := HostSent(v');
    } else {
      assert v'.down + [] == v'.down;
    }
  }

  /** A cycle of the host that receives the frames at the head of its link: the world it leads to is
      reached by steps of the run, and logs exactly the events of the cycle. */
  lemma HostCycle(w: Wire, start: World, v: World, frames: seq<Frame>, packets: seq<Arrived>, rest: seq<Frame>,
                  arrival: nat -> Time, handOut: nat -> Time, now: Time, clock: TxId -> Time, ids: seq<TxId>, taken: bool)
    returns (v': World)
    requires Reaches(w, start, v) && RingsExist(v) && Decoded(w, frames, packets) && v.up == frames + rest
    requires InSomeOrder(ids, Pumped(w, v.host, packets, arrival, handOut), now) && forall k :: clock(k) >= now
    ensures Reaches(w, start, v')
    ensures var (s, sent) := Finished(w, Pumped(w, v.host, packets, arrival, handOut), now, clock, ids, taken);
            v' == v.(host := s, down := v.down + sent, up := rest,
                     log := LogAnswered(v.log, HandleAll(w, v.host, packets, arrival).1))
  {
    var u := HostReceivesAll(w, start, v, frames, packets, rest, arrival);
    u := PumpsAll(w, start, u, handOut, 0);
    v' := Finishes(w, start, u, now, clock, ids, taken);
  }

  // ---- The device, which sends no requests of its own ----

  /** Nothing is on the books, and nothing waits to be handed out. */
  predicate Idle(s: Stack) {
    s.run.host.pending == map[] && s.run.host.queue == []
  }

  lemma {:induction false} StaysIdle(w: Wire, s: Stack, packets: seq<Arrived>, clock: nat -> Time)
    requires s.device.seen != [] && s.run.host.seenResponses != [] && Idle(s)
    ensures Idle(HandleAll(w, s, packets, clock).0)
    decreases |packets|
  {
    if packets != [] {
      var n := |packets| - 1;
      StaysIdle(w, s, packets[..n], clock);
      OneStaysIdle(w, HandleAll(w, s, packets[..n], clock).0, packets[n], clock(n));
    }
  }

  lemma OneStaysIdle(w: Wire, s: Stack, p: Arrived, at: Time)
    requires s.device.seen != [] && s.run.host.seenResponses != [] && Idle(s)
    ensures Idle(HandlePacket(w, s, p, at).stack)
  {
  }

  lemma IdlePump(w: Wire, s: Stack, clock: nat -> Time, n: nat)
    requires Idle(s)
    ensures PumpAll(w, s, clock, n) == s
  {
    assert !HandsOut(s.run.host);
    assert Pump(s.run.host, clock(n)) == s.run.host;
  }

  lemma BumpNone(m: map<TxId, nat>, ks: set<TxId>)
    requires ks == {}
    ensures Bump(m, ks) == m
  {
  }

  lemma NothingDue(h: Host, now: Time, clock: TxId -> Time)
    requires h.pending == map[]
    ensures RetriedIds(h.pending, now) == {} && ExpiredIds(h.pending, now) == {}
    ensures Session.Poll(h, now, clock) == h
  {
    assert Session.Poll(h, now, clock).pending == map[];
  }

  lemma IdlePoll(r: Run, now: Time, clock: TxId -> Time)
    requires r.host.pending == map[]
    ensures Apply(r, DoPoll(now, clock)) == r
  {
    NothingDue(r.host, now, clock);
    BumpNone(r.handedOut, RetriedIds(r.host.pending, now));
    BumpNone(r.callbacks, ExpiredIds(r.host.pending, now));
  }

  lemma IdleFinish(w: Wire, s: Stack, now: Time, clock: TxId -> Time, ids: seq<TxId>, taken: bool)
    requires Idle(s) && InSomeOrder(ids, s, now)
    ensures Finished(w, s, now, clock, ids, taken) == if taken then Transmit(s) else (s, [])
  {
    IdlePoll(s.run, now, clock);
    assert RetriedIds(s.run.host.pending, now) == {};
  }

  /** The same for a cycle of the device, which stays without requests of its own. */
  lemma DeviceCycle(w: Wire, start: World, v: World, frames: seq<Frame>, packets: seq<Arrived>, rest: seq<Frame>,
                    arrival: nat -> Time, handOut: nat -> Time, now: Time, clock: TxId -> Time, ids: seq<TxId>, taken: bool)
    returns (v': World)
    requires Reaches(w, start, v) && RingsExist(v) && Decoded(w, frames, packets) && v.down == frames + rest
    requires Idle(v.device) && InSomeOrder(ids, Pumped(w, v.device, packets, arrival, handOut), now)
    ensures Reaches(w, start, v') && Idle(v'.device)
    ensures var (s, sent) := Finished(w, Pumped(w, v.device, packets, arrival, handOut), now, clock, ids, taken);
            v' == v.(device := s, up := v.up + sent, down := rest,
                     log := LogAccepted(v.log, HandleAll(w, v.device, packets, arrival).1))
  {
    v' := DeviceReceivesAll(w, start, v, frames, packets, rest, arrival);
    StaysIdle(w, v.device, packets, arrival);
    IdlePump(w, v'.device, handOut, 0);
    IdleFinish(w, v'.device, now, clock, ids, taken);
    if taken {
      ReachDeviceSent(w, start, v');
      v' := DeviceSent(v');
    } else {
      assert v'.up + [] == v'.up;
    }
  }
}

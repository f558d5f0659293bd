/** Packets that are neither acknowledged nor repeated: each one that arrives reaches its handler once. */
module Broadcasts {
  import opened Dispatching
  import opened EndToEnd
  import opened EndToEndRuns
  import opened Scanning
  import opened Session
  import SessionRuns
  import opened Stacks
  import opened TxQueues

  /** Those of the packets that go straight to a handler. */
  function Select(w: Wire, handlers: set<nat>, packets: seq<Packet>): (r: seq<Packet>)
    decreases |packets|
  {
    if packets == [] then []
    else (if ForHandler(w, handlers, packets[0]) then [packets[0]] else []) + Select(w, handlers, packets[1..])
  }

  lemma {:induction false} SelectConcat(w: Wire, handlers: set<nat>, a: seq<Packet>, b: seq<Packet>)
    ensures Select(w, handlers, a + b) == Select(w, handlers, a) + Select(w, handlers, b)
    decreases |a|
  {
    if a == [] {
      assert a + b == b;
    } else {
      SelectConcat(w, handlers, a[1..], b);
      assert (a + b)[1..] == a[1..] + b;
    }
  }

  /** The packet of a frame, if there is one. */
  function PacketsOf(w: Wire, f: Frame): seq<Packet> {
    match Received(w, f)
    case None => []
    case Some(p) => [p]
  }

  /** What a step takes from the link to the device, and from the link to the host. */
  function ReachesDevice(w: Wire, v: World, s: Step): seq<Packet> {
    if s.DeviceReceive? && v.down != [] then PacketsOf(w, v.down[0]) else []
  }

  function ReachesHost(w: Wire, v: World, s: Step): seq<Packet> {
    if s.HostReceive? && v.up != [] then PacketsOf(w, v.up[0]) else []
  }

  ghost function ArrivedAtDevice(w: Wire, v: World, steps: seq<Step>): seq<Packet>
    requires ValidSteps(w, v, steps)
    decreases |steps|
  {
    if steps == [] then []
    else ReachesDevice(w, v, steps[0]) + ArrivedAtDevice(w, Do(w, v, steps[0]), steps[1..])
  }

  ghost function ArrivedAtHost(w: Wire, v: World, steps: seq<Step>): seq<Packet>
    requires ValidSteps(w, v, steps)
    decreases |steps|
  {
    if steps == [] then []
    else ReachesHost(w, v, steps[0]) + ArrivedAtHost(w, Do(w, v, steps[0]), steps[1..])
  }

  // ---- Each one that arrives is heard once ----

  lemma SelectOne(w: Wire, handlers: set<nat>, ps: seq<Packet>, p: Packet)
    requires ps == [p]
    ensures Select(w, handlers, ps) == if ForHandler(w, handlers, p) then [p] else []
  {
    assert ps[1..] == [];
  }

  lemma HandlersKept(w: Wire, s: Stack, p: Arrived, at: Time)
    requires s.device.seen != [] && s.run.host.seenResponses != []
    ensures HandlePacket(w, s, p, at).stack.handlers == s.handlers
  {
  }

  lemma DeviceHears(w: Wire, v: World, at: Time)
    requires RingsExist(v) && v.down != []
    ensures var v' := DeviceGot(w, v, at);
            && v'.device.handlers == v.device.handlers && v'.host == v.host
            && v'.log.heardByDevice == v.log.heardByDevice + Select(w, v.device.handlers, PacketsOf(w, v.down[0]))
            && v'.log.heardByHost == v.log.heardByHost
  {
    match Received(w, v.down[0])
    case None => assert v.log.heardByDevice + [] == v.log.heardByDevice;
    case Some(p) =>
      DispatchedIff(w, v.device, p, at);
      HandlersKept(w, v.device, p, at);
      SelectOne(w, v.device.handlers, PacketsOf(w, v.down[0]), p);
      assert v.log.heardByDevice + [] == v.log.heardByDevice;
  }

  lemma HostHears(w: Wire, v: World, at: Time)
    requires RingsExist(v) && v.up != []
    ensures var v' := HostGot(w, v, at);
            && v'.host.handlers == v.host.handlers && v'.device == v.device
            && v'.log.heardByHost == v.log.heardByHost + Select(w, v.host.handlers, PacketsOf(w, v.up[0]))
            && v'.log.heardByDevice == v.log.heardByDevice
  {
    match Received(w, v.up[0])
    case None => assert v.log.heardByHost + [] == v.log.heardByHost;
    case Some(p) =>
      DispatchedIff(w, v.host, p, at);
      HandlersKept(w, v.host, p, at);
      SelectOne(w, v.host.handlers, PacketsOf(w, v.up[0]), p);
      assert v.log.heardByHost + [] == v.log.heardByHost;
  }

  lemma {:induction false} RetriesKeepHandlers(w: Wire, s: Stack, pending: map<TxId, Pending>, ids: seq<TxId>)
    requires forall k :: k in ids ==> k in pending
    ensures EnqueueAll(w, s, pending, ids).handlers == s.handlers
    decreases |ids|
  {
    if ids != [] {
      RetriesKeepHandlers(w, Enqueue(w, s, pending[ids[0]]), pending, ids[1..]);
    }
  }

  /** A step that receives nothing: nothing is heard. */
  ghost predicate Unheard(v: World, v': World) {
    && v'.device.handlers == v.device.handlers && v'.host.handlers == v.host.handlers
    && v'.log.heardByDevice == v.log.heardByDevice && v'.log.heardByHost == v.log.heardByHost
  }

  lemma OthersUnheard(w: Wire, v: World, s: Step)
    requires RingsExist(v) && ValidStep(w, v, s) && !s.DeviceReceive? && !s.HostReceive?
    ensures Unheard(v, Do(w, v, s))
  {
    if s.Retry? {
      RetriesKeepHandlers(w, v.host.(run := SessionRuns.Apply(v.host.run, SessionRuns.DoPoll(s.at, s.clock))),
                          v.host.run.host.pending, s.ids);
    }
  }

  /** What arrives in a step is heard in it, once, if it goes straight to a handler; nothing else is heard. */
  lemma StepHears(w: Wire, v: World, s: Step)
    requires RingsExist(v) && ValidStep(w, v, s)
    ensures var (v', d, h) := (Do(w, v, s), v.device.handlers, v.host.handlers);
            && v'.device.handlers == d && v'.host.handlers == h
            && v'.log.heardByDevice == v.log.heardByDevice + Select(w, d, ReachesDevice(w, v, s))
            && v'.log.heardByHost == v.log.heardByHost + Select(w, h, ReachesHost(w, v, s))
  {
    assert v.log.heardByDevice + [] == v.log.heardByDevice && v.log.heardByHost + [] == v.log.heardByHost;
    if s.DeviceReceive? {
      DeviceHears(w, v, s.at);
    } else if s.HostReceive? {
      HostHears(w, v, s.at);
    } else {
      OthersUnheard(w, v, s);
    }
  }

  /** In every run, whatever the window and whatever is lost: the handlers of either end are given exactly the
      packets for them that arrive, each once and in the order of arrival. */
  lemma {:induction false} EachHeardOnce(w: Wire, v: World, steps: seq<Step>)
    requires ValidSteps(w, v, steps)
    ensures var log := RunOf(w, v, steps).log;
            && log.heardByDevice == v.log.heardByDevice + Select(w, v.device.handlers, ArrivedAtDevice(w, v, steps))
            && log.heardByHost == v.log.heardByHost + Select(w, v.host.handlers, ArrivedAtHost(w, v, steps))
    decreases |steps|
  {
    if steps == [] {
      assert v.log.heardByDevice + [] == v.log.heardByDevice && v.log.heardByHost + [] == v.log.heardByHost;
    } else {
      var s, v1, rest := steps[0], Do(w, v, steps[0]), steps[1..];
      StepHears(w, v, s);
      EachHeardOnce(w, v1, rest);
      HeardLater(w, v.device.handlers, v.log.heardByDevice, ReachesDevice(w, v, s), ArrivedAtDevice(w, v1, rest));
      HeardLater(w, v.host.handlers, v.log.heardByHost, ReachesHost(w, v, s), ArrivedAtHost(w, v1, rest));
    }
  }

  lemma HeardLater(w: Wire, handlers: set<nat>, heard: seq<Packet>, now: seq<Packet>, later: seq<Packet>)
    ensures heard + Select(w, handlers, now) + Select(w, handlers, later) == heard + Select(w, handlers, now + later)
  {
    SelectConcat(w, handlers, now, later);
    Associative(heard, Select(w, handlers, now), Select(w, handlers, later));
  }
}

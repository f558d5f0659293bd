/** What a run of two joined stacks can reach, step by step: one lemma for each kind of step, so that
    proofs about particular runs need not look at the others. */
module Reaching {
  import opened Basics
  import opened EndToEnd
  import opened EndToEndRuns
  import opened Framing
  import opened Scanning
  import opened Session
  import opened Stacks
  import opened TxQueues

  /** A proof sees the run only where it mentions `Opened`. */
  ghost predicate Reaches(w: Wire, v: World, v': World) {
    forall i: nat {:trigger Opened(i)} :: Opened(i) ==> RunTo(w, v, v')
  }

  ghost predicate RunTo(w: Wire, v: World, v': World) {
    exists steps :: ValidSteps(w, v, steps) && RunOf(w, v, steps) == v'
  }

  lemma {:induction false} RunConcat(w: Wire, v: World, a: seq<Step>, b: seq<Step>)
    requires ValidSteps(w, v, a) && ValidSteps(w, RunOf(w, v, a), b)
    ensures ValidSteps(w, v, a + b) && RunOf(w, v, a + b) == RunOf(w, RunOf(w, v, a), b)
    decreases |a|
  {
    if a == [] {
      assert a + b == b;
    } else {
      assert (a + b)[0] == a[0] && (a + b)[1..] == a[1..] + b;
      RunConcat(w, Do(w, v, a[0]), a[1..], b);
    }
  }

  lemma OneStep(w: Wire, v: World, s: Step)
    requires RingsExist(v) && ValidStep(w, v, s)
    ensures ValidSteps(w, v, [s]) && RunOf(w, v, [s]) == Do(w, v, s)
  {
    assert [s][1..] == [];
  }

  lemma ReachStep(w: Wire, start: World, v: World, s: Step)
    requires Reaches(w, start, v) && RingsExist(v) && ValidStep(w, v, s)
    ensures Reaches(w, start, Do(w, v, s))
  {
    assert Opened(0);
    var steps :| ValidSteps(w, start, steps) && RunOf(w, start, steps) == v;
    OneStep(w, v, s);
    RunConcat(w, start, steps, [s]);
  }

  lemma ReachStart(w: Wire, start: World)
    ensures Reaches(w, start, start)
  {
    assert ValidSteps(w, start, []) && RunOf(w, start, []) == start;
  }

  // ---- The same, step by step ----

  lemma ReachRegistered(w: Wire, start: World, v: World, p: Packet, responseCmd: nat, timeout: nat, maxRetries: nat, at: Time)
    requires Reaches(w, start, v) && RingsExist(v) && CanRequest(w, v, p)
    ensures Reaches(w, start, Registered(v, p, responseCmd, timeout, maxRetries, at))
  {
    ReachStep(w, start, v, Request(p, responseCmd, timeout, maxRetries, at));
  }

  lemma ReachHandedOut(w: Wire, start: World, v: World, at: Time)
    requires Reaches(w, start, v) && RingsExist(v)
    ensures Reaches(w, start, HandedOut(w, v, at))
  {
    ReachStep(w, start, v, HandOut(at));
  }

  lemma ReachResent(w: Wire, start: World, v: World, at: Time, clock: TxId -> Time, ids: seq<TxId>)
    requires Reaches(w, start, v) && RingsExist(v) && CanRetry(v, at, clock, ids)
    ensures Reaches(w, start, Resent(w, v, at, clock, ids))
  {
    ReachStep(w, start, v, Retry(at, clock, ids));
  }

  lemma ReachHostSent(w: Wire, start: World, v: World)
    requires Reaches(w, start, v) && RingsExist(v)
    ensures Reaches(w, start, HostSent(v))
  {
    ReachStep(w, start, v, HostTransmit);
  }

  lemma ReachDeviceGot(w: Wire, start: World, v: World, at: Time)
    requires Reaches(w, start, v) && RingsExist(v) && v.down != []
    ensures Reaches(w, start, DeviceGot(w, v, at))
  {
    ReachStep(w, start, v, DeviceReceive(at));
  }

  lemma ReachAnswerGiven(w: Wire, start: World, v: World, txId: Word32, requestCmd: Half, p: Packet)
    requires Reaches(w, start, v) && RingsExist(v) && CanAnswer(w, v, txId, p)
    ensures Reaches(w, start, AnswerGiven(w, v, txId, requestCmd, p))
  {
    ReachStep(w, start, v, DeviceAnswer(txId, requestCmd, p));
  }

  lemma ReachDeviceSent(w: Wire, start: World, v: World)
    requires Reaches(w, start, v) && RingsExist(v)
    ensures Reaches(w, start, DeviceSent(v))
  {
    ReachStep(w, start, v, DeviceTransmit);
  }

  lemma ReachDownLost(w: Wire, start: World, v: World, i: nat)
    requires Reaches(w, start, v) && RingsExist(v) && i < |v.down|
    ensures Reaches(w, start, v.(down := Without(v.down, i)))
  {
    ReachStep(w, start, v, LoseDown(i));
  }

  lemma ReachUpLost(w: Wire, start: World, v: World, i: nat)
    requires Reaches(w, start, v) && RingsExist(v) && i < |v.up|
    ensures Reaches(w, start, v.(up := Without(v.up, i)))
  {
    ReachStep(w, start, v, LoseUp(i));
  }

  lemma ReachHostGot(w: Wire, start: World, v: World, at: Time)
    requires Reaches(w, start, v) && RingsExist(v) && v.up != []
    ensures Reaches(w, start, HostGot(w, v, at))
  {
    ReachStep(w, start, v, HostReceive(at));
  }

  /** A clock that stands still. */
  function Clock(t: Time): TxId -> Time {
    _ => t
  }

  /** What is reached from two fresh stacks with a window of one, by cycles or otherwise, has the guarantees. */
  lemma ReachedGuarantees(w: Wire, c: Setup, v: World)
    requires w.Faithful() && c.ring > 0 && c.window <= 1 && Reaches(w, FreshWorld(c), v)
    ensures Guarantees(v.log)
  {
    assert Opened(0);
    var steps :| ValidSteps(w, FreshWorld(c), steps) && RunOf(w, FreshWorld(c), steps) == v;
    AtMostOnce(w, c, FreshWorld(c), steps);
  }
}

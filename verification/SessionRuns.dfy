/** Every run of a session: order of first transmissions, bounded hand-outs, at most one outcome. */
module SessionRuns {
  import opened Bits
  import opened Dedup
  import opened Session

  const TWO32: nat := 0x1_0000_0000

  /** The id counter is a 32-bit word. */
  function NextTxId(id: TxId): (next: TxId)
    ensures next < TWO32
  {
    (id + 1) % TWO32
  }

  /** One call from outside. */
  datatype Call =
    | Send(requestCmd: nat, responseCmd: nat, request: seq<Byte>, timeout: nat, maxRetries: nat, at: Time)
    | OnAck(txId: TxId, at: Time)
    | OnResponse(cmd: nat, txId: TxId)
    | DoPoll(at: Time, clock: TxId -> Time)
    | NextOutbound(at: Time)

  /** A host with the history of a run: the ids registered in order, the ids in the order
      of their first transmission, and for each id how often it was handed out, how many
      retries it was given, and how many callbacks it got. */
  datatype Run = Run(
    host: Host, nextTxId: TxId,
    registered: seq<TxId>, first: seq<TxId>,
    handedOut: map<TxId, nat>, retries: map<TxId, nat>, callbacks: map<TxId, nat>)

  function Count(m: map<TxId, nat>, k: TxId): nat {
    if k in m then m[k] else 0
  }

  /** One more for each of the ids `ks`. */
  function Bump(m: map<TxId, nat>, ks: set<TxId>): (r: map<TxId, nat>)
    ensures forall k :: Count(r, k) == Count(m, k) + if k in ks then 1 else 0
  {
    map k | k in m.Keys + ks :: Count(m, k) + if k in ks then 1 else 0
  }

  ghost predicate ValidCall(r: Run, c: Call) {
    match c
    case Send(_, _, _, _, _, _) => |r.registered| < TWO32 - 1
    case OnResponse(cmd, txId) => cmd < 0x1_0000 && txId < TWO32
    case DoPoll(at, clock) => forall k :: clock(k) >= at
    case _ => true
  }

  function Apply(r: Run, c: Call): Run
    requires c.OnResponse? ==> c.cmd < 0x1_0000 && c.txId < TWO32 && r.host.seenResponses != []
  {
    match c
    case Send(requestCmd, responseCmd, request, timeout, maxRetries, at) =>
      var id := r.nextTxId;
      r.(host := Register(r.host, id, NewPending(requestCmd, responseCmd, request, timeout, maxRetries, at)),
         nextTxId := NextTxId(id),
         registered := r.registered + [id],
         retries := r.retries[id := maxRetries])
    case OnAck(txId, at) =>
      r.(host := Session.Ack(r.host, txId, at))
    case OnResponse(cmd, txId) =>
      var key := ComposeDedupKey(cmd, txId);
      r.(host := Respond(r.host, key, txId),
         callbacks := if Completes(r.host, key, txId) && r.host.pending[txId].responseCmd == cmd
                      then Bump(r.callbacks, {txId}) else r.callbacks)
    case DoPoll(at, clock) =>
      r.(host := Session.Poll(r.host, at, clock),
         handedOut := Bump(r.handedOut, RetriedIds(r.host.pending, at)),
         callbacks := Bump(r.callbacks, ExpiredIds(r.host.pending, at)))
    case NextOutbound(at) =>
      var h := Pump(r.host, at);
      if HandsOut(r.host)
      then r.(host := h, first := r.first + [NextId(r.host)],
              handedOut := Bump(r.handedOut, {NextId(r.host)}))
      else r.(host := h)
  }

  // ---- What every run keeps ----

  ghost predicate Increasing(s: seq<TxId>) {
    forall i, j :: 0 <= i < j < |s| ==> s[i] < s[j]
  }

  /** Ids are issued once each, in order, and never zero. */
  ghost predicate FreshIds(r: Run) {
    && |r.registered| < TWO32
    && r.nextTxId == (|r.registered| + 1) % TWO32
    && (forall i :: 0 <= i < |r.registered| ==> r.registered[i] == i + 1)
  }

  /** The queue is the end of the registration order; what was sent first came before it, in order. */
  ghost predicate InOrder(r: Run) {
    && |r.host.queue| <= |r.registered|
    && r.host.queue == r.registered[|r.registered| - |r.host.queue|..]
    && Increasing(r.first)
    && (forall i :: 0 <= i < |r.first| ==> r.first[i] <= |r.registered| - |r.host.queue|)
  }

  /** What is known of an id that is on the books. */
  ghost predicate PendingCounted(r: Run, k: TxId)
    requires k in r.host.pending
  {
    var p := r.host.pending[k];
    && 1 <= k <= |r.registered|
    && Count(r.retries, k) == p.maxRetries
    && Count(r.callbacks, k) == 0
    && Count(r.handedOut, k) == (if p.inflight then 1 + p.retryCount else 0)
    && (!p.inflight ==> p.retryCount == 0)
  }

  /** No id is handed out more often than its retries allow, or gets a second callback;
      an id not yet issued has none of either. */
  ghost predicate Counted(r: Run) {
    && (forall k :: k in r.host.pending ==> PendingCounted(r, k))
    && (forall k :: Count(r.handedOut, k) <= 1 + Count(r.retries, k))
    && (forall k :: Count(r.callbacks, k) <= 1)
    && (forall k :: k == 0 || k > |r.registered| ==>
          Count(r.handedOut, k) == 0 && Count(r.callbacks, k) == 0 && k !in r.retries)
  }

  ghost predicate Inv(r: Run) {
    Sound(r.host) && FreshIds(r) && InOrder(r) && Counted(r)
  }

  lemma QueueIdsIssued(r: Run)
    requires FreshIds(r) && InOrder(r)
    ensures forall k :: k in r.host.queue ==> |r.registered| - |r.host.queue| < k <= |r.registered|
  {
    var n, q := |r.registered| - |r.host.queue|, r.host.queue;
    assert forall i :: 0 <= i < |q| ==> q[i] == r.registered[n + i];
  }

  /** The next id is on no list. */
  lemma NextIdUnknown(r: Run)
    requires FreshIds(r) && InOrder(r) && Counted(r) && |r.registered| < TWO32 - 1
    ensures r.nextTxId == |r.registered| + 1
    ensures r.nextTxId !in r.host.queue && r.nextTxId !in r.host.pending
  {
    QueueIdsIssued(r);
  }

  lemma SendKeeps(r: Run, c: Call)
    requires Inv(r) && c.Send? && ValidCall(r, c)
    ensures Inv(Apply(r, c))
  {
    var p := NewPending(c.requestCmd, c.responseCmd, c.request, c.timeout, c.maxRetries, c.at);
    NextIdUnknown(r);
    RegisterKeepsSoundIff(r.host, r.nextTxId, p);
    SendKeepsCounted(r, c);
  }

  lemma SendKeepsCounted(r: Run, c: Call)
    requires FreshIds(r) && InOrder(r) && Counted(r) && c.Send? && ValidCall(r, c)
    ensures Counted(Apply(r, c))
  {
    NextIdUnknown(r);
    var r' := Apply(r, c);
    forall k | k in r'.host.pending
      ensures PendingCounted(r', k)
    {
      if k != r.nextTxId {
        assert PendingCounted(r, k);
      }
    }
  }

  /** Ids and order do not depend on the rest of the state. */
  lemma OrderKept(r: Run, r': Run)
    requires FreshIds(r) && InOrder(r)
    requires r'.registered == r.registered && r'.nextTxId == r.nextTxId && r'.first == r.first
    requires r'.host.queue == r.host.queue
    ensures FreshIds(r') && InOrder(r')
  {
  }

  lemma AckKeeps(r: Run, c: Call)
    requires Inv(r) && c.OnAck?
    ensures Inv(Apply(r, c))
  {
    AckKeepsSound(r.host, c.txId, c.at);
    AckKeepsCounted(r, c);
    OrderKept(r, Apply(r, c));
  }

  lemma AckKeepsCounted(r: Run, c: Call)
    requires Counted(r) && c.OnAck?
    ensures Counted(Apply(r, c))
  {
    var r' := Apply(r, c);
    forall k | k in r'.host.pending
      ensures PendingCounted(r', k)
    {
      assert PendingCounted(r, k);
    }
  }

  lemma ResponseKeeps(r: Run, c: Call)
    requires Inv(r) && c.OnResponse? && ValidCall(r, c)
    ensures Inv(Apply(r, c))
  {
    RespondKeepsSound(r.host, ComposeDedupKey(c.cmd, c.txId), c.txId);
    ResponseKeepsCounted(r, c);
    OrderKept(r, Apply(r, c));
  }

  lemma ResponseKeepsCounted(r: Run, c: Call)
    requires Counted(r) && c.OnResponse? && ValidCall(r, c) && r.host.seenResponses != []
    ensures Counted(Apply(r, c))
  {
    var r' := Apply(r, c);
    assert c.txId in r.host.pending ==> PendingCounted(r, c.txId);
    forall k | k in r'.host.pending
      ensures PendingCounted(r', k)
    {
      ResponseKeepsOne(r, c, k);
    }
  }

  lemma ResponseKeepsOne(r: Run, c: Call, k: TxId)
    requires c.OnResponse? && ValidCall(r, c) && r.host.seenResponses != []
    requires k in Apply(r, c).host.pending && k in r.host.pending && PendingCounted(r, k)
    ensures PendingCounted(Apply(r, c), k)
  {
  }

  lemma PollKeeps(r: Run, c: Call)
    requires Inv(r) && c.DoPoll? && ValidCall(r, c)
    ensures Inv(Apply(r, c))
  {
    PollKeepsSound(r.host, c.at, c.clock);
    PollKeepsCounted(r, c);
    OrderKept(r, Apply(r, c));
  }

  lemma PollKeepsCounted(r: Run, c: Call)
    requires Counted(r) && c.DoPoll?
    ensures Counted(Apply(r, c))
  {
    var r' := Apply(r, c);
    forall k | k in r'.host.pending
      ensures PendingCounted(r', k)
    {
      PollKeepsOne(r, c, k);
    }
    forall k: TxId
      ensures Count(r'.handedOut, k) <= 1 + Count(r'.retries, k) && Count(r'.callbacks, k) <= 1
      ensures k == 0 || k > |r.registered| ==> Count(r'.handedOut, k) == 0 && Count(r'.callbacks, k) == 0
    {
      PollKeepsTotals(r, c, k);
    }
  }

  lemma PollKeepsOne(r: Run, c: Call, k: TxId)
    requires c.DoPoll? && k in r.host.pending && PendingCounted(r, k) && k in Apply(r, c).host.pending
    ensures PendingCounted(Apply(r, c), k)
  {
  }

  lemma PollKeepsTotals(r: Run, c: Call, k: TxId)
    requires Counted(r) && c.DoPoll?
    ensures Count(Apply(r, c).handedOut, k) <= 1 + Count(r.retries, k)
    ensures Count(Apply(r, c).callbacks, k) <= 1
    ensures k == 0 || k > |r.registered| ==>
              Count(Apply(r, c).handedOut, k) == 0 && Count(Apply(r, c).callbacks, k) == 0
  {
    assert k in r.host.pending ==> PendingCounted(r, k);
  }

  lemma PumpKeeps(r: Run, c: Call)
    requires Inv(r) && c.NextOutbound?
    ensures Inv(Apply(r, c))
  {
    PumpKeepsSound(r.host, c.at);
    PumpKeepsOrder(r, c);
    PumpKeepsCounted(r, c);
  }

  lemma PumpKeepsCounted(r: Run, c: Call)
    requires Counted(r) && Sound(r.host) && c.NextOutbound?
    ensures Counted(Apply(r, c))
  {
    if HandsOut(r.host) {
      NextIdWaits(r);
      var k, r' := NextId(r.host), Apply(r, c);
      forall j | j in r'.host.pending
        ensures PendingCounted(r', j)
      {
        PumpKeepsOne(r, c, j);
      }
      CountedOnce(r, r', k);
    }
  }

  /** Handing out an id for the first time leaves all totals within their bounds. */
  lemma CountedOnce(r: Run, r': Run, k: TxId)
    requires Counted(r) && k in r.host.pending && Count(r.handedOut, k) == 0
    requires r'.handedOut == Bump(r.handedOut, {k}) && r'.retries == r.retries && r'.callbacks == r.callbacks
    requires r'.registered == r.registered
    requires forall j :: j in r'.host.pending ==> PendingCounted(r', j)
    ensures Counted(r')
  {
    assert PendingCounted(r, k);
  }

  /** The request handed out next has not been handed out before. */
  lemma NextIdWaits(r: Run)
    requires Counted(r) && Sound(r.host) && HandsOut(r.host)
    ensures var k := NextId(r.host);
            !r.host.pending[k].inflight && PendingCounted(r, k) && Count(r.handedOut, k) == 0
  {
  }

  lemma PumpKeepsOne(r: Run, c: Call, k: TxId)
    requires c.NextOutbound? && HandsOut(r.host) && !r.host.pending[NextId(r.host)].inflight
    requires k in r.host.pending && PendingCounted(r, k)
    ensures PendingCounted(Apply(r, c), k)
  {
  }

  lemma PumpKeepsOrder(r: Run, c: Call)
    requires FreshIds(r) && InOrder(r) && c.NextOutbound?
    ensures FreshIds(Apply(r, c)) && InOrder(Apply(r, c))
  {
    if HandsOut(r.host) {
      OrderAdvances(r, Apply(r, c), Skipped(r.host.queue, r.host.pending), |r.registered| - |r.host.queue|);
    } else if r.host.inflightCount < r.host.window {
      assert Apply(r, c).host.queue == [];
    }
  }

  /** A queued id, with all that were queued before it, goes over to the ids already sent. */
  lemma OrderAdvances(r: Run, r': Run, n: nat, before: nat)
    requires FreshIds(r) && InOrder(r) && before == |r.registered| - |r.host.queue|
    requires n < |r.host.queue| && r'.host.queue == r.host.queue[n + 1..]
    requires r'.registered == r.registered && r'.nextTxId == r.nextTxId
    requires r'.first == r.first + [r.host.queue[n]]
    ensures FreshIds(r') && InOrder(r')
  {
    SuffixStep(r.registered, r.host.queue, before, n, before + n);
    IncreasingAppend(r.first, before, r.host.queue[n]);
  }

  lemma SuffixStep(all: seq<TxId>, q: seq<TxId>, before: nat, n: nat, at: nat)
    requires before <= |all| && q == all[before..] && n < |q| && at == before + n
    ensures q[n] == all[at] && q[n + 1..] == all[at + 1..]
  {
  }

  lemma IncreasingAppend(s: seq<TxId>, bound: nat, k: TxId)
    requires Increasing(s) && (forall i :: 0 <= i < |s| ==> s[i] <= bound) && bound < k
    ensures Increasing(s + [k]) && forall i :: 0 <= i < |s + [k]| ==> (s + [k])[i] <= k
  {
  }

  // ---- All runs ----

  function Start(window: nat, ring: nat): (r: Run)
  {
    Run(Host(if window == 0 then 1 else window, map[], [], 0, EmptySlots(ring)), 1, [], [], map[], map[], map[])
  }

  /** The window has room for one request at least, and is the one asked for if that has. */
  lemma StartWindow(window: nat, ring: nat)
    ensures Start(window, ring).host.window == if window == 0 then 1 else window
  {
  }

  ghost predicate ValidCalls(r: Run, calls: seq<Call>)
    requires r.host.seenResponses != []
    decreases calls
  {
    calls == [] || (ValidCall(r, calls[0]) && ValidCalls(Apply(r, calls[0]), calls[1..]))
  }

  ghost function After(r: Run, calls: seq<Call>): (r': Run)
    requires r.host.seenResponses != [] && ValidCalls(r, calls)
    decreases calls
  {
    if calls == [] then r else After(Apply(r, calls[0]), calls[1..])
  }

  lemma StepKeeps(r: Run, c: Call)
    requires Inv(r) && ValidCall(r, c)
    ensures Inv(Apply(r, c))
  {
    match c
    case Send(_, _, _, _, _, _) => SendKeeps(r, c);
    case OnAck(_, _) => AckKeeps(r, c);
    case OnResponse(_, _) => ResponseKeeps(r, c);
    case DoPoll(_, _) => PollKeeps(r, c);
    case NextOutbound(_) => PumpKeeps(r, c);
  }

  lemma {:induction false} RunsKeep(r: Run, calls: seq<Call>)
    requires Inv(r) && ValidCalls(r, calls)
    ensures Inv(After(r, calls))
    decreases calls
  {
    if calls != [] {
      StepKeeps(r, calls[0]);
      RunsKeep(Apply(r, calls[0]), calls[1..]);
    }
  }

  lemma StartKeeps(window: nat, ring: nat)
    requires ring > 0
    ensures Inv(Start(window, ring))
  {
    assert InflightIds(map[]) == {};
  }

  /** Whether a request is sent for the first time, or once more, between two states of the books. */
  ghost predicate Sent(a: Host, b: Host, k: TxId) {
    && k in a.pending && k in b.pending
    && (a.pending[k].inflight != b.pending[k].inflight || a.pending[k].retryCount != b.pending[k].retryCount)
  }

  ghost predicate Left(a: Host, b: Host, k: TxId) {
    k in a.pending && k !in b.pending
  }

  /** The history tells what happens on the books: a request is counted as handed out when it is sent for the
      first time or once more, and a callback when it leaves the books, other than by a response of the wrong
      command. */
  lemma HistoryIsTrue(r: Run, c: Call, k: TxId)
    requires Sound(r.host) && ValidCall(r, c) && r.nextTxId !in r.host.pending
    ensures var r' := Apply(r, c);
            && Count(r'.handedOut, k) == Count(r.handedOut, k) + (if Sent(r.host, r'.host, k) then 1 else 0)
            && Count(r'.callbacks, k)
               == Count(r.callbacks, k)
                  + (if Left(r.host, r'.host, k) && (c.OnResponse? ==> c.cmd == r.host.pending[k].responseCmd)
                     then 1 else 0)
            && (c.NextOutbound? && Sent(r.host, r'.host, k) ==> r'.first == r.first + [k])
  {
    match c
    case Send(_, _, _, _, _, _) =>
    case OnAck(txId, at) =>
    case OnResponse(cmd, txId) =>
    case DoPoll(at, clock) => PollTold(r, c, k);
    case NextOutbound(at) => PumpTold(r, c, k);
  }

  lemma PollTold(r: Run, c: Call, k: TxId)
    requires Sound(r.host) && ValidCall(r, c) && c.DoPoll?
    ensures var r' := Apply(r, c);
            && Count(r'.handedOut, k) == Count(r.handedOut, k) + (if Sent(r.host, r'.host, k) then 1 else 0)
            && Count(r'.callbacks, k)
               == Count(r.callbacks, k) + (if Left(r.host, r'.host, k) then 1 else 0)
  {
    assert k in RetriedIds(r.host.pending, c.at) <==> k in r.host.pending && Retried(r.host.pending[k], c.at);
    assert k in ExpiredIds(r.host.pending, c.at) <==> k in r.host.pending && Expired(r.host.pending[k], c.at);
  }

  lemma PumpTold(r: Run, c: Call, k: TxId)
    requires Sound(r.host) && ValidCall(r, c) && c.NextOutbound?
    ensures var r' := Apply(r, c);
            && Count(r'.handedOut, k) == Count(r.handedOut, k) + (if Sent(r.host, r'.host, k) then 1 else 0)
            && r'.host.pending.Keys == r.host.pending.Keys && r'.callbacks == r.callbacks
            && (Sent(r.host, r'.host, k) ==> r'.first == r.first + [k])
  {
    if HandsOut(r.host) {
      assert !r.host.pending[NextId(r.host)].inflight;
    }
  }

  /** In every run of fewer than 2^32 - 1 requests: the in-flight count is right and within the
      window, first transmissions come out in registration order, no request is handed out
      more than once plus its retries, and none gets two callbacks. */
  lemma EveryRun(window: nat, ring: nat, start: Run, calls: seq<Call>)
    requires ring > 0 && start == Start(window, ring) && ValidCalls(start, calls)
    ensures var r := After(start, calls);
            && Sound(r.host)
            && Increasing(r.first)
            && (forall k :: Count(r.handedOut, k) <= 1 + Count(r.retries, k))
            && (forall k :: Count(r.callbacks, k) <= 1)
  {
    StartKeeps(window, ring);
    RunsKeep(start, calls);
  }
}

/** What the calls of a reliable session do to its requesting side, and the invariant they keep. */
module Session {
  import opened Bits
  import opened Dedup
  import opened Slots

  type TxId = nat
  type Time = int

  /** A request that has been neither answered nor given up. */
  datatype Pending = Pending(
    requestCmd: nat, responseCmd: nat, request: seq<Byte>,
    timeout: nat, maxRetries: nat, retryCount: nat, inflight: bool, deadline: Time)

  /** What is handed to the transport. */
  datatype Outbound = Outbound(txId: TxId, cmd: nat, request: seq<Byte>)

  /** The requesting side of a session. */
  datatype Host = Host(
    window: nat,
    pending: map<TxId, Pending>,
    queue: seq<TxId>,
    inflightCount: nat,
    seenResponses: seq<Key>)

  // ---- The calls ----

  function NewPending(requestCmd: nat, responseCmd: nat, request: seq<Byte>, timeout: nat, maxRetries: nat, now: Time):
    Pending
  {
    Pending(requestCmd, responseCmd, Truncated(request), timeout, maxRetries, 0, false, now + timeout)
  }

  function Register(h: Host, txId: TxId, p: Pending): Host {
    h.(pending := h.pending[txId := p], queue := h.queue + [txId])
  }

  /** A request on the books waits with what fits into its slot, and has been sent no time yet. */
  lemma RegisteredEntry(h: Host, txId: TxId, requestCmd: nat, responseCmd: nat, request: seq<Byte>, timeout: nat,
                        maxRetries: nat, now: Time)
    ensures var h' := Register(h, txId, NewPending(requestCmd, responseCmd, request, timeout, maxRetries, now));
            && h'.queue == h.queue + [txId] && txId in h'.pending && !h'.pending[txId].inflight
            && h'.pending[txId].request == request[..if |request| <= 256 then |request| else 256]
            && h'.pending[txId].maxRetries - h'.pending[txId].retryCount == maxRetries
  {
  }

  function Ack(h: Host, txId: TxId, now: Time): Host {
    if txId !in h.pending || !h.pending[txId].inflight then h
    else h.(pending := h.pending[txId := h.pending[txId].(deadline := now + h.pending[txId].timeout)])
  }

  /** A response that is neither a repetition nor late takes its request off the books. */
  predicate Completes(h: Host, key: Key, txId: TxId) {
    key !in h.seenResponses && txId in h.pending
  }

  function Respond(h: Host, key: Key, txId: TxId): Host
    requires h.seenResponses != []
  {
    var h' := h.(seenResponses := Insert(h.seenResponses, key));
    if Completes(h, key, txId) then Remove(h', txId) else h'
  }

  /** Takes a request off the books, and off the count of those in flight. */
  function Remove(h: Host, txId: TxId): Host
    requires txId in h.pending
  {
    h.(pending := h.pending - {txId},
       inflightCount := if h.pending[txId].inflight && h.inflightCount > 0 then h.inflightCount - 1
                        else h.inflightCount)
  }

  predicate Due(p: Pending, now: Time) {
    p.inflight && now >= p.deadline
  }

  predicate Expired(p: Pending, now: Time) {
    Due(p, now) && p.retryCount >= p.maxRetries
  }

  predicate Retried(p: Pending, now: Time) {
    Due(p, now) && p.retryCount < p.maxRetries
  }

  function ExpiredIds(pending: map<TxId, Pending>, now: Time): (s: set<TxId>) {
    set k | k in pending && Expired(pending[k], now)
  }

  function RetriedIds(pending: map<TxId, Pending>, now: Time): (s: set<TxId>) {
    set k | k in pending && Retried(pending[k], now)
  }

  function InflightIds(pending: map<TxId, Pending>): (s: set<TxId>) {
    set k | k in pending && pending[k].inflight
  }

  /** An entry after a poll that did not drop it; `later` is the clock read again for it. */
  function Polled(p: Pending, now: Time, later: Time): Pending {
    if Retried(p, now) then p.(retryCount := p.retryCount + 1, deadline := later + p.timeout) else p
  }

  /** The host after a poll at `now`: expired requests are gone, due ones counted once more. */
  function Poll(h: Host, now: Time, clock: TxId -> Time): Host {
    h.(pending := map k | k in h.pending && !Expired(h.pending[k], now) :: Polled(h.pending[k], now, clock(k)),
       inflightCount := if |ExpiredIds(h.pending, now)| <= h.inflightCount
                        then h.inflightCount - |ExpiredIds(h.pending, now)| else 0)
  }

  /** How many entries of the queue the pump looks at: up to and with the first one still pending. */
  function Skipped(queue: seq<TxId>, pending: map<TxId, Pending>): (n: nat)
    ensures n <= |queue|
    ensures forall i :: 0 <= i < n ==> queue[i] !in pending
    ensures n < |queue| ==> queue[n] in pending
  {
    if queue == [] || queue[0] in pending then 0 else 1 + Skipped(queue[1..], pending)
  }

  /** The request the pump hands out next, if any. */
  predicate HandsOut(h: Host) {
    h.inflightCount < h.window && Skipped(h.queue, h.pending) < |h.queue|
  }

  function NextId(h: Host): (k: TxId)
    requires HandsOut(h)
    ensures k in h.pending && k in h.queue
  {
    h.queue[Skipped(h.queue, h.pending)]
  }

  function Pump(h: Host, now: Time): Host {
    if h.inflightCount >= h.window then h
    else if !HandsOut(h) then h.(queue := [])
    else
      var k := NextId(h);
      h.(queue := h.queue[Skipped(h.queue, h.pending) + 1..],
         pending := h.pending[k := h.pending[k].(inflight := true, deadline := now + h.pending[k].timeout)],
         inflightCount := h.inflightCount + 1)
  }

  // ---- The invariant ----

  predicate NoDuplicates(q: seq<TxId>) {
    forall i, j :: 0 <= i < j < |q| ==> q[i] != q[j]
  }

  /** The count is the number of requests in flight and within the window; each request
      waiting for its first transmission is queued exactly once, and no other one is. */
  ghost predicate Sound(h: Host) {
    && h.seenResponses != []
    && h.inflightCount == |InflightIds(h.pending)| <= h.window
    && NoDuplicates(h.queue)
    && (forall k :: k in h.pending ==> (k in h.queue <==> !h.pending[k].inflight))
    && (forall k :: k in h.pending ==> h.pending[k].retryCount <= h.pending[k].maxRetries)
  }

  lemma RegisterKeepsSoundIff(h: Host, txId: TxId, p: Pending)
    requires Sound(h) && !p.inflight && p.retryCount == 0
    ensures Sound(Register(h, txId, p)) <==> txId !in h.pending && txId !in h.queue
  {
    var h' := Register(h, txId, p);
    if txId !in h.pending {
      assert InflightIds(h'.pending) == InflightIds(h.pending);
    } else if h.pending[txId].inflight {
      assert InflightIds(h'.pending) == InflightIds(h.pending) - {txId};
    }
    if txId in h.queue {
      var i :| 0 <= i < |h.queue| && h.queue[i] == txId;
      assert h'.queue[i] == h'.queue[|h.queue|];
    }
  }

  lemma AckKeepsSound(h: Host, txId: TxId, now: Time)
    requires Sound(h)
    ensures Sound(Ack(h, txId, now))
  {
    assert InflightIds(Ack(h, txId, now).pending) == InflightIds(h.pending);
  }

  lemma RemoveKeepsSound(h: Host, txId: TxId)
    requires Sound(h) && txId in h.pending
    ensures Sound(Remove(h, txId))
  {
    var h' := Remove(h, txId);
    if h.pending[txId].inflight {
      assert InflightIds(h'.pending) == InflightIds(h.pending) - {txId};
    } else {
      assert InflightIds(h'.pending) == InflightIds(h.pending);
    }
  }

  lemma RespondKeepsSound(h: Host, key: Key, txId: TxId)
    requires Sound(h)
    ensures Sound(Respond(h, key, txId))
  {
    var h' := h.(seenResponses := Insert(h.seenResponses, key));
    assert Sound(h');
    if Completes(h, key, txId) {
      RemoveKeepsSound(h', txId);
    }
  }

  lemma SubsetSize<T>(a: set<T>, b: set<T>)
    requires a <= b
    ensures |a| <= |b| && |b - a| == |b| - |a|
  {
    assert b == a + (b - a);
  }

  lemma PollKeepsSound(h: Host, now: Time, clock: TxId -> Time)
    requires Sound(h)
    ensures Sound(Poll(h, now, clock))
  {
    InflightAfterPoll(h, now, clock);
    SubsetSize(ExpiredIds(h.pending, now), InflightIds(h.pending));
  }

  lemma InflightAfterPoll(h: Host, now: Time, clock: TxId -> Time)
    ensures ExpiredIds(h.pending, now) <= InflightIds(h.pending)
    ensures InflightIds(Poll(h, now, clock).pending) == InflightIds(h.pending) - ExpiredIds(h.pending, now)
  {
  }

  /** What the pump leaves in the queue are the entries behind the one handed out. */
  lemma PumpQueue(h: Host, now: Time)
    requires NoDuplicates(h.queue) && HandsOut(h)
    ensures NoDuplicates(Pump(h, now).queue)
    ensures forall k :: k in h.pending ==> (k in Pump(h, now).queue <==> k in h.queue && k != NextId(h))
  {
    var n, q := Skipped(h.queue, h.pending), Pump(h, now).queue;
    assert forall i :: 0 <= i < |q| ==> q[i] == h.queue[n + 1 + i];
    forall k | k in h.pending && k in h.queue && k != NextId(h)
      ensures k in q
    {
      var i :| 0 <= i < |h.queue| && h.queue[i] == k;
      assert i > n && q[i - n - 1] == k;
    }
  }

  lemma PumpKeepsSound(h: Host, now: Time)
    requires Sound(h)
    ensures Sound(Pump(h, now))
  {
    if HandsOut(h) {
      PumpQueue(h, now);
      assert InflightIds(Pump(h, now).pending) == InflightIds(h.pending) + {NextId(h)};
    } else if h.inflightCount < h.window {
      assert forall i :: 0 <= i < |h.queue| ==> h.queue[i] !in h.pending;
    }
  }
}

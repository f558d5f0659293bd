/** Deadlines: polling before the next one does nothing, polling after it uses up retries. */
module SessionProgress {
  import opened Dedup
  import opened Session

  datatype Deadline = Never | At(time: Time)

  /** The earliest deadline of a request in flight. */
  ghost predicate IsNextDeadline(pending: map<TxId, Pending>, d: Deadline) {
    match d
    case Never => InflightIds(pending) == {}
    case At(time) =>
      && (exists k :: k in InflightIds(pending) && pending[k].deadline == time)
      && (forall k :: k in InflightIds(pending) ==> time <= pending[k].deadline)
  }

  /** Before the next deadline a poll changes nothing and hands out nothing. */
  lemma PollTooEarly(h: Host, d: Deadline, now: Time, clock: TxId -> Time)
    requires IsNextDeadline(h.pending, d) && (d.At? ==> now < d.time)
    ensures Poll(h, now, clock) == h
    ensures RetriedIds(h.pending, now) == {} && ExpiredIds(h.pending, now) == {}
  {
    assert forall k :: k in h.pending && h.pending[k].inflight ==> k in InflightIds(h.pending);
    assert Poll(h, now, clock).pending == h.pending;
  }

  /** The polls a request can still survive, and the one that ends it. */
  function Weight(p: Pending): nat {
    if p.retryCount <= p.maxRetries then p.maxRetries - p.retryCount + 1 else 0
  }

  ghost function Budget(pending: map<TxId, Pending>): nat
    decreases |pending|
  {
    if pending == map[] then 0
    else
      var k :| k in pending;
      Weight(pending[k]) + Budget(pending - {k})
  }

  /** The budget does not depend on the order in which it is summed. */
  lemma {:induction false} BudgetSplit(pending: map<TxId, Pending>, k: TxId)
    requires k in pending
    ensures Budget(pending) == Weight(pending[k]) + Budget(pending - {k})
    decreases |pending|
  {
    var j :| j in pending && Budget(pending) == Weight(pending[j]) + Budget(pending - {j});
    if j != k {
      BudgetSplit(pending - {j}, k);
      BudgetSplit(pending - {k}, j);
      assert pending - {j} - {k} == pending - {k} - {j};
    }
  }

  /** If every entry of `a` has a counterpart of at least its weight in `b`, then so does the
      budget, and it is larger if some weight is. */
  lemma {:induction false} BudgetMonotone(a: map<TxId, Pending>, b: map<TxId, Pending>)
    requires forall k :: k in a ==> k in b && Weight(a[k]) <= Weight(b[k])
    ensures Budget(a) <= Budget(b)
    ensures (exists k :: k in b && Weight(b[k]) > (if k in a then Weight(a[k]) else 0)) ==> Budget(a) < Budget(b)
    decreases |b|
  {
    if b != map[] {
      var strict := exists k :: k in b && Weight(b[k]) > (if k in a then Weight(a[k]) else 0);
      var k :| k in b && (strict ==> Weight(b[k]) > (if k in a then Weight(a[k]) else 0));
      BudgetSplit(b, k);
      BudgetMonotone(a - {k}, b - {k});
      if k in a {
        BudgetSplit(a, k);
      } else {
        assert a - {k} == a;
      }
    } else {
      assert a == map[];
    }
  }

  /** At or after the next deadline, a poll strictly lowers the budget. */
  lemma PollProgresses(h: Host, d: Deadline, now: Time, clock: TxId -> Time)
    requires Sound(h) && IsNextDeadline(h.pending, d) && d.At? && now >= d.time
    ensures Budget(Poll(h, now, clock).pending) < Budget(h.pending)
  {
    var after := Poll(h, now, clock).pending;
    BudgetMonotone(after, h.pending);
    var k :| k in InflightIds(h.pending) && h.pending[k].deadline == d.time;
    assert Weight(h.pending[k]) > (if k in after then Weight(after[k]) else 0);
  }

  /** Whether a poll at `now` sends a request again or gives it up. */
  predicate PollTouches(h: Host, txId: TxId, now: Time) {
    txId in RetriedIds(h.pending, now) || txId in ExpiredIds(h.pending, now)
  }

  /** The acknowledgement of a request in flight keeps polls off it for one timeout from now, and no
      longer. Nothing else changes; and an acknowledgement of any other id changes nothing at all. */
  lemma AckPutsOff(h: Host, txId: TxId, now: Time, later: Time)
    ensures var h' := Ack(h, txId, now);
            && (txId in h.pending && h.pending[txId].inflight ==>
                  txId in h'.pending && (PollTouches(h', txId, later) <==> later >= now + h.pending[txId].timeout))
            && (txId !in h.pending || !h.pending[txId].inflight ==> h' == h)
            && h' == h.(pending := h'.pending) && h'.pending.Keys == h.pending.Keys
            && (forall k :: k in h.pending ==>
                  h'.pending[k] == if k == txId then h.pending[k].(deadline := h'.pending[k].deadline) else h.pending[k])
  {
    var h' := Ack(h, txId, now);
    if txId in h.pending && h.pending[txId].inflight {
      var p := h'.pending[txId];
      assert txId in RetriedIds(h'.pending, later) <==> Retried(p, later);
      assert txId in ExpiredIds(h'.pending, later) <==> Expired(p, later);
    }
  }

  /** Handing out a request starts its timer: no poll touches it before one timeout from now, and any does
      from then on. */
  lemma HandOutStartsTimer(h: Host, now: Time, later: Time)
    requires HandsOut(h)
    ensures var (h', k) := (Pump(h, now), NextId(h));
            && k in h'.pending && h'.pending[k].inflight
            && (PollTouches(h', k, later) <==> later >= now + h.pending[k].timeout)
  {
    var h', k := Pump(h, now), NextId(h);
    assert k in RetriedIds(h'.pending, later) <==> Retried(h'.pending[k], later);
    assert k in ExpiredIds(h'.pending, later) <==> Expired(h'.pending[k], later);
  }

  /** A poll starts the timers of the requests it sends again, from the clock it read for them; it takes those
      off the books that it gives up, and leaves all others as they are. */
  lemma PollRestartsTimers(h: Host, now: Time, clock: TxId -> Time, k: TxId, later: Time)
    requires k in h.pending
    ensures var (h', p) := (Poll(h, now, clock), h.pending[k]);
            && (k in h'.pending <==> k !in ExpiredIds(h.pending, now))
            && (k in RetriedIds(h.pending, now) ==>
                  && h'.pending[k].retryCount == p.retryCount + 1
                  && (PollTouches(h', k, later) <==> later >= clock(k) + p.timeout))
            && (!PollTouches(h, k, now) ==> h'.pending[k] == p)
  {
    var h' := Poll(h, now, clock);
    assert k in RetriedIds(h.pending, now) <==> Retried(h.pending[k], now);
    assert k in ExpiredIds(h.pending, now) <==> Expired(h.pending[k], now);
    if k in h'.pending {
      assert k in RetriedIds(h'.pending, later) <==> Retried(h'.pending[k], later);
      assert k in ExpiredIds(h'.pending, later) <==> Expired(h'.pending[k], later);
    }
  }

  /** An acknowledgement leaves the budget alone. */
  lemma AckKeepsBudget(h: Host, txId: TxId, now: Time)
    ensures Budget(Ack(h, txId, now).pending) == Budget(h.pending)
  {
    BudgetMonotone(Ack(h, txId, now).pending, h.pending);
    BudgetMonotone(h.pending, Ack(h, txId, now).pending);
  }

  /** A response that completes a request lowers the budget; any other leaves it alone. */
  lemma ResponseNeverRaisesBudget(h: Host, key: Key, txId: TxId)
    requires h.seenResponses != []
    ensures Completes(h, key, txId) ==>
              Budget(Respond(h, key, txId).pending) == Budget(h.pending) - Weight(h.pending[txId])
    ensures !Completes(h, key, txId) ==> Budget(Respond(h, key, txId).pending) == Budget(h.pending)
  {
    if Completes(h, key, txId) {
      BudgetSplit(h.pending, txId);
    }
  }

  /** Handing a request out leaves the budget alone. */
  lemma PumpKeepsBudget(h: Host, now: Time)
    ensures Budget(Pump(h, now).pending) == Budget(h.pending)
  {
    var after := Pump(h, now).pending;
    SameWeights(h, now);
    BudgetMonotone(after, h.pending);
    BudgetMonotone(h.pending, after);
  }

  lemma SameWeights(h: Host, now: Time)
    ensures Pump(h, now).pending.Keys == h.pending.Keys
    ensures forall k :: k in h.pending ==> Weight(Pump(h, now).pending[k]) == Weight(h.pending[k])
  {
  }
}

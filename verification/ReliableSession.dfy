/** The session object itself, whose methods do in place what `Session` and `DeviceCache` describe;
    a poll looks at its requests in any order. */
module ReliableSessions {
  import opened Basics
  import opened Bits
  import opened Dedup
  import opened DeviceCache
  import opened Session
  import SessionProgress
  import SessionRuns

  /** The entry handed to the transport for a request on the books. */
  function Entry(pending: map<TxId, Pending>, k: TxId): Outbound
    requires k in pending
  {
    Outbound(k, pending[k].requestCmd, pending[k].request)
  }

  /** `entries` holds the entry of each request in `ids` once, in some order. */
  ghost predicate Lists(entries: seq<Outbound>, ids: set<TxId>, pending: map<TxId, Pending>)
    requires ids <= pending.Keys
  {
    && |entries| == |ids|
    && (forall k :: k in ids ==> Entry(pending, k) in entries)
    && (forall e :: e in entries ==> e.txId in ids && e == Entry(pending, e.txId))
  }

  function Minus(a: nat, b: nat): (c: nat) {
    if b <= a then a - b else 0
  }

  /** The books when all requests but those in `todo` have been polled. */
  function PartlyPolled(before: map<TxId, Pending>, todo: set<TxId>, now: Time, clock: TxId -> Time): map<TxId, Pending> {
    map k | k in before && (k in todo || !Expired(before[k], now)) ::
      if k in todo then before[k] else Polled(before[k], now, clock(k))
  }

  /** What a poll has done when all requests but those in `todo` have been looked at. */
  datatype Polling = Polling(
    pending: map<TxId, Pending>, inflightCount: nat, retries: seq<Outbound>, timeouts: seq<Outbound>)

  /** A proof sees the fact only where it mentions `Opened`. */
  ghost predicate PolledTo(h: Host, todo: set<TxId>, now: Time, clock: TxId -> Time, p: Polling) {
    forall i: nat {:trigger Opened(i)} :: Opened(i) ==>
      && todo <= h.pending.Keys
      && p.pending == PartlyPolled(h.pending, todo, now, clock)
      && Tallied(h, ExpiredIds(h.pending, now) - todo, RetriedIds(h.pending, now) - todo, p)
  }

  /** Count and lists are those of a poll that found these requests expired and due for a retry. */
  ghost predicate Tallied(h: Host, expired: set<TxId>, retried: set<TxId>, p: Polling)
    requires expired <= h.pending.Keys && retried <= h.pending.Keys
  {
    && p.inflightCount == Minus(h.inflightCount, |expired|)
    && Lists(p.retries, retried, h.pending)
    && Lists(p.timeouts, expired, h.pending)
  }

  lemma PollStarts(h: Host, now: Time, clock: TxId -> Time)
    ensures PolledTo(h, h.pending.Keys, now, clock, Polling(h.pending, h.inflightCount, [], []))
  {
    assert PartlyPolled(h.pending, h.pending.Keys, now, clock) == h.pending;
    assert ExpiredIds(h.pending, now) - h.pending.Keys == {} == RetriedIds(h.pending, now) - h.pending.Keys;
  }

  lemma PollEnds(h: Host, now: Time, clock: TxId -> Time, p: Polling)
    requires PolledTo(h, {}, now, clock, p)
    ensures Session.Poll(h, now, clock) == h.(pending := p.pending, inflightCount := p.inflightCount)
    ensures Lists(p.retries, RetriedIds(h.pending, now), h.pending)
    ensures Lists(p.timeouts, ExpiredIds(h.pending, now), h.pending)
  {
    assert Opened(0);
    assert ExpiredIds(h.pending, now) - {} == ExpiredIds(h.pending, now);
    assert RetriedIds(h.pending, now) - {} == RetriedIds(h.pending, now);
    AllPolled(h.pending, now, clock);
  }

  lemma AllPolled(before: map<TxId, Pending>, now: Time, clock: TxId -> Time)
    ensures PartlyPolled(before, {}, now, clock)
            == map k | k in before && !Expired(before[k], now) :: Polled(before[k], now, clock(k))
  {
  }

  /** One request of `todo` after it has been looked at. */
  function PollOne(k: TxId, now: Time, at: Time, p: Polling): Polling
    requires k in p.pending
  {
    var entry := p.pending[k];
    if Expired(entry, now) then
      Polling(p.pending - {k}, Minus(p.inflightCount, 1), p.retries, p.timeouts + [Entry(p.pending, k)])
    else if Retried(entry, now) then
      Polling(p.pending[k := Polled(entry, now, at)], p.inflightCount, p.retries + [Entry(p.pending, k)], p.timeouts)
    else p
  }

  lemma PollAdvances(h: Host, todo: set<TxId>, k: TxId, now: Time, clock: TxId -> Time, p: Polling)
    requires k in todo && PolledTo(h, todo, now, clock, p)
    ensures k in p.pending && PolledTo(h, todo - {k}, now, clock, PollOne(k, now, clock(k), p))
  {
    assert Opened(0);
    BooksAdvance(h.pending, todo, k, now, clock);
    TallyAdvances(h, todo, k, now, clock(k), p);
    var p' := PollOne(k, now, clock(k), p);
    assert p'.pending == PartlyPolled(h.pending, todo - {k}, now, clock);
    assert todo - {k} <= h.pending.Keys;
  }

  lemma BooksAdvance(before: map<TxId, Pending>, todo: set<TxId>, k: TxId, now: Time, clock: TxId -> Time)
    requires k in todo && todo <= before.Keys
    ensures var (books, p) := (PartlyPolled(before, todo, now, clock), before[k]);
            && k in books && books[k] == p
            && PartlyPolled(before, todo - {k}, now, clock) ==
               if Expired(p, now) then books - {k} else books[k := Polled(p, now, clock(k))]
  {
  }

  lemma TallyAdvances(h: Host, todo: set<TxId>, k: TxId, now: Time, at: Time, p: Polling)
    requires k in todo && todo <= h.pending.Keys && k in p.pending && p.pending[k] == h.pending[k]
    requires Tallied(h, ExpiredIds(h.pending, now) - todo, RetriedIds(h.pending, now) - todo, p)
    ensures Tallied(h, ExpiredIds(h.pending, now) - (todo - {k}), RetriedIds(h.pending, now) - (todo - {k}),
                    PollOne(k, now, at, p))
  {
    var expired, retried := ExpiredIds(h.pending, now) - todo, RetriedIds(h.pending, now) - todo;
    DoneAdvances(ExpiredIds(h.pending, now), todo, k);
    DoneAdvances(RetriedIds(h.pending, now), todo, k);
    if Expired(h.pending[k], now) {
      ListOne(p.timeouts, expired, k, h.pending);
    } else if Retried(h.pending[k], now) {
      ListOne(p.retries, retried, k, h.pending);
    }
  }

  lemma DoneAdvances(all: set<TxId>, todo: set<TxId>, k: TxId)
    requires k in todo
    ensures all - (todo - {k}) == if k in all then all - todo + {k} else all - todo
  {
  }

  lemma ListOne(entries: seq<Outbound>, ids: set<TxId>, k: TxId, pending: map<TxId, Pending>)
    requires ids <= pending.Keys && Lists(entries, ids, pending) && k in pending && k !in ids
    ensures Lists(entries + [Entry(pending, k)], ids + {k}, pending)
  {
  }

  /** Dropping from the queue an id that is off the books does not change what the pump does. */
  lemma SkipOne(h: Host, now: Time)
    requires h.inflightCount < h.window && h.queue != [] && h.queue[0] !in h.pending
    ensures var h' := h.(queue := h.queue[1..]);
            && Pump(h', now) == Pump(h, now)
            && HandsOut(h') == HandsOut(h)
            && (HandsOut(h) ==> NextId(h') == NextId(h))
  {
    assert Skipped(h.queue, h.pending) == 1 + Skipped(h.queue[1..], h.pending);
  }

  class ReliableSession {
    const windowSize: nat
    const deviceCacheCapacity: nat
    const seenRequests: IdRingBuffer
    const seenResponses: IdRingBuffer
    var nextTxId: TxId
    var inflightCount: nat
    var pending: map<TxId, Pending>
    var outboundQueue: seq<TxId>
    var completedCache: map<Key, Completed>
    var completedOrder: seq<Key>

    ghost predicate Valid()
      reads this, seenRequests, seenResponses
    {
      && windowSize > 0
      && seenRequests != seenResponses && seenRequests.ids != seenResponses.ids
      && seenRequests.Valid() && seenResponses.Valid()
    }

    ghost function HostState(): Host
      requires Valid()
      reads this, seenRequests, seenResponses, seenResponses.ids
    {
      Host(windowSize, pending, outboundQueue, inflightCount, seenResponses.Window())
    }

    ghost function DeviceState(): Device
      requires Valid()
      reads this, seenRequests, seenResponses, seenRequests.ids
    {
      Device(seenRequests.Window(), completedCache, completedOrder)
    }

    constructor (window: nat, cacheCapacity: nat, ring: nat)
      requires ring > 0
      ensures Valid() && nextTxId == 1 && deviceCacheCapacity == cacheCapacity
      ensures HostState() == SessionRuns.Start(window, ring).host
      ensures DeviceState() == ServeAll(ring, cacheCapacity, []).device
      ensures fresh(seenRequests) && fresh(seenResponses) && fresh(seenRequests.ids) && fresh(seenResponses.ids)
    {
      windowSize := if window == 0 then 1 else window;
      deviceCacheCapacity := cacheCapacity;
      nextTxId, inflightCount, pending, outboundQueue := 1, 0, map[], [];
      completedCache, completedOrder := map[], [];
      var requests := new IdRingBuffer(ring);
      var responses := new IdRingBuffer(ring);
      seenRequests, seenResponses := requests, responses;
    }

    // ---- Requesting side ----

    method NextTxId() returns (id: TxId)
      requires Valid()
      modifies this`nextTxId
      ensures Valid() && id == old(nextTxId) && nextTxId == SessionRuns.NextTxId(id)
      ensures HostState() == old(HostState()) && DeviceState() == old(DeviceState())
    {
      id := nextTxId;
      nextTxId := (nextTxId + 1) % 0x1_0000_0000;
    }

    method RegisterPending(txId: TxId, requestCmd: nat, responseCmd: nat, request: seq<Byte>,
                           timeout: nat, maxRetries: nat, now: Time)
      requires Valid()
      modifies this`pending, this`outboundQueue
      ensures Valid() && DeviceState() == old(DeviceState())
      ensures HostState() ==
              Register(old(HostState()), txId, NewPending(requestCmd, responseCmd, request, timeout, maxRetries, now))
    {
      var kept := if |request| <= 256 then request else request[..256];
      var entry := Pending(requestCmd, responseCmd, kept, timeout, maxRetries, 0, false, now + timeout);
      pending := pending[txId := entry];
      outboundQueue := outboundQueue + [txId];
    }

    method OnAck(txId: TxId, now: Time)
      requires Valid()
      modifies this`pending
      ensures Valid() && DeviceState() == old(DeviceState())
      ensures HostState() == Session.Ack(old(HostState()), txId, now)
    {
      if txId !in pending || !pending[txId].inflight {
        return;
      }
      var entry := pending[txId];
      pending := pending[txId := entry.(deadline := now + entry.timeout)];
    }

    /** Reports whether the callback of the request is called. */
    method OnResponse(cmd: nat, txId: TxId) returns (called: bool)
      requires Valid() && cmd < 0x1_0000 && txId < 0x1_0000_0000
      modifies this`pending, this`inflightCount, seenResponses, seenResponses.ids
      ensures Valid() && DeviceState() == old(DeviceState())
      ensures HostState() == Respond(old(HostState()), ComposeDedupKey(cmd, txId), txId)
      ensures called <==> Completes(old(HostState()), ComposeDedupKey(cmd, txId), txId)
                          && old(pending)[txId].responseCmd == cmd
    {
      var seen := seenResponses.TestAndInsert(ComposeDedupKey(cmd, txId));
      if seen || txId !in pending {
        return false;
      }
      var entry := pending[txId];
      if entry.inflight && inflightCount > 0 {
        inflightCount := inflightCount - 1;
      }
      pending := pending - {txId};
      return entry.responseCmd == cmd;
    }

    /** The requests to send again, and those given up, whose callers are told of the timeout. */
    method Poll(now: Time, clock: TxId -> Time) returns (retries: seq<Outbound>, timeouts: seq<Outbound>)
      requires Valid()
      modifies this`pending, this`inflightCount
      ensures Valid() && DeviceState() == old(DeviceState())
      ensures HostState() == Session.Poll(old(HostState()), now, clock)
      ensures Lists(retries, RetriedIds(old(pending), now), old(pending))
      ensures Lists(timeouts, ExpiredIds(old(pending), now), old(pending))
    {
      ghost var h := HostState();
      var todo := pending.Keys;
      retries, timeouts := [], [];
      PollStarts(h, now, clock);
      while todo != {}
        invariant PolledTo(h, todo, now, clock, Polling(pending, inflightCount, retries, timeouts))
        decreases todo
      {
        var k :| k in todo;
        PollAdvances(h, todo, k, now, clock, Polling(pending, inflightCount, retries, timeouts));
        ghost var after := PollOne(k, now, clock(k), Polling(pending, inflightCount, retries, timeouts));
        var entry := pending[k];
        if !entry.inflight || now < entry.deadline {
        } else if entry.retryCount >= entry.maxRetries {
          if entry.inflight && inflightCount > 0 {
            inflightCount := inflightCount - 1;
          }
          timeouts := timeouts + [Outbound(k, entry.requestCmd, entry.request)];
          pending := pending - {k};
        } else {
          retries := retries + [Outbound(k, entry.requestCmd, entry.request)];
          pending := pending[k := entry.(retryCount := entry.retryCount + 1, deadline := clock(k) + entry.timeout)];
        }
        todo := todo - {k};
        assert Polling(pending, inflightCount, retries, timeouts) == after;
      }
      PollEnds(h, now, clock, Polling(pending, inflightCount, retries, timeouts));
    }

    method NextOutbound(now: Time) returns (entry: Option<Outbound>)
      requires Valid()
      modifies this`pending, this`inflightCount, this`outboundQueue
      ensures Valid() && DeviceState() == old(DeviceState())
      ensures HostState() == Pump(old(HostState()), now)
      ensures entry == if HandsOut(old(HostState()))
                       then Some(Entry(old(pending), NextId(old(HostState())))) else None
    {
      while inflightCount < windowSize && outboundQueue != []
        invariant Valid() && DeviceState() == old(DeviceState())
        invariant pending == old(pending) && inflightCount == old(inflightCount)
        invariant Pump(HostState(), now) == Pump(old(HostState()), now)
        invariant HandsOut(HostState()) == HandsOut(old(HostState()))
        invariant HandsOut(HostState()) ==> NextId(HostState()) == NextId(old(HostState()))
        decreases |outboundQueue|
      {
        ghost var h := HostState();
        var txId := outboundQueue[0];
        outboundQueue := outboundQueue[1..];
        if txId in pending {
          var p := pending[txId];
          pending := pending[txId := p.(inflight := true, deadline := now + p.timeout)];
          inflightCount := inflightCount + 1;
          return Some(Outbound(txId, p.requestCmd, p.request));
        }
        SkipOne(h, now);
      }
      return None;
    }

    method NextDeadline() returns (earliest: SessionProgress.Deadline)
      requires Valid()
      ensures SessionProgress.IsNextDeadline(pending, earliest)
    {
      earliest := SessionProgress.Never;
      var todo := pending.Keys;
      assert InflightIds(pending) - todo == {};
      while todo != {}
        invariant todo <= pending.Keys
        invariant earliest.Never? ==> InflightIds(pending) - todo == {}
        invariant earliest.At? ==>
                    && (exists k :: k in InflightIds(pending) && pending[k].deadline == earliest.time)
                    && (forall k :: k in InflightIds(pending) - todo ==> earliest.time <= pending[k].deadline)
        decreases todo
      {
        var k :| k in todo;
        todo := todo - {k};
        var entry := pending[k];
        if entry.inflight && (earliest.Never? || entry.deadline < earliest.time) {
          assert k in InflightIds(pending);
          earliest := SessionProgress.At(entry.deadline);
        }
      }
      assert InflightIds(pending) - todo == InflightIds(pending);
    }

    // ---- Answering side ----

    /** Reports whether the request is a repetition, and the response kept for it if there is one. */
    method OnRequest(cmd: nat, txId: TxId) returns (duplicate: bool, cached: Option<Completed>)
      requires Valid() && cmd < 0x1_0000 && txId < 0x1_0000_0000
      modifies seenRequests, seenRequests.ids
      ensures Valid() && HostState() == old(HostState())
      ensures var (key, d) := (ComposeDedupKey(cmd, txId), old(DeviceState()));
              && (duplicate <==> key in d.seen)
              && cached == (if duplicate && key in d.cache then Some(d.cache[key]) else None)
              && DeviceState() == d.(seen := Insert(d.seen, key))
    {
      var key := ComposeDedupKey(cmd, txId);
      duplicate := seenRequests.TestAndInsert(key);
      cached := if duplicate && key in completedCache then Some(completedCache[key]) else None;
    }

    method CacheResponse(cmd: nat, txId: TxId, responseCmd: nat, frame: seq<Byte>)
      requires Valid() && cmd < 0x1_0000 && txId < 0x1_0000_0000
      modifies this`completedCache, this`completedOrder
      ensures Valid() && HostState() == old(HostState())
      ensures DeviceState() == DeviceCache.CacheResponse(old(DeviceState()), deviceCacheCapacity,
                                                         ComposeDedupKey(cmd, txId), Completed(responseCmd, frame))
    {
      var key := ComposeDedupKey(cmd, txId);
      completedCache := completedCache[key := Completed(responseCmd, if |frame| <= 256 then frame else frame[..256])];
      completedOrder := completedOrder + [key];
      ShrinkDeviceCache();
    }

    method ShrinkDeviceCache()
      requires Valid()
      modifies this`completedCache, this`completedOrder
      ensures Valid() && HostState() == old(HostState())
      ensures DeviceState() == Shrink(old(DeviceState()), deviceCacheCapacity)
    {
      while |completedOrder| > deviceCacheCapacity
        invariant Valid() && HostState() == old(HostState())
        invariant Shrink(DeviceState(), deviceCacheCapacity) == Shrink(old(DeviceState()), deviceCacheCapacity)
        decreases |completedOrder|
      {
        var oldest := completedOrder[0];
        completedOrder := completedOrder[1..];
        completedCache := completedCache - {oldest};
      }
    }

    method ResetDeviceState()
      requires Valid()
      modifies this`completedCache, this`completedOrder
      modifies seenRequests, seenRequests.ids, seenResponses, seenResponses.ids
      ensures Valid()
      ensures HostState() == old(HostState()).(seenResponses := EmptySlots(seenResponses.ids.Length))
      ensures DeviceState() == Device(EmptySlots(seenRequests.ids.Length), map[], [])
    {
      seenRequests.Clear();
      seenResponses.Clear();
      completedCache, completedOrder := map[], [];
    }
  }
}

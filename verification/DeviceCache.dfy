/** The answering side of a session: repeated requests and the responses kept for them. */
module DeviceCache {
  import opened Bits
  import opened Dedup
  import opened Slots

  /** A response frame kept for repetition. */
  datatype Completed = Completed(cmd: nat, frame: seq<Byte>)

  datatype Device = Device(seen: seq<Key>, cache: map<Key, Completed>, order: seq<Key>)

  function Kept(c: Completed): (k: Completed)
    ensures k == c <==> |c.frame| <= MAX_PACKET_SIZE
  {
    c.(frame := Truncated(c.frame))
  }

  /** Drops the oldest responses until at most `capacity` are left. */
  function Shrink(d: Device, capacity: nat): (r: Device)
    ensures |r.order| <= capacity && r.seen == d.seen
    decreases |d.order|
  {
    if |d.order| <= capacity then d
    else Shrink(d.(order := d.order[1..], cache := d.cache - {d.order[0]}), capacity)
  }

  /** Shrinking drops responses and changes none. */
  lemma {:induction false} ShrinkOnlyDrops(d: Device, capacity: nat)
    ensures forall k :: k in Shrink(d, capacity).cache ==> k in d.cache && Shrink(d, capacity).cache[k] == d.cache[k]
    decreases |d.order|
  {
    if |d.order| > capacity {
      ShrinkOnlyDrops(d.(order := d.order[1..], cache := d.cache - {d.order[0]}), capacity);
    }
  }

  function CacheResponse(d: Device, capacity: nat, key: Key, c: Completed): (r: Device)
    ensures r.seen == d.seen
  {
    Shrink(d.(cache := d.cache[key := Kept(c)], order := d.order + [key]), capacity)
  }

  // ---- What is kept ----

  /** How many of the oldest of `n` responses go. */
  function Excess(n: nat, capacity: nat): (e: nat)
    ensures e <= n
  {
    if n <= capacity then 0 else n - capacity
  }

  lemma {:induction false} ShrinkDropsOldest(d: Device, capacity: nat, n: nat)
    requires n == Excess(|d.order|, capacity)
    ensures forall k :: k in Shrink(d, capacity).cache <==> k in d.cache && k !in d.order[..n]
    decreases n
  {
    if n > 0 {
      var rest := d.order[1..];
      assert d.order[..n] == [d.order[0]] + rest[..n - 1];
      ShrinkDropsOldest(d.(order := rest, cache := d.cache - {d.order[0]}), capacity, n - 1);
    }
  }

  /** A response is kept exactly if there is room for one at all and its key is not among the oldest,
      which go: the key of a request that was answered before may be. What is kept is the response. */
  lemma KeptIff(d: Device, capacity: nat, key: Key, c: Completed, n: nat)
    requires n == Excess(|d.order| + 1, capacity)
    ensures var cache := CacheResponse(d, capacity, key, c).cache;
            && (key in cache <==> capacity > 0 && key !in d.order[..n])
            && (key in cache ==> cache[key].cmd == c.cmd
                                 && cache[key].frame == c.frame[..if |c.frame| <= 256 then |c.frame| else 256])
  {
    var d' := d.(cache := d.cache[key := Kept(c)], order := d.order + [key]);
    assert n <= |d.order| ==> d'.order[..n] == d.order[..n];
    ShrinkDropsOldest(d', capacity, n);
    ShrinkOnlyDrops(d', capacity);
    assert capacity == 0 ==> d'.order[|d.order|] == key;
  }

  /** A request answered a second time, with its first answer the oldest in a full cache, has no answer left. */
  lemma AnsweredTwice(d: Device, capacity: nat, key: Key, c: Completed)
    requires 0 < capacity == |d.order| && d.order[0] == key
    ensures key !in CacheResponse(d, capacity, key, c).cache
  {
    KeptIff(d, capacity, key, c, 1);
    assert key in d.order[..1];
  }

  // ---- Runs in which every fresh request is answered once, before the next one ----

  /** A request, and what the handler answers if it is asked. */
  datatype Request = Request(key: Key, answer: Completed)

  /** A device with the last answer its handlers gave for each key. */
  datatype Served = Served(device: Device, answers: map<Key, Completed>)

  function Serve(s: Served, capacity: nat, r: Request): (s': Served)
    requires s.device.seen != []
    ensures |s'.device.seen| == |s.device.seen|
  {
    if r.key in s.device.seen then s
    else
      var d := s.device.(seen := Insert(s.device.seen, r.key));
      Served(CacheResponse(d, capacity, r.key, r.answer), s.answers[r.key := r.answer])
  }

  function ServeAll(ring: nat, capacity: nat, requests: seq<Request>): (s: Served)
    requires ring > 0
    ensures |s.device.seen| == ring
  {
    if requests == [] then Served(Device(EmptySlots(ring), map[], []), map[])
    else
      var n := |requests| - 1;
      Serve(ServeAll(ring, capacity, requests[..n]), capacity, requests[n])
  }

  /** If `key` comes again it is taken for a repetition, and finds the very answer it was given. */
  ghost predicate Replays(s: Served, key: Key) {
    key in s.device.seen ==>
      key in s.device.cache && key in s.answers && s.device.cache[key] == s.answers[key]
  }

  ghost predicate Within(requests: seq<Request>, limit: nat) {
    forall r :: r in requests ==> r.key != 0 && |r.answer.frame| <= limit
  }

  ghost predicate AlwaysReplays(ring: nat, capacity: nat, limit: nat)
    requires ring > 0
  {
    forall requests: seq<Request>, key: Key ::
      Within(requests, limit) && key != 0 ==> Replays(ServeAll(ring, capacity, requests), key)
  }

  // ---- Equal capacities keep ring and cache in lockstep ----

  ghost predicate Distinguished(order: seq<Key>) {
    && (forall k :: k in order ==> k != 0)
    && (forall i, j :: 0 <= i < j < |order| ==> order[i] != order[j])
  }

  ghost predicate Mirrors(cache: map<Key, Completed>, order: seq<Key>, answers: map<Key, Completed>) {
    && (forall k :: k in cache <==> k in order)
    && (forall k :: k in cache ==> k in answers && cache[k] == answers[k])
  }

  /** The ring, the eviction order and the cache hold the same keys, the first two in the same order. */
  ghost predicate InLockstep(s: Served, ring: nat) {
    var d := s.device;
    && |d.order| <= ring
    && d.seen == EmptySlots(ring - |d.order|) + d.order
    && Distinguished(d.order)
    && Mirrors(d.cache, d.order, s.answers)
  }

  lemma ServeKeepsLockstep(s: Served, ring: nat, r: Request)
    requires ring > 0 && InLockstep(s, ring) && r.key != 0 && |r.answer.frame| <= MAX_PACKET_SIZE
    ensures InLockstep(Serve(s, ring, r), ring)
  {
    var d := s.device;
    if r.key !in d.seen {
      assert r.key !in d.order;
      MirrorsMore(d.cache, d.order, s.answers, r.key, r.answer);
      DistinguishedMore(d.order, r.key);
      if |d.order| < ring {
        ServeFills(s, ring, r);
      } else {
        ServeEvicts(s, ring, r);
      }
    }
  }

  lemma ServeFills(s: Served, ring: nat, r: Request)
    requires ring > |s.device.order| && s.device.seen == EmptySlots(ring - |s.device.order|) + s.device.order
    requires r.key !in s.device.seen && |r.answer.frame| <= MAX_PACKET_SIZE
    requires Distinguished(s.device.order + [r.key])
    requires Mirrors(s.device.cache[r.key := r.answer], s.device.order + [r.key], s.answers[r.key := r.answer])
    ensures InLockstep(Serve(s, ring, r), ring)
  {
    FillSlot(s.device.(seen := Insert(s.device.seen, r.key)), ring, r.key, r.answer);
    SlotsStep(ring - |s.device.order|, s.device.order, r.key);
  }

  lemma ServeEvicts(s: Served, ring: nat, r: Request)
    requires ring == |s.device.order| > 0 && s.device.seen == EmptySlots(0) + s.device.order
    requires r.key !in s.device.seen && |r.answer.frame| <= MAX_PACKET_SIZE
    requires Distinguished(s.device.order + [r.key])
    requires Mirrors(s.device.cache[r.key := r.answer], s.device.order + [r.key], s.answers[r.key := r.answer])
    ensures InLockstep(Serve(s, ring, r), ring)
  {
    var order := s.device.order + [r.key];
    EvictOldest(s.device.(seen := Insert(s.device.seen, r.key)), ring, r.key, r.answer);
    assert Insert(s.device.seen, r.key) == EmptySlots(0) + order[1..];
    DropOldest(order, s.device.cache[r.key := r.answer], s.answers[r.key := r.answer]);
  }

  lemma SlotsStep(n: nat, order: seq<Key>, key: Key)
    requires n > 0
    ensures (EmptySlots(n) + order)[1..] + [key] == EmptySlots(n - 1) + (order + [key])
  {
  }

  lemma DistinguishedMore(order: seq<Key>, key: Key)
    requires Distinguished(order) && key != 0 && key !in order
    ensures Distinguished(order + [key])
  {
  }

  lemma MirrorsMore(cache: map<Key, Completed>, order: seq<Key>, answers: map<Key, Completed>, key: Key, c: Completed)
    requires Mirrors(cache, order, answers)
    ensures Mirrors(cache[key := c], order + [key], answers[key := c])
  {
  }

  lemma DropOldest(order: seq<Key>, cache: map<Key, Completed>, answers: map<Key, Completed>)
    requires order != [] && Distinguished(order) && Mirrors(cache, order, answers)
    ensures Distinguished(order[1..]) && Mirrors(cache - {order[0]}, order[1..], answers)
  {
    var rest := order[1..];
    assert forall i :: 0 <= i < |rest| ==> rest[i] == order[i + 1] && rest[i] != order[0];
    assert forall k :: k in order <==> k == order[0] || k in rest;
  }

  /** While there is room, nothing is dropped. */
  lemma FillSlot(d: Device, capacity: nat, key: Key, c: Completed)
    requires |d.order| < capacity
    ensures CacheResponse(d, capacity, key, c) == d.(cache := d.cache[key := Kept(c)], order := d.order + [key])
  {
  }

  /** With a full cache, the new response takes the place of the oldest one. */
  lemma EvictOldest(d: Device, capacity: nat, key: Key, c: Completed)
    requires |d.order| == capacity
    ensures var r := CacheResponse(d, capacity, key, c);
            && r.order == (d.order + [key])[1..]
            && r.cache == d.cache[key := Kept(c)] - {(d.order + [key])[0]}
  {
    var one := d.(cache := d.cache[key := Kept(c)], order := d.order + [key]);
    var two := one.(order := one.order[1..], cache := one.cache - {one.order[0]});
    assert Shrink(one, capacity) == Shrink(two, capacity) == two;
  }

  lemma {:induction false} LockstepInEveryRun(ring: nat, requests: seq<Request>)
    requires ring > 0 && Within(requests, MAX_PACKET_SIZE)
    ensures InLockstep(ServeAll(ring, ring, requests), ring)
    decreases |requests|
  {
    if requests == [] {
      assert EmptySlots(ring) + [] == EmptySlots(ring);
    } else {
      var n := |requests| - 1;
      LockstepInEveryRun(ring, requests[..n]);
      ServeKeepsLockstep(ServeAll(ring, ring, requests[..n]), ring, requests[n]);
    }
  }

  lemma LockstepReplays(s: Served, ring: nat, key: Key)
    requires InLockstep(s, ring) && key != 0
    ensures Replays(s, key)
  {
  }

  // ---- Different capacities fall out of step ----

  function UpTo(n: nat): (s: seq<Key>)
    ensures |s| == n && forall i :: 0 <= i < n ==> s[i] == i + 1
  {
    seq(n, (i: nat) => i + 1)
  }

  function Distinct(n: nat, c: Completed): (rs: seq<Request>) {
    seq(n, (i: nat) => Request(i + 1, c))
  }

  /** The ring and the eviction order after the keys 1 to `n`. */
  lemma {:induction false} AfterDistinct(ring: nat, capacity: nat, n: nat, c: Completed)
    requires ring > 0 && n <= capacity
    ensures var d := ServeAll(ring, capacity, Distinct(n, c)).device;
            d.order == UpTo(n) && d.seen == Recent(ring, UpTo(n))
  {
    if n == 0 {
      assert EmptySlots(ring) + [] == EmptySlots(ring);
    } else {
      AfterDistinct(ring, capacity, n - 1, c);
      assert Distinct(n, c)[..n - 1] == Distinct(n - 1, c);
      var s, last := ServeAll(ring, capacity, Distinct(n - 1, c)), Request(n, c);
      assert ServeAll(ring, capacity, Distinct(n, c)) == Serve(s, capacity, last);
      FillSlot(s.device.(seen := Insert(s.device.seen, n)), capacity, n, c);
      assert UpTo(n) == UpTo(n - 1) + [n];
      RecentGrows(ring, UpTo(n - 1), n);
    }
  }

  /** The request that brings the two out of step after the keys 1 to `capacity`. */
  function Unlucky(ring: nat, capacity: nat): (k: Key)
    ensures k != 0
  {
    if capacity < ring then capacity + 1 else 1
  }

  lemma OneIsForgotten(ring: nat, capacity: nat, c: Completed)
    requires ring > 0 && capacity != ring
    ensures !Replays(ServeAll(ring, capacity, Distinct(capacity, c) + [Request(Unlucky(ring, capacity), c)]), 1)
  {
    var before, last := Distinct(capacity, c), Request(Unlucky(ring, capacity), c);
    AfterDistinct(ring, capacity, capacity, c);
    var s := ServeAll(ring, capacity, before);
    assert (before + [last])[..capacity] == before;
    assert ServeAll(ring, capacity, before + [last]) == Serve(s, capacity, last);
    assert last.key !in s.device.seen;
    var d := s.device.(seen := Insert(s.device.seen, last.key));
    EvictOldest(d, capacity, last.key, c);
    assert (d.order + [last.key])[0] == 1;
    OneStaysSeen(ring, capacity, s.device.seen);
  }

  lemma OneStaysSeen(ring: nat, capacity: nat, seen: seq<Key>)
    requires ring > 0 && capacity != ring && seen == Recent(ring, UpTo(capacity))
    ensures 1 in Insert(seen, Unlucky(ring, capacity))
  {
    if capacity < ring {
      if capacity > 0 {
        assert seen[ring - capacity] == 1;
        assert Insert(seen, capacity + 1)[ring - capacity - 1] == 1;
      }
    }
  }

  lemma LongAnswerIsCut(ring: nat, c: Completed)
    requires ring > 0 && |c.frame| > 256
    ensures !Replays(ServeAll(ring, ring, [Request(1, c)]), 1)
  {
    var rs := [Request(1, c)];
    assert rs[..0] == [];
    var s := ServeAll(ring, ring, []);
    assert ServeAll(ring, ring, rs) == Serve(s, ring, rs[0]);
    assert 1 in Insert(s.device.seen, 1);
  }

  /** Every repeated request is answered byte for byte as before exactly when the cache has
      the capacity of the ring, no more and no less, and no response outgrows a cache slot. */
  lemma AlwaysReplaysIff(ring: nat, capacity: nat, limit: nat)
    requires ring > 0
    ensures AlwaysReplays(ring, capacity, limit) <==> capacity == ring && limit <= 256
  {
    if capacity == ring && limit <= MAX_PACKET_SIZE {
      forall requests: seq<Request>, key: Key | Within(requests, limit) && key != 0
        ensures Replays(ServeAll(ring, capacity, requests), key)
      {
        LockstepInEveryRun(ring, requests);
        LockstepReplays(ServeAll(ring, capacity, requests), ring, key);
      }
    } else if capacity != ring {
      var c := Completed(0, []);
      OneIsForgotten(ring, capacity, c);
      assert Within(Distinct(capacity, c) + [Request(Unlucky(ring, capacity), c)], limit);
    } else {
      var c := Completed(0, seq(limit, _ => 0));
      LongAnswerIsCut(ring, c);
      assert Within([Request(1, c)], limit);
    }
  }
}

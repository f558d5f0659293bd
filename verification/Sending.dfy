/** Which frames hand-outs and retries bring into the queue of a stack, and what a cycle sends. */
module Sending {
  import opened Basics
  import opened Bits
  import opened Scanning
  import opened Session
  import opened SessionRuns
  import opened Stacks
  import opened TxQueues

  function PacketOf(p: Pending): Packet {
    Packet(p.requestCmd, p.request)
  }

  /** Telemetry is what has a command of its range. */
  function EntryOf(w: Wire, n: Byte, p: Pending): TxEntry {
    TxEntry(w.encode(n, PacketOf(p)), 0x6000 <= p.requestCmd <= 0x60FF)
  }

  /** The entries for these requests, in order, under consecutive sequence numbers. */
  function Entries(w: Wire, n: Byte, pending: map<TxId, Pending>, ids: seq<TxId>): (es: seq<TxEntry>)
    requires forall k :: k in ids ==> k in pending
    ensures |es| == |ids|
    decreases |ids|
  {
    if ids == [] then []
    else [EntryOf(w, n, pending[ids[0]])] + Entries(w, (n + 1) % 256, pending, ids[1..])
  }

  /** Those of the requests that can be serialised. */
  function Sendable(w: Wire, pending: map<TxId, Pending>, ids: seq<TxId>): (ks: seq<TxId>)
    requires forall k :: k in ids ==> k in pending
    ensures forall k :: k in ks ==> k in ids
    decreases |ids|
  {
    if ids == [] then []
    else (if w.known(PacketOf(pending[ids[0]])) then [ids[0]] else []) + Sendable(w, pending, ids[1..])
  }

  // ---- One frame ----

  lemma {:induction false} EssentialShorter(q: seq<TxEntry>)
    ensures |Essential(q)| <= |q|
    ensures |Essential(q)| == |q| <==> FirstTelemetry(q) == |q|
    decreases |q|
  {
    if q != [] {
      EssentialShorter(q[1..]);
    }
  }

  /** A request that can be serialised takes the place of telemetry, and of nothing else. */
  lemma EnqueueOne(w: Wire, s: Stack, p: Pending, e: TxEntry)
    requires |s.queue| <= 16 && w.known(PacketOf(p)) && !(0x6000 <= p.requestCmd <= 0x60FF)
    requires e == TxEntry(w.encode(s.serial, PacketOf(p)), false)
    ensures var s' := Enqueue(w, s, p);
            && |s'.queue| <= 16 && s' == s.(queue := s'.queue, serial := s'.serial)
            && if |Essential(s.queue)| == 16 then s' == s
               else Essential(s'.queue) == Essential(s.queue) + [e] && s'.serial == (s.serial + 1) % 256
  {
    EssentialShorter(s.queue);
    if |Essential(s.queue)| < 16 {
      var room := Without(s.queue, Victim(s.queue));
      EssentialWithout(s.queue, Victim(s.queue));
      EssentialConcat(room, [e]);
      EssentialOne([e], e);
    }
  }

  /** One that cannot brings nothing into the queue. */
  lemma EnqueueNone(w: Wire, s: Stack, p: Pending)
    requires |s.queue| <= 16 && !w.known(PacketOf(p))
    ensures var s' := Enqueue(w, s, p);
            && |s'.queue| <= 16 && Essential(s'.queue) == Essential(s.queue) && s' == s.(queue := s'.queue)
  {
    EssentialShorter(s.queue);
    if !(|s.queue| >= 16 && FirstTelemetry(s.queue) == |s.queue|) {
      EssentialWithout(s.queue, Victim(s.queue));
    }
  }

  /** A broadcast that can be serialised and is no longer than a frame may be goes to the end of a queue with
      room, under the next sequence number, and displaces nothing. */
  lemma BroadcastQueued(w: Wire, s: Stack, p: Packet)
    requires w.known(p) && |w.encode(s.serial, p)| <= 512 && |s.queue| < 16
    ensures var f := w.encode(s.serial, p);
            Emit(w, s, p, false) == s.(queue := s.queue + [TxEntry(f, IsTelemetryFrame(f))], serial := (s.serial + 1) % 256)
  {
  }

  // ---- Retries ----

  /** None of these requests counts as telemetry. */
  ghost predicate NoTelemetry(pending: map<TxId, Pending>, ids: seq<TxId>)
    requires forall k :: k in ids ==> k in pending
  {
    forall i :: 0 <= i < |ids| ==> !(0x6000 <= pending[ids[i]].requestCmd <= 0x60FF)
  }

  /** How many frames that are no telemetry a queue has room for, if all telemetry goes. */
  function Room(q: seq<TxEntry>): nat
    requires |q| <= 16
  {
    EssentialShorter(q);
    16 - |Essential(q)|
  }

  /** The first `n`, or all if there are no more. */
  function Upto<T>(ks: seq<T>, n: nat): (r: seq<T>)
    ensures forall k :: k in r ==> k in ks
  {
    ks[..Min(|ks|, n)]
  }

  lemma UptoFirst<T>(k: T, more: seq<T>, all: seq<T>, n: nat)
    requires all == [k] + more
    ensures Upto(all, n) == if n == 0 then [] else [k] + Upto(more, n - 1)
  {
  }

  lemma UptoOneMore<T>(k: T, rest: seq<T>, all: seq<T>, n: nat, ks: seq<T>, more: seq<T>)
    requires all == [k] + rest && ks == Upto(all, n + 1) && more == Upto(rest, n)
    ensures ks == [k] + more
  {
  }

  lemma EntriesFirst(w: Wire, n: Byte, pending: map<TxId, Pending>, k: TxId, more: seq<TxId>, all: seq<TxId>)
    requires k in pending && (forall j :: j in more ==> j in pending) && all == [k] + more
    ensures (forall j :: j in all ==> j in pending)
    ensures Entries(w, n, pending, all)
            == [EntryOf(w, n, pending[k])] + Entries(w, (n + 1) % 256, pending, more)
  {
    assert all[1..] == more;
  }

  /** What `ks` bring into a queue with this essence. */
  ghost predicate Grown(w: Wire, s: Stack, s': Stack, pending: map<TxId, Pending>, ks: seq<TxId>)
    requires forall k :: k in ks ==> k in pending
  {
    && Essential(s'.queue) == Essential(s.queue) + Entries(w, s.serial, pending, ks)
    && s'.serial == (s.serial + |ks|) % 256
    && |s'.queue| <= 16
  }

  lemma GrownFirst(w: Wire, s: Stack, s1: Stack, s2: Stack, pending: map<TxId, Pending>, k: TxId, more: seq<TxId>,
                   all: seq<TxId>)
    requires k in pending && (forall j :: j in more ==> j in pending) && all == [k] + more
    requires Essential(s1.queue) == Essential(s.queue) + [EntryOf(w, s.serial, pending[k])]
    requires s1.serial == (s.serial + 1) % 256 && Grown(w, s1, s2, pending, more)
    ensures (forall j :: j in all ==> j in pending) && Grown(w, s, s2, pending, all)
  {
    EntriesFirst(w, s.serial, pending, k, more, all);
    Associative(Essential(s.queue), [EntryOf(w, s.serial, pending[k])], Entries(w, s1.serial, pending, more));
    SerialsAdd(s.serial, |more|, |all|);
  }

  lemma SerialsAdd(n: Byte, k: nat, all: nat)
    requires all == 1 + k
    ensures ((n + 1) % 256 + k) % 256 == (n + all) % 256
  {
  }

  lemma FirstQueued(w: Wire, s: Stack, s1: Stack, s2: Stack, pending: map<TxId, Pending>, k: TxId, more: seq<TxId>)
    requires |s.queue| <= 16 && |s1.queue| <= 16 && k in pending && forall j :: j in more ==> j in pending
    requires if |Essential(s.queue)| == 16 then s1 == s
             else Essential(s1.queue) == Essential(s.queue) + [EntryOf(w, s.serial, pending[k])]
                  && s1.serial == (s.serial + 1) % 256
    requires Grown(w, s1, s2, pending, Upto(more, Room(s1.queue)))
    ensures Grown(w, s, s2, pending, Upto([k] + more, Room(s.queue)))
  {
    var n := Room(s.queue);
    UptoFirst(k, more, [k] + more, n);
    if n > 0 {
      RoomTaken(s.queue, s1.queue, EntryOf(w, s.serial, pending[k]), n);
      FirstGrown(w, s, s1, s2, pending, k, more, n);
    } else {
      assert Upto(more, 0) == [];
    }
  }

  lemma RoomTaken(q: seq<TxEntry>, q1: seq<TxEntry>, e: TxEntry, n: nat)
    requires |q| <= 16 && |q1| <= 16 && n == Room(q) > 0 && Essential(q1) == Essential(q) + [e]
    ensures Room(q1) == n - 1
  {
  }

  lemma FirstGrown(w: Wire, s: Stack, s1: Stack, s2: Stack, pending: map<TxId, Pending>, k: TxId, more: seq<TxId>, n: nat)
    requires k in pending && (forall j :: j in more ==> j in pending) && n > 0
    requires Essential(s1.queue) == Essential(s.queue) + [EntryOf(w, s.serial, pending[k])]
    requires s1.serial == (s.serial + 1) % 256 && Grown(w, s1, s2, pending, Upto(more, n - 1))
    ensures Grown(w, s, s2, pending, Upto([k] + more, n))
  {
    UptoFirst(k, more, [k] + more, n);
    GrownFirst(w, s, s1, s2, pending, k, Upto(more, n - 1), Upto([k] + more, n));
  }

  lemma NoneQueued(w: Wire, s: Stack, s1: Stack, s2: Stack, pending: map<TxId, Pending>, ks: seq<TxId>)
    requires |s.queue| <= 16 && |s1.queue| <= 16 && forall j :: j in ks ==> j in pending
    requires Essential(s1.queue) == Essential(s.queue) && s1.serial == s.serial
    requires Grown(w, s1, s2, pending, Upto(ks, Room(s1.queue)))
    ensures Grown(w, s, s2, pending, Upto(ks, Room(s.queue)))
  {
  }

  lemma SendableFirst(w: Wire, pending: map<TxId, Pending>, ids: seq<TxId>, rest: seq<TxId>)
    requires ids != [] && rest == ids[1..] && forall k :: k in ids ==> k in pending
    ensures forall k :: k in rest ==> k in pending
    ensures Sendable(w, pending, ids)
            == (if w.known(PacketOf(pending[ids[0]])) then [ids[0]] else []) + Sendable(w, pending, rest)
  {
  }

  /** Each retry that can be serialised gets exactly one frame, in the order of the list and under the next
      sequence numbers, until the queue is full of frames that are no telemetry; the others get none. */
  lemma {:induction false} RetriesQueued(w: Wire, s: Stack, pending: map<TxId, Pending>, ids: seq<TxId>)
    requires |s.queue| <= 16 && (forall k :: k in ids ==> k in pending) && NoTelemetry(pending, ids)
    ensures var s' := EnqueueAll(w, s, pending, ids);
            && s' == s.(queue := s'.queue, serial := s'.serial)
            && Grown(w, s, s', pending, Upto(Sendable(w, pending, ids), Room(s.queue)))
    decreases |ids|
  {
    if ids == [] {
      assert Essential(s.queue) + [] == Essential(s.queue);
    } else {
      var p, rest := pending[ids[0]], ids[1..];
      var s1 := Enqueue(w, s, p);
      SendableFirst(w, pending, ids, rest);
      assert forall i :: 0 <= i < |rest| ==> rest[i] == ids[i + 1];
      var ks := Sendable(w, pending, rest);
      if w.known(PacketOf(p)) {
        EnqueueOne(w, s, p, EntryOf(w, s.serial, p));
        RetriesQueued(w, s1, pending, rest);
        FirstQueued(w, s, s1, EnqueueAll(w, s1, pending, rest), pending, ids[0], ks);
      } else {
        EnqueueNone(w, s, p);
        RetriesQueued(w, s1, pending, rest);
        NoneQueued(w, s, s1, EnqueueAll(w, s1, pending, rest), pending, ks);
        assert [] + ks == ks;
      }
    }
  }

  /** With room for all of them, nothing that was in the queue goes. */
  lemma {:induction false} RetriesDisplaceNothing(w: Wire, s: Stack, pending: map<TxId, Pending>, ids: seq<TxId>)
    requires |s.queue| + |ids| <= 16 && forall i :: 0 <= i < |ids| ==> ids[i] in pending && w.known(PacketOf(pending[ids[i]]))
    ensures (forall k :: k in ids ==> k in pending)
    ensures EnqueueAll(w, s, pending, ids).queue == s.queue + Entries(w, s.serial, pending, ids)
    decreases |ids|
  {
    assert forall k :: k in ids ==> k in pending;
    if ids == [] {
      assert s.queue + [] == s.queue;
    } else {
      var s1, rest := Enqueue(w, s, pending[ids[0]]), ids[1..];
      assert forall i :: 0 <= i < |rest| ==> rest[i] == ids[i + 1];
      assert s1.queue == s.queue + [EntryOf(w, s.serial, pending[ids[0]])];
      RetriesDisplaceNothing(w, s1, pending, rest);
      Associative(s.queue, [EntryOf(w, s.serial, pending[ids[0]])], Entries(w, s1.serial, pending, rest));
    }
  }

  // ---- Hand-outs ----

  /** The requests that wait to be handed out, in order. */
  function Waiting(queue: seq<TxId>, pending: map<TxId, Pending>): (ks: seq<TxId>)
    ensures forall k :: k in ks ==> k in pending
    decreases |queue|
  {
    if queue == [] then [] else (if queue[0] in pending then [queue[0]] else []) + Waiting(queue[1..], pending)
  }

  /** How many requests at the head of `ks` can be serialised, one after the other. */
  function Smooth(w: Wire, pending: map<TxId, Pending>, ks: seq<TxId>): (n: nat)
    requires forall k :: k in ks ==> k in pending
    ensures n <= |ks| && forall i :: 0 <= i < n ==> w.known(PacketOf(pending[ks[i]]))
    ensures n < |ks| ==> !w.known(PacketOf(pending[ks[n]]))
    decreases |ks|
  {
    if ks == [] || !w.known(PacketOf(pending[ks[0]])) then 0 else 1 + Smooth(w, pending, ks[1..])
  }

  lemma {:induction false} WaitingSkips(queue: seq<TxId>, pending: map<TxId, Pending>)
    ensures var (n, ks) := (Skipped(queue, pending), Waiting(queue, pending));
            if n == |queue| then ks == [] else ks == [queue[n]] + Waiting(queue[n + 1..], pending)
    decreases |queue|
  {
    if queue != [] && queue[0] !in pending {
      WaitingSkips(queue[1..], pending);
      var n := Skipped(queue, pending);
      assert n < |queue| ==> queue[1..][n..] == queue[n + 1..];
    }
  }

  /** The same requests are on the books, whatever became of their deadlines. */
  ghost predicate SameRequests(a: map<TxId, Pending>, b: map<TxId, Pending>) {
    a.Keys == b.Keys && forall k :: k in a ==> PacketOf(a[k]) == PacketOf(b[k])
  }

  lemma {:induction false} WaitingSame(queue: seq<TxId>, a: map<TxId, Pending>, b: map<TxId, Pending>)
    requires SameRequests(a, b)
    ensures Waiting(queue, a) == Waiting(queue, b)
    decreases |queue|
  {
    if queue != [] {
      WaitingSame(queue[1..], a, b);
    }
  }

  lemma {:induction false} SmoothSame(w: Wire, a: map<TxId, Pending>, b: map<TxId, Pending>, ks: seq<TxId>)
    requires SameRequests(a, b) && (forall k :: k in ks ==> k in a) && (forall k :: k in ks ==> k in b)
    ensures Smooth(w, a, ks) == Smooth(w, b, ks)
    decreases |ks|
  {
    if ks != [] && w.known(PacketOf(a[ks[0]])) {
      SmoothSame(w, a, b, ks[1..]);
    }
  }

  lemma {:induction false} EntriesSame(w: Wire, n: Byte, a: map<TxId, Pending>, b: map<TxId, Pending>, ks: seq<TxId>)
    requires SameRequests(a, b) && (forall k :: k in ks ==> k in a) && (forall k :: k in ks ==> k in b)
    ensures Entries(w, n, a, ks) == Entries(w, n, b, ks)
    decreases |ks|
  {
    if ks != [] {
      assert PacketOf(a[ks[0]]) == PacketOf(b[ks[0]]);
      EntriesSame(w, (n + 1) % 256, a, b, ks[1..]);
    }
  }

  function Free(h: Host): nat {
    if h.inflightCount < h.window then h.window - h.inflightCount else 0
  }

  /** The requests that the window has room for. */
  function Eligible(h: Host): (ks: seq<TxId>)
    ensures forall k :: k in ks ==> k in h.pending
  {
    Upto(Waiting(h.queue, h.pending), Free(h))
  }

  lemma HandsOutIff(h: Host)
    ensures HandsOut(h) <==> Eligible(h) != []
    ensures HandsOut(h) ==> NextId(h) == Eligible(h)[0]
  {
    WaitingSkips(h.queue, h.pending);
  }

  lemma HandOutBooks(h: Host, at: Time, h1: Host)
    requires HandsOut(h) && h1 == Pump(h, at)
    ensures h1.inflightCount == h.inflightCount + 1 && h1.window == h.window
    ensures SameRequests(h.pending, h1.pending)
    ensures forall k :: k in h.pending ==> h1.pending[k].inflight == (h.pending[k].inflight || k == NextId(h))
  {
  }

  lemma WaitingTaken(h: Host, k: TxId, rest: seq<TxId>)
    requires HandsOut(h) && k == NextId(h) && rest == h.queue[Skipped(h.queue, h.pending) + 1..]
    ensures Waiting(h.queue, h.pending) == [k] + Waiting(rest, h.pending)
  {
    WaitingSkips(h.queue, h.pending);
  }

  /** One hand-out takes the first of them. */
  lemma HandOutTakesFirst(h: Host, at: Time, h1: Host, k: TxId)
    requires HandsOut(h) && h1 == Pump(h, at) && k == NextId(h)
    ensures Waiting(h.queue, h.pending) == [k] + Waiting(h1.queue, h1.pending)
    ensures Eligible(h) == [k] + Eligible(h1)
  {
    HandOutBooks(h, at, h1);
    WaitingTaken(h, k, h1.queue);
    WaitingSame(h1.queue, h.pending, h1.pending);
    UptoFirst(k, Waiting(h1.queue, h1.pending), Waiting(h.queue, h.pending), Free(h));
  }

  lemma NoHandOut(h: Host, at: Time, h1: Host)
    requires !HandsOut(h) && h1 == Pump(h, at)
    ensures h1 == h.(queue := h1.queue) && Waiting(h1.queue, h1.pending) == Waiting(h.queue, h.pending)
  {
    WaitingSkips(h.queue, h.pending);
  }

  // ---- The phase of hand-outs ----

  /** What hand-outs have done to a stack when `ks` were handed out, the first `n` of them with a frame. */
  ghost predicate HandedOut(w: Wire, s: Stack, s': Stack, ks: seq<TxId>, n: nat)
    requires n <= |ks| && forall k :: k in ks ==> k in s.run.host.pending
  {
    var (h, h') := (s.run.host, s'.run.host);
    && Grown(w, s, s', h.pending, ks[..n])
    && h'.inflightCount == h.inflightCount + |ks| && h'.window == h.window
    && SameRequests(h.pending, h'.pending)
    && Waiting(h.queue, h.pending) == ks + Waiting(h'.queue, h'.pending)
    && (forall k :: k in h.pending ==> h'.pending[k].inflight == (h.pending[k].inflight || k in ks))
  }

  /** The frames of the requests handed out in this phase. */
  function Framed(w: Wire, s: Stack): (n: nat)
    requires |s.queue| <= 16
    ensures n <= |Eligible(s.run.host)|
  {
    Min(Smooth(w, s.run.host.pending, Eligible(s.run.host)), Room(s.queue))
  }

  /** A hand-out that brings its frame into the queue. */
  lemma RoundEnters(w: Wire, s: Stack, at: Time, s1: Stack, k: TxId)
    requires |s.queue| <= 16 && HandsOut(s.run.host) && k == NextId(s.run.host) && s1 == PumpOnce(w, s, at)
    requires Enters(w, s, s.run.host.pending[k]) && !(0x6000 <= s.run.host.pending[k].requestCmd <= 0x60FF)
    ensures w.known(PacketOf(s.run.host.pending[k])) && |s1.queue| <= 16 && Room(s.queue) == Room(s1.queue) + 1
    ensures Essential(s1.queue) == Essential(s.queue) + [EntryOf(w, s.serial, s.run.host.pending[k])]
    ensures s1.serial == (s.serial + 1) % 256 && s1.run.host == Pump(s.run.host, at)
  {
    var p := s.run.host.pending[k];
    EssentialShorter(s.queue);
    EnqueueOne(w, s.(run := s1.run), p, EntryOf(w, s.serial, p));
  }

  /** One that does not, and ends the phase. */
  lemma RoundRefused(w: Wire, s: Stack, at: Time, s1: Stack, k: TxId)
    requires |s.queue| <= 16 && HandsOut(s.run.host) && k == NextId(s.run.host) && s1 == PumpOnce(w, s, at)
    requires !Enters(w, s, s.run.host.pending[k])
    ensures !w.known(PacketOf(s.run.host.pending[k])) || Room(s.queue) == 0
    ensures |s1.queue| <= 16 && Essential(s1.queue) == Essential(s.queue)
    ensures s1.serial == s.serial && s1.run.host == Pump(s.run.host, at)
  {
    var p := s.run.host.pending[k];
    EssentialShorter(s.queue);
    if !w.known(PacketOf(p)) {
      EnqueueNone(w, s.(run := s1.run), p);
    }
  }

  lemma FramedFirst(w: Wire, s: Stack, s1: Stack, k: TxId)
    requires |s.queue| <= 16 && |s1.queue| <= 16 && Room(s.queue) == Room(s1.queue) + 1
    requires SameRequests(s.run.host.pending, s1.run.host.pending)
    requires Eligible(s.run.host) == [k] + Eligible(s1.run.host) && w.known(PacketOf(s.run.host.pending[k]))
    ensures Framed(w, s) == 1 + Framed(w, s1)
  {
    var ks := Eligible(s1.run.host);
    assert Eligible(s.run.host)[1..] == ks;
    SmoothSame(w, s.run.host.pending, s1.run.host.pending, ks);
  }

  lemma GrownOn(w: Wire, s: Stack, s1: Stack, s2: Stack, a: map<TxId, Pending>, b: map<TxId, Pending>,
                k: TxId, more: seq<TxId>, all: seq<TxId>)
    requires k in a && all == [k] + more && SameRequests(a, b) && forall j :: j in more ==> j in b
    requires Essential(s1.queue) == Essential(s.queue) + [EntryOf(w, s.serial, a[k])]
    requires s1.serial == (s.serial + 1) % 256 && Grown(w, s1, s2, b, more)
    ensures (forall j :: j in all ==> j in a) && Grown(w, s, s2, a, all)
  {
    assert forall j :: j in more ==> j in a;
    EntriesSame(w, s1.serial, a, b, more);
    GrownFirst(w, s, s1, s2, a, k, more, all);
  }

  lemma HandedOutFirst(w: Wire, s: Stack, s1: Stack, s2: Stack, k: TxId, more: seq<TxId>, all: seq<TxId>, n: nat, m: nat)
    requires n <= |more| && m == n + 1 && all == [k] + more && k in s.run.host.pending
    requires SameRequests(s.run.host.pending, s1.run.host.pending) && forall j :: j in more ==> j in s1.run.host.pending
    requires HandedOut(w, s1, s2, more, n)
    requires Essential(s1.queue) == Essential(s.queue) + [EntryOf(w, s.serial, s.run.host.pending[k])]
    requires s1.serial == (s.serial + 1) % 256
    requires s1.run.host.inflightCount == s.run.host.inflightCount + 1 && s1.run.host.window == s.run.host.window
    requires Waiting(s.run.host.queue, s.run.host.pending) == [k] + Waiting(s1.run.host.queue, s1.run.host.pending)
    requires forall j :: j in s.run.host.pending ==>
               s1.run.host.pending[j].inflight == (s.run.host.pending[j].inflight || j == k)
    ensures (forall j :: j in all ==> j in s.run.host.pending) && HandedOut(w, s, s2, all, m)
  {
    assert all[..m] == [k] + more[..n];
    GrownOn(w, s, s1, s2, s.run.host.pending, s1.run.host.pending, k, more[..n], all[..m]);
    Associative([k], more, Waiting(s2.run.host.queue, s2.run.host.pending));
  }

  lemma NothingHandedOut(w: Wire, s: Stack, s1: Stack)
    requires s1.queue == s.queue && s1.serial == s.serial && |s.queue| <= 16
    requires s1.run.host == s.run.host.(queue := s1.run.host.queue)
    requires Waiting(s1.run.host.queue, s1.run.host.pending) == Waiting(s.run.host.queue, s.run.host.pending)
    ensures HandedOut(w, s, s1, [], 0)
  {
    assert Essential(s.queue) + [] == Essential(s.queue);
  }

  lemma OneHandedOut(w: Wire, s: Stack, s1: Stack, k: TxId)
    requires |s1.queue| <= 16 && Essential(s1.queue) == Essential(s.queue) && s1.serial == s.serial
    requires k in s.run.host.pending && SameRequests(s.run.host.pending, s1.run.host.pending)
    requires s1.run.host.inflightCount == s.run.host.inflightCount + 1 && s1.run.host.window == s.run.host.window
    requires Waiting(s.run.host.queue, s.run.host.pending) == [k] + Waiting(s1.run.host.queue, s1.run.host.pending)
    requires forall j :: j in s.run.host.pending ==>
               s1.run.host.pending[j].inflight == (s.run.host.pending[j].inflight || j == k)
    ensures HandedOut(w, s, s1, [k], 0)
  {
    assert Essential(s.queue) + [] == Essential(s.queue);
  }

  lemma StillNoTelemetry(a: map<TxId, Pending>, b: map<TxId, Pending>, all: seq<TxId>, more: seq<TxId>)
    requires SameRequests(a, b) && all != [] && more == all[1..]
    requires (forall k :: k in all ==> k in a) && (forall k :: k in more ==> k in b) && NoTelemetry(a, all)
    ensures NoTelemetry(b, more)
  {
    forall i | 0 <= i < |more|
      ensures !(0x6000 <= b[more[i]].requestCmd <= 0x60FF)
    {
      assert more[i] == all[i + 1];
      assert PacketOf(a[more[i]]) == PacketOf(b[more[i]]);
    }
  }

  /** Nothing is handed out. */
  lemma PhaseWithout(w: Wire, s: Stack, clock: nat -> Time, from: nat)
    requires |s.queue| <= 16 && !HandsOut(s.run.host)
    ensures Eligible(s.run.host) == [] && Framed(w, s) == 0
    ensures HandedOut(w, s, PumpAll(w, s, clock, from), [], 0)
  {
    var h, s1 := s.run.host, PumpOnce(w, s, clock(from));
    HandsOutIff(h);
    NoHandOut(h, clock(from), s1.run.host);
    NothingHandedOut(w, s, s1);
  }

  /** The first request gets no frame. */
  lemma PhaseRefused(w: Wire, s: Stack, clock: nat -> Time, from: nat, k: TxId, ks: seq<TxId>)
    requires |s.queue| <= 16 && HandsOut(s.run.host) && k == NextId(s.run.host) && !Enters(w, s, s.run.host.pending[k])
    requires ks == Upto(Eligible(s.run.host), 1)
    ensures ks == [k] && Framed(w, s) == 0 && HandedOut(w, s, PumpAll(w, s, clock, from), ks, 0)
  {
    var h, s1 := s.run.host, PumpOnce(w, s, clock(from));
    HandsOutIff(h);
    HandOutBooks(h, clock(from), Pump(h, clock(from)));
    HandOutTakesFirst(h, clock(from), Pump(h, clock(from)), k);
    RoundRefused(w, s, clock(from), s1, k);
    OneHandedOut(w, s, s1, k);
  }

  lemma PhaseEnds(w: Wire, s: Stack, clock: nat -> Time, from: nat, n: nat, ks: seq<TxId>)
    requires |s.queue| <= 16 && !(HandsOut(s.run.host) && Enters(w, s, s.run.host.pending[NextId(s.run.host)]))
    requires n == Framed(w, s) && ks == Upto(Eligible(s.run.host), n + 1)
    ensures n <= |ks| && HandedOut(w, s, PumpAll(w, s, clock, from), ks, n)
  {
    if HandsOut(s.run.host) {
      PhaseRefused(w, s, clock, from, NextId(s.run.host), Upto(Eligible(s.run.host), 1));
    } else {
      PhaseWithout(w, s, clock, from);
    }
  }

  /** The first request gets a frame, and the phase goes on with the others. */
  lemma PhaseGoesOn(w: Wire, s: Stack, clock: nat -> Time, from: nat, k: TxId, s1: Stack)
    requires |s.queue| <= 16 && HandsOut(s.run.host) && k == NextId(s.run.host) && Enters(w, s, s.run.host.pending[k])
    requires NoTelemetry(s.run.host.pending, Eligible(s.run.host)) && s1 == PumpOnce(w, s, clock(from))
    ensures |s1.queue| <= 16 && s1.serial == (s.serial + 1) % 256 && Framed(w, s) == 1 + Framed(w, s1)
    ensures Essential(s1.queue) == Essential(s.queue) + [EntryOf(w, s.serial, s.run.host.pending[k])]
    ensures s1.run.host.inflightCount == s.run.host.inflightCount + 1 && s1.run.host.window == s.run.host.window
    ensures SameRequests(s.run.host.pending, s1.run.host.pending)
    ensures Waiting(s.run.host.queue, s.run.host.pending) == [k] + Waiting(s1.run.host.queue, s1.run.host.pending)
    ensures Eligible(s.run.host) == [k] + Eligible(s1.run.host)
    ensures forall j :: j in s.run.host.pending ==>
               s1.run.host.pending[j].inflight == (s.run.host.pending[j].inflight || j == k)
    ensures NoTelemetry(s1.run.host.pending, Eligible(s1.run.host))
  {
    var h := s.run.host;
    HandsOutIff(h);
    HandOutBooks(h, clock(from), Pump(h, clock(from)));
    HandOutTakesFirst(h, clock(from), Pump(h, clock(from)), k);
    RoundEnters(w, s, clock(from), s1, k);
    FramedFirst(w, s, s1, k);
    StillNoTelemetry(h.pending, s1.run.host.pending, Eligible(h), Eligible(s1.run.host));
  }

  lemma PhaseComposed(w: Wire, s: Stack, clock: nat -> Time, from: nat, k: TxId, s1: Stack, s2: Stack,
                      more: seq<TxId>, ks: seq<TxId>, n: nat, m: nat)
    requires |s.queue| <= 16 && HandsOut(s.run.host) && k == NextId(s.run.host) && Enters(w, s, s.run.host.pending[k])
    requires NoTelemetry(s.run.host.pending, Eligible(s.run.host)) && s1 == PumpOnce(w, s, clock(from))
    requires n <= |more| && m == n + 1 && ks == [k] + more && forall j :: j in more ==> j in s1.run.host.pending
    requires HandedOut(w, s1, s2, more, n)
    ensures (forall j :: j in ks ==> j in s.run.host.pending) && HandedOut(w, s, s2, ks, m)
  {
    PhaseGoesOn(w, s, clock, from, k, s1);
    HandedOutFirst(w, s, s1, s2, k, more, ks, n, m);
  }

  lemma PhaseUnfolds(w: Wire, s: Stack, clock: nat -> Time, from: nat, s1: Stack)
    requires HandsOut(s.run.host) && Enters(w, s, s.run.host.pending[NextId(s.run.host)]) && s1 == PumpOnce(w, s, clock(from))
    ensures PumpAll(w, s, clock, from) == PumpAll(w, s1, clock, from + 1)
  {
  }

  /** What the rest of the phase starts from. */
  lemma PhaseShrinks(w: Wire, s: Stack, clock: nat -> Time, from: nat, k: TxId, s1: Stack, n: nat,
                     ks: seq<TxId>, more: seq<TxId>)
    requires |s.queue| <= 16 && HandsOut(s.run.host) && k == NextId(s.run.host) && Enters(w, s, s.run.host.pending[k])
    requires NoTelemetry(s.run.host.pending, Eligible(s.run.host)) && s1 == PumpOnce(w, s, clock(from))
    requires n == Framed(w, s) && ks == Upto(Eligible(s.run.host), n + 1) && more == Upto(Eligible(s1.run.host), n)
    ensures |s1.queue| <= 16 && NoTelemetry(s1.run.host.pending, Eligible(s1.run.host))
    ensures n == 1 + Framed(w, s1) && ks == [k] + more && Free(s1.run.host) < Free(s.run.host)
  {
    PhaseGoesOn(w, s, clock, from, k, s1);
    UptoOneMore(k, Eligible(s1.run.host), Eligible(s.run.host), n, ks, more);
  }

  /** Requests are handed out in order until the window is full, none waits, or one gets no frame, because
      it cannot be serialised or the queue is full of frames that are no telemetry. */
  lemma {:induction false} HandOutsQueued(w: Wire, s: Stack, clock: nat -> Time, from: nat, n: nat, ks: seq<TxId>)
    requires |s.queue| <= 16 && NoTelemetry(s.run.host.pending, Eligible(s.run.host))
    requires n == Framed(w, s) && ks == Upto(Eligible(s.run.host), n + 1)
    ensures n <= |ks| && HandedOut(w, s, PumpAll(w, s, clock, from), ks, n)
    decreases Free(s.run.host)
  {
    if HandsOut(s.run.host) && Enters(w, s, s.run.host.pending[NextId(s.run.host)]) {
      var k, s1 := NextId(s.run.host), PumpOnce(w, s, clock(from));
      var s2, more := PumpAll(w, s1, clock, from + 1), Upto(Eligible(s1.run.host), n);
      PhaseUnfolds(w, s, clock, from, s1);
      PhaseShrinks(w, s, clock, from, k, s1, n, ks, more);
      HandOutsQueued(w, s1, clock, from + 1, n - 1, more);
      PhaseComposed(w, s, clock, from, k, s1, s2, more, ks, n - 1, n);
    } else {
      PhaseEnds(w, s, clock, from, n, ks);
    }
  }

  /** When the phase is over, the window is full, or nothing waits any more, or a request in flight cannot
      be serialised, or the queue is full and holds no telemetry. */
  lemma {:induction false} HandOutsStop(w: Wire, s: Stack, clock: nat -> Time, from: nat)
    ensures var s' := PumpAll(w, s, clock, from);
            var h := s'.run.host;
            || h.inflightCount >= h.window
            || Waiting(h.queue, h.pending) == []
            || (exists k :: k in h.pending && h.pending[k].inflight && !w.known(PacketOf(h.pending[k])))
            || (|s'.queue| >= 16 && forall e :: e in s'.queue ==> !e.telemetry)
    decreases Free(s.run.host)
  {
    var h, s1 := s.run.host, PumpOnce(w, s, clock(from));
    WaitingSkips(h.queue, h.pending);
    if HandsOut(h) && Enters(w, s, h.pending[NextId(h)]) {
      HandOutsStop(w, s1, clock, from + 1);
    } else if HandsOut(h) && !w.known(PacketOf(h.pending[NextId(h)])) {
      assert PacketOf(s1.run.host.pending[NextId(h)]) == PacketOf(h.pending[NextId(h)]);
    }
  }

  // ---- What a cycle sends ----

  /** A frame at the head of the queue that is no telemetry stays there. */
  lemma HeadStays(w: Wire, s: Stack, p: Pending)
    requires s.queue != [] && !s.queue[0].telemetry
    ensures var q := Enqueue(w, s, p).queue; q != [] && q[0] == s.queue[0]
  {
  }

  lemma {:induction false} HeadStaysInPhase(w: Wire, s: Stack, clock: nat -> Time, from: nat)
    requires s.queue != [] && !s.queue[0].telemetry
    ensures var q := PumpAll(w, s, clock, from).queue; q != [] && q[0] == s.queue[0]
    decreases Free(s.run.host)
  {
    var h, s1 := s.run.host, PumpOnce(w, s, clock(from));
    if HandsOut(h) {
      HeadStays(w, s.(run := s1.run), h.pending[NextId(h)]);
      if Enters(w, s, h.pending[NextId(h)]) {
        HeadStaysInPhase(w, s1, clock, from + 1);
      }
    }
  }

  lemma {:induction false} HeadStaysInRetries(w: Wire, s: Stack, pending: map<TxId, Pending>, ids: seq<TxId>)
    requires s.queue != [] && !s.queue[0].telemetry && forall k :: k in ids ==> k in pending
    ensures var q := EnqueueAll(w, s, pending, ids).queue; q != [] && q[0] == s.queue[0]
    decreases |ids|
  {
    if ids != [] {
      HeadStays(w, s, pending[ids[0]]);
      HeadStaysInRetries(w, Enqueue(w, s, pending[ids[0]]), pending, ids[1..]);
    }
  }

  /** If a frame at the head of the queue is no telemetry, the cycle sends it if the transport takes it, and
      keeps it there if not. */
  lemma CycleSendsOldest(w: Wire, s: Stack, handOut: nat -> Time, now: Time, clock: TxId -> Time, ids: seq<TxId>)
    requires s.queue != [] && !s.queue[0].telemetry && InSomeOrder(ids, PumpAll(w, s, handOut, 0), now)
    ensures var s' := PumpAll(w, s, handOut, 0);
            && Finished(w, s', now, clock, ids, true).1 == [s.queue[0].frame]
            && Finished(w, s', now, clock, ids, false).1 == []
            && var q := Finished(w, s', now, clock, ids, false).0.queue; q != [] && q[0] == s.queue[0]
  {
    var s' := PumpAll(w, s, handOut, 0);
    HeadStaysInPhase(w, s, handOut, 0);
    HeadStaysInRetries(w, s'.(run := Apply(s'.run, DoPoll(now, clock))), s'.run.host.pending, ids);
  }

  /** With nothing in the queue of frames, a cycle hands out the first request that waits, if the window has
      room, and sends its frame at once. */
  lemma CycleSendsFirst(w: Wire, s: Stack, packets: seq<Arrived>, arrival: nat -> Time, handOut: nat -> Time,
                        now: Time, clock: TxId -> Time, ids: seq<TxId>, k: TxId)
    requires s.device.seen != [] && s.run.host.seenResponses != []
    requires var s0 := HandleAll(w, s, packets, arrival).0;
             var h := s0.run.host;
             && s0.queue == [] && h.inflightCount < h.window && Waiting(h.queue, h.pending) != []
             && k == Waiting(h.queue, h.pending)[0]
             && w.known(PacketOf(h.pending[k])) && !(0x6000 <= h.pending[k].requestCmd <= 0x60FF)
    requires InSomeOrder(ids, Pumped(w, s, packets, arrival, handOut), now)
    ensures var (s0, s') := (HandleAll(w, s, packets, arrival).0, Pumped(w, s, packets, arrival, handOut));
            var f := w.encode(s0.serial, PacketOf(s0.run.host.pending[k]));
            && s'.queue != [] && s'.queue[0].frame == f
            && k in s'.run.host.pending && s'.run.host.pending[k].inflight
            && Finished(w, s', now, clock, ids, true).1 == [f]
  {
    var s0 := HandleAll(w, s, packets, arrival).0;
    FirstHandedOut(w, s0, handOut, k);
    var s1 := PumpOnce(w, s0, handOut(0));
    HeadStaysInPhase(w, s1, handOut, 1);
    InflightStays(w, s1, handOut, 1, k);
    var s' := PumpAll(w, s1, handOut, 1);
    HeadStaysInRetries(w, s'.(run := Apply(s'.run, DoPoll(now, clock))), s'.run.host.pending, ids);
  }

  lemma FirstHandedOut(w: Wire, s: Stack, clock: nat -> Time, k: TxId)
    requires s.queue == [] && s.run.host.inflightCount < s.run.host.window
    requires Waiting(s.run.host.queue, s.run.host.pending) != [] && k == Waiting(s.run.host.queue, s.run.host.pending)[0]
    requires w.known(PacketOf(s.run.host.pending[k])) && !(0x6000 <= s.run.host.pending[k].requestCmd <= 0x60FF)
    ensures var s1 := PumpOnce(w, s, clock(0));
            && s1.queue == [EntryOf(w, s.serial, s.run.host.pending[k])]
            && k in s1.run.host.pending && s1.run.host.pending[k].inflight
            && PumpAll(w, s, clock, 0) == PumpAll(w, s1, clock, 1)
  {
    WaitingSkips(s.run.host.queue, s.run.host.pending);
    HandsOutIff(s.run.host);
  }

  lemma {:induction false} InflightStays(w: Wire, s: Stack, clock: nat -> Time, from: nat, k: TxId)
    requires k in s.run.host.pending && s.run.host.pending[k].inflight
    ensures var h := PumpAll(w, s, clock, from).run.host; k in h.pending && h.pending[k].inflight
    decreases Free(s.run.host)
  {
    var h := s.run.host;
    if HandsOut(h) && Enters(w, s, h.pending[NextId(h)]) {
      InflightStays(w, PumpOnce(w, s, clock(from)), clock, from + 1, k);
    }
  }
}

/** A ring shared by one producer and one consumer, as a system of interleaved steps. */
module IsrRing {
  import opened Basics
  import opened Bits
  import opened Wrapping

  // Each side reads the other's counter once, copies bytes one by one, then publishes.

  datatype Producer = Ready | Copying(data: seq<Byte>, copied: set<nat>)

  datatype Consumer = Waiting | Taking(n: nat, got: map<nat, Byte>)

  /** The shared words, the two sides, and the bytes accepted and delivered so far. */
  datatype Ring = Ring(
    buf: seq<Byte>, writeIdx: nat, readIdx: nat, dropCount: nat,
    producer: Producer, consumer: Consumer,
    accepted: seq<Byte>, delivered: seq<Byte>)

  /** The capacity is a power of two, and so divides the word size; it is not the word size itself. */
  predicate Sizes(word: nat, capacity: nat) {
    0 < capacity < word && word % capacity == 0
  }

  datatype Step =
    | StartWrite(data: seq<Byte>)
    | CopyIn(i: nat)
    | Publish
    | StartRead(max: nat)
    | CopyOut(i: nat)
    | Advance

  predicate Enabled(s: Ring, step: Step) {
    match step
    case StartWrite(_) => s.producer.Ready?
    case CopyIn(i) => s.producer.Copying? && i < |s.producer.data| && i !in s.producer.copied
    case Publish => s.producer.Copying? && forall i :: 0 <= i < |s.producer.data| ==> i in s.producer.copied
    case StartRead(_) => s.consumer.Waiting?
    case CopyOut(i) => s.consumer.Taking? && i < s.consumer.n && i !in s.consumer.got
    case Advance => s.consumer.Taking? && forall i :: 0 <= i < s.consumer.n ==> i in s.consumer.got
  }

  /** What a write decides from the one look at the consumer's counter. */
  predicate Refused(word: nat, capacity: nat, s: Ring, len: nat)
    requires Sizes(word, capacity)
  {
    len > capacity || len > Sub(word, capacity, Sub(word, s.writeIdx, s.readIdx))
  }

  function Next(word: nat, capacity: nat, s: Ring, step: Step): Ring
    requires Sizes(word, capacity) && |s.buf| == capacity && Enabled(s, step)
    requires step.CopyIn? ==> |s.producer.data| <= capacity
    requires step.CopyOut? ==> s.consumer.n <= capacity
  {
    match step
    case StartWrite(data) =>
      if Refused(word, capacity, s, |data|) then s.(dropCount := s.dropCount + 1)
      else s.(producer := Copying(data, {}))
    case CopyIn(i) =>
      s.(buf := s.buf[Slot(capacity, s.writeIdx % capacity, i) := s.producer.data[i]],
         producer := s.producer.(copied := s.producer.copied + {i}))
    case Publish =>
      s.(writeIdx := (s.writeIdx + |s.producer.data|) % word, producer := Ready,
         accepted := s.accepted + s.producer.data)
    case StartRead(max) =>
      var avail := Sub(word, s.writeIdx, s.readIdx);
      if avail == 0 || max == 0 then s else s.(consumer := Taking(Min(max, avail), map[]))
    case CopyOut(i) =>
      s.(consumer := s.consumer.(got := s.consumer.got[i := s.buf[Slot(capacity, s.readIdx % capacity, i)]]))
    case Advance =>
      s.(readIdx := (s.readIdx + s.consumer.n) % word, consumer := Waiting,
         delivered := s.delivered + seq(s.consumer.n, i requires 0 <= i < s.consumer.n => s.consumer.got[i]))
  }

  // ---- The invariant ----

  /** The counters are those of all bytes ever accepted and delivered, wrapped. */
  ghost predicate CountersOk(word: nat, capacity: nat, s: Ring)
    requires Sizes(word, capacity)
  {
    && |s.buf| == capacity
    && |s.delivered| <= |s.accepted| <= |s.delivered| + capacity
    && s.writeIdx == |s.accepted| % word && s.readIdx == |s.delivered| % word
  }

  /** What was delivered is what was accepted, in order. */
  ghost predicate InOrder(s: Ring) {
    s.delivered <= s.accepted
  }

  /** Each accepted byte not yet delivered is in its cell. */
  ghost predicate StoredOk(capacity: nat, s: Ring)
    requires capacity > 0 && |s.buf| == capacity
  {
    forall k :: |s.delivered| <= k < |s.accepted| ==> s.buf[k % capacity] == s.accepted[k]
  }

  /** A write under way has room, and its bytes copied so far are in the cells behind those stored. */
  ghost predicate ProducerOk(capacity: nat, s: Ring)
    requires capacity > 0 && |s.buf| == capacity
  {
    s.producer.Copying? ==>
      && |s.accepted| + |s.producer.data| <= |s.delivered| + capacity
      && forall i :: 0 <= i < |s.producer.data| && i in s.producer.copied ==>
           s.buf[(|s.accepted| + i) % capacity] == s.producer.data[i]
  }

  /** A read under way takes bytes that are stored, and those taken so far are the right ones. */
  ghost predicate ConsumerOk(s: Ring) {
    s.consumer.Taking? ==>
      && |s.delivered| + s.consumer.n <= |s.accepted|
      && forall i :: 0 <= i < s.consumer.n && i in s.consumer.got ==>
           s.consumer.got[i] == s.accepted[|s.delivered| + i]
  }

  ghost predicate Inv(word: nat, capacity: nat, s: Ring)
    requires Sizes(word, capacity)
  {
    CountersOk(word, capacity, s) && InOrder(s) && StoredOk(capacity, s) && ProducerOk(capacity, s) && ConsumerOk(s)
  }

  /** A write is refused exactly when its bytes do not fit beside those not yet delivered. */
  lemma RefusedMeans(word: nat, capacity: nat, s: Ring, len: nat)
    requires Sizes(word, capacity) && CountersOk(word, capacity, s)
    ensures Refused(word, capacity, s, len) <==> |s.accepted| + len > |s.delivered| + capacity
  {
    var used := |s.accepted| - |s.delivered|;
    SubIs(word, |s.accepted|, |s.delivered|);
    ModUnique(capacity - used, word, 0, capacity - used);
  }

  lemma StartWriteKeeps(word: nat, capacity: nat, s: Ring, step: Step)
    requires Sizes(word, capacity) && Inv(word, capacity, s) && step.StartWrite? && Enabled(s, step)
    ensures Inv(word, capacity, Next(word, capacity, s, step))
  {
    RefusedMeans(word, capacity, s, |step.data|);
  }

  /** The byte copied in goes to a cell that holds no undelivered byte and no other byte of the write. */
  lemma CopyInKeeps(word: nat, capacity: nat, s: Ring, step: Step)
    requires Sizes(word, capacity) && Inv(word, capacity, s) && step.CopyIn? && Enabled(s, step)
    ensures Inv(word, capacity, Next(word, capacity, s, step))
  {
    var n, s' := |s.accepted|, Next(word, capacity, s, step);
    CellOfWrapped(word, capacity, n);
    SlotIs(capacity, n, step.i);
    var at := n + step.i;
    assert s'.buf == s.buf[at % capacity := s.producer.data[step.i]];
    forall k | |s.delivered| <= k < n
      ensures s'.buf[k % capacity] == s.accepted[k]
    {
      CellsDiffer(capacity, k, at);
    }
    forall i | 0 <= i < |s.producer.data| && i in s'.producer.copied
      ensures s'.buf[(n + i) % capacity] == s.producer.data[i]
    {
      if i < step.i {
        CellsDiffer(capacity, n + i, at);
      } else if i > step.i {
        CellsDiffer(capacity, at, n + i);
      }
    }
  }

  lemma PublishKeeps(word: nat, capacity: nat, s: Ring, step: Step)
    requires Sizes(word, capacity) && Inv(word, capacity, s) && step.Publish? && Enabled(s, step)
    ensures Inv(word, capacity, Next(word, capacity, s, step))
  {
    var n, s' := |s.accepted|, Next(word, capacity, s, step);
    AddIs(word, n, |s.producer.data|);
    forall k | |s.delivered| <= k < |s'.accepted|
      ensures s'.buf[k % capacity] == s'.accepted[k]
    {
      if k >= n {
        assert s.buf[(n + (k - n)) % capacity] == s.producer.data[k - n];
      }
    }
  }

  lemma StartReadKeeps(word: nat, capacity: nat, s: Ring, step: Step)
    requires Sizes(word, capacity) && Inv(word, capacity, s) && step.StartRead? && Enabled(s, step)
    ensures Inv(word, capacity, Next(word, capacity, s, step))
  {
    SubIs(word, |s.accepted|, |s.delivered|);
  }

  lemma CopyOutKeeps(word: nat, capacity: nat, s: Ring, step: Step)
    requires Sizes(word, capacity) && Inv(word, capacity, s) && step.CopyOut? && Enabled(s, step)
    ensures Inv(word, capacity, Next(word, capacity, s, step))
  {
    CellOfWrapped(word, capacity, |s.delivered|);
    SlotIs(capacity, |s.delivered|, step.i);
    assert s.buf[(|s.delivered| + step.i) % capacity] == s.accepted[|s.delivered| + step.i];
  }

  lemma AdvanceKeeps(word: nat, capacity: nat, s: Ring, step: Step)
    requires Sizes(word, capacity) && Inv(word, capacity, s) && step.Advance? && Enabled(s, step)
    ensures Inv(word, capacity, Next(word, capacity, s, step))
  {
    AddIs(word, |s.delivered|, s.consumer.n);
    var s' := Next(word, capacity, s, step);
    forall k | 0 <= k < |s'.delivered|
      ensures s'.delivered[k] == s.accepted[k]
    {
      assert k < |s.delivered| ==> s'.delivered[k] == s.delivered[k];
    }
  }

  lemma StepKeeps(word: nat, capacity: nat, s: Ring, step: Step)
    requires Sizes(word, capacity) && Inv(word, capacity, s) && Enabled(s, step)
    ensures Inv(word, capacity, Next(word, capacity, s, step))
  {
    match step
    case StartWrite(_) => StartWriteKeeps(word, capacity, s, step);
    case CopyIn(_) => CopyInKeeps(word, capacity, s, step);
    case Publish => PublishKeeps(word, capacity, s, step);
    case StartRead(_) => StartReadKeeps(word, capacity, s, step);
    case CopyOut(_) => CopyOutKeeps(word, capacity, s, step);
    case Advance => AdvanceKeeps(word, capacity, s, step);
  }

  // ---- Every interleaving ----

  function Empty(capacity: nat): Ring {
    Ring(seq(capacity, _ => 0), 0, 0, 0, Ready, Waiting, [], [])
  }

  /** A run: each state follows from the one before by some enabled step of either side. */
  ghost predicate IsRun(word: nat, capacity: nat, run: seq<Ring>)
    requires Sizes(word, capacity)
  {
    && run != [] && run[0] == Empty(capacity)
    && forall t :: 0 <= t < |run| - 1 ==> Follows(word, capacity, run[t], run[t + 1])
  }

  ghost predicate Follows(word: nat, capacity: nat, s: Ring, s': Ring)
    requires Sizes(word, capacity)
  {
    exists step :: && Enabled(s, step) && |s.buf| == capacity
                   && (step.CopyIn? ==> |s.producer.data| <= capacity) && (step.CopyOut? ==> s.consumer.n <= capacity)
                   && s' == Next(word, capacity, s, step)
  }

  lemma {:induction false} RunsKeep(word: nat, capacity: nat, run: seq<Ring>, t: nat)
    requires Sizes(word, capacity) && IsRun(word, capacity, run) && t < |run|
    ensures Inv(word, capacity, run[t])
  {
    if t > 0 {
      RunsKeep(word, capacity, run, t - 1);
      assert Follows(word, capacity, run[t - 1], run[t - 1 + 1]);
      var step :| Enabled(run[t - 1], step) && run[t] == Next(word, capacity, run[t - 1], step);
      StepKeeps(word, capacity, run[t - 1], step);
    }
  }

  /** The bytes in the ring, oldest first, as its counters delimit them. */
  ghost function Stored(word: nat, capacity: nat, s: Ring): (b: seq<Byte>)
    requires Sizes(word, capacity) && |s.buf| == capacity
  {
    seq(Sub(word, s.writeIdx, s.readIdx), k requires 0 <= k => s.buf[(s.readIdx + k) % capacity])
  }

  lemma StoredIs(word: nat, capacity: nat, s: Ring)
    requires Sizes(word, capacity) && Inv(word, capacity, s)
    ensures s.delivered + Stored(word, capacity, s) == s.accepted
  {
    var stored, n := Stored(word, capacity, s), |s.delivered|;
    SubIs(word, |s.accepted|, n);
    forall k | 0 <= k < |stored|
      ensures stored[k] == s.accepted[n + k]
    {
      CellOfWrapped(word, capacity, n);
      AddIs(capacity, s.readIdx, k);
      AddIs(capacity, n, k);
      assert s.buf[(n + k) % capacity] == s.accepted[n + k];
    }
  }

  /** In every interleaving, at every moment: the bytes delivered, followed by those stored, are
      the bytes accepted. No byte is lost, repeated or overwritten before it is read, however
      often the counters have wrapped around. */
  lemma NothingLost(word: nat, capacity: nat, run: seq<Ring>, t: nat)
    requires Sizes(word, capacity) && IsRun(word, capacity, run) && t < |run|
    ensures |run[t].buf| == capacity
    ensures run[t].delivered + Stored(word, capacity, run[t]) == run[t].accepted
  {
    RunsKeep(word, capacity, run, t);
    StoredIs(word, capacity, run[t]);
  }

  /** When all its bytes are copied, a write appends them to what is stored. */
  lemma PublishStores(word: nat, capacity: nat, run: seq<Ring>, t: nat)
    requires Sizes(word, capacity) && IsRun(word, capacity, run) && t < |run| && Enabled(run[t], Publish)
    ensures |run[t].buf| == capacity
    ensures var (s, s') := (run[t], Next(word, capacity, run[t], Publish));
            && |s'.buf| == capacity && s'.delivered == s.delivered
            && Stored(word, capacity, s') == Stored(word, capacity, s) + s.producer.data
  {
    RunsKeep(word, capacity, run, t);
    var s, s' := run[t], Next(word, capacity, run[t], Publish);
    StepKeeps(word, capacity, s, Publish);
    StoredIs(word, capacity, s);
    StoredIs(word, capacity, s');
    Cancelled(s.delivered, Stored(word, capacity, s'), Stored(word, capacity, s) + s.producer.data,
              s.accepted + s.producer.data);
  }

  /** A read sets out to take as many bytes as are asked for and stored at that moment. */
  lemma ReadTakes(word: nat, capacity: nat, run: seq<Ring>, t: nat, max: nat, n: nat)
    requires Sizes(word, capacity) && IsRun(word, capacity, run) && t < |run| && run[t].consumer.Waiting?
    requires |run[t].buf| == capacity && n == Min(max, |Stored(word, capacity, run[t])|)
    ensures Next(word, capacity, run[t], StartRead(max))
            == if n == 0 then run[t] else run[t].(consumer := Taking(n, map[]))
  {
  }

  /** When all its bytes are copied, a read delivers the oldest ones stored, and they are gone. */
  lemma AdvanceDelivers(word: nat, capacity: nat, run: seq<Ring>, t: nat, n: nat)
    requires Sizes(word, capacity) && IsRun(word, capacity, run) && t < |run| && Enabled(run[t], Advance)
    requires n == run[t].consumer.n
    ensures |run[t].buf| == capacity && n <= |Stored(word, capacity, run[t])|
    ensures var (s, s') := (run[t], Next(word, capacity, run[t], Advance));
            && |s'.buf| == capacity && s'.accepted == s.accepted
            && s'.delivered == s.delivered + Stored(word, capacity, s)[..n]
            && Stored(word, capacity, s') == Stored(word, capacity, s)[n..]
  {
    RunsKeep(word, capacity, run, t);
    var s, s' := run[t], Next(word, capacity, run[t], Advance);
    StepKeeps(word, capacity, s, Advance);
    StoredIs(word, capacity, s);
    StoredIs(word, capacity, s');
    Delivered(s.delivered, Stored(word, capacity, s), s'.delivered, Stored(word, capacity, s'), s.accepted, n);
  }

  lemma Cancelled(a: seq<Byte>, b: seq<Byte>, c: seq<Byte>, whole: seq<Byte>)
    requires a + b == whole == a + c
    ensures b == c
  {
    assert b == (a + b)[|a|..] && c == (a + c)[|a|..];
  }

  lemma Delivered(a: seq<Byte>, stored: seq<Byte>, a': seq<Byte>, stored': seq<Byte>, whole: seq<Byte>, n: nat)
    requires a + stored == whole == a' + stored' && |a'| == |a| + n && n <= |stored|
    ensures a' == a + stored[..n] && stored' == stored[n..]
  {
    assert a' == (a' + stored')[..|a'|] == (a + stored)[..|a'|] == a + stored[..n];
    assert stored' == (a' + stored')[|a'|..] == (a + stored)[|a'|..] == stored[n..];
  }

  /** A refused write changes nothing but the drop count, and is refused only for lack of room. */
  lemma RefusedChangesNothing(word: nat, capacity: nat, run: seq<Ring>, t: nat, data: seq<Byte>)
    requires Sizes(word, capacity) && IsRun(word, capacity, run) && t < |run| && run[t].producer.Ready?
    ensures |run[t].buf| == capacity
    ensures var s := run[t];
            var s' := Next(word, capacity, s, StartWrite(data));
            if |Stored(word, capacity, s)| + |data| > capacity then s' == s.(dropCount := s.dropCount + 1)
            else s' == s.(producer := Copying(data, {}))
  {
    RunsKeep(word, capacity, run, t);
    RefusedMeans(word, capacity, run[t], |data|);
    SubIs(word, |run[t].accepted|, |run[t].delivered|);
  }
}

/** The bounded queue of frames waiting to be sent: what is dropped when it is full. */
module TxQueues {
  import opened Basics
  import opened Bits
  import opened Framing

  const TX_QUEUE_CAP: nat := 16
  const MAX_FRAME_SIZE: nat := 512

  type Frame = seq<Byte>

  datatype TxEntry = TxEntry(frame: Frame, telemetry: bool)

  predicate IsTelemetryCmd(cmd: nat) {
    0x6000 <= cmd <= 0x60FF
  }

  predicate IsTelemetryFrame(frame: Frame) {
    |frame| >= 7 && IsTelemetryCmd(U16(frame[5], frame[6]))
  }

  /** Where the first telemetry entry is; the length of the queue if there is none. */
  function FirstTelemetry(q: seq<TxEntry>): (i: nat)
    ensures i <= |q|
    ensures forall j :: 0 <= j < i ==> !q[j].telemetry
    ensures i < |q| ==> q[i].telemetry
  {
    if q == [] || q[0].telemetry then 0 else 1 + FirstTelemetry(q[1..])
  }

  /** The queue without its entry at `i`; an `i` beyond the end removes nothing. */
  function Without<T>(q: seq<T>, i: nat): (r: seq<T>) {
    if i < |q| then q[..i] + q[i + 1..] else q
  }

  lemma Around<T>(q: seq<T>, i: nat)
    requires i < |q|
    ensures q[..i] + [q[i]] + q[i + 1..] == q
  {
  }

  /** The entry that makes room: none if there is room, else the oldest telemetry, else the newest entry. */
  function Victim(q: seq<TxEntry>): (i: nat) {
    if |q| < TX_QUEUE_CAP then |q|
    else if FirstTelemetry(q) < |q| then FirstTelemetry(q)
    else |q| - 1
  }

  /** A queue, and whether the frame got into it. */
  datatype Enqueued = Enqueued(queue: seq<TxEntry>, ok: bool)

  /** A frame built beforehand. With no priority and no telemetry it has to find room. */
  function EnqueuePrebuilt(q: seq<TxEntry>, frame: Frame, priority: bool): (r: Enqueued) {
    if |frame| > MAX_FRAME_SIZE || (|q| >= TX_QUEUE_CAP && !priority && !IsTelemetryFrame(frame))
    then Enqueued(q, false)
    else Enqueued(Without(q, Victim(q)) + [TxEntry(frame, IsTelemetryFrame(frame))], true)
  }

  /** A request on the books; `frame` is None if it could not be serialised. Telemetry makes
      room for it, and does so even if it then turns out not to be serialisable. */
  function EnqueuePending(q: seq<TxEntry>, cmd: nat, frame: Option<Frame>): (r: Enqueued) {
    if |q| >= TX_QUEUE_CAP && FirstTelemetry(q) == |q| then Enqueued(q, false)
    else
      var room := Without(q, Victim(q));
      match frame
      case None => Enqueued(room, false)
      case Some(f) => Enqueued(room + [TxEntry(f, IsTelemetryCmd(cmd))], true)
  }

  /** A reply always gets in. Nothing but telemetry is lost for it, unless the full queue
      holds none; and what stays keeps its order. */
  lemma PriorityAlwaysEnters(q: seq<TxEntry>, frame: Frame)
    requires |frame| <= 512 && |q| <= 16
    ensures var r := EnqueuePrebuilt(q, frame, true);
            && r.ok && |r.queue| <= 16 && r.queue[|r.queue| - 1].frame == frame
            && (exists i :: 0 <= i <= |q| && r.queue[..|r.queue| - 1] == Without(q, i)
                            && (i < |q| ==> |q| == 16)
                            && (i < |q| && !q[i].telemetry ==>
                                  i == |q| - 1 && forall e :: e in q ==> !e.telemetry))
  {
    var r := EnqueuePrebuilt(q, frame, true);
    assert r.queue[..|r.queue| - 1] == Without(q, Victim(q));
  }

  /** A request takes the place of telemetry only, and is refused exactly when a full queue
      holds none or it cannot be serialised. */
  lemma RequestsDropOnlyTelemetry(q: seq<TxEntry>, cmd: nat, frame: Option<Frame>)
    requires |q| <= 16
    ensures var r := EnqueuePending(q, cmd, frame);
            && |r.queue| <= 16
            && (r.ok <==> frame.Some? && (|q| == 16 ==> exists e :: e in q && e.telemetry))
            && (forall e :: e in q && !e.telemetry ==> e in r.queue)
  {
    var i := Victim(q);
    var r := EnqueuePending(q, cmd, frame);
    forall e | e in q && !e.telemetry
      ensures e in r.queue
    {
      var k :| 0 <= k < |q| && q[k] == e;
      if r.queue != q {
        assert k != i;
        assert Without(q, i)[if k < i then k else k - 1] == e;
      }
    }
    if FirstTelemetry(q) < |q| {
      assert q[FirstTelemetry(q)].telemetry;
    }
  }

  /** In a full queue it is the oldest telemetry that goes, for replies, broadcasts of telemetry and requests
      alike; for a request even if that turns out not to be serialisable, and nothing enters. */
  lemma OldestTelemetryGoes(q: seq<TxEntry>, i: nat, frame: Frame, priority: bool, cmd: nat, request: Option<Frame>)
    requires |q| == 16 && i < 16 && q[i].telemetry && (forall j :: 0 <= j < i ==> !q[j].telemetry)
    requires |frame| <= 512 && (priority || IsTelemetryFrame(frame))
    ensures EnqueuePrebuilt(q, frame, priority).queue == q[..i] + q[i + 1..] + [TxEntry(frame, IsTelemetryFrame(frame))]
    ensures EnqueuePending(q, cmd, request).queue
            == q[..i] + q[i + 1..] + if request.Some? then [TxEntry(request.value, 0x6000 <= cmd <= 0x60FF)] else []
  {
    assert FirstTelemetry(q) == i;
    assert q[..i] + q[i + 1..] + [] == q[..i] + q[i + 1..];
  }

  /** A frame with no priority that is no telemetry enters exactly when there is room, and displaces nothing. */
  lemma OrdinaryNeedsRoom(q: seq<TxEntry>, frame: Frame)
    requires !IsTelemetryFrame(frame)
    ensures var r := EnqueuePrebuilt(q, frame, false);
            && (r.ok <==> |frame| <= 512 && |q| < 16)
            && r.queue == q + if r.ok then [TxEntry(frame, false)] else []
  {
    assert q + [] == q;
  }

  // ---- What a broadcast displaces ----

  /** The entries that are no telemetry, in order. */
  function Essential(q: seq<TxEntry>): seq<TxEntry> {
    if q == [] then [] else (if q[0].telemetry then [] else [q[0]]) + Essential(q[1..])
  }

  lemma {:induction false} EssentialConcat(a: seq<TxEntry>, b: seq<TxEntry>)
    ensures Essential(a + b) == Essential(a) + Essential(b)
    decreases |a|
  {
    if a == [] {
      assert a + b == b;
    } else {
      EssentialConcat(a[1..], b);
      assert (a + b)[1..] == a[1..] + b;
    }
  }

  lemma {:induction false} EssentialAll(q: seq<TxEntry>)
    requires forall i :: 0 <= i < |q| ==> !q[i].telemetry
    ensures Essential(q) == q
    decreases |q|
  {
    if q != [] {
      EssentialAll(q[1..]);
    }
  }

  lemma EssentialOne(q: seq<TxEntry>, e: TxEntry)
    requires q == [e]
    ensures Essential(q) == if e.telemetry then [] else q
  {
    assert q[1..] == [];
  }

  lemma EssentialAround(front: seq<TxEntry>, e: TxEntry, back: seq<TxEntry>)
    requires e.telemetry
    ensures Essential(front + [e] + back) == Essential(front + back)
  {
    EssentialConcat(front + [e], back);
    EssentialConcat(front, [e]);
    EssentialOne([e], e);
    EssentialConcat(front, back);
  }

  lemma EssentialWithout(q: seq<TxEntry>, i: nat)
    requires i < |q| ==> q[i].telemetry
    ensures Essential(Without(q, i)) == Essential(q)
  {
    if i < |q| {
      EssentialAround(q[..i], q[i], q[i + 1..]);
      Around(q, i);
    }
  }

  /** A telemetry broadcast always gets in. It displaces a reply or a request, the newest one,
      exactly when the queue is full and holds no telemetry. */
  lemma BroadcastDisplacesIff(q: seq<TxEntry>, frame: Frame)
    requires |frame| <= 512 && |q| <= 16 && IsTelemetryFrame(frame)
    ensures var r := EnqueuePrebuilt(q, frame, false);
            && r.ok && r.queue != [] && r.queue[|r.queue| - 1] == TxEntry(frame, true)
            && Essential(r.queue) == if |q| == 16 && (forall i :: 0 <= i < |q| ==> !q[i].telemetry)
                                     then q[..|q| - 1] else Essential(q)
  {
    var room, e := Without(q, Victim(q)), TxEntry(frame, true);
    EssentialConcat(room, [e]);
    EssentialOne([e], e);
    if |q| == TX_QUEUE_CAP && FirstTelemetry(q) == |q| {
      EssentialAll(room);
    } else {
      EssentialWithout(q, Victim(q));
    }
  }
}

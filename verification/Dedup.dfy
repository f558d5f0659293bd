/** The ring of recently accepted ids. */
module Dedup {

  /** A packed (command, transaction) pair. */
  type Key = nat

  function ComposeDedupKey(cmd: nat, txId: nat): (key: Key)
    requires cmd < 0x1_0000 && txId < 0x1_0000_0000
    ensures key < 0x1_0000_0000_0000
  {
    cmd * 0x1_0000_0000 + txId
  }

  /** Different pairs have different keys, and only the pair of zeros has the key
      that stands for an empty slot. */
  lemma KeyInjective(cmd: nat, txId: nat, cmd': nat, txId': nat)
    requires cmd < 0x1_0000 && txId < 0x1_0000_0000 && cmd' < 0x1_0000 && txId' < 0x1_0000_0000
    ensures ComposeDedupKey(cmd, txId) == ComposeDedupKey(cmd', txId') <==> cmd == cmd' && txId == txId'
    ensures ComposeDedupKey(cmd, txId) == 0 <==> cmd == 0 && txId == 0
  {
  }

  /** The slots of a ring, oldest first. */
  function OldestFirst(ids: seq<Key>, at: nat): (w: seq<Key>)
    requires at <= |ids|
    ensures |w| == |ids|
    ensures forall id :: id in w <==> id in ids
  {
    assert ids == ids[..at] + ids[at..];
    ids[at..] + ids[..at]
  }

  lemma NextSlot(at: nat, n: nat)
    requires at < n
    ensures (at + 1) % n == if at + 1 == n then 0 else at + 1
  {
  }

  lemma Rotated(ids: seq<Key>, at: nat, id: Key, next: nat)
    requires at < |ids| && next == if at + 1 == |ids| then 0 else at + 1
    ensures OldestFirst(ids[at := id], next) == OldestFirst(ids, at)[1..] + [id]
  {
  }

  lemma InsertRotates(ids: seq<Key>, at: nat, id: Key)
    requires at < |ids|
    ensures OldestFirst(ids[at := id], (at + 1) % |ids|) == OldestFirst(ids, at)[1..] + [id]
  {
    NextSlot(at, |ids|);
    Rotated(ids, at, id, (at + 1) % |ids|);
  }

  class IdRingBuffer {
    const ids: array<Key>
    var writeIdx: nat

    ghost predicate Valid()
      reads this
    {
      writeIdx < ids.Length
    }

    /** The slots, oldest first; a slot never written holds zero. */
    ghost function Window(): (w: seq<Key>)
      requires Valid()
      reads this, ids
      ensures |w| == ids.Length
    {
      OldestFirst(ids[..], writeIdx)
    }

    constructor (capacity: nat)
      requires capacity > 0
      ensures Valid() && fresh(ids) && ids.Length == capacity
      ensures Window() == EmptySlots(capacity)
    {
      ids := new Key[capacity](_ => 0);
      writeIdx := 0;
    }

    method TestAndInsert(id: Key) returns (seen: bool)
      requires Valid()
      modifies this, ids
      ensures Valid()
      ensures seen <==> id in old(Window())
      ensures Window() == Insert(old(Window()), id)
    {
      for i := 0 to ids.Length
        invariant id !in ids[..i]
      {
        if ids[i] == id {
          assert id in ids[..];
          return true;
        }
      }
      assert ids[..ids.Length] == ids[..];
      InsertRotates(ids[..], writeIdx, id);
      ids[writeIdx] := id;
      writeIdx := (writeIdx + 1) % ids.Length;
      return false;
    }

    method Clear()
      requires Valid()
      modifies this, ids
      ensures Valid() && Window() == EmptySlots(ids.Length)
    {
      forall i | 0 <= i < ids.Length {
        ids[i] := 0;
      }
      writeIdx := 0;
    }
  }

  function EmptySlots(n: nat): (z: seq<Key>)
    ensures |z| == n && forall i :: 0 <= i < n ==> z[i] == 0
  {
    seq(n, _ => 0)
  }

  /** The window after one call. */
  function Insert(window: seq<Key>, id: Key): (w: seq<Key>)
    requires window != []
    ensures |w| == |window|
  {
    if id in window then window else window[1..] + [id]
  }

  // ---- Any sequence of calls ----

  /** The ids accepted (reported as not seen) in a sequence of calls on a ring of `capacity` slots. */
  function Accepted(capacity: nat, calls: seq<Key>): (a: seq<Key>)
    requires capacity > 0
  {
    if calls == [] then []
    else
      var before, id := Accepted(capacity, calls[..|calls| - 1]), calls[|calls| - 1];
      if id in Recent(capacity, before) then before else before + [id]
  }

  /** The last `capacity` accepted ids, with zeros in the slots not yet used. */
  function Recent(capacity: nat, accepted: seq<Key>): (r: seq<Key>)
    ensures |r| == capacity
  {
    (EmptySlots(capacity) + accepted)[|accepted|..]
  }

  /** The window after a sequence of calls. */
  function WindowAfter(capacity: nat, calls: seq<Key>): (w: seq<Key>)
    requires capacity > 0
    ensures |w| == capacity
  {
    if calls == [] then EmptySlots(capacity)
    else Insert(WindowAfter(capacity, calls[..|calls| - 1]), calls[|calls| - 1])
  }

  /** The ring always holds exactly the last accepted ids. */
  lemma {:induction false} WindowIsRecent(capacity: nat, calls: seq<Key>)
    requires capacity > 0
    ensures WindowAfter(capacity, calls) == Recent(capacity, Accepted(capacity, calls))
    decreases |calls|
  {
    if calls == [] {
      assert EmptySlots(capacity) + [] == EmptySlots(capacity);
    } else {
      WindowIsRecent(capacity, calls[..|calls| - 1]);
      RecentGrows(capacity, Accepted(capacity, calls[..|calls| - 1]), calls[|calls| - 1]);
    }
  }

  lemma RecentGrows(capacity: nat, accepted: seq<Key>, id: Key)
    requires capacity > 0
    ensures Recent(capacity, accepted + [id]) == Recent(capacity, accepted)[1..] + [id]
  {
    var all := EmptySlots(capacity) + accepted;
    assert EmptySlots(capacity) + (accepted + [id]) == all + [id];
  }

  /** A call reports "seen" exactly when the id is among the last `capacity` accepted ones
      or, before that many were accepted, is the zero of an unused slot. */
  lemma SeenMeans(capacity: nat, calls: seq<Key>, id: Key)
    requires capacity > 0
    ensures var a := Accepted(capacity, calls);
            id in WindowAfter(capacity, calls) <==>
            || (id == 0 && |a| < capacity)
            || exists i :: 0 <= i < |a| && |a| - capacity <= i && a[i] == id
  {
    WindowIsRecent(capacity, calls);
    var a := Accepted(capacity, calls);
    var all, w := EmptySlots(capacity) + a, Recent(capacity, a);
    forall i | 0 <= i < |a| && |a| - capacity <= i && a[i] == id
      ensures id in w
    {
      assert w[capacity + i - |a|] == all[capacity + i] == a[i];
    }
    if id == 0 && |a| < capacity {
      assert w[0] == all[|a|] == 0;
    }
    if id in w {
      var k :| 0 <= k < |w| && w[k] == id;
      assert w[k] == all[|a| + k];
      if |a| + k >= capacity {
        assert a[|a| + k - capacity] == id;
      }
    }
  }

  lemma {:induction false} SameIdApart(capacity: nat, calls: seq<Key>, i: nat, j: nat)
    requires capacity > 0 && i < j < |Accepted(capacity, calls)|
    requires Accepted(capacity, calls)[i] == Accepted(capacity, calls)[j]
    ensures j - i - 1 >= capacity
    decreases |calls|
  {
    var rest, id := calls[..|calls| - 1], calls[|calls| - 1];
    var before := Accepted(capacity, rest);
    if j < |before| {
      SameIdApart(capacity, rest, i, j);
    } else if i + capacity >= |before| {
      assert before[i] == id;
      WindowIsRecent(capacity, rest);
      SeenMeans(capacity, rest, id);
    }
  }

  /** Between two acceptances of the same id lie at least `capacity` others; the first `capacity`
      of them are of pairwise different other ids. */
  lemma AcceptancesApart(capacity: nat, calls: seq<Key>, i: nat, j: nat)
    requires capacity > 0 && i < j < |Accepted(capacity, calls)|
    requires Accepted(capacity, calls)[i] == Accepted(capacity, calls)[j]
    ensures j - i - 1 >= capacity
    ensures forall s, t :: i <= s < t <= i + capacity ==> Accepted(capacity, calls)[s] != Accepted(capacity, calls)[t]
  {
    SameIdApart(capacity, calls, i, j);
    var a := Accepted(capacity, calls);
    forall s, t | i <= s < t <= i + capacity
      ensures a[s] != a[t]
    {
      if a[s] == a[t] {
        SameIdApart(capacity, calls, s, t);
        assert false;
      }
    }
  }
}

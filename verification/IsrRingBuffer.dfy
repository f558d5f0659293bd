/** The ring as an object, for calls that do not overlap: what `IsrRing` says of interleaved steps,
    put together for whole calls. */
module IsrRingBuffers {
  import opened Basics
  import opened Bits
  import opened IsrRing
  import opened Memory
  import opened Wrapping

  /** How far cell `j` lies behind the cell a block starts at. */
  function Offset(capacity: nat, start: nat, j: nat): (i: nat)
    requires start < capacity && j < capacity
    ensures i < capacity && Slot(capacity, start, i) == j
  {
    if j >= start then j - start else j + (capacity - start)
  }

  /** The cells after a block was copied in from `start` on, wrapping at the end. */
  function Written(buf: seq<Byte>, start: nat, data: seq<Byte>): (r: seq<Byte>)
    requires start < |buf| && |data| <= |buf|
    ensures |r| == |buf|
  {
    seq(|buf|, j requires 0 <= j < |buf| =>
      if Offset(|buf|, start, j) < |data| then data[Offset(|buf|, start, j)] else buf[j])
  }

  /** One copy does if the block ends before the last cell, else two do. */
  lemma WrittenOnce(buf: seq<Byte>, start: nat, data: seq<Byte>)
    requires start < |buf| && start + |data| <= |buf|
    ensures Overwrite(buf, start, data) == Written(buf, start, data)
  {
  }

  lemma WrittenTwice(buf: seq<Byte>, start: nat, data: seq<Byte>, first: nat)
    requires start < |buf| && first == |buf| - start < |data| <= |buf|
    ensures Overwrite(Overwrite(buf, start, data[..first]), 0, data[first..]) == Written(buf, start, data)
  {
  }

  /** Writing a block that has room leaves every stored byte alone and lands behind the last one. */
  lemma WriteLands(capacity: nat, s: Ring, data: seq<Byte>, buf': seq<Byte>)
    requires |s.buf| == capacity > 0 && StoredOk(capacity, s) && |s.delivered| <= |s.accepted|
    requires |s.accepted| + |data| <= |s.delivered| + capacity
    requires buf' == Written(s.buf, |s.accepted| % capacity, data)
    ensures forall k :: |s.delivered| <= k < |s.accepted| + |data| ==> buf'[k % capacity] == (s.accepted + data)[k]
  {
    var n, start := |s.accepted|, |s.accepted| % capacity;
    forall k | |s.delivered| <= k < n + |data|
      ensures buf'[k % capacity] == (s.accepted + data)[k]
    {
      if k < n {
        forall i | 0 <= i < |data|
          ensures Slot(capacity, start, i) != k % capacity
        {
          SlotIs(capacity, n, i);
          CellsDiffer(capacity, k, n + i);
        }
        assert Offset(capacity, start, k % capacity) >= |data|;
      } else {
        SlotIs(capacity, n, k - n);
        OffsetOfSlot(capacity, start, k - n);
      }
    }
  }

  lemma OffsetOfSlot(capacity: nat, start: nat, i: nat)
    requires start < capacity && i < capacity
    ensures Offset(capacity, start, Slot(capacity, start, i)) == i
  {
  }

  class ISRRingBuffer {
    const buf: array<Byte>
    const word: nat
    var writeIdx: nat
    var readIdx: nat
    var dropCount: nat
    ghost var accepted: seq<Byte>
    ghost var delivered: seq<Byte>

    ghost function State(): Ring
      reads this, buf
    {
      Ring(buf[..], writeIdx, readIdx, dropCount, Ready, Waiting, accepted, delivered)
    }

    ghost predicate Valid()
      reads this, buf
    {
      Sizes(word, buf.Length) && Inv(word, buf.Length, State())
    }

    /** The bytes accepted and not yet delivered. */
    ghost function Contents(): (c: seq<Byte>)
      requires Valid()
      reads this, buf
      ensures |c| <= buf.Length
    {
      accepted[|delivered|..]
    }

    constructor (word: nat, capacity: nat)
      requires Sizes(word, capacity)
      ensures Valid() && accepted == delivered == [] && buf.Length == capacity && fresh(buf)
    {
      buf := new Byte[capacity](_ => 0);
      this.word := word;
      writeIdx, readIdx, dropCount := 0, 0, 0;
      accepted, delivered := [], [];
    }

    method Available() returns (n: nat)
      requires Valid()
      ensures n == |Contents()|
    {
      n := (writeIdx - readIdx) % word;
      SubIs(word, |accepted|, |delivered|);
    }

    /** The memcpy calls of a write. */
    method CopyIn(data: seq<Byte>)
      requires 0 < buf.Length && |data| <= buf.Length
      modifies buf
      ensures buf[..] == Written(old(buf[..]), writeIdx % buf.Length, data)
    {
      var wi := writeIdx % buf.Length;
      var first := buf.Length - wi;
      if |data| <= first {
        WrittenOnce(buf[..], wi, data);
        Copy(buf, wi, data);
      } else {
        WrittenTwice(buf[..], wi, data, first);
        Copy(buf, wi, data[..first]);
        Copy(buf, 0, data[first..]);
      }
    }

    method Write(data: seq<Byte>) returns (ok: bool)
      requires Valid()
      modifies this, buf
      ensures Valid() && delivered == old(delivered)
      ensures ok <==> |old(Contents())| + |data| <= buf.Length
      ensures ok ==> accepted == old(accepted) + data && dropCount == old(dropCount)
      ensures !ok ==> accepted == old(accepted) && dropCount == old(dropCount) + 1 && buf[..] == old(buf[..])
    {
      ghost var s := State();
      RefusedMeans(word, buf.Length, s, |data|);
      if |data| > buf.Length {
        dropCount := dropCount + 1;
        return false;
      }
      var avail := (buf.Length - (writeIdx - readIdx) % word) % word;
      if |data| > avail {
        dropCount := dropCount + 1;
        return false;
      }
      CellOfWrapped(word, buf.Length, |accepted|);
      AddIs(word, |accepted|, |data|);
      CopyIn(data);
      WriteLands(buf.Length, s, data, buf[..]);
      writeIdx := (writeIdx + |data|) % word;
      accepted := accepted + data;
      return true;
    }

    /** The memcpy calls of a read. */
    method CopyOut(n: nat) returns (out: seq<Byte>)
      requires 0 < buf.Length && n <= buf.Length
      ensures |out| == n
      ensures forall i :: 0 <= i < n ==> out[i] == buf[Slot(buf.Length, readIdx % buf.Length, i)]
    {
      var ri := readIdx % buf.Length;
      var first := buf.Length - ri;
      if n <= first {
        out := buf[ri..ri + n];
      } else {
        out := buf[ri..] + buf[..n - first];
      }
    }

    method Read(max: nat) returns (out: seq<Byte>)
      requires Valid()
      modifies this`readIdx, this`delivered
      ensures Valid() && |out| == Min(max, |old(Contents())|)
      ensures delivered == old(delivered) + out && out == old(Contents())[..|out|]
    {
      var avail := Available();
      if avail == 0 || max == 0 {
        return [];
      }
      var n := if max < avail then max else avail;
      out := CopyOut(n);
      CellOfWrapped(word, buf.Length, |delivered|);
      AddIs(word, |delivered|, n);
      forall i | 0 <= i < n
        ensures out[i] == accepted[|delivered| + i]
      {
        SlotIs(buf.Length, |delivered|, i);
        assert buf[..][(|delivered| + i) % buf.Length] == accepted[|delivered| + i];
      }
      assert delivered + out <= accepted;
      readIdx := (readIdx + n) % word;
      delivered := delivered + out;
    }
  }
}

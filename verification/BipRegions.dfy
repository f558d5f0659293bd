/** The geometry of the two regions, apart from the bytes in them. */
module BipRegions {
  import opened Bits
  import opened Memory

  /** Region A is the head of the queue; region B, if any, starts at index 0 and is its tail. */
  datatype Regions = Regions(aStart: nat, aSize: nat, bSize: nat)
  {
    ghost predicate Valid(size: nat) {
      && aStart + aSize <= size
      && (bSize > 0 ==> aSize > 0 && bSize <= aStart)
      && (aSize == 0 ==> aStart == 0)
    }

    function Available(): nat { aSize + bSize }

    /** The free block offered to a writer: its start and its length. */
    function WriteSpan(size: nat): (span: (nat, nat))
      requires aStart + aSize <= size && bSize <= aStart
    {
      if bSize > 0 then (bSize, aStart - bSize)
      else if aStart + aSize < size then (aStart + aSize, size - (aStart + aSize))
      else (0, aStart)
    }

    /** Whether a copy of `n` bytes is accepted: they fit behind the region being
        filled, or region B is unused and they fit in front of region A. */
    predicate Accepts(size: nat, n: nat) {
      || n == 0
      || (bSize > 0 && bSize + n <= aStart)
      || (bSize == 0 && (aStart + aSize + n <= size || n <= aStart))
    }

    function AfterWrite(size: nat, n: nat): (r: Regions)
      requires Valid(size) && Accepts(size, n)
      ensures r.Valid(size) && r.Available() == Available() + n
    {
      if bSize > 0 then this.(bSize := bSize + n)
      else if aStart + aSize + n <= size then this.(aSize := aSize + n)
      else this.(bSize := n)
    }

    lemma FirstWrite(size: nat, n: nat)
      requires this == Regions(0, 0, 0) && n <= size
      ensures Valid(size) && Accepts(size, n) && AfterWrite(size, n) == Regions(0, n, 0)
    {
    }

    /** The blocks (start and length) that hold the slice of the given offset and length. */
    function ReadSpans(offset: nat, length: nat): (spans: ((nat, nat), (nat, nat)))
      ensures offset + length <= Available() ==> spans.0.1 + spans.1.1 == length
      ensures forall size :: Valid(size) ==> spans.0.0 + spans.0.1 <= size && spans.1.0 + spans.1.1 <= size
    {
      if offset + length > Available() then ((0, 0), (0, 0))
      else if offset + length <= aSize && offset < aSize then ((aStart + offset, length), (0, 0))
      else if offset < aSize then ((aStart + offset, aSize - offset), (0, length - (aSize - offset)))
      else ((offset - aSize, length), (0, 0))
    }

    function AfterDiscard(size: nat, n: nat): (r: Regions)
      requires Valid(size) && n <= Available()
      ensures r.Valid(size) && r.Available() == Available() - n
    {
      if n == aSize + bSize then Regions(0, 0, 0)
      else if n < aSize then Regions(aStart + n, aSize - n, bSize)
      else Regions(n - aSize, bSize - (n - aSize), 0)
    }
  }

  /** The queue held in the two regions of an array with the contents `all`. */
  ghost function Queue(all: seq<Byte>, r: Regions): (s: seq<Byte>)
    requires r.Valid(|all|)
    ensures |s| == r.Available()
    ensures forall i :: 0 <= i < |s| ==> s[i] == At(all, r, i)
  {
    seq(r.Available(), i requires 0 <= i < r.Available() => At(all, r, i))
  }

  ghost function At(all: seq<Byte>, r: Regions, i: nat): Byte
    requires r.Valid(|all|) && i < r.Available()
  {
    if i < r.aSize then all[r.aStart + i] else all[i - r.aSize]
  }

  lemma SliceOfA(all: seq<Byte>, r: Regions, lo: nat, hi: nat, from: nat, to: nat)
    requires r.Valid(|all|) && lo <= hi <= r.aSize && from == r.aStart + lo && to == r.aStart + hi
    ensures Queue(all, r)[lo..hi] == all[from..to]
  {
  }

  lemma SliceOfB(all: seq<Byte>, r: Regions, lo: nat, hi: nat, from: nat, to: nat)
    requires r.Valid(|all|) && r.aSize <= lo <= hi <= r.Available() && from == lo - r.aSize && to == hi - r.aSize
    ensures Queue(all, r)[lo..hi] == all[from..to]
  {
  }

  lemma SliceAcross(all: seq<Byte>, r: Regions, lo: nat, hi: nat, from: nat, aEnd: nat, to: nat)
    requires r.Valid(|all|) && lo <= r.aSize <= hi <= r.Available()
    requires from == r.aStart + lo && aEnd == r.aStart + r.aSize && to == hi - r.aSize
    ensures Queue(all, r)[lo..hi] == all[from..aEnd] + all[..to]
  {
  }

  /** Where a copy of `n` bytes goes. */
  function WriteStart(r: Regions, size: nat, n: nat): (at: nat)
    requires r.Valid(size) && r.Accepts(size, n)
    ensures at + n <= size
  {
    if r.bSize > 0 then r.bSize
    else if r.aStart + r.aSize + n <= size then r.aStart + r.aSize else 0
  }

  lemma AtAfterWrite(all: seq<Byte>, r: Regions, src: seq<Byte>, i: nat)
    requires r.Valid(|all|) && r.Accepts(|all|, |src|) && i < r.Available() + |src|
    ensures At(Overwrite(all, WriteStart(r, |all|, |src|), src), r.AfterWrite(|all|, |src|), i) ==
            if i < r.Available() then At(all, r, i) else src[i - r.Available()]
  {
  }

  /** Writing there and taking the bytes over appends them to the queue. */
  lemma QueueGrows(all: seq<Byte>, r: Regions, src: seq<Byte>)
    requires r.Valid(|all|) && r.Accepts(|all|, |src|)
    ensures Queue(Overwrite(all, WriteStart(r, |all|, |src|), src), r.AfterWrite(|all|, |src|)) ==
            Queue(all, r) + src
  {
    var left := Queue(Overwrite(all, WriteStart(r, |all|, |src|), src), r.AfterWrite(|all|, |src|));
    var right := Queue(all, r) + src;
    forall i | 0 <= i < |left|
      ensures left[i] == right[i]
    {
      AtAfterWrite(all, r, src, i);
    }
    assert left == right;
  }

  /** Taking over bytes already placed at the start of the offered block appends them to the queue. */
  lemma CommitGrows(all: seq<Byte>, r: Regions, src: seq<Byte>)
    requires r.Valid(|all|) && |src| <= r.WriteSpan(|all|).1
    requires Overwrite(all, r.WriteSpan(|all|).0, src) == all
    ensures r.Accepts(|all|, |src|)
    ensures Queue(all, r.AfterWrite(|all|, |src|)) == Queue(all, r) + src
  {
    if |src| == 0 {
      assert Overwrite(all, WriteStart(r, |all|, 0), src) == all;
    }
    QueueGrows(all, r, src);
  }

  lemma QueueShrinks(all: seq<Byte>, r: Regions, n: nat)
    requires r.Valid(|all|) && n <= r.Available()
    ensures Queue(all, r.AfterDiscard(|all|, n)) == Queue(all, r)[n..]
  {
  }

  /** The two blocks that hold a slice of the queue, one after the other, are exactly that slice. */
  lemma ReadSpansSlice(all: seq<Byte>, r: Regions, offset: nat, length: nat)
    requires r.Valid(|all|) && offset + length <= r.Available()
    ensures var (s1, s2) := r.ReadSpans(offset, length);
            Queue(all, r)[offset..offset + length] == all[s1.0..s1.0 + s1.1] + all[s2.0..s2.0 + s2.1]
            && (s2.1 == 0 ==> Queue(all, r)[offset..offset + length] == all[s1.0..s1.0 + s1.1])
  {
    var (s1, s2) := r.ReadSpans(offset, length);
    if s2.1 == 0 {
      if offset < r.aSize {
        SliceOfA(all, r, offset, offset + length, s1.0, s1.0 + s1.1);
      } else {
        SliceOfB(all, r, offset, offset + length, s1.0, s1.0 + s1.1);
      }
      assert all[s2.0..s2.0 + s2.1] == [];
    } else {
      SliceAcross(all, r, offset, offset + length, s1.0, s1.0 + s1.1, s2.0 + s2.1);
    }
  }

  /** The regions `r'` are what dropping some bytes of `r` leaves. */
  ghost predicate Drops(size: nat, r: Regions, r': Regions) {
    && r.Valid(size)
    && r'.Available() <= r.Available()
    && r' == r.AfterDiscard(size, r.Available() - r'.Available())
  }

  lemma DropsNothing(size: nat, r: Regions)
    requires r.Valid(size)
    ensures Drops(size, r, r)
  {
  }

  /** Dropping bytes in two goes leaves the same regions as dropping them at once. */
  lemma DropsTwice(size: nat, r: Regions, r': Regions, r'': Regions)
    requires Drops(size, r, r') && Drops(size, r', r'')
    ensures Drops(size, r, r'')
  {
  }
}

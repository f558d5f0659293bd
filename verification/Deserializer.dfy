/** The pool of latest packets, as an object. */
module Deserializers {
  import opened Bits
  import opened Layout
  import opened Memory

  const VERSIONS: nat := 0x1_0000_0000

  /** The number of the type with a command, or the number of types if there is none. */
  function IndexOf(infos: seq<Info>, cmd: nat): (k: nat)
    ensures k <= |infos|
    ensures k < |infos| ==> infos[k].cmd == cmd
    ensures k == |infos| ==> forall j :: 0 <= j < |infos| ==> infos[j].cmd != cmd
  {
    if infos == [] || infos[0].cmd == cmd then 0 else 1 + IndexOf(infos[1..], cmd)
  }

  /** A slot of the pool. */
  function SlotAt(pool: seq<Byte>, at: nat, size: nat): (s: seq<Byte>)
    requires at + size <= |pool|
    ensures |s| == size
  {
    pool[at..at + size]
  }

  lemma OverwriteHere(pool: seq<Byte>, at: nat, size: nat, src: seq<Byte>)
    requires at + size <= |pool| && |src| <= size
    ensures SlotAt(Overwrite(pool, at, src), at, size) == Overwrite(SlotAt(pool, at, size), 0, src)
  {
  }

  lemma OverwriteElsewhere(pool: seq<Byte>, at: nat, src: seq<Byte>, other: nat, size: nat)
    requires at + |src| <= |pool| && other + size <= |pool|
    requires other + size <= at || at + |src| <= other
    ensures SlotAt(Overwrite(pool, at, src), other, size) == SlotAt(pool, other, size)
  {
  }

  /** A payload that fits its packet type changes the slot of that type only. */
  lemma OneSlotWritten(infos: seq<Info>, offsets: seq<nat>, pool: seq<Byte>, n: nat, src: seq<Byte>)
    requires Proper(infos) && (offsets, |pool|) == Offsets(infos, 0)
    requires n < |infos| && |src| <= infos[n].size
    ensures |offsets| == |infos| && forall k :: 0 <= k < |infos| ==> offsets[k] + infos[k].size <= |pool|
    ensures forall k :: 0 <= k < |infos| ==>
              SlotAt(Overwrite(pool, offsets[n], src), offsets[k], infos[k].size)
              == if k == n then Overwrite(SlotAt(pool, offsets[n], infos[n].size), 0, src)
                 else SlotAt(pool, offsets[k], infos[k].size)
  {
    SlotsApart(infos, 0);
    forall k | 0 <= k < |infos|
      ensures SlotAt(Overwrite(pool, offsets[n], src), offsets[k], infos[k].size)
              == if k == n then Overwrite(SlotAt(pool, offsets[n], infos[n].size), 0, src)
                 else SlotAt(pool, offsets[k], infos[k].size)
    {
      if k == n {
        OverwriteHere(pool, offsets[n], infos[n].size, src);
      } else {
        OverwriteElsewhere(pool, offsets[n], src, offsets[k], infos[k].size);
      }
    }
  }

  /** Whether a slot reads the same after a payload was written at `at`. */
  ghost predicate Untouched(pool: seq<Byte>, at: nat, src: seq<Byte>, other: nat, size: nat)
    requires at + |src| <= |pool| && other + size <= |pool|
  {
    SlotAt(Overwrite(pool, at, src), other, size) == SlotAt(pool, other, size)
  }

  /** No payload of `len` bytes written at `at` can change the slot at `other`. */
  ghost predicate Safe(end: nat, at: nat, len: nat, other: nat, size: nat)
    requires at + len <= end && other + size <= end
  {
    forall pool: seq<Byte>, src: seq<Byte> :: |pool| == end && |src| == len ==> Untouched(pool, at, src, other, size)
  }

  /** The length of a payload comes from the frame and not from its packet type. The packet of
      another type is safe from it exactly when it lies before, is empty, or is not reached. */
  lemma NeighbourSafeIff(infos: seq<Info>, offsets: seq<nat>, end: nat, n: nat, len: nat, k: nat)
    requires Proper(infos) && (offsets, end) == Offsets(infos, 0)
    requires n < |infos| && k < |infos| && k != n && 0 < len && offsets[n] + len <= end
    ensures offsets[k] + infos[k].size <= end
    ensures Safe(end, offsets[n], len, offsets[k], infos[k].size)
            <==> k < n || infos[k].size == 0 || offsets[n] + len <= offsets[k]
  {
    SlotsApart(infos, 0);
    var at, other, size := offsets[n], offsets[k], infos[k].size;
    if k < n || size == 0 || at + len <= other {
      forall pool: seq<Byte>, src: seq<Byte> | |pool| == end && |src| == len
        ensures Untouched(pool, at, src, other, size)
      {
        if size > 0 {
          OverwriteElsewhere(pool, at, src, other, size);
        }
      }
    } else {
      ReachedChanges(end, at, len, other, size);
    }
  }

  lemma ReachedChanges(end: nat, at: nat, len: nat, other: nat, size: nat)
    requires at + len <= end && other + size <= end && at <= other < at + len && size > 0
    ensures !Safe(end, at, len, other, size)
  {
    var pool: seq<Byte>, src: seq<Byte> := seq(end, _ => 0), seq(len, _ => 1);
    assert SlotAt(Overwrite(pool, at, src), other, size)[0] == 1;
    assert !Untouched(pool, at, src, other, size);
  }

  class Deserializer {
    const infos: seq<Info>
    const offsets: seq<nat>
    const pool: array<Byte>
    const versions: array<nat>

    ghost predicate Valid()
      reads this
    {
      && Proper(infos)
      && (offsets, pool.Length) == Offsets(infos, 0)
      && versions.Length == |infos|
      && SlotsInside(offsets, pool.Length)
      && pool as object != versions as object
    }

    /** Each slot lies inside the pool. */
    ghost predicate SlotsInside(offsets: seq<nat>, length: nat)
      reads this
    {
      |offsets| == |infos| && forall k :: 0 <= k < |infos| ==> offsets[k] + infos[k].size <= length
    }

    /** The latest packet of type `k`. */
    ghost function Slot(k: nat): (s: seq<Byte>)
      requires Valid() && k < |infos|
      reads this, pool
      ensures |s| == infos[k].size
    {
      SlotAt(pool[..], offsets[k], infos[k].size)
    }

    constructor (infos: seq<Info>)
      requires Proper(infos)
      ensures Valid() && this.infos == infos && fresh(pool) && fresh(versions)
      ensures forall k :: 0 <= k < |infos| ==> versions[k] == 0 && Slot(k) == seq(infos[k].size, _ => 0)
    {
      var table := new nat[|infos|];
      var end := CalculateOffsets(infos, table, 0, 0);
      assert infos[0..] == infos && table[0..] == table[..];
      SlotsApart(infos, 0);
      this.infos, offsets := infos, table[..];
      pool := new Byte[end](_ => 0);
      versions := new nat[|infos|](_ => 0);
    }

    /** A payload for a known command is written at the place of that packet, and its version goes
        up by two; neither the rest of the pool nor any other version is touched. A payload beyond
        the end of the pool has no meaning. */
    method WriteSegmented(cmd: nat, s1: seq<Byte>, s2: seq<Byte>)
      requires Valid()
      requires var n := IndexOf(infos, cmd); n < |infos| ==> offsets[n] + |s1| + |s2| <= pool.Length
      modifies pool, versions
      ensures Valid()
      ensures var n := IndexOf(infos, cmd);
              && pool[..] == (if n < |infos| then Overwrite(old(pool[..]), offsets[n], s1 + s2) else old(pool[..]))
              && forall k :: 0 <= k < |infos| ==>
                   versions[k] == if k == n then ((old(versions[k]) + 1) % VERSIONS + 1) % VERSIONS else old(versions[k])
    {
      var n := IndexOf(infos, cmd);
      if n == |infos| {
        return;
      }
      versions[n] := (versions[n] + 1) % VERSIONS;
      CopySegments(offsets[n], s1, s2);
      versions[n] := (versions[n] + 1) % VERSIONS;
    }

    method CopySegments(dest: nat, s1: seq<Byte>, s2: seq<Byte>)
      requires dest + |s1| + |s2| <= pool.Length
      modifies pool
      ensures pool[..] == Overwrite(old(pool[..]), dest, s1 + s2)
    {
      OverwriteTwice(pool[..], dest, s1, dest + |s1|, s2);
      if s1 != [] {
        Copy(pool, dest, s1);
      } else {
        assert Overwrite(pool[..], dest, s1) == pool[..];
      }
      if s2 != [] {
        Copy(pool, dest + |s1|, s2);
      } else {
        assert Overwrite(pool[..], dest + |s1|, s2) == pool[..];
      }
    }
  }
}

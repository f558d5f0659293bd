/** Where the latest packet of each type is kept: the layout of the pool. */
module Layout {
  import opened Wrapping

  /** A packet type: its command, size and alignment. */
  datatype Info = Info(cmd: nat, size: nat, align: nat)

  predicate Proper(infos: seq<Info>) {
    && (forall k :: 0 <= k < |infos| ==> infos[k].align > 0)
    && (forall j, k :: 0 <= j < k < |infos| ==> infos[j].cmd != infos[k].cmd)
  }

  /** Rounds up to a multiple: adds `align - 1`, and masks off what is beyond the last multiple. */
  function AlignUp(offset: nat, align: nat): (r: nat)
    requires align > 0
  {
    (offset + align - 1) / align * align
  }

  lemma AlignUpLeast(offset: nat, align: nat)
    requires align > 0
    ensures AlignUp(offset, align) % align == 0
    ensures offset <= AlignUp(offset, align) < offset + align
  {
    var x := offset + align - 1;
    assert x == align * (x / align) + x % align;
    ModUnique(x / align * align, align, x / align, 0);
  }

  /** The offsets of the slots, laid out from `current` on, and where the last one ends. */
  function Offsets(infos: seq<Info>, current: nat): (r: (seq<nat>, nat))
    requires forall k :: 0 <= k < |infos| ==> infos[k].align > 0
    ensures |r.0| == |infos|
  {
    if infos == [] then ([], current)
    else
      var at := AlignUp(current, infos[0].align);
      var rest := Offsets(infos[1..], at + infos[0].size);
      ([at] + rest.0, rest.1)
  }

  /** Every slot is aligned, inside the pool, behind all slots before it, and starts within one
      alignment of where the one before it ends. */
  lemma {:induction false} SlotsApart(infos: seq<Info>, current: nat)
    requires forall k :: 0 <= k < |infos| ==> infos[k].align > 0
    ensures var (offsets, end) := Offsets(infos, current);
            && current <= end
            && (forall k :: 0 <= k < |infos| ==> offsets[k] % infos[k].align == 0
                                                 && current <= offsets[k] && offsets[k] + infos[k].size <= end)
            && (forall j, k :: 0 <= j < k < |infos| ==> offsets[j] + infos[j].size <= offsets[k])
            && (infos != [] ==> offsets[0] < current + infos[0].align)
            && (forall k :: 1 <= k < |infos| ==> offsets[k] < offsets[k - 1] + infos[k - 1].size + infos[k].align)
    decreases |infos|
  {
    if infos != [] {
      var at := AlignUp(current, infos[0].align);
      AlignUpLeast(current, infos[0].align);
      var tail := infos[1..];
      SlotsApart(tail, at + infos[0].size);
      var (rest, end) := Offsets(tail, at + infos[0].size);
      var offsets := Offsets(infos, current).0;
      assert forall k :: 1 <= k < |infos| ==> offsets[k] == rest[k - 1] && infos[k] == tail[k - 1];
    }
  }

  /** Fills in the offsets from `index` on, one type after the other. */
  method CalculateOffsets(infos: seq<Info>, offsets: array<nat>, current: nat, index: nat) returns (end: nat)
    requires index <= |infos| == offsets.Length
    requires forall k :: 0 <= k < |infos| ==> infos[k].align > 0
    modifies offsets
    ensures (offsets[index..], end) == Offsets(infos[index..], current)
    ensures offsets[..index] == old(offsets[..index])
    decreases |infos| - index
  {
    if index == |infos| {
      assert infos[index..] == [] && offsets[index..] == [];
      return current;
    }
    var at := AlignUp(current, infos[index].align);
    offsets[index] := at;
    assert infos[index..][1..] == infos[index + 1..];
    end := CalculateOffsets(infos, offsets, at + infos[index].size, index + 1);
    assert offsets[index] == offsets[..index + 1][index] == at;
    assert offsets[index..] == [at] + offsets[index + 1..];
    assert offsets[..index] == offsets[..index + 1][..index];
  }
}

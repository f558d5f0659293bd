/** The sort that puts the largest buckets first: its partition of a range, and why it ends although
    the range it goes on with contains the pivot. */
module QuickSort {
  /** A bucket, by the hash value that leads to it. */
  datatype BucketRef = BucketRef(hash: nat, items: seq<nat>)

  /** Larger buckets come first. */
  predicate Before(x: BucketRef, y: BucketRef) {
    |x.items| > |y.items|
  }

  ghost predicate Sorted(s: seq<BucketRef>, left: nat, right: int)
    requires right < |s|
  {
    forall i, j :: left <= i < j <= right ==> !Before(s[j], s[i])
  }

  /** The same elements, and in the same places outside `left` to `right`. */
  ghost predicate Rearranged(s: seq<BucketRef>, t: seq<BucketRef>, left: nat, right: int) {
    && |s| == |t|
    && multiset(s) == multiset(t)
    && forall k :: 0 <= k < |s| && (k < left || k > right) ==> t[k] == s[k]
  }

  lemma RearrangedTwice(s: seq<BucketRef>, t: seq<BucketRef>, u: seq<BucketRef>, left: nat, right: int, l: nat, r: int)
    requires Rearranged(s, t, left, right) && Rearranged(t, u, l, r) && left <= l && r <= right
    ensures Rearranged(s, u, left, right)
  {
  }

  function Swapped(s: seq<BucketRef>, i: nat, j: nat): (t: seq<BucketRef>)
    requires i < |s| && j < |s|
    ensures |t| == |s|
  {
    s[i := s[j]][j := s[i]]
  }

  lemma SwapRearranges(s: seq<BucketRef>, i: nat, j: nat, left: nat, right: nat)
    requires left <= i <= right < |s| && left <= j <= right
    ensures Rearranged(s, Swapped(s, i, j), left, right)
  {
  }

  /** Rearranging a range keeps the elements of the range. */
  lemma RangeKept(s: seq<BucketRef>, t: seq<BucketRef>, left: nat, right: int)
    requires Rearranged(s, t, left, right) && left <= right + 1 <= |s|
    ensures multiset(s[left..right + 1]) == multiset(t[left..right + 1])
  {
    ThreeParts(s, left, right + 1);
    ThreeParts(t, left, right + 1);
    assert s[..left] == t[..left] && s[right + 1..] == t[right + 1..];
  }

  lemma ThreeParts(s: seq<BucketRef>, i: nat, j: nat)
    requires i <= j <= |s|
    ensures multiset(s[i..j]) == multiset(s) - multiset(s[..i]) - multiset(s[j..])
  {
    assert s == s[..i] + s[i..j] + s[j..];
    assert multiset(s) == multiset(s[..i]) + multiset(s[i..j]) + multiset(s[j..]);
  }

  /** What holds of all elements of a range still holds when the range is rearranged. */
  lemma RangeElements(s: seq<BucketRef>, t: seq<BucketRef>, left: nat, right: int, k: nat)
    requires Rearranged(s, t, left, right) && left <= k <= right < |s|
    ensures exists j :: left <= j <= right && t[k] == s[j]
  {
    RangeKept(s, t, left, right);
    var a, b := s[left..right + 1], t[left..right + 1];
    assert t[k] == b[k - left] && b[k - left] in multiset(b);
    assert t[k] in multiset(a);
    var j :| 0 <= j < |a| && a[j] == t[k];
    assert s[left + j] == t[k];
  }

  /** The last element of a range comes strictly after all others. */
  ghost predicate LastIsMaximum(s: seq<BucketRef>, left: nat, right: int)
    requires right < |s|
  {
    forall k :: left <= k < right ==> Before(s[k], s[right])
  }

  method Swap(a: array<BucketRef>, i: nat, j: nat)
    requires i < a.Length && j < a.Length
    modifies a
    ensures a[..] == Swapped(old(a[..]), i, j)
  {
    a[i], a[j] := a[j], a[i];
  }

  /** The range from `left` to before `it`, parted at `store` by whether elements come before `pivot`. */
  ghost predicate Parted(t: seq<BucketRef>, left: nat, store: nat, it: nat, pivot: BucketRef) {
    && left <= store <= it <= |t|
    && (forall k :: left <= k < store ==> Before(t[k], pivot))
    && (forall k :: store <= k < it ==> !Before(t[k], pivot))
  }

  lemma PartSwap(t: seq<BucketRef>, left: nat, store: nat, it: nat, pivot: BucketRef)
    requires Parted(t, left, store, it, pivot) && it < |t| && Before(t[it], pivot)
    ensures Parted(Swapped(t, it, store), left, store + 1, it + 1, pivot)
    ensures forall k :: it < k < |t| ==> Swapped(t, it, store)[k] == t[k]
  {
  }

  lemma PartEnd(t: seq<BucketRef>, left: nat, store: nat, right: nat)
    requires right < |t| && Parted(t, left, store, right, t[right])
    ensures var u := Swapped(t, right, store);
            && (forall k :: left <= k < store ==> Before(u[k], u[store]))
            && (forall k :: store < k <= right ==> !Before(u[k], u[store]))
  {
  }

  lemma SwapAgain(s: seq<BucketRef>, t: seq<BucketRef>, i: nat, j: nat, left: nat, right: nat)
    requires Rearranged(s, t, left, right) && left <= i <= right < |s| && left <= j <= right
    ensures Rearranged(s, Swapped(t, i, j), left, right)
  {
    SwapRearranges(t, i, j, left, right);
    RearrangedTwice(s, t, Swapped(t, i, j), left, right, left, right);
  }

  /** Everything before the result comes before the pivot, nothing behind it does. If the last
      element came after all others, the range in front of the result has become smaller. */
  method Partition(a: array<BucketRef>, left: nat, right: nat) returns (pivot: nat)
    requires left < right < a.Length
    modifies a
    ensures left <= pivot <= right
    ensures Rearranged(old(a[..]), a[..], left, right)
    ensures forall k :: left <= k < pivot ==> Before(a[k], a[pivot])
    ensures forall k :: pivot < k <= right ==> !Before(a[k], a[pivot])
    ensures LastIsMaximum(old(a[..]), left, right) ==> pivot < right
  {
    ghost var s := a[..];
    var mid := left + (right - left) / 2;
    SwapAgain(s, s, right, mid, left, right);
    Swap(a, right, mid);
    var store := PartAll(a, left, mid, right, s);
    SwapAgain(s, a[..], right, store, left, right);
    PartEnd(a[..], left, store, right);
    Swap(a, right, store);
    pivot := store;
  }

  /** The loop of the partition. An element in the middle that does not come before the pivot
      keeps the parts from growing up to the pivot. */
  method PartAll(a: array<BucketRef>, left: nat, mid: nat, right: nat, ghost s: seq<BucketRef>) returns (store: nat)
    requires left <= mid < right < a.Length && Rearranged(s, a[..], left, right)
    modifies a
    ensures store <= right && Parted(a[..], left, store, right, a[right])
    ensures Rearranged(s, a[..], left, right) && a[right] == old(a[right])
    ensures !Before(old(a[mid]), a[right]) ==> store < right
  {
    ghost var middle, last := a[mid], a[right];
    store := left;
    var it := left;
    while it < right
      invariant it <= right && Parted(a[..], left, store, it, last)
      invariant Rearranged(s, a[..], left, right) && a[right] == last
      invariant it <= mid ==> a[mid] == middle
      invariant !Before(middle, last) && it > mid ==> store < it
    {
      if Before(a[it], a[right]) {
        SwapAgain(s, a[..], it, store, left, right);
        PartSwap(a[..], left, store, it, last);
        ghost var t := a[..];
        Swap(a, it, store);
        assert a[..] == Swapped(t, it, store);
        assert a[right] == a[..][right] == t[right];
        store := store + 1;
      }
      it := it + 1;
    }
  }

  /** Sorting the parts of a partitioned range sorts the range. */
  lemma PartsSorted(s: seq<BucketRef>, t: seq<BucketRef>, left: nat, pivot: nat, right: nat)
    requires left <= pivot <= right < |s| && Rearranged(s, t, left, pivot)
    requires forall k :: left <= k < pivot ==> Before(s[k], s[pivot])
    requires forall k :: pivot < k <= right ==> !Before(s[k], s[pivot])
    ensures forall i, j :: left <= i <= pivot < j <= right ==> !Before(t[j], t[i])
  {
    forall i, j | left <= i <= pivot < j <= right
      ensures !Before(t[j], t[i])
    {
      RangeElements(s, t, left, pivot, i);
    }
  }

  /** The ranges sorted so far, and what lies behind them, are in order. */
  ghost predicate SortedUpTo(s: seq<BucketRef>, start: nat, left: nat, right: int)
    requires right < |s|
  {
    forall i, j :: start <= i < left && i < j <= right ==> !Before(s[j], s[i])
  }

  lemma SortedUpToKept(s: seq<BucketRef>, t: seq<BucketRef>, start: nat, left: nat, right: nat)
    requires start <= left <= right < |s| && SortedUpTo(s, start, left, right) && Rearranged(s, t, left, right)
    ensures SortedUpTo(t, start, left, right)
  {
    forall i, j | start <= i < left && i < j <= right
      ensures !Before(t[j], t[i])
    {
      if j >= left {
        RangeElements(s, t, left, right, j);
      }
    }
  }

  lemma SortedUpToGrows(s: seq<BucketRef>, start: nat, left: nat, pivot: nat, right: nat)
    requires start <= left <= pivot <= right < |s| && SortedUpTo(s, start, left, right) && Sorted(s, left, pivot)
    requires forall i, j :: left <= i <= pivot < j <= right ==> !Before(s[j], s[i])
    ensures SortedUpTo(s, start, pivot + 1, right)
  {
  }

  /** The recursive call covers the pivot too, so its range can be the whole range again; but
      then the last element comes after all others, and the next call gets a smaller one. */
  method Sort(a: array<BucketRef>, start: nat, right: int)
    requires right < a.Length
    modifies a
    ensures Rearranged(old(a[..]), a[..], start, right)
    ensures Sorted(a[..], start, right)
    decreases right - start, if start <= right && LastIsMaximum(a[..], start, right) then 0 else 1
  {
    var left := start;
    ghost var s := a[..];
    while 0 < right - left
      invariant start <= left && (left <= right + 1 || left == start)
      invariant left == start ==> a[..] == s
      invariant Rearranged(s, a[..], start, right)
      invariant SortedUpTo(a[..], start, left, right)
      decreases right - left
    {
      ghost var t := a[..];
      var pivot := Partition(a, left, right);
      ghost var u := a[..];
      Sort(a, left, pivot);
      PartsSorted(u, a[..], left, pivot, right);
      RearrangedTwice(t, u, a[..], left, right, left, pivot);
      RearrangedTwice(s, t, a[..], start, right, left, right);
      SortedUpToKept(t, a[..], start, left, right);
      SortedUpToGrows(a[..], start, left, pivot, right);
      left := pivot + 1;
    }
  }
}

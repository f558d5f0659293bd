/** When the check for redundant keys sees that a key occurs twice. */
module RedundantKeys {
  import opened PerfectHash
  import opened Wrapping

  /** How often a key occurs among the first `n` items. */
  ghost function Occurrences<Key>(items: seq<Key>, key: Key, n: nat): (c: nat)
    requires n <= |items|
    ensures c <= n
  {
    if n == 0 then 0 else Occurrences(items, key, n - 1) + if items[n - 1] == key then 1 else 0
  }

  ghost predicate AllDistinct<Key>(items: seq<Key>) {
    forall i, j :: 0 <= i < j < |items| ==> items[i] != items[j]
  }

  /** The check reports the items, whatever the hash function, its seed and the number of buckets. */
  ghost predicate AlwaysReported<Key(!new)>(items: seq<Key>) {
    forall t: Task<Key>, seed: nat :: t.Proper() && t.items == items ==>
      Reported(items, BucketsOf(t, seed, |items|))
  }

  /** Some item other than the first equals the first, and comes early enough: some key occurs
      more often than the item has others before it. */
  ghost predicate FirstRepeatedEarly<Key>(items: seq<Key>) {
    exists i, k :: 0 <= k < |items| && 1 <= i < Occurrences(items, items[k], |items|) && items[0] == items[i]
  }

  /** Equal keys share a bucket. */
  lemma {:induction false} BucketHolds<Key>(t: Task<Key>, seed: nat, key: Key, n: nat)
    requires t.Proper() && n <= |t.items|
    ensures Occurrences(t.items, key, n) <= |Bucket(t, seed, t.Slot(key, seed), n)|
  {
    if n > 0 {
      BucketHolds(t, seed, key, n - 1);
    }
  }

  // ---- A hash function that tells all keys apart ----

  /** The first index of a key, or the number of items. */
  ghost function First<Key>(items: seq<Key>, key: Key): (i: nat)
    ensures i <= |items|
    ensures i < |items| ==> items[i] == key
    ensures forall j :: 0 <= j < i ==> items[j] != key
  {
    if items == [] || items[0] == key then 0 else 1 + First(items[1..], key)
  }

  lemma FirstFound<Key>(items: seq<Key>, k: nat)
    requires k < |items|
    ensures First(items, items[k]) <= k
  {
  }

  ghost function Separating<Key>(items: seq<Key>): (t: Task<Key>)
    requires |items| < HIGH_BIT
    ensures t.Proper() && t.items == items
  {
    Task(items, (key: Key, seed: nat) => First(items, key), |items| + 1)
  }

  lemma SeparatingSlot<Key>(items: seq<Key>, k: nat, h: nat)
    requires |items| < HIGH_BIT && k < |items| && Separating(items).Slot(items[k], 0) == h
    ensures h < |items| && items[k] == items[h]
  {
    FirstFound(items, k);
    ModUnique(First(items, items[k]), |items| + 1, 0, First(items, items[k]));
  }

  /** Its buckets hold no more than the occurrences of one key. */
  lemma {:induction false} SeparatedBucket<Key>(items: seq<Key>, t: Task<Key>, h: nat, n: nat)
    requires |items| < HIGH_BIT && t == Separating(items) && n <= |items|
    ensures |Bucket(t, 0, h, n)| <= if h < |items| then Occurrences(items, items[h], n) else 0
  {
    if n > 0 {
      SeparatedBucket(items, t, h, n - 1);
      if t.Slot(items[n - 1], 0) == h {
        SeparatingSlot(items, n - 1, h);
      }
    }
  }

  lemma ReportedInSeparated<Key>(items: seq<Key>)
    requires |items| < HIGH_BIT && Reported(items, BucketsOf(Separating(items), 0, |items|))
    ensures FirstRepeatedEarly(items)
  {
    var buckets := BucketsOf(Separating(items), 0, |items|);
    var h, i :| 0 <= h < |buckets| && 1 <= i < |buckets[h]| && items[0] == items[i];
    SeparatedBucket(items, Separating(items), h, |items|);
  }

  /** The check reports a list of items under every hash function exactly when an item other than
      the first equals the first, at an index below the largest number of times a key occurs. */
  lemma AlwaysReportedIff<Key(!new)>(items: seq<Key>)
    requires |items| < HIGH_BIT
    ensures AlwaysReported(items) <==> FirstRepeatedEarly(items)
  {
    if FirstRepeatedEarly(items) {
      var i, k :| 0 <= k < |items| && 1 <= i < Occurrences(items, items[k], |items|) && items[0] == items[i];
      forall t: Task<Key>, seed: nat | t.Proper() && t.items == items
        ensures Reported(items, BucketsOf(t, seed, |items|))
      {
        BucketHolds(t, seed, items[k], |items|);
        var h := t.Slot(items[k], seed);
        assert i < |BucketsOf(t, seed, |items|)[h]|;
      }
    }
    if AlwaysReported(items) {
      var t := Separating(items);
      assert Reported(items, BucketsOf(t, 0, |items|));
      ReportedInSeparated(items);
    }
  }

  /** It never reports items that are all different, but it does miss some that are not. */
  lemma ReportedMeansRepeated<Key>(items: seq<Key>, buckets: seq<seq<nat>>)
    requires Bounded(buckets, |items|) && Reported(items, buckets)
    ensures !AllDistinct(items)
  {
  }

  ghost function Example(): Task<int> {
    Task([0, 1, 1], (key: int, seed: nat) => if key == 1 then 1 else 0, 2)
  }

  /** The keys 0, 1, 1 go to the buckets [0] and [1, 2]; nothing is reported. */
  lemma RepeatedKeyMissed(t: Task<int>)
    requires t == Example()
    ensures t.items == [0, 1, 1] && !AllDistinct(t.items)
    ensures t.Proper() && BucketsOf(t, 0, 3) == [[0], [1, 2]] && Distributed(t, 0, [[0], [1, 2]], 3)
    ensures Bounded([[0], [1, 2]], 3) && !Reported(t.items, [[0], [1, 2]])
  {
    assert t.items[1] == t.items[2];
    BucketsOfThree(t, 0, 1, 2, 3);
    BucketsAreDistributed(t, 0, 3);
  }

  lemma BucketsOfThree(t: Task<int>, zero: nat, one: nat, two: nat, three: nat)
    requires t == Example() && zero == 0 && one == 1 && two == 2 && three == 3
    ensures t.Proper() && BucketsOf(t, 0, three) == [[0], [1, 2]]
  {
    assert BucketsOf(t, 0, zero) == [[], []];
    assert t.Slot(t.items[zero], 0) == 0 && t.Slot(t.items[one], 0) == 1 == t.Slot(t.items[two], 0);
    var none: seq<nat> := [];
    assert none + [0] == [0] && none + [1] == [1] && [1] + [2] == [1, 2];
    BucketsStep(t, 0, zero, one);
    BucketsStep(t, 0, one, two);
    BucketsStep(t, 0, two, three);
    assert BucketsOf(t, 0, zero)[0] == none && BucketsOf(t, 0, zero)[1] == none;
  }
}

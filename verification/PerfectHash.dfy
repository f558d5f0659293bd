/** The lookup of commands: building the two tables of a perfect hash, and what they guarantee. */
module PerfectHash {
  import opened Basics
  import opened QuickSort

  const HIGH_BIT: nat := 0x8000_0000_0000_0000

  /** A table entry is a seed if its high bit is set, and an index if not. */
  function MakeSeed(value: nat): (v: nat)
    ensures IsSeed(v)
  {
    if value >= HIGH_BIT then value else value + HIGH_BIT
  }

  function MakeIndex(value: nat): (v: nat)
    ensures !IsSeed(v) && (value < HIGH_BIT ==> v == value)
  {
    value % HIGH_BIT
  }

  predicate IsSeed(v: nat) { v >= HIGH_BIT }

  /** What is to be hashed: `hash` takes a key and a seed, `buckets` is the number of slots of each table. */
  datatype Task<!Key> = Task(items: seq<Key>, hash: (Key, nat) -> nat, buckets: nat)
  {
    predicate Proper() {
      buckets > 0 && |items| < HIGH_BIT
    }

    function Slot(key: Key, seed: nat): (s: nat)
      requires buckets > 0
      ensures s < buckets
    {
      hash(key, seed) % buckets
    }
  }

  datatype Tables = Tables(seed: nat, first: seq<nat>, second: seq<nat>)

  /** The index at which a key has to be, if it is anywhere. */
  function Lookup<Key>(t: Task<Key>, tables: Tables, key: Key): nat
    requires t.Proper() && |tables.first| == |tables.second| == t.buckets
  {
    var d := tables.first[t.Slot(key, tables.seed)];
    if !IsSeed(d) then d else tables.second[t.Slot(key, d)]
  }

  // ---- Step 1: buckets ----

  /** Each item is in the bucket of its hash value, and in no other. */
  ghost predicate Distributed<Key>(t: Task<Key>, seed: nat, buckets: seq<seq<nat>>, n: nat)
    requires t.Proper() && n <= |t.items|
  {
    && |buckets| == t.buckets
    && (forall i: nat :: i < n ==> i in buckets[t.Slot(t.items[i], seed)])
    && (forall h, j :: 0 <= h < |buckets| && 0 <= j < |buckets[h]| ==>
          buckets[h][j] < n && t.Slot(t.items[buckets[h][j]], seed) == h)
  }

  ghost predicate Bounded(buckets: seq<seq<nat>>, max: nat) {
    forall h :: 0 <= h < |buckets| ==> |buckets[h]| <= max
  }

  /** The indices below `n` of the items with hash value `h`, in order. */
  function Bucket<Key>(t: Task<Key>, seed: nat, h: nat, n: nat): (b: seq<nat>)
    requires t.Proper() && n <= |t.items|
    ensures |b| <= n
  {
    if n == 0 then []
    else if t.Slot(t.items[n - 1], seed) == h then Bucket(t, seed, h, n - 1) + [n - 1]
    else Bucket(t, seed, h, n - 1)
  }

  function BucketsOf<Key>(t: Task<Key>, seed: nat, n: nat): (b: seq<seq<nat>>)
    requires t.Proper() && n <= |t.items|
    ensures |b| == t.buckets && forall h :: 0 <= h < |b| ==> b[h] == Bucket(t, seed, h, n)
  {
    seq(t.buckets, h requires 0 <= h < t.buckets => Bucket(t, seed, h, n))
  }

  lemma {:induction false} BucketGrows<Key>(t: Task<Key>, seed: nat, h: nat, n: nat, m: nat)
    requires t.Proper() && n <= m <= |t.items|
    ensures |Bucket(t, seed, h, n)| <= |Bucket(t, seed, h, m)|
    decreases m - n
  {
    if n < m {
      BucketGrows(t, seed, h, n, m - 1);
    }
  }

  /** One attempt to distribute the items; it fails exactly if a bucket would hold more than `bucketMax`. */
  method Distribute<Key>(t: Task<Key>, seed: nat, bucketMax: nat) returns (r: Option<seq<seq<nat>>>)
    requires t.Proper()
    ensures r.Some? <==> Bounded(BucketsOf(t, seed, |t.items|), bucketMax)
    ensures r.Some? ==> r.value == BucketsOf(t, seed, |t.items|) && Distributed(t, seed, r.value, |t.items|)
  {
    var buckets: seq<seq<nat>> := seq(t.buckets, _ => []);
    for i := 0 to |t.items|
      invariant buckets == BucketsOf(t, seed, i) && Bounded(buckets, bucketMax)
    {
      var h := t.Slot(t.items[i], seed);
      BucketsStep(t, seed, i, i + 1);
      if |buckets[h]| >= bucketMax {
        BucketGrows(t, seed, h, i + 1, |t.items|);
        assert |BucketsOf(t, seed, |t.items|)[h]| > bucketMax;
        return None;
      }
      buckets := buckets[h := buckets[h] + [i]];
    }
    BucketsAreDistributed(t, seed, |t.items|);
    return Some(buckets);
  }

  lemma BucketsStep<Key>(t: Task<Key>, seed: nat, i: nat, n: nat)
    requires t.Proper() && n == i + 1 <= |t.items|
    ensures var (h, b) := (t.Slot(t.items[i], seed), BucketsOf(t, seed, i));
            BucketsOf(t, seed, n) == b[h := b[h] + [i]]
  {
  }

  lemma {:induction false} BucketsAreDistributed<Key>(t: Task<Key>, seed: nat, n: nat)
    requires t.Proper() && n <= |t.items|
    ensures Distributed(t, seed, BucketsOf(t, seed, n), n)
  {
    if n > 0 {
      BucketsAreDistributed(t, seed, n - 1);
      BucketsStep(t, seed, n - 1, n);
      AddToBucket(t, seed, BucketsOf(t, seed, n - 1), BucketsOf(t, seed, n), n - 1, n);
    }
  }

  lemma AddToBucket<Key>(t: Task<Key>, seed: nat, buckets: seq<seq<nat>>, more: seq<seq<nat>>, i: nat, n: nat)
    requires t.Proper() && n == i + 1 <= |t.items| && Distributed(t, seed, buckets, i)
    requires var h := t.Slot(t.items[i], seed); more == buckets[h := buckets[h] + [i]]
    ensures Distributed(t, seed, more, n)
  {
    var h := t.Slot(t.items[i], seed);
    forall k: nat | k < n
      ensures k in more[t.Slot(t.items[k], seed)]
    {
      if k == i {
        assert more[h][|buckets[h]|] == i;
      } else {
        assert k in buckets[t.Slot(t.items[k], seed)];
      }
    }
    forall g, j | 0 <= g < |more| && 0 <= j < |more[g]|
      ensures more[g][j] < n && t.Slot(t.items[more[g][j]], seed) == g
    {
      assert more[g][j] == i || (j < |buckets[g]| && more[g][j] == buckets[g][j]);
    }
  }

  // ---- Step 3: tables ----

  /** All items of a bucket are found through the entry of their hash value. */
  ghost predicate Placed<Key>(t: Task<Key>, first: seq<nat>, second: seq<nat>, ref: BucketRef)
    requires t.Proper() && |first| == |second| == t.buckets
  {
    && ref.hash < t.buckets
    && forall i :: i in ref.items ==>
         && i < |t.items|
         && var d := first[ref.hash];
            if IsSeed(d) then second[t.Slot(t.items[i], d)] == i else d == i
  }

  /** Unused entries, and the entries of buckets not yet placed, hold the sentinel. */
  ghost predicate TablesOk<Key>(t: Task<Key>, first: seq<nat>, second: seq<nat>)
    requires t.Proper()
  {
    && |first| == |second| == t.buckets
    && (forall h :: 0 <= h < |first| && !IsSeed(first[h]) ==> first[h] <= |t.items|)
    && (forall s :: 0 <= s < |second| ==> second[s] <= |t.items|)
  }

  predicate Indices(items: seq<nat>, n: nat) {
    forall k :: 0 <= k < |items| ==> items[k] < n
  }

  /** Where the seed `d` sends the first `n` items of a bucket. */
  function SlotsOf<Key>(t: Task<Key>, items: seq<nat>, d: nat, n: nat): (s: seq<nat>)
    requires t.Proper() && n <= |items| && Indices(items, |t.items|)
    ensures |s| == n
    ensures forall k :: 0 <= k < n ==> s[k] == t.Slot(t.items[items[k]], d) && s[k] < t.buckets
  {
    seq(n, k requires 0 <= k < n => t.Slot(t.items[items[k]], d))
  }

  /** Free slots, and all different. */
  ghost predicate Free(second: seq<nat>, slots: seq<nat>, unused: nat) {
    && (forall k :: 0 <= k < |slots| ==> slots[k] < |second| && second[slots[k]] == unused)
    && (forall j, k :: 0 <= j < k < |slots| ==> slots[j] != slots[k])
  }

  /** Searches the seeds of the generator, from the `next`-th on, for one that sends the items of
      a bucket to free slots; a seed is given up at the first collision. */
  method FindSeed<Key>(t: Task<Key>, ref: BucketRef, second: seq<nat>, prg: seq<nat>, next: nat)
    returns (found: bool, d: nat, slots: seq<nat>, next': nat)
    requires t.Proper() && |second| == t.buckets && next <= |prg|
    requires Indices(ref.items, |t.items|)
    ensures next' <= |prg|
    ensures found ==> IsSeed(d) && slots == SlotsOf(t, ref.items, d, |ref.items|) && Free(second, slots, |t.items|)
  {
    found, d, slots, next' := false, MakeSeed(0), [], next;
    if next == |prg| {
      return;
    }
    d := MakeSeed(prg[next]);
    next' := next + 1;
    while |slots| < |ref.items|
      invariant next' <= |prg| && |slots| <= |ref.items| && IsSeed(d)
      invariant slots == SlotsOf(t, ref.items, d, |slots|) && Free(second, slots, |t.items|)
      decreases |prg| - next', |ref.items| - |slots|
    {
      var slot := t.Slot(t.items[ref.items[|slots|]], d);
      if second[slot] != |t.items| || slot in slots {
        slots := [];
        if next' == |prg| {
          return;
        }
        d := MakeSeed(prg[next']);
        next' := next' + 1;
      } else {
        slots := slots + [slot];
      }
    }
    found := true;
  }

  /** The second table with the items of a bucket at their slots. */
  function Stored(second: seq<nat>, slots: seq<nat>, items: seq<nat>): (r: seq<nat>)
    requires |slots| == |items| && forall k :: 0 <= k < |slots| ==> slots[k] < |second|
    ensures |r| == |second|
    decreases |slots|
  {
    if slots == [] then second
    else
      var n := |slots| - 1;
      Stored(second, slots[..n], items[..n])[slots[n] := items[n]]
  }

  lemma {:induction false} StoredAt(second: seq<nat>, slots: seq<nat>, items: seq<nat>, unused: nat)
    requires |slots| == |items| && Free(second, slots, unused)
    ensures forall k :: 0 <= k < |slots| ==> Stored(second, slots, items)[slots[k]] == items[k]
    ensures forall s :: 0 <= s < |second| && s !in slots ==> Stored(second, slots, items)[s] == second[s]
    decreases |slots|
  {
    if slots != [] {
      var n := |slots| - 1;
      StoredAt(second, slots[..n], items[..n], unused);
      StoredOneMore(second, Stored(second, slots[..n], items[..n]), slots, items, n);
    }
  }

  lemma StoredOneMore(second: seq<nat>, before: seq<nat>, slots: seq<nat>, items: seq<nat>, n: nat)
    requires |slots| == |items| == n + 1 && |before| == |second|
    requires forall k :: 0 <= k < |slots| ==> slots[k] < |second|
    requires forall k :: 0 <= k < n ==> slots[k] != slots[n]
    requires forall k :: 0 <= k < n ==> before[slots[..n][k]] == items[..n][k]
    requires forall s :: 0 <= s < |second| && s !in slots[..n] ==> before[s] == second[s]
    ensures forall k :: 0 <= k < |slots| ==> before[slots[n] := items[n]][slots[k]] == items[k]
    ensures forall s :: 0 <= s < |second| && s !in slots ==> before[slots[n] := items[n]][s] == second[s]
  {
    forall k | 0 <= k < n
      ensures before[slots[n] := items[n]][slots[k]] == items[k]
    {
      assert before[slots[..n][k]] == items[..n][k];
    }
    forall s | 0 <= s < |second| && s !in slots
      ensures before[slots[n] := items[n]][s] == second[s]
    {
      assert s !in slots[..n];
    }
  }

  /** Placing a bucket leaves the buckets placed before it where they are. */
  lemma PlacedStays<Key>(t: Task<Key>, first: seq<nat>, second: seq<nat>, ref: BucketRef, other: BucketRef,
                         d: nat, slots: seq<nat>)
    requires t.Proper() && TablesOk(t, first, second) && Placed(t, first, second, other)
    requires ref.hash < t.buckets && other.hash != ref.hash
    requires |slots| == |ref.items| && Free(second, slots, |t.items|)
    ensures Placed(t, first[ref.hash := d], Stored(second, slots, ref.items), other)
  {
    StoredAt(second, slots, ref.items, |t.items|);
    var e := first[other.hash];
    forall i | i in other.items && IsSeed(e)
      ensures Stored(second, slots, ref.items)[t.Slot(t.items[i], e)] == i
    {
      assert second[t.Slot(t.items[i], e)] == i != |t.items|;
    }
  }

  lemma PlacedNow<Key>(t: Task<Key>, first: seq<nat>, second: seq<nat>, ref: BucketRef, d: nat, slots: seq<nat>)
    requires t.Proper() && TablesOk(t, first, second) && ref.hash < t.buckets && IsSeed(d)
    requires Indices(ref.items, |t.items|)
    requires slots == SlotsOf(t, ref.items, d, |ref.items|) && Free(second, slots, |t.items|)
    ensures var first', second' := first[ref.hash := d], Stored(second, slots, ref.items);
            TablesOk(t, first', second') && Placed(t, first', second', ref)
  {
    StoredAt(second, slots, ref.items, |t.items|);
    var second' := Stored(second, slots, ref.items);
    forall i | i in ref.items
      ensures second'[t.Slot(t.items[i], d)] == i
    {
      var k :| 0 <= k < |ref.items| && ref.items[k] == i;
      assert slots[k] == t.Slot(t.items[i], d);
    }
    forall s | 0 <= s < |second'|
      ensures second'[s] <= |t.items|
    {
      if s in slots {
        var k :| 0 <= k < |slots| && slots[k] == s;
        assert ref.items[k] in ref.items;
      }
    }
  }

  /** Stores the items of a bucket at the slots found for them. */
  method StoreBucket(second: seq<nat>, slots: seq<nat>, items: seq<nat>) returns (r: seq<nat>)
    requires |slots| == |items| && forall k :: 0 <= k < |slots| ==> slots[k] < |second|
    ensures r == Stored(second, slots, items)
  {
    r := second;
    for k := 0 to |items|
      invariant r == Stored(second, slots[..k], items[..k])
    {
      assert slots[..k + 1][..k] == slots[..k] && items[..k + 1][..k] == items[..k];
      r := r[slots[k] := items[k]];
    }
    assert slots[..|items|] == slots && items[..|items|] == items;
  }

  ghost predicate DistinctHashes(refs: seq<BucketRef>, buckets: nat) {
    && (forall k :: 0 <= k < |refs| ==> refs[k].hash < buckets)
    && (forall j, k :: 0 <= j < k < |refs| ==> refs[j].hash != refs[k].hash)
  }

  /** Places all buckets, in the given order. */
  method PlaceAll<Key>(t: Task<Key>, refs: seq<BucketRef>, prg: seq<nat>, start: nat)
    returns (found: bool, first: seq<nat>, second: seq<nat>)
    requires t.Proper() && start <= |prg| && DistinctHashes(refs, t.buckets)
    requires forall k :: 0 <= k < |refs| ==> Indices(refs[k].items, |t.items|)
    ensures found ==> TablesOk(t, first, second) && forall ref :: ref in refs ==> Placed(t, first, second, ref)
  {
    first, second := seq(t.buckets, _ => |t.items|), seq(t.buckets, _ => |t.items|);
    found := true;
    var next: nat := start;
    for n := 0 to |refs|
      invariant next <= |prg| && TablesOk(t, first, second)
      invariant forall k :: 0 <= k < n ==> Placed(t, first, second, refs[k])
    {
      var ref := refs[n];
      assert ref in refs;
      ghost var before, filled := first, second;
      if |ref.items| == 1 {
        forall k | 0 <= k < n
          ensures Placed(t, first[ref.hash := MakeIndex(ref.items[0])], second, refs[k])
        {
          assert refs[k].hash != ref.hash;
        }
        assert ref.items[0] in ref.items;
        first := first[ref.hash := MakeIndex(ref.items[0])];
      } else if |ref.items| > 1 {
        var ok, d, slots, next' := FindSeed(t, ref, second, prg, next);
        next := next';
        if !ok {
          found := false;
          return;
        }
        forall k | 0 <= k < n
          ensures Placed(t, first[ref.hash := d], Stored(second, slots, ref.items), refs[k])
        {
          PlacedStays(t, first, second, ref, refs[k], d, slots);
        }
        PlacedNow(t, first, second, ref, d, slots);
        first := first[ref.hash := d];
        second := StoreBucket(second, slots, ref.items);
      }
    }
  }

  // ---- All together ----

  ghost predicate Correct<Key(!new)>(t: Task<Key>, tables: Tables)
    requires t.Proper()
  {
    && |tables.first| == |tables.second| == t.buckets
    && (forall i :: 0 <= i < |t.items| ==> Lookup(t, tables, t.items[i]) == i)
    && (forall key :: Lookup(t, tables, key) <= |t.items|)
  }

  lemma PlacedIsCorrect<Key(!new)>(t: Task<Key>, seed: nat, buckets: seq<seq<nat>>, refs: seq<BucketRef>,
                                   first: seq<nat>, second: seq<nat>)
    requires t.Proper() && Distributed(t, seed, buckets, |t.items|) && TablesOk(t, first, second)
    requires forall h :: 0 <= h < |buckets| ==> BucketRef(h, buckets[h]) in refs
    requires forall ref :: ref in refs ==> Placed(t, first, second, ref)
    ensures Correct(t, Tables(seed, first, second))
  {
    forall i | 0 <= i < |t.items|
      ensures Lookup(t, Tables(seed, first, second), t.items[i]) == i
    {
      var h := t.Slot(t.items[i], seed);
      assert Placed(t, first, second, BucketRef(h, buckets[h]));
    }
  }

  /** Tables that are correct tell all keys apart: the items had no key twice. */
  lemma CorrectMeansDistinct<Key(!new)>(t: Task<Key>, tables: Tables, i: nat, j: nat)
    requires t.Proper() && Correct(t, tables) && i < |t.items| && j < |t.items|
    ensures t.items[i] == t.items[j] ==> i == j
  {
  }

  /** What a map over the tables finds for a key: its index, if the item there has this very key. */
  function Find<Key(==)>(t: Task<Key>, tables: Tables, key: Key): Option<nat>
    requires t.Proper() && |tables.first| == |tables.second| == t.buckets
  {
    var i := Lookup(t, tables, key);
    if i < |t.items| && t.items[i] == key then Some(i) else None
  }

  /** A key is found exactly where it is, and not found exactly if it is nowhere. */
  lemma FindIff<Key(!new)>(t: Task<Key>, tables: Tables, key: Key, i: nat)
    requires t.Proper() && Correct(t, tables)
    ensures Find(t, tables, key) == Some(i) <==> i < |t.items| && t.items[i] == key
    ensures Find(t, tables, key) == None <==> key !in t.items
  {
    if key in t.items {
      var j :| 0 <= j < |t.items| && t.items[j] == key;
      assert Lookup(t, tables, t.items[j]) == j;
    }
  }

  /** The buckets in the order in which they are placed: sorting keeps each of them once. */
  method SortBuckets(buckets: seq<seq<nat>>) returns (refs: seq<BucketRef>)
    ensures |refs| == |buckets| && DistinctHashes(refs, |buckets|)
    ensures forall h :: 0 <= h < |buckets| ==> BucketRef(h, buckets[h]) in refs
    ensures forall ref :: ref in refs ==> ref.hash < |buckets| && ref.items == buckets[ref.hash]
    ensures forall j, k :: 0 <= j < k < |refs| ==> |refs[j].items| >= |refs[k].items|
  {
    var a := new BucketRef[|buckets|](h requires 0 <= h < |buckets| => BucketRef(h, buckets[h]));
    ghost var s := a[..];
    Sort(a, 0, a.Length - 1);
    refs := a[..];
    RefsKept(s, refs, buckets);
  }

  lemma RefsKept(s: seq<BucketRef>, refs: seq<BucketRef>, buckets: seq<seq<nat>>)
    requires |s| == |buckets| && forall h :: 0 <= h < |s| ==> s[h] == BucketRef(h, buckets[h])
    requires multiset(s) == multiset(refs)
    ensures DistinctHashes(refs, |buckets|)
    ensures forall h :: 0 <= h < |buckets| ==> BucketRef(h, buckets[h]) in refs
    ensures forall ref :: ref in refs ==> ref.hash < |buckets| && ref.items == buckets[ref.hash]
  {
    SameElements(s, refs);
    DistinctKept(s, refs, |buckets|);
    forall h | 0 <= h < |buckets|
      ensures BucketRef(h, buckets[h]) in refs
    {
      assert s[h] in s;
    }
  }

  lemma SameElements(s: seq<BucketRef>, t: seq<BucketRef>)
    requires multiset(s) == multiset(t)
    ensures forall x :: x in s <==> x in t
  {
    forall x
      ensures x in s <==> x in t
    {
      assert x in s <==> x in multiset(s);
      assert x in t <==> x in multiset(t);
    }
  }

  /** A rearrangement of elements that are all different has them all different too. */
  lemma DistinctKept(s: seq<BucketRef>, t: seq<BucketRef>, buckets: nat)
    requires multiset(s) == multiset(t) && DistinctHashes(s, buckets)
    ensures DistinctHashes(t, buckets)
  {
    SameElements(s, t);
    forall k | 0 <= k < |t|
      ensures t[k].hash < buckets
    {
      assert t[k] in t;
    }
    forall j, k | 0 <= j < k < |t|
      ensures t[j].hash != t[k].hash
    {
      assert t[j] in s && t[k] in s;
      if t[j] == t[k] {
        Twice(t, j, k);
        Once(s, t[j]);
      }
    }
  }

  lemma Twice(t: seq<BucketRef>, j: nat, k: nat)
    requires j < k < |t| && t[j] == t[k]
    ensures multiset(t)[t[j]] >= 2
  {
    assert t == t[..k] + [t[k]] + t[k + 1..];
    assert t[..k][j] == t[j] && t[j] in multiset(t[..k]);
    assert multiset(t) == multiset(t[..k]) + multiset([t[k]]) + multiset(t[k + 1..]);
  }

  lemma {:induction false} Once(s: seq<BucketRef>, x: BucketRef)
    requires forall j, k :: 0 <= j < k < |s| ==> s[j].hash != s[k].hash
    ensures multiset(s)[x] <= 1
    decreases |s|
  {
    if s != [] {
      var n := |s| - 1;
      assert s == s[..n] + [s[n]];
      Once(s[..n], x);
      if s[n] == x {
        assert x !in s[..n];
      }
    }
  }

  /** Builds the tables, drawing seeds from the generator as long as it lasts. Whatever tables
      come out send each item to its own index, and every other key to an index or to the sentinel. */
  method MakePmhTables<Key(!new, ==)>(t: Task<Key>, bucketMax: nat, prg: seq<nat>) returns (r: Option<Tables>)
    requires t.Proper()
    ensures r.Some? ==> Correct(t, r.value)
  {
    var next: nat := 0;
    var placed: Option<seq<seq<nat>>> := None;
    while placed.None? && next < |prg|
      invariant next <= |prg|
      invariant placed.Some? ==> next > 0 && Distributed(t, prg[next - 1], placed.value, |t.items|)
                                 && placed.value == BucketsOf(t, prg[next - 1], |t.items|)
      decreases placed.None?, |prg| - next
    {
      placed := Distribute(t, prg[next], bucketMax);
      next := next + 1;
    }
    if placed.None? {
      return None;
    }
    var seed, buckets := prg[next - 1], placed.value;
    var redundant := DetectRedundant(t, buckets);
    if redundant {
      return None;
    }
    var refs := SortBuckets(buckets);
    forall k | 0 <= k < |refs|
      ensures Indices(refs[k].items, |t.items|)
    {
      assert refs[k] in refs;
      assert refs[k].items == buckets[refs[k].hash];
    }
    var found, first, second := PlaceAll(t, refs, prg, next);
    if !found {
      return None;
    }
    PlacedIsCorrect(t, seed, buckets, refs, first, second);
    return Some(Tables(seed, first, second));
  }

  /** What the check for redundant keys looks for: it compares the first items of the whole
      list, as many as a bucket has, and not the items of the bucket. */
  ghost predicate Reported<Key>(items: seq<Key>, buckets: seq<seq<nat>>)
    requires Bounded(buckets, |items|)
  {
    exists h, i :: 0 <= h < |buckets| && 1 <= i < |buckets[h]| && items[0] == items[i]
  }

  method DetectRedundant<Key(==)>(t: Task<Key>, buckets: seq<seq<nat>>) returns (redundant: bool)
    requires Bounded(buckets, |t.items|)
    ensures redundant <==> Reported(t.items, buckets)
  {
    for h := 0 to |buckets|
      invariant forall g, i :: 0 <= g < h && 1 <= i < |buckets[g]| ==> t.items[0] != t.items[i]
    {
      var i := 1;
      while i < |buckets[h]|
        invariant 1 <= i && forall k :: 1 <= k < i && k < |buckets[h]| ==> t.items[0] != t.items[k]
      {
        if t.items[0] == t.items[i] {
          return true;
        }
        i := i + 1;
      }
    }
    return false;
  }
}

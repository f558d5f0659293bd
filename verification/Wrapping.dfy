/** Counters that wrap around at the word size: differences of counters, and the cells of a ring
    they stand for. */
module Wrapping {
  lemma Multiples(w: int, d: int)
    requires w >= 0
    ensures d >= 1 ==> w * d >= w
    ensures d <= -1 ==> w * d <= 0 - w
  {
  }

  lemma Small(w: int, d: int)
    requires w >= 0 && 0 - w < w * d < w
    ensures d == 0
  {
    Multiples(w, d);
  }

  lemma ModUnique(x: int, w: nat, q: int, y: nat)
    requires x == w * q + y && y < w
    ensures x % w == y
  {
    assert x == w * (x / w) + x % w;
    assert w * (x / w - q) == y - x % w;
    Small(w, x / w - q);
  }

  /** a - b on words. */
  function Sub(word: nat, a: nat, b: nat): (d: nat)
    requires word > 0
  {
    (a - b) % word
  }

  /** The difference of two wrapped counters is that of the counters, if it is less than a word. */
  lemma SubIs(word: nat, a: nat, b: nat)
    requires word > 0 && b <= a < b + word
    ensures Sub(word, a % word, b % word) == a - b
  {
    var qa, qb := a / word, b / word;
    assert a == word * qa + a % word && b == word * qb + b % word;
    assert a % word - b % word == word * (qb - qa) + (a - b);
    ModUnique(a % word - b % word, word, qb - qa, a - b);
  }

  lemma AddIs(word: nat, a: nat, n: nat)
    requires word > 0
    ensures (a % word + n) % word == (a + n) % word
  {
    var q, y := a / word, (a % word + n) % word;
    var p := (a % word + n) / word;
    assert a == word * q + a % word && a % word + n == word * p + y;
    assert a + n == word * (q + p) + y;
    ModUnique(a + n, word, q + p, y);
  }

  /** Two counters wrap to the same number exactly if whole words lie between them. */
  lemma SameWrapped(word: nat, a: nat, b: nat)
    requires word > 0
    ensures a % word == b % word <==> (a - b) % word == 0
  {
    var qa, qb := a / word, b / word;
    assert a == word * qa + a % word && b == word * qb + b % word;
    if a % word == b % word {
      assert a - b == word * (qa - qb);
      ModUnique(a - b, word, qa - qb, 0);
    }
    if (a - b) % word == 0 {
      var q := (a - b) / word;
      assert a - b == word * q;
      assert a == word * (qb + q) + b % word;
      ModUnique(a, word, qb + q, b % word);
    }
  }

  /** A capacity that divides the word size finds the same cell for a wrapped counter. */
  lemma CellOfWrapped(word: nat, capacity: nat, a: nat)
    requires 0 < capacity <= word && word % capacity == 0
    ensures (a % word) % capacity == a % capacity
  {
    var m, q, r := word / capacity, a / word, a % word;
    var p, y := r / capacity, r % capacity;
    assert word == capacity * m && a == word * q + r && r == capacity * p + y;
    assert a == capacity * (m * q + p) + y by {
      assert word * q == capacity * (m * q);
    }
    ModUnique(a, capacity, m * q + p, y);
  }

  /** Where byte `i` of a block goes that starts at the masked counter and may wrap once. */
  function Slot(capacity: nat, start: nat, i: nat): (s: nat)
    requires start < capacity && i < capacity
    ensures s < capacity
  {
    var first := capacity - start;
    if i < first then start + i else i - first
  }

  lemma SlotIs(capacity: nat, a: nat, i: nat)
    requires i < capacity
    ensures Slot(capacity, a % capacity, i) == (a + i) % capacity
  {
    var q, s := a / capacity, a % capacity;
    assert a == capacity * q + s;
    if s + i < capacity {
      ModUnique(a + i, capacity, q, s + i);
    } else {
      assert a + i == capacity * (q + 1) + (s + i - capacity);
      ModUnique(a + i, capacity, q + 1, s + i - capacity);
    }
  }

  lemma CellsDiffer(capacity: nat, a: nat, b: nat)
    requires a < b < a + capacity
    ensures a % capacity != b % capacity
  {
    if a % capacity == b % capacity {
      assert a == capacity * (a / capacity) + a % capacity && b == capacity * (b / capacity) + b % capacity;
      assert capacity * (b / capacity - a / capacity) == b - a;
      Small(capacity, b / capacity - a / capacity);
    }
  }
}

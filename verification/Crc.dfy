/** The table-driven CRC of cppcrc.h and its bit-at-a-time meaning. */
module Crc {
  import opened Bits

  datatype Config = Config(poly: Word, init: Word, reflIn: bool, reflOut: bool, xorOut: Word)
  {
    function Width(): nat { |poly| }

    /** The register is one of the unsigned integer types, of at least a byte. */
    ghost predicate Valid() {
      |poly| >= 8 && |init| == |poly| && |xorOut| == |poly|
    }
  }

  // ---- The reference: one message bit at a time ----

  /** A shift register in the orientation where bit 0 leaves first; `q` is the feedback mask. */
  function Step(q: Word, r: Word): (s: Word)
    requires |q| == |r| > 0
    ensures |s| == |r|
  {
    if r[0] then Xor(r[1..] + [false], q) else r[1..] + [false]
  }

  function FeedBit(q: Word, r: Word, bit: bool): (s: Word)
    requires |q| == |r| > 0
    ensures |s| == |r|
  {
    Step(q, r[0 := r[0] != bit])
  }

  function Feed(q: Word, r: Word, bits: seq<bool>): (s: Word)
    requires |q| == |r| > 0
    ensures |s| == |r|
    decreases bits
  {
    if bits == [] then r else Feed(q, FeedBit(q, r, bits[0]), bits[1..])
  }

  /** The order in which the bits of a message reach the register. */
  function ByteBits(reflIn: bool, b: Byte): (w: Word)
    ensures |w| == 8
  {
    if reflIn then ToBits(b, 8) else Reverse(ToBits(b, 8))
  }

  function MessageBits(reflIn: bool, bytes: seq<Byte>): (bits: seq<bool>)
    ensures |bits| == 8 * |bytes|
  {
    if bytes == [] then [] else ByteBits(reflIn, bytes[0]) + MessageBits(reflIn, bytes[1..])
  }

  function Mask(c: Config): (q: Word)
    ensures |q| == c.Width()
  {
    Reverse(c.poly)
  }

  /** How a register is presented as a result, and, being its own inverse, how a
      prior result becomes a register again. */
  function View(c: Config, r: Word): (v: Word)
    ensures |v| == |r|
  {
    if c.reflOut then r else Reverse(r)
  }

  /** The checksum of `bytes` continued from an earlier result `prior`. */
  function Checksum(c: Config, bytes: seq<Byte>, prior: Word): (r: Word)
    requires c.Valid() && |prior| == c.Width()
    ensures |r| == c.Width()
  {
    Xor(View(c, Feed(Mask(c), View(c, Xor(prior, c.xorOut)), MessageBits(c.reflIn, bytes))), c.xorOut)
  }

  function Null(c: Config): (r: Word)
    requires c.Valid()
    ensures |r| == c.Width()
  {
    Xor(if c.reflOut then Reverse(c.init) else c.init, c.xorOut)
  }

  // ---- Continuation across segments ----

  lemma {:induction false} FeedConcat(q: Word, r: Word, a: seq<bool>, b: seq<bool>)
    requires |q| == |r| > 0
    ensures Feed(q, r, a + b) == Feed(q, Feed(q, r, a), b)
    decreases a
  {
    if a == [] {
      assert a + b == b;
    } else {
      assert (a + b)[1..] == a[1..] + b;
      FeedConcat(q, FeedBit(q, r, a[0]), a[1..], b);
    }
  }

  lemma {:induction false} MessageBitsConcat(reflIn: bool, a: seq<Byte>, b: seq<Byte>)
    ensures MessageBits(reflIn, a + b) == MessageBits(reflIn, a) + MessageBits(reflIn, b)
  {
    if a == [] {
      assert a + b == b;
    } else {
      assert (a + b)[1..] == a[1..] + b;
      MessageBitsConcat(reflIn, a[1..], b);
      assert ByteBits(reflIn, a[0]) + (MessageBits(reflIn, a[1..]) + MessageBits(reflIn, b))
          == ByteBits(reflIn, a[0]) + MessageBits(reflIn, a[1..]) + MessageBits(reflIn, b);
    }
  }

  /** Checking a message in two pieces gives what checking it whole gives, for all
      four combinations of input and output reflection. */
  lemma Continuation(c: Config, a: seq<Byte>, b: seq<Byte>, prior: Word)
    requires c.Valid() && |prior| == c.Width()
    ensures Checksum(c, b, Checksum(c, a, prior)) == Checksum(c, a + b, prior)
  {
    var q := Mask(c);
    var r0 := View(c, Xor(prior, c.xorOut));
    var ra := Feed(q, r0, MessageBits(c.reflIn, a));
    MessageBitsConcat(c.reflIn, a, b);
    FeedConcat(q, r0, MessageBits(c.reflIn, a), MessageBits(c.reflIn, b));
    XorTwice(View(c, ra), c.xorOut);
    ReverseTwice(ra);
  }

  // ---- The register is linear, so a byte can be fed in one go ----

  function Steps(q: Word, r: Word, n: nat): (s: Word)
    requires |q| == |r| > 0
    ensures |s| == |r|
    decreases n
  {
    if n == 0 then r else Steps(q, Step(q, r), n - 1)
  }

  lemma StepXor(q: Word, a: Word, b: Word)
    requires |q| == |a| == |b| > 0
    ensures Step(q, Xor(a, b)) == Xor(Step(q, a), Step(q, b))
  {
  }

  lemma {:induction false} StepsXor(q: Word, a: Word, b: Word, n: nat)
    requires |q| == |a| == |b| > 0
    ensures Steps(q, Xor(a, b), n) == Xor(Steps(q, a, n), Steps(q, b, n))
    decreases n
  {
    if n > 0 {
      StepXor(q, a, b);
      StepsXor(q, Step(q, a), Step(q, b), n - 1);
    }
  }

  /** Leading zero bits just shift out. */
  lemma {:induction false} StepsShift(q: Word, w: Word, n: nat)
    requires |q| == n + |w| > 0
    ensures Steps(q, Zeros(n) + w, n) == w + Zeros(n)
    decreases n
  {
    if n > 0 {
      var w' := w + [false];
      assert Step(q, Zeros(n) + w) == Zeros(n - 1) + w';
      StepsShift(q, w', n - 1);
      assert w' + Zeros(n - 1) == w + Zeros(n);
    } else {
      assert Zeros(0) + w == w;
    }
  }

  /** Feeding bits one by one is the same as adding them to the register first. */
  lemma {:induction false} FeedIsSteps(q: Word, r: Word, bits: seq<bool>)
    requires |q| == |r| > 0 && |bits| <= |r|
    ensures Feed(q, r, bits) == Steps(q, Xor(r, bits + Zeros(|r| - |bits|)), |bits|)
    decreases bits
  {
    var w, n := |r|, |bits|;
    if n == 0 {
      assert Xor(r, bits + Zeros(w)) == r;
    } else {
      var r' := FeedBit(q, r, bits[0]);
      var pad := bits + Zeros(w - n);
      var pad' := bits[1..] + Zeros(w - n + 1);
      assert Step(q, Xor(r, pad)) == Xor(r', pad');
      FeedIsSteps(q, r', bits[1..]);
    }
  }

  /** The meaning of a table entry: the effect of eight steps on a register holding only `index`. */
  function TableValue(q: Word, index: Word): (t: Word)
    requires |q| >= 8 && |index| == 8
    ensures |t| == |q|
  {
    Steps(q, index + Zeros(|q| - 8), |index|)
  }

  /** One table lookup does the work of eight single-bit feeds. */
  lemma TableStep(q: Word, r: Word, bits: Word)
    requires |q| == |r| >= 8 && |bits| == 8
    ensures Feed(q, r, bits) == Xor(TableValue(q, Xor(bits, r[..8])), r[8..] + Zeros(8))
  {
    var w := |r|;
    var low := Xor(bits, r[..8]) + Zeros(w - 8);
    var high := Zeros(8) + r[8..];
    FeedIsSteps(q, r, bits);
    assert Xor(r, bits + Zeros(w - 8)) == Xor(low, high);
    StepsXor(q, low, high, 8);
    StepsShift(q, r[8..], 8);
  }

  lemma {:induction false} StepsSum(q: Word, r: Word, m: nat, n: nat)
    requires |q| == |r| > 0
    ensures Steps(q, r, m + n) == Steps(q, Steps(q, r, m), n)
    decreases m
  {
    if m > 0 {
      StepsSum(q, Step(q, r), m - 1, n);
    }
  }

  // ---- The source's table and loops ----

  function ShiftLeft(r: Word, n: nat): (s: Word)
    requires n <= |r|
    ensures |s| == |r|
  {
    Zeros(n) + r[..|r| - n]
  }

  function ShiftRight(r: Word, n: nat): (s: Word)
    requires n <= |r|
    ensures |s| == |r|
  {
    r[n..] + Zeros(n)
  }

  /** The reflected orientation of a register, from the orientation the input setting selects. */
  function Orient(reflIn: bool, r: Word): (s: Word)
    ensures |s| == |r|
  {
    if reflIn then r else Reverse(r)
  }

  ghost predicate IsTable(c: Config, lookup: seq<Word>)
    requires c.Valid()
  {
    |lookup| == 256 && EntriesUpTo(c, lookup)
  }

  ghost predicate EntriesUpTo(c: Config, lookup: seq<Word>)
    requires c.Valid() && |lookup| <= 256
  {
    forall i :: 0 <= i < |lookup| ==> IsEntry(c, i, lookup[i])
  }

  /** A table entry holds the effect of its index on an otherwise empty register. */
  ghost predicate IsEntry(c: Config, index: Byte, t: Word)
    requires c.Valid()
  {
    |t| == c.Width() && Orient(c.reflIn, t) == TableValue(Mask(c), ByteBits(c.reflIn, index))
  }

  lemma IndexWord(c: Config, index: Byte)
    requires c.Valid()
    ensures ToBits(index, c.Width()) == ToBits(index, 8) + Zeros(c.Width() - 8)
  {
    var w := c.Width();
    Pow2Small();
    ToBitsZero(w - 8);
    ToBitsConcat(index, 0, 8, w - 8);
  }

  /** One turn of the table loop, on a register whose top bit leaves first. */
  function ForwardStep(poly: Word, r: Word): (s: Word)
    requires |poly| == |r| > 0
    ensures |s| == |r|
  {
    if r[|r| - 1] then Xor(ShiftLeft(r, 1), poly) else ShiftLeft(r, 1)
  }

  lemma ForwardStepReversed(poly: Word, r: Word)
    requires |poly| == |r| > 0
    ensures Reverse(ForwardStep(poly, r)) == Step(Reverse(poly), Reverse(r))
  {
    assert Reverse(ShiftLeft(r, 1)) == Reverse(r)[1..] + [false];
    ReverseXor(ShiftLeft(r, 1), poly);
  }

  /** The register the table loop starts from, as a reflected register. */
  lemma TableStart(c: Config, index: Byte)
    requires c.Valid()
    ensures var word := ToBits(index, c.Width());
            var remainder := if c.reflIn then ShiftRight(Reverse(word), c.Width() - 8) else word;
            Reverse(remainder) == Zeros(c.Width() - 8) + ByteBits(c.reflIn, index)
  {
    IndexWord(c, index);
  }

  lemma TableEnd(c: Config, index: Byte)
    requires c.Valid()
    ensures Steps(Mask(c), Zeros(c.Width() - 8) + ByteBits(c.reflIn, index), c.Width()) ==
            TableValue(Mask(c), ByteBits(c.reflIn, index))
  {
    var w, q, bits := c.Width(), Mask(c), ByteBits(c.reflIn, index);
    StepsSum(q, Zeros(w - 8) + bits, w - 8, 8);
    StepsShift(q, bits, w - 8);
  }

  lemma {:induction false} StepsOneMore(q: Word, r: Word, i: nat, j: nat)
    requires |q| == |r| > 0 && j == i + 1
    ensures Steps(q, r, j) == Step(q, Steps(q, r, i))
    decreases i
  {
    if i > 0 {
      StepsOneMore(q, Step(q, r), i - 1, i);
    }
  }

  lemma Turned(c: Config, start: Word, remainder: Word, next: Word, i: nat, j: nat)
    requires c.Valid() && |remainder| == |start| == c.Width() && j == i + 1
    requires Reverse(remainder) == Steps(Mask(c), start, i) && next == ForwardStep(c.poly, remainder)
    ensures Reverse(next) == Steps(Mask(c), start, j)
  {
    StepsOneMore(Mask(c), start, i, j);
    ForwardStepReversed(c.poly, remainder);
  }

  method GetCrcTableValueAtIndex(c: Config, index: Byte) returns (t: Word)
    requires c.Valid()
    ensures IsEntry(c, index, t)
  {
    var bitWidth := c.Width();
    var remainder := ToBits(index, bitWidth);
    if c.reflIn {
      remainder := ShiftRight(Reverse(remainder), bitWidth - 8);
    }
    ghost var start := Zeros(bitWidth - 8) + ByteBits(c.reflIn, index);
    TableStart(c, index);
    for i := 0 to bitWidth
      invariant |remainder| == bitWidth
      invariant Reverse(remainder) == Steps(Mask(c), start, i)
    {
      Turned(c, start, remainder, ForwardStep(c.poly, remainder), i, i + 1);
      if remainder[bitWidth - 1] {
        remainder := Xor(ShiftLeft(remainder, 1), c.poly);
      } else {
        remainder := ShiftLeft(remainder, 1);
      }
    }
    TableEnd(c, index);
    t := if c.reflIn then Reverse(remainder) else remainder;
  }

  lemma OneMoreEntry(c: Config, lookup: seq<Word>, t: Word)
    requires c.Valid() && |lookup| < 256 && EntriesUpTo(c, lookup) && IsEntry(c, |lookup|, t)
    ensures EntriesUpTo(c, lookup + [t])
  {
    forall i | 0 <= i < |lookup| + 1
      ensures IsEntry(c, i, (lookup + [t])[i])
    {
      if i < |lookup| {
        assert (lookup + [t])[i] == lookup[i];
        assert IsEntry(c, i, lookup[i]);
      }
    }
  }

  method MakeTable(c: Config) returns (lookup: seq<Word>)
    requires c.Valid()
    ensures IsTable(c, lookup)
  {
    lookup := [];
    for i := 0 to 256
      invariant |lookup| == i && EntriesUpTo(c, lookup)
    {
      var t := GetCrcTableValueAtIndex(c, i);
      OneMoreEntry(c, lookup, t);
      lookup := lookup + [t];
    }
  }

  lemma LookupStep(c: Config, lookup: seq<Word>, r: Word, b: Byte, index: Byte)
    requires c.Valid() && IsTable(c, lookup) && |r| == c.Width()
    requires ByteBits(c.reflIn, index) == Xor(ByteBits(c.reflIn, b), r[..8])
    ensures Feed(Mask(c), r, ByteBits(c.reflIn, b)) ==
            Xor(Orient(c.reflIn, lookup[index]), ShiftRight(r, 8))
  {
    assert IsEntry(c, index, lookup[index]);
    TableStep(Mask(c), r, ByteBits(c.reflIn, b));
  }

  lemma MessageBitsOne(reflIn: bool, b: Byte)
    ensures MessageBits(reflIn, [b]) == ByteBits(reflIn, b)
  {
    assert MessageBits(reflIn, [b][1..]) == [];
  }

  lemma FeedOneMore(q: Word, reflIn: bool, r: Word, bytes: seq<Byte>, i: nat)
    requires |q| == |r| > 0 && i < |bytes|
    ensures Feed(q, r, MessageBits(reflIn, bytes[..i + 1])) ==
            Feed(q, Feed(q, r, MessageBits(reflIn, bytes[..i])), ByteBits(reflIn, bytes[i]))
  {
    assert bytes[..i + 1] == bytes[..i] + [bytes[i]];
    MessageBitsConcat(reflIn, bytes[..i], [bytes[i]]);
    MessageBitsOne(reflIn, bytes[i]);
    FeedConcat(q, r, MessageBits(reflIn, bytes[..i]), ByteBits(reflIn, bytes[i]));
  }

  /** The table index: a message byte added to eight bits of the register. */
  function LookupIndex(b: Byte, bits: Word): (index: Byte)
    requires |bits| == 8
    ensures ToBits(index, 8) == Xor(ToBits(b, 8), bits)
  {
    Pow2Small();
    ToFromBits(Xor(ToBits(b, 8), bits));
    FromBits(Xor(ToBits(b, 8), bits))
  }

  method CalculateCrcReflected(c: Config, lookup: seq<Word>, bytes: seq<Byte>, prior: Word) returns (r: Word)
    requires c.Valid() && c.reflIn && IsTable(c, lookup) && |prior| == c.Width()
    ensures |r| == c.Width()
    ensures r == Xor(View(c, Feed(Mask(c), Reverse(prior), MessageBits(true, bytes))), c.xorOut)
  {
    var crc := Reverse(prior);
    for i := 0 to |bytes|
      invariant |crc| == c.Width()
      invariant crc == Feed(Mask(c), Reverse(prior), MessageBits(true, bytes[..i]))
    {
      FeedOneMore(Mask(c), c.reflIn, Reverse(prior), bytes, i);
      var index := LookupIndex(bytes[i], crc[..8]);
      LookupStep(c, lookup, crc, bytes[i], index);
      crc := Xor(lookup[index], ShiftRight(crc, 8));
    }
    assert bytes[..|bytes|] == bytes;
    r := Xor(if !c.reflOut then Reverse(crc) else crc, c.xorOut);
  }

  lemma ShiftReversed(r: Word, n: nat)
    requires n <= |r|
    ensures ShiftRight(Reverse(r), n) == Reverse(ShiftLeft(r, n))
    ensures Reverse(r)[..n] == Reverse(r[|r| - n..])
  {
  }

  lemma ForwardLookup(c: Config, lookup: seq<Word>, crc: Word, b: Byte, index: Byte)
    requires c.Valid() && !c.reflIn && IsTable(c, lookup) && |crc| == c.Width()
    requires ToBits(index, 8) == Xor(ToBits(b, 8), crc[|crc| - 8..])
    ensures |lookup[index]| == |crc|
    ensures Reverse(Xor(lookup[index], ShiftLeft(crc, 8))) == Feed(Mask(c), Reverse(crc), ByteBits(false, b))
  {
    ShiftReversed(crc, 8);
    assert ByteBits(false, index) == Xor(ByteBits(false, b), Reverse(crc)[..8]) by {
      ReverseXor(ToBits(b, 8), crc[|crc| - 8..]);
    }
    LookupStep(c, lookup, Reverse(crc), b, index);
    ReverseXor(lookup[index], ShiftLeft(crc, 8));
  }

  method CalculateCrcForward(c: Config, lookup: seq<Word>, bytes: seq<Byte>, prior: Word) returns (r: Word)
    requires c.Valid() && !c.reflIn && IsTable(c, lookup) && |prior| == c.Width()
    ensures |r| == c.Width()
    ensures r == Xor(View(c, Feed(Mask(c), Reverse(prior), MessageBits(false, bytes))), c.xorOut)
  {
    var crc := prior;
    for i := 0 to |bytes|
      invariant |crc| == c.Width()
      invariant Reverse(crc) == Feed(Mask(c), Reverse(prior), MessageBits(false, bytes[..i]))
    {
      FeedOneMore(Mask(c), c.reflIn, Reverse(prior), bytes, i);
      var index := LookupIndex(bytes[i], crc[|crc| - 8..]);
      ForwardLookup(c, lookup, crc, bytes[i], index);
      crc := Xor(lookup[index], ShiftLeft(crc, 8));
    }
    assert bytes[..|bytes|] == bytes;
    assert View(c, Reverse(crc)) == if c.reflOut then Reverse(crc) else crc by {
      ReverseTwice(crc);
    }
    r := Xor(if c.reflOut then Reverse(crc) else crc, c.xorOut);
  }

  method Calc(c: Config, lookup: seq<Word>, bytes: seq<Byte>, prior: Word) returns (r: Word)
    requires c.Valid() && IsTable(c, lookup) && |prior| == c.Width()
    ensures r == Checksum(c, bytes, prior)
  {
    var crc := if c.xorOut != Zeros(c.Width()) then Xor(prior, c.xorOut) else prior;
    assert crc == Xor(prior, c.xorOut);
    ReverseTwice(crc);
    crc := if c.reflOut then Reverse(crc) else crc;
    if c.reflIn {
      r := CalculateCrcReflected(c, lookup, bytes, crc);
    } else {
      r := CalculateCrcForward(c, lookup, bytes, crc);
    }
  }

  // ---- Error detection ----

  /** The feedback mask ends in a one: the polynomial has a constant term. */
  ghost predicate Proper(q: Word) {
    |q| > 0 && q[|q| - 1]
  }

  /** Registers that agree from bit `k` on after one feed took the same feedback
      decision and agreed from bit `k + 1` on before it. */
  lemma FeedBitSeparates(q: Word, r: Word, s: Word, b: bool, c: bool, k: nat)
    requires Proper(q) && |r| == |s| == |q| && k < |q|
    requires FeedBit(q, r, b)[k..] == FeedBit(q, s, c)[k..]
    ensures (r[0] != b) == (s[0] != c)
    ensures r[k + 1..] == s[k + 1..]
  {
    var w, r1, s1 := |q|, FeedBit(q, r, b), FeedBit(q, s, c);
    assert r1[w - 1] == r1[k..][w - 1 - k] == s1[k..][w - 1 - k] == s1[w - 1];
    assert r1[w - 1] == (r[0] != b) && s1[w - 1] == (s[0] != c);
    forall j | k + 1 <= j < w
      ensures r[j] == s[j]
    {
      assert r1[j - 1] == r1[k..][j - 1 - k] == s1[k..][j - 1 - k] == s1[j - 1];
    }
  }

  /** Equal registers after few bits mean equal feedback decisions and equal high bits before. */
  lemma {:induction false} FeedSeparates(q: Word, r: Word, s: Word, bs: seq<bool>, cs: seq<bool>)
    requires Proper(q) && |r| == |s| == |q| && |bs| == |cs| <= |q|
    requires Feed(q, r, bs) == Feed(q, s, cs)
    ensures r[|bs|..] == s[|bs|..]
    ensures bs != [] ==> (r[0] != bs[0]) == (s[0] != cs[0])
    decreases bs
  {
    if bs != [] {
      FeedSeparates(q, FeedBit(q, r, bs[0]), FeedBit(q, s, cs[0]), bs[1..], cs[1..]);
      FeedBitSeparates(q, r, s, bs[0], cs[0], |bs| - 1);
    }
  }

  /** From a given register, different bit strings of at most the register's width
      lead to different registers. */
  lemma {:induction false} FeedInjectiveInBits(q: Word, r: Word, bs: seq<bool>, cs: seq<bool>)
    requires Proper(q) && |r| == |q| && |bs| == |cs| <= |q|
    requires Feed(q, r, bs) == Feed(q, r, cs)
    ensures bs == cs
    decreases bs
  {
    if bs != [] {
      FeedSeparates(q, r, r, bs, cs);
      FeedInjectiveInBits(q, FeedBit(q, r, bs[0]), bs[1..], cs[1..]);
      assert bs == [bs[0]] + bs[1..] && cs == [cs[0]] + cs[1..];
    }
  }

  /** For given bits, different registers stay different. */
  lemma {:induction false} FeedInjectiveInState(q: Word, r: Word, s: Word, bits: seq<bool>)
    requires Proper(q) && |r| == |s| == |q|
    requires Feed(q, r, bits) == Feed(q, s, bits)
    ensures r == s
    decreases bits
  {
    if bits != [] {
      FeedInjectiveInState(q, FeedBit(q, r, bits[0]), FeedBit(q, s, bits[0]), bits[1..]);
      FeedSeparates(q, r, s, bits[..1], bits[..1]);
      assert r == [r[0]] + r[1..] && s == [s[0]] + s[1..];
    }
  }

  /** A burst of errors no longer than the register is always seen: messages that
      differ only there and leave the same register do not differ. */
  lemma BurstSeen(q: Word, r: Word, before: seq<bool>, x: seq<bool>, y: seq<bool>, after: seq<bool>)
    requires Proper(q) && |r| == |q| && |x| == |y| <= |q|
    requires Feed(q, r, before + x + after) == Feed(q, r, before + y + after)
    ensures x == y
  {
    FeedThree(q, r, before, x, after);
    FeedThree(q, r, before, y, after);
    var r0 := Feed(q, r, before);
    FeedInjectiveInState(q, Feed(q, r0, x), Feed(q, r0, y), after);
    FeedInjectiveInBits(q, r0, x, y);
  }

  lemma FeedThree(q: Word, r: Word, a: seq<bool>, b: seq<bool>, c: seq<bool>)
    requires |q| == |r| > 0
    ensures Feed(q, r, a + b + c) == Feed(q, Feed(q, Feed(q, r, a), b), c)
  {
    FeedConcat(q, r, a + b, c);
    FeedConcat(q, r, a, b);
  }

  /** Feeding a register its own contents clears it. */
  lemma {:induction false} FeedOwnBits(q: Word, x: Word)
    requires |q| >= |x| && |q| > 0
    ensures Feed(q, x + Zeros(|q| - |x|), x) == Zeros(|q|)
    decreases x
  {
    if x == [] {
      assert x + Zeros(|q|) == Zeros(|q|);
    } else {
      var r := x + Zeros(|q| - |x|);
      assert FeedBit(q, r, x[0]) == x[1..] + Zeros(|q| - |x| + 1);
      FeedOwnBits(q, x[1..]);
    }
  }

  /** A word following the data clears the register exactly when it equals the register. */
  lemma Residue(q: Word, r: Word, x: Word)
    requires Proper(q) && |r| == |x| == |q|
    ensures Feed(q, r, x) == Zeros(|q|) <==> x == r
  {
    assert r + Zeros(0) == r;
    FeedOwnBits(q, r);
    if Feed(q, r, x) == Zeros(|q|) {
      FeedInjectiveInBits(q, r, x, r);
    }
  }
}

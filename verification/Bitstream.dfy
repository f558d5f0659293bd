/** Packing and unpacking of bit fields. */
module Bitstream {
  import opened Basics
  import opened Bits
  import opened BitOps
  import opened Wrapping

  /** Bit `p` of a buffer: the least significant bit of the first byte is bit 0. */
  function BufBit(buf: seq<Byte>, p: nat): bool
    requires p < 8 * |buf|
  {
    Bit(buf[p / 8], p % 8)
  }

  /** The buffer once the low `width` bits of `value` were put in at bit `offset`. */
  function Injected(buf: seq<Byte>, offset: nat, width: nat, value: nat): (r: seq<Byte>)
    ensures |r| == |buf|
  {
    Pow2Small();
    seq(|buf|, b requires 0 <= b < |buf| => FromBits(seq(8, i requires 0 <= i < 8 =>
      Bit(buf[b], i) || (offset <= 8 * b + i < offset + width && Bit(value, 8 * b + i - offset)))))
  }

  /** The `width` bits from bit `offset` on; those beyond the end read as zero. */
  function Extracted(buf: seq<Byte>, offset: nat, width: nat): (v: nat)
    ensures v < Pow2(width)
  {
    FromBits(seq(width, j requires 0 <= j < width => offset + j < 8 * |buf| && BufBit(buf, offset + j)))
  }

  lemma InjectedBit(buf: seq<Byte>, offset: nat, width: nat, value: nat, p: nat)
    requires p < 8 * |buf|
    ensures BufBit(Injected(buf, offset, width, value), p)
            == (BufBit(buf, p) || (offset <= p < offset + width && Bit(value, p - offset)))
  {
    var b := p / 8;
    var w: Word := seq(8, i requires 0 <= i < 8 =>
      Bit(buf[b], i) || (offset <= 8 * b + i < offset + width && Bit(value, 8 * b + i - offset)));
    Pow2Small();
    assert Injected(buf, offset, width, value)[b] == FromBits(w);
    BitOfWord(w, p % 8);
  }

  lemma ExtractedBit(buf: seq<Byte>, offset: nat, width: nat, j: nat)
    ensures Bit(Extracted(buf, offset, width), j)
            == (j < width && offset + j < 8 * |buf| && BufBit(buf, offset + j))
  {
    BitOfWord(seq(width, j requires 0 <= j < width => offset + j < 8 * |buf| && BufBit(buf, offset + j)), j);
  }

  lemma SameBytes(a: seq<Byte>, b: seq<Byte>)
    requires |a| == |b| && forall p: nat :: p < 8 * |a| ==> BufBit(a, p) == BufBit(b, p)
    ensures a == b
  {
    Pow2Small();
    forall k | 0 <= k < |a|
      ensures a[k] == b[k]
    {
      forall i: nat | i < 8
        ensures Bit(a[k], i) == Bit(b[k], i)
      {
        assert BufBit(a, 8 * k + i) == BufBit(b, 8 * k + i);
      }
      SameBits(a[k], b[k], 8);
    }
  }

  // ---- One field ----

  /** The part of a value that goes into one byte. */
  function Chunk(masked: nat, done: nat, put: nat, at: nat): nat {
    ShiftLeft(Low(ShiftRight(masked, done), put), at)
  }

  lemma ChunkBit(masked: nat, done: nat, put: nat, at: nat, i: nat)
    ensures Bit(Chunk(masked, done, put, at), i) == (at <= i < at + put && Bit(masked, done + i - at))
  {
    BitOfShiftLeft(Low(ShiftRight(masked, done), put), at, i);
    if i >= at {
      BitOfLow(ShiftRight(masked, done), put, i - at);
      BitOfShiftRight(masked, done, i - at);
    }
  }

  lemma ChunkFits(masked: nat, done: nat, put: nat, at: nat)
    requires at + put <= 8
    ensures Chunk(masked, done, put, at) < 256
  {
    forall i: nat | i >= 8
      ensures !Bit(Chunk(masked, done, put, at), i)
    {
      ChunkBit(masked, done, put, at, i);
    }
    Pow2Small();
    NoHighBits(Chunk(masked, done, put, at), 8);
  }

  lemma OrFits(a: Byte, b: Byte)
    ensures BitOr(a, b) < 256
  {
    Pow2Small();
    forall i: nat | i >= 8
      ensures !Bit(BitOr(a, b), i)
    {
      BitOfOr(a, b, i);
      HighBits(a, 8, i);
      HighBits(b, 8, i);
    }
    NoHighBits(BitOr(a, b), 8);
  }

  /** One step of the packing loop puts in one more piece of the field. */
  lemma InjectStep(buf: seq<Byte>, before: seq<Byte>, offset: nat, width: nat, bits: nat, value: nat,
                   done: nat, put: nat, b: nat, at: nat)
    requires |buf| == |before| && before == Injected(buf, offset, done, value)
    requires done < width <= bits && offset + done == 8 * b + at && at < 8 && b < |buf|
    requires put == Min(width - done, 8 - at)
    ensures var masked := if width < bits then Low(value, width) else value;
            && Chunk(masked, done, put, at) < 256
            && BitOr(before[b], Chunk(masked, done, put, at)) < 256
            && before[b := BitOr(before[b], Chunk(masked, done, put, at))] == Injected(buf, offset, done + put, value)
  {
    var masked := if width < bits then Low(value, width) else value;
    var chunk := Chunk(masked, done, put, at);
    ChunkFits(masked, done, put, at);
    OrFits(before[b], chunk);
    var after, goal := before[b := BitOr(before[b], chunk)], Injected(buf, offset, done + put, value);
    forall p: nat | p < 8 * |buf|
      ensures BufBit(after, p) == BufBit(goal, p)
    {
      InjectStepBit(buf, before[b], chunk, offset, width, bits, value, done, put, b, at, p);
    }
    SameBytes(after, goal);
  }

  lemma InjectStepBit(buf: seq<Byte>, byte: Byte, chunk: nat, offset: nat, width: nat, bits: nat, value: nat,
                      done: nat, put: nat, b: nat, at: nat, p: nat)
    requires done < width <= bits && offset + done == 8 * b + at && at < 8 && b < |buf| && p < 8 * |buf|
    requires byte == Injected(buf, offset, done, value)[b] && put == Min(width - done, 8 - at)
    requires chunk == Chunk(if width < bits then Low(value, width) else value, done, put, at)
    ensures BufBit(Injected(buf, offset, done + put, value), p)
            == if p / 8 == b then Bit(BitOr(byte, chunk), p % 8) else BufBit(Injected(buf, offset, done, value), p)
  {
    InjectedBit(buf, offset, done, value, p);
    InjectedBit(buf, offset, done + put, value, p);
    if p / 8 == b {
      BitOfOr(byte, chunk, p % 8);
      PieceBit(offset, width, bits, value, done, put, b, at, p);
    } else {
      OtherByte(offset + done, put, b, at, p);
    }
  }

  lemma OtherByte(from: nat, put: nat, b: nat, at: nat, p: nat)
    requires from == 8 * b + at && at + put <= 8 && p / 8 != b
    ensures !(from <= p < from + put)
  {
  }

  /** A piece of a field holds the bits of the value that belong into its byte. */
  lemma PieceBit(offset: nat, width: nat, bits: nat, value: nat, done: nat, put: nat, b: nat, at: nat, p: nat)
    requires done < width <= bits && offset + done == 8 * b + at && at < 8 && p / 8 == b
    requires put == Min(width - done, 8 - at)
    ensures var masked := if width < bits then Low(value, width) else value;
            Bit(Chunk(masked, done, put, at), p % 8)
            == (offset + done <= p < offset + done + put && Bit(value, p - offset))
  {
    var masked := if width < bits then Low(value, width) else value;
    ChunkBit(masked, done, put, at, p % 8);
    if at <= p % 8 < at + put {
      assert done + p % 8 - at == p - offset;
      BitOfLow(value, width, p - offset);
    }
  }

  lemma InjectNothing(buf: seq<Byte>, offset: nat, width: nat, value: nat)
    requires width == 0 || offset >= 8 * |buf|
    ensures Injected(buf, offset, width, value) == buf
  {
    forall p: nat | p < 8 * |buf|
      ensures BufBit(Injected(buf, offset, width, value), p) == BufBit(buf, p)
    {
      InjectedBit(buf, offset, width, value, p);
    }
    SameBytes(Injected(buf, offset, width, value), buf);
  }

  /** Pieces beyond the end of the buffer are dropped. */
  lemma InjectBeyond(buf: seq<Byte>, offset: nat, done: nat, width: nat, value: nat)
    requires done <= width && offset + done >= 8 * |buf|
    ensures Injected(buf, offset, done, value) == Injected(buf, offset, width, value)
  {
    forall p: nat | p < 8 * |buf|
      ensures BufBit(Injected(buf, offset, done, value), p) == BufBit(Injected(buf, offset, width, value), p)
    {
      InjectedBit(buf, offset, done, value, p);
      InjectedBit(buf, offset, width, value, p);
    }
    SameBytes(Injected(buf, offset, done, value), Injected(buf, offset, width, value));
  }

  /** Packs the low `width` bits of a value of a type of `bits` bits. */
  method InjectBits(buffer: array<Byte>, offset: nat, width: nat, bits: nat, value: nat)
    requires width <= bits
    modifies buffer
    ensures buffer[..] == Injected(old(buffer[..]), offset, width, value)
  {
    ghost var buf := buffer[..];
    InjectNothing(buf, offset, 0, value);
    var currentBitOffset, bitsInjected := offset, 0;
    var maskedValue := if width < bits then Low(value, width) else value;
    while bitsInjected < width
      invariant bitsInjected <= width && currentBitOffset == offset + bitsInjected
      invariant buffer[..] == Injected(buf, offset, bitsInjected, value)
    {
      var byteIndex, bitInByte := currentBitOffset / 8, currentBitOffset % 8;
      var bitsToPut := Min(width - bitsInjected, 8 - bitInByte);
      if byteIndex >= buffer.Length {
        InjectBeyond(buf, offset, bitsInjected, width, value);
        return;
      }
      InjectStep(buf, buffer[..], offset, width, bits, value, bitsInjected, bitsToPut, byteIndex, bitInByte);
      var chunk := Low(ShiftRight(maskedValue, bitsInjected), bitsToPut);
      chunk := ShiftLeft(chunk, bitInByte);
      buffer[byteIndex] := BitOr(buffer[byteIndex], chunk);
      bitsInjected := bitsInjected + bitsToPut;
      currentBitOffset := currentBitOffset + bitsToPut;
    }
  }

  /** So far the low `done` bits of `v` have been collected. */
  ghost predicate Collected(result: nat, done: nat, v: nat) {
    forall j: nat :: Bit(result, j) == (j < done && Bit(v, j))
  }

  /** One step of the unpacking loop takes one more piece of the field. */
  lemma ExtractStep(buf: seq<Byte>, offset: nat, width: nat, result: nat, done: nat, take: nat, b: nat, at: nat)
    requires Collected(result, done, Extracted(buf, offset, width))
    requires done < width && offset + done == 8 * b + at && at < 8 && b < |buf|
    requires take == Min(width - done, 8 - at)
    ensures Collected(BitOr(result, Chunk(buf[b], at, take, done)), done + take, Extracted(buf, offset, width))
  {
    var piece := Chunk(buf[b], at, take, done);
    forall j: nat
      ensures Bit(BitOr(result, piece), j) == (j < done + take && Bit(Extracted(buf, offset, width), j))
    {
      BitOfOr(result, piece, j);
      ChunkBit(buf[b], at, take, done, j);
      ExtractedBit(buf, offset, width, j);
      if done <= j < done + take {
        assert (offset + j) / 8 == b && (offset + j) % 8 == at + j - done;
      }
    }
  }

  lemma ExtractDone(buf: seq<Byte>, offset: nat, width: nat, result: nat, done: nat)
    requires Collected(result, done, Extracted(buf, offset, width))
    requires done == width || (done < width && offset + done >= 8 * |buf|)
    ensures result == Extracted(buf, offset, width)
  {
    forall j: nat
      ensures Bit(result, j) == Bit(Extracted(buf, offset, width), j) && (j >= width ==> !Bit(result, j))
    {
      ExtractedBit(buf, offset, width, j);
    }
    NoHighBits(result, width);
    SameBits(result, Extracted(buf, offset, width), width);
  }

  method ExtractBits(buffer: seq<Byte>, offset: nat, width: nat) returns (result: nat)
    ensures result == Extracted(buffer, offset, width)
  {
    result := 0;
    var currentBitOffset, bitsExtracted := offset, 0;
    forall j: nat
      ensures !Bit(result, j)
    {
      BitOfZero(j);
    }
    while bitsExtracted < width
      invariant bitsExtracted <= width && currentBitOffset == offset + bitsExtracted
      invariant Collected(result, bitsExtracted, Extracted(buffer, offset, width))
    {
      var byteIndex, bitInByte := currentBitOffset / 8, currentBitOffset % 8;
      var bitsToTake := Min(width - bitsExtracted, 8 - bitInByte);
      if byteIndex >= |buffer| {
        break;
      }
      ExtractStep(buffer, offset, width, result, bitsExtracted, bitsToTake, byteIndex, bitInByte);
      var byteVal := Low(ShiftRight(buffer[byteIndex], bitInByte), bitsToTake);
      result := BitOr(result, ShiftLeft(byteVal, bitsExtracted));
      bitsExtracted := bitsExtracted + bitsToTake;
      currentBitOffset := currentBitOffset + bitsToTake;
    }
    ExtractDone(buffer, offset, width, result, bitsExtracted);
  }

  // ---- Whole packets ----

  /** A field of a layout: how many bits it takes, of a type of how many. */
  datatype Field = Field(width: nat, bits: nat)

  function TotalBits(layout: seq<Field>): nat {
    if layout == [] then 0 else layout[0].width + TotalBits(layout[1..])
  }

  predicate Proper(layout: seq<Field>) {
    forall k :: 0 <= k < |layout| ==> layout[k].width <= layout[k].bits
  }

  function Packed(buf: seq<Byte>, offset: nat, layout: seq<Field>, values: seq<nat>): (r: seq<Byte>)
    requires |values| == |layout|
    ensures |r| == |buf|
    decreases |layout|
  {
    if layout == [] then buf
    else Packed(Injected(buf, offset, layout[0].width, values[0]), offset + layout[0].width, layout[1..], values[1..])
  }

  function Unpacked(buf: seq<Byte>, offset: nat, layout: seq<Field>): (v: seq<nat>)
    ensures |v| == |layout|
    decreases |layout|
  {
    if layout == [] then []
    else [Extracted(buf, offset, layout[0].width)] + Unpacked(buf, offset + layout[0].width, layout[1..])
  }

  /** Each value modulo two to the width of its field. */
  function Reduced(layout: seq<Field>, values: seq<nat>): (v: seq<nat>)
    requires |values| == |layout|
    ensures |v| == |layout|
  {
    if layout == [] then []
    else [values[0] % Pow2(layout[0].width)] + Reduced(layout[1..], values[1..])
  }

  ghost predicate Clear(buf: seq<Byte>, offset: nat) {
    forall p: nat :: offset <= p < 8 * |buf| ==> !BufBit(buf, p)
  }

  /** Packing from `offset` on changes no bit in front of it. */
  lemma {:induction false} PackedBelow(buf: seq<Byte>, offset: nat, layout: seq<Field>, values: seq<nat>, p: nat)
    requires |values| == |layout| && p < offset && p < 8 * |buf|
    ensures BufBit(Packed(buf, offset, layout, values), p) == BufBit(buf, p)
    decreases |layout|
  {
    if layout != [] {
      InjectedBit(buf, offset, layout[0].width, values[0], p);
      PackedBelow(Injected(buf, offset, layout[0].width, values[0]), offset + layout[0].width, layout[1..], values[1..], p);
    }
  }

  /** Injecting one field changes no bit, and so no value, outside it. */
  lemma OthersUntouched(buf: seq<Byte>, offset: nat, width: nat, value: nat, other: nat, otherWidth: nat)
    requires other + otherWidth <= offset || offset + width <= other
    ensures Extracted(Injected(buf, offset, width, value), other, otherWidth) == Extracted(buf, other, otherWidth)
  {
    var a, b := Injected(buf, offset, width, value), buf;
    forall j: nat | j < otherWidth
      ensures Bit(Extracted(a, other, otherWidth), j) == Bit(Extracted(b, other, otherWidth), j)
    {
      ExtractedBit(a, other, otherWidth, j);
      ExtractedBit(b, other, otherWidth, j);
      if other + j < 8 * |buf| {
        InjectedBit(buf, offset, width, value, other + j);
      }
    }
    SameBits(Extracted(a, other, otherWidth), Extracted(b, other, otherWidth), otherWidth);
  }

  /** A field injected into clear bits, and left alone below its end, reads back modulo its width. */
  lemma FieldRoundTrip(buf: seq<Byte>, offset: nat, width: nat, value: nat, after: seq<Byte>)
    requires Clear(buf, offset) && offset + width <= 8 * |buf| && |after| == |buf|
    requires forall p: nat :: p < offset + width ==> BufBit(after, p) == BufBit(Injected(buf, offset, width, value), p)
    ensures Extracted(after, offset, width) == value % Pow2(width)
  {
    forall j: nat | j < width
      ensures Bit(Extracted(after, offset, width), j) == Bit(Low(value, width), j)
    {
      FieldBit(buf, offset, width, value, after, j, offset + j);
    }
    LowIsRemainder(value, width);
    SameBits(Extracted(after, offset, width), Low(value, width), width);
  }

  lemma FieldBit(buf: seq<Byte>, offset: nat, width: nat, value: nat, after: seq<Byte>, j: nat, p: nat)
    requires j < width && p == offset + j < 8 * |buf| && |after| == |buf| && !BufBit(buf, p)
    requires BufBit(after, p) == BufBit(Injected(buf, offset, width, value), p)
    ensures Bit(Extracted(after, offset, width), j) == Bit(Low(value, width), j)
  {
    ExtractedBit(after, offset, width, j);
    InjectedBit(buf, offset, width, value, p);
    BitOfLow(value, width, j);
  }

  lemma ClearBehind(buf: seq<Byte>, offset: nat, width: nat, value: nat)
    requires Clear(buf, offset)
    ensures Clear(Injected(buf, offset, width, value), offset + width)
  {
    var r := Injected(buf, offset, width, value);
    forall p: nat | offset + width <= p < 8 * |r|
      ensures !BufBit(r, p)
    {
      InjectedBit(buf, offset, width, value, p);
    }
  }

  /** For any layout that fits, into bits that are clear: unpacking what was packed gives back
      every value, modulo two to the width of its field. */
  lemma {:induction false} RoundTrip(buf: seq<Byte>, offset: nat, layout: seq<Field>, values: seq<nat>)
    requires |values| == |layout| && Clear(buf, offset) && offset + TotalBits(layout) <= 8 * |buf|
    ensures Unpacked(Packed(buf, offset, layout, values), offset, layout) == Reduced(layout, values)
    decreases |layout|
  {
    if layout != [] {
      var w := layout[0].width;
      var one, after := Injected(buf, offset, w, values[0]), Packed(buf, offset, layout, values);
      ClearBehind(buf, offset, w, values[0]);
      RoundTrip(one, offset + w, layout[1..], values[1..]);
      forall p: nat | p < offset + w
        ensures BufBit(after, p) == BufBit(one, p)
      {
        PackedBelow(one, offset + w, layout[1..], values[1..], p);
      }
      FieldRoundTrip(buf, offset, w, values[0], after);
    }
  }

  method SerializeBitstream(buffer: array<Byte>, layout: seq<Field>, values: seq<nat>)
    requires |values| == |layout| && Proper(layout)
    modifies buffer
    ensures buffer[..] == Packed(old(buffer[..]), 0, layout, values)
  {
    var offset: nat := 0;
    assert layout[0..] == layout && values[0..] == values;
    for k := 0 to |layout|
      invariant Packed(buffer[..], offset, layout[k..], values[k..]) == Packed(old(buffer[..]), 0, layout, values)
    {
      assert layout[k..][1..] == layout[k + 1..] && values[k..][1..] == values[k + 1..];
      InjectBits(buffer, offset, layout[k].width, layout[k].bits, values[k]);
      offset := offset + layout[k].width;
    }
  }

  method ParseBitstream(buffer: seq<Byte>, layout: seq<Field>) returns (values: seq<nat>)
    ensures values == Unpacked(buffer, 0, layout)
  {
    var offset: nat := 0;
    values := [];
    assert layout[0..] == layout;
    for k := 0 to |layout|
      invariant values + Unpacked(buffer, offset, layout[k..]) == Unpacked(buffer, 0, layout)
    {
      var value := ExtractBits(buffer, offset, layout[k].width);
      var next := offset + layout[k].width;
      UnpackOne(buffer, offset, next, layout, k, values, value);
      values, offset := values + [value], next;
    }
    assert layout[|layout|..] == [];
    assert Unpacked(buffer, offset, layout[|layout|..]) == [];
  }

  lemma UnpackOne(buffer: seq<Byte>, offset: nat, next: nat, layout: seq<Field>, k: nat, values: seq<nat>, value: nat)
    requires k < |layout| && value == Extracted(buffer, offset, layout[k].width) && next == offset + layout[k].width
    ensures values + Unpacked(buffer, offset, layout[k..]) == (values + [value]) + Unpacked(buffer, next, layout[k + 1..])
  {
    assert layout[k..][1..] == layout[k + 1..];
    assert Unpacked(buffer, offset, layout[k..]) == [value] + Unpacked(buffer, next, layout[k + 1..]);
  }

  // ---- Signed fields ----

  /** A number of a signed type of `bits` bits as its bit pattern, and back. */
  function Pattern(bits: nat, v: int): nat
    requires 0 - Pow2(bits) <= v < Pow2(bits)
  {
    if v >= 0 then v else v + Pow2(bits)
  }

  /** No sign is restored: a signed value, packed into clear bits and unpacked again, comes back
      exactly when its field has the width of its type, or it is not negative and fits the field. */
  lemma SignedRoundTripIff(buf: seq<Byte>, offset: nat, width: nat, bits: nat, v: int)
    requires 0 < bits && width <= bits && 0 - Pow2(bits - 1) <= v < Pow2(bits - 1)
    requires Clear(buf, offset) && offset + width <= 8 * |buf|
    ensures Pow2(bits - 1) < Pow2(bits)
    ensures Extracted(Injected(buf, offset, width, Pattern(bits, v)), offset, width) == Pattern(bits, v)
            <==> width == bits || 0 <= v < Pow2(width)
  {
    FieldRoundTrip(buf, offset, width, Pattern(bits, v), Injected(buf, offset, width, Pattern(bits, v)));
    if width < bits {
      Pow2Monotone(width, bits - 1);
      PatternFitsIff(bits, Pow2(bits), Pow2(width), v);
    } else {
      ModUnique(Pattern(bits, v), Pow2(bits), 0, Pattern(bits, v));
    }
  }

  lemma PatternFitsIff(bits: nat, all: nat, p: nat, v: int)
    requires all == Pow2(bits) && 0 < p && 2 * p <= all && 0 - all <= 2 * v < all
    ensures Pattern(bits, v) % p == Pattern(bits, v) <==> 0 <= v < p
  {
    var n := Pattern(bits, v);
    if 0 <= v < p {
      ModUnique(n, p, 0, n);
    }
    assert n % p < p;
  }

  lemma {:induction false} Pow2Monotone(a: nat, b: nat)
    requires a <= b
    ensures Pow2(a) <= Pow2(b)
    decreases b
  {
    if a < b {
      Pow2Monotone(a, b - 1);
    }
  }

  // ---- Where the bits are, in numbers ----

  lemma BitInByte(buf: seq<Byte>, k: nat, m: nat, p: nat)
    requires k < |buf| && m < 8 && p == 8 * k + m
    ensures p < 8 * |buf| && BufBit(buf, p) == Bit(buf[k], m)
  {
  }

  lemma ShiftedBit(n: nat, i: nat, width: nat, j: nat)
    requires j < width
    ensures Bit(Low(ShiftRight(n, i), width), j) == Bit(n, i + j)
  {
    BitOfLow(ShiftRight(n, i), width, j);
    BitOfShiftRight(n, i, j);
  }

  lemma FieldBitInByte(buf: seq<Byte>, k: nat, i: nat, width: nat, at: nat, j: nat)
    requires k < |buf| && i + width <= 8 && at == 8 * k + i && j < width
    ensures Bit(Extracted(buf, at, width), j) == Bit(Low(ShiftRight(buf[k], i), width), j)
  {
    ExtractedBit(buf, at, width, j);
    BitInByte(buf, k, i + j, at + j);
    ShiftedBit(buf[k], i, width, j);
  }

  /** A field inside one byte is that byte shifted past what lies below the field, modulo its range. */
  lemma FieldInByte(buf: seq<Byte>, k: nat, i: nat, width: nat, at: nat)
    requires k < |buf| && i + width <= 8 && at == 8 * k + i
    ensures Extracted(buf, at, width) == ShiftRight(buf[k], i) % Pow2(width)
  {
    var v, low := Extracted(buf, at, width), Low(ShiftRight(buf[k], i), width);
    LowIsRemainder(ShiftRight(buf[k], i), width);
    forall j: nat | j < width
      ensures Bit(v, j) == Bit(low, j)
    {
      FieldBitInByte(buf, k, i, width, at, j);
    }
    SameBits(v, low, width);
  }
}

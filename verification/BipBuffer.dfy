/** The receive buffer of the parser: a byte queue kept in two contiguous regions of one array. */
module BipBuffers {
  import opened Bits
  import opened BipRegions
  import opened Memory

  /** A contiguous block of the buffer's array. */
  datatype Span = Span(start: nat, len: nat)

  class BipBuffer {
    const data: array<Byte>
    var regionAStart: nat
    var regionASize: nat
    var regionBSize: nat

    ghost predicate Valid()
      reads this
    {
      Layout().Valid(data.Length)
    }

    function Layout(): Regions
      reads this
    {
      Regions(regionAStart, regionASize, regionBSize)
    }

    /** The bytes in the queue, oldest first. */
    ghost function Contents(): (s: seq<Byte>)
      requires Valid()
      reads this, data
      ensures |s| == regionASize + regionBSize
    {
      Queue(data[..], Layout())
    }

    function Bytes(s: Span): (b: seq<Byte>)
      requires s.start + s.len <= data.Length
      reads data
      ensures |b| == s.len
    {
      data[..][s.start..s.start + s.len]
    }

    constructor (size: nat)
      ensures Valid() && fresh(data) && data.Length == size
      ensures Layout() == Regions(0, 0, 0)
    {
      data := new Byte[size](_ => 0);
      regionAStart, regionASize, regionBSize := 0, 0, 0;
    }

    function Available(): nat
      reads this
    {
      regionASize + regionBSize
    }

    function GetWriteBuffer(): (span: Span)
      requires Valid()
      reads this
      ensures (span.start, span.len) == Layout().WriteSpan(data.Length)
      ensures span.start + span.len <= data.Length
    {
      if regionBSize > 0 then Span(regionBSize, regionAStart - regionBSize)
      else
        var aEnd := regionAStart + regionASize;
        var spaceAtEnd := data.Length - aEnd;
        if spaceAtEnd > 0 then Span(aEnd, spaceAtEnd)
        else if regionAStart > 0 then Span(0, regionAStart)
        else Span(0, 0)
    }

    /** Commits `length` bytes placed in the offered block. The code also accepts
        any length on an empty buffer; longer than the array, that breaks the regions. */
    method AdvanceWriteIndex(length: nat) returns (ok: bool)
      requires Valid()
      modifies this
      ensures ok <==> length <= old(Layout()).WriteSpan(data.Length).1
                      || (old(Available()) == 0 && length > data.Length)
      ensures Valid() <==> !(old(Available()) == 0 && length > data.Length)
      ensures length <= old(Layout()).WriteSpan(data.Length).1 ==>
                Layout() == old(Layout()).AfterWrite(data.Length, length)
      ensures old(Available()) == 0 && length > data.Length ==> Layout() == Regions(0, length, 0)
      ensures !ok ==> Layout() == old(Layout())
    {
      if length == 0 {
        return true;
      }
      if regionBSize > 0 {
        if regionBSize + length > regionAStart {
          return false;
        }
        regionBSize := regionBSize + length;
        return true;
      }
      var aEnd := regionAStart + regionASize;
      if length <= data.Length - aEnd {
        regionASize := regionASize + length;
        return true;
      }
      if regionASize == 0 {
        regionASize := regionASize + length;
        return true;
      }
      // A length that fits behind region A was accepted above.
      if data.Length - aEnd > 0 {
        return false;
      }
      if length > regionAStart {
        return false;
      }
      regionBSize := length;
      return true;
    }

    method Write(bytes: seq<Byte>) returns (ok: bool)
      requires Valid()
      modifies this, data
      ensures Valid()
      ensures ok <==> old(Layout()).Accepts(data.Length, |bytes|)
      ensures ok ==> Contents() == old(Contents()) + bytes
                     && Layout() == old(Layout()).AfterWrite(data.Length, |bytes|)
      ensures !ok ==> Contents() == old(Contents()) && Layout() == old(Layout())
    {
      if |bytes| == 0 {
        return true;
      }
      var span := GetWriteBuffer();
      if span.len >= |bytes| {
        Copy(data, span.start, bytes);
        QueueGrows(old(data[..]), Layout(), bytes);
        ok := AdvanceWriteIndex(|bytes|);
        return ok;
      }
      if regionBSize == 0 {
        if regionAStart >= |bytes| {
          Copy(data, 0, bytes);
          QueueGrows(old(data[..]), Layout(), bytes);
          regionBSize := |bytes|;
          return true;
        }
      }
      return false;
    }

    /** The first contiguous block of the queue. */
    function GetContiguousReadBuffer(): (span: Span)
      requires Valid()
      reads this
      ensures span.len == 0 <==> Available() == 0
      ensures span.len > 0 ==> span == GetReadSpans(0, span.len).0 && span.len == Layout().aSize
    {
      if regionASize > 0 then Span(regionAStart, regionASize) else Span(0, 0)
    }

    method Discard(length: nat) returns (ok: bool)
      requires Valid()
      modifies this
      ensures Valid()
      ensures ok <==> length <= old(Available())
      ensures ok ==> Contents() == old(Contents())[length..]
                     && Available() == old(Available()) - length
                     && Drops(data.Length, old(Layout()), Layout())
      ensures !ok ==> Layout() == old(Layout())
    {
      ok := DropBytes(length);
      if ok {
        QueueShrinks(data[..], old(Layout()), length);
      }
    }

    method DropBytes(length: nat) returns (ok: bool)
      requires Valid()
      modifies this
      ensures ok <==> length <= old(Available())
      ensures Layout() == if ok then old(Layout()).AfterDiscard(data.Length, length) else old(Layout())
    {
      if length == 0 {
        return true;
      }
      if length > Available() {
        return false;
      }
      if length <= regionASize {
        regionAStart := regionAStart + length;
        regionASize := regionASize - length;
      } else {
        var remainingFromB := length - regionASize;
        regionAStart := 0;
        regionASize := 0;
        regionBSize := regionBSize - remainingFromB;
        regionAStart := remainingFromB;
        regionASize := regionBSize;
        regionBSize := 0;
        assert regionASize == old(Available()) - length;
      }
      assert regionASize == 0 ==> length == old(regionASize) || length == old(Available());
      if regionASize == 0 {
        if regionBSize > 0 {
          regionAStart := 0;
          regionASize := regionBSize;
          regionBSize := 0;
        } else {
          regionAStart := 0;
        }
      }
      return true;
    }

    /** Where the slice of the queue of the given offset and length lies, as at most two blocks. */
    function GetReadSpans(offset: nat, length: nat): (spans: (Span, Span))
      requires Valid()
      reads this
      ensures spans.0.start + spans.0.len <= data.Length && spans.1.start + spans.1.len <= data.Length
      ensures ((spans.0.start, spans.0.len), (spans.1.start, spans.1.len)) == Layout().ReadSpans(offset, length)
    {
      if offset + length > Available() then (Span(0, 0), Span(0, 0))
      else if offset < regionASize then
        var aReadable := regionASize - offset;
        if length <= aReadable then
          (Span(regionAStart + offset, length), Span(0, 0))
        else
          (Span(regionAStart + offset, aReadable), Span(0, length - aReadable))
      else
        (Span(offset - regionASize, length), Span(0, 0))
    }

    /** The bytes copied out; the caller's destination is the result `bytes`. */
    method Peek(offset: nat, length: nat) returns (ok: bool, bytes: seq<Byte>)
      requires Valid()
      ensures ok <==> offset + length <= Available()
      ensures bytes == if ok then Contents()[offset..offset + length] else []
    {
      var end := offset + length;
      if end > Available() {
        return false, [];
      }
      var from := regionAStart + offset;
      if offset < regionASize {
        if length <= regionASize - offset {
          var to := from + length;
          SliceOfA(data[..], Layout(), offset, end, from, to);
          return true, data[..][from..to];
        }
        var aEnd, to := regionAStart + regionASize, end - regionASize;
        SliceAcross(data[..], Layout(), offset, end, from, aEnd, to);
        return true, data[..][from..aEnd] + data[..][..to];
      }
      var offsetInB, to := offset - regionASize, end - regionASize;
      SliceOfB(data[..], Layout(), offset, end, offsetInB, to);
      return true, data[..][offsetInB..to];
    }

    method Read(length: nat) returns (ok: bool, bytes: seq<Byte>)
      requires Valid()
      modifies this
      ensures Valid()
      ensures ok <==> length <= old(Available())
      ensures ok ==> bytes == old(Contents())[..length] && Contents() == old(Contents())[length..]
      ensures !ok ==> Contents() == old(Contents())
    {
      ok, bytes := Peek(0, length);
      if ok {
        var _ := Discard(length);
      }
    }
  }
}

/** The object that writes frames into a caller's buffer. */
module Serializers {
  import opened Bits
  import opened Memory
  import opened Scanning
  import opened Framing
  import opened Encoding
  import Checksums

  /** The frames of one call, one after the other, all with the same sequence number. */
  function Frames(p: Protocol, sequence: Byte, packets: seq<Packet>): (f: seq<Byte>)
    requires forall i :: 0 <= i < |packets| ==> Encodable(packets[i])
    ensures |f| == TotalSize(packets)
  {
    if packets == [] then []
    else Frames(p, sequence, packets[..|packets| - 1]) + Encode(p, sequence, packets[|packets| - 1])
  }

  function FrameSize(packet: Packet): nat {
    HEADER_SIZE + |packet.payload| + TAIL_SIZE
  }

  function TotalSize(packets: seq<Packet>): nat {
    if packets == [] then 0 else TotalSize(packets[..|packets| - 1]) + FrameSize(packets[|packets| - 1])
  }

  lemma {:induction false} TotalSizeMonotone(packets: seq<Packet>, i: nat)
    requires i <= |packets|
    ensures TotalSize(packets[..i]) <= TotalSize(packets)
    decreases |packets| - i
  {
    if i < |packets| {
      TotalSizeMonotone(packets, i + 1);
      assert packets[..i + 1][..i] == packets[..i];
    } else {
      assert packets[..i] == packets;
    }
  }

  lemma OneMoreFrame(p: Protocol, sequence: Byte, packets: seq<Packet>, i: nat, all: seq<Byte>)
    requires forall i :: 0 <= i < |packets| ==> Encodable(packets[i])
    requires i < |packets| && TotalSize(packets) <= |all|
    ensures TotalSize(packets[..i]) + FrameSize(packets[i]) == TotalSize(packets[..i + 1]) <= |all|
    ensures Overwrite(Overwrite(all, 0, Frames(p, sequence, packets[..i])), TotalSize(packets[..i]),
                      Encode(p, sequence, packets[i])) ==
            Overwrite(all, 0, Frames(p, sequence, packets[..i + 1]))
  {
    TotalSizeMonotone(packets, i + 1);
    assert packets[..i + 1][..i] == packets[..i];
    OverwriteTwice(all, 0, Frames(p, sequence, packets[..i]), TotalSize(packets[..i]), Encode(p, sequence, packets[i]));
  }

  class Serializer {
    const p: Protocol
    const tables: Checksums.Tables
    var sequence: Byte

    ghost predicate Valid() {
      Checksums.Fit(p, tables)
    }

    constructor (maxFrame: nat)
      requires maxFrame >= HEADER_SIZE + TAIL_SIZE
      ensures Valid() && p.maxFrame == maxFrame && sequence == 0
    {
      p := Checksums.Instance(maxFrame);
      var both := Checksums.MakeTables();
      tables := both;
      sequence := 0;
    }

    method FrameChecksum(bytes: seq<Byte>) returns (crc: Half)
      requires Valid()
      ensures crc == p.frameCrc(bytes)
    {
      assert bytes + [] == bytes;
      crc := Checksums.CalcFrame(p, tables, bytes, []);
    }

    /** Start byte, length and sequence number. */
    method WriteStart(buffer: array<Byte>, at: nat, size: Half)
      requires at + 4 <= buffer.Length
      modifies buffer
      ensures buffer[..] == Overwrite(old(buffer[..]), at, [START_BYTE, Low(size), High(size), sequence])
    {
      buffer[at] := START_BYTE;
      buffer[at + 1] := size % 256;
      buffer[at + 2] := (size / 256) % 256;
      buffer[at + 3] := sequence;
    }

    /** A 16-bit field, low byte first. */
    method WriteHalf(buffer: array<Byte>, at: nat, n: Half)
      requires at + 2 <= buffer.Length
      modifies buffer
      ensures buffer[..] == Overwrite(old(buffer[..]), at, [Low(n), High(n)])
    {
      buffer[at] := n % 256;
      buffer[at + 1] := (n / 256) % 256;
    }

    /** The first five header bytes: the start and its checksum. */
    method WriteChecked(buffer: array<Byte>, at: nat, size: Half)
      requires Valid() && at + 5 <= buffer.Length
      modifies buffer
      ensures var start := [START_BYTE, Low(size), High(size), sequence];
              buffer[..] == Overwrite(old(buffer[..]), at, start + [p.headerCrc(start)])
    {
      ghost var all, start := buffer[..], [START_BYTE, Low(size), High(size), sequence];
      WriteStart(buffer, at, size);
      OverwrittenPart(all, at, start, at + 4);
      var crc := Checksums.CalcHeader(p, tables, buffer[..][at..at + 4]);
      Copy(buffer, at + 4, [crc]);
      OverwriteTwice(all, at, start, at + 4, [crc]);
    }

    method WriteHeader(buffer: array<Byte>, at: nat, packet: Packet)
      requires Valid() && Encodable(packet) && at + HEADER_SIZE <= buffer.Length
      modifies buffer
      ensures buffer[..] == Overwrite(old(buffer[..]), at, Header(p, sequence, packet))
    {
      ghost var all := buffer[..];
      ghost var start := [START_BYTE, Low(|packet.payload|), High(|packet.payload|), sequence];
      ghost var checked, cmd := start + [p.headerCrc(start)], [Low(packet.cmd), High(packet.cmd)];
      assert Header(p, sequence, packet) == checked + cmd;
      WriteChecked(buffer, at, |packet.payload|);
      assert |checked| == 5;
      WriteHalf(buffer, at + 5, packet.cmd);
      OverwriteTwice(all, at, checked, at + 5, cmd);
    }

    /** Header and payload: what the frame checksum covers. */
    method WriteBody(buffer: array<Byte>, at: nat, packet: Packet)
      requires Valid() && Encodable(packet) && at + FrameSize(packet) <= buffer.Length
      modifies buffer
      ensures buffer[..] == Overwrite(old(buffer[..]), at, Header(p, sequence, packet) + packet.payload)
    {
      OverwriteTwice(buffer[..], at, Header(p, sequence, packet), at + HEADER_SIZE, packet.payload);
      WriteHeader(buffer, at, packet);
      Copy(buffer, at + HEADER_SIZE, packet.payload);
    }

    /** The checksum of the bytes from `at` to `end`, written behind them. */
    method WriteTail(buffer: array<Byte>, at: nat, end: nat, ghost body: seq<Byte>)
      requires Valid() && at <= end && end + TAIL_SIZE <= buffer.Length && buffer[..][at..end] == body
      modifies buffer
      ensures buffer[..] == Overwrite(old(buffer[..]), end, Tail(p, body))
    {
      var crc := FrameChecksum(buffer[..][at..end]);
      WriteHalf(buffer, end, crc);
    }

    method SerializeOne(buffer: array<Byte>, at: nat, packet: Packet)
      requires Valid() && Encodable(packet) && at + FrameSize(packet) <= buffer.Length
      modifies buffer
      ensures buffer[..] == Overwrite(old(buffer[..]), at, Encode(p, sequence, packet))
    {
      ghost var all, body := buffer[..], Header(p, sequence, packet) + packet.payload;
      ghost var tail := Tail(p, body);
      var end := at + HEADER_SIZE + |packet.payload|;
      OverwrittenPart(all, at, body, end);
      OverwriteTwice(all, at, body, end, tail);
      WriteBody(buffer, at, packet);
      WriteTail(buffer, at, end, body);
    }

    method WriteFrames(buffer: array<Byte>, packets: seq<Packet>) returns (offset: nat)
      requires Valid() && TotalSize(packets) <= buffer.Length
      requires forall i :: 0 <= i < |packets| ==> Encodable(packets[i])
      modifies buffer
      ensures offset == TotalSize(packets)
      ensures buffer[..] == Overwrite(old(buffer[..]), 0, Frames(p, sequence, packets))
    {
      ghost var all := buffer[..];
      offset := 0;
      for i := 0 to |packets|
        invariant offset == TotalSize(packets[..i]) <= |all| == buffer.Length
        invariant buffer[..] == Overwrite(all, 0, Frames(p, sequence, packets[..i]))
      {
        OneMoreFrame(p, sequence, packets, i, all);
        SerializeOne(buffer, offset, packets[i]);
        offset := offset + FrameSize(packets[i]);
      }
      assert packets[..|packets|] == packets;
    }

    /** Serialises the packets one after the other, if they fit; the sequence number
        moves on once a call, not once a packet. */
    method Serialize(buffer: array<Byte>, packets: seq<Packet>) returns (written: nat, ok: bool)
      requires Valid()
      requires forall i :: 0 <= i < |packets| ==> Encodable(packets[i])
      modifies this, buffer
      ensures ok <==> TotalSize(packets) <= buffer.Length
      ensures ok ==> written == TotalSize(packets)
      ensures ok ==> buffer[..] == Overwrite(old(buffer[..]), 0, Frames(p, old(sequence), packets))
      ensures ok ==> sequence == (old(sequence) + 1) % 256
      ensures !ok ==> buffer[..] == old(buffer[..]) && sequence == old(sequence)
    {
      if buffer.Length < TotalSize(packets) {
        return 0, false;
      }
      written := WriteFrames(buffer, packets);
      ghost var all := buffer[..];
      sequence := (sequence + 1) % 256;
      assert buffer[..] == all;
      ok := true;
    }
  }
}

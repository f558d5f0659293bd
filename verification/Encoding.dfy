/** What the bytes of a frame are, and that the parser's verdict undoes it. */
module Encoding {
  import opened Bits
  import opened Scanning
  import opened Framing

  /** A packet type's command and size fit their 16-bit fields. */
  predicate Encodable(packet: Packet) {
    packet.cmd < 65536 && |packet.payload| < 65536
  }

  function Low(n: Half): Byte { n % 256 }
  function High(n: Half): Byte { n / 256 }

  function Header(p: Protocol, sequence: Byte, packet: Packet): (h: seq<Byte>)
    requires Encodable(packet)
    ensures |h| == HEADER_SIZE
  {
    var n := |packet.payload|;
    var start := [START_BYTE, Low(n), High(n), sequence];
    start + [p.headerCrc(start), Low(packet.cmd), High(packet.cmd)]
  }

  function Encode(p: Protocol, sequence: Byte, packet: Packet): (f: seq<Byte>)
    requires Encodable(packet)
    ensures |f| == HEADER_SIZE + |packet.payload| + TAIL_SIZE
  {
    var body := Header(p, sequence, packet) + packet.payload;
    body + Tail(p, body)
  }

  function Tail(p: Protocol, body: seq<Byte>): (t: seq<Byte>)
    ensures |t| == TAIL_SIZE
  {
    [Low(p.frameCrc(body)), High(p.frameCrc(body))]
  }

  lemma LowHigh(n: Half)
    ensures U16(Low(n), High(n)) == n
  {
  }

  /** Where the parts of a frame are found in a stream that starts with it. */
  lemma EncodeLayout(p: Protocol, sequence: Byte, packet: Packet, t: seq<Byte>)
    requires Encodable(packet)
    ensures var s, n := Encode(p, sequence, packet) + t, |packet.payload|;
            var body := Header(p, sequence, packet) + packet.payload;
            && s[..4] == [START_BYTE, Low(n), High(n), sequence]
            && s[4] == p.headerCrc(s[..4]) && s[5] == Low(packet.cmd) && s[6] == High(packet.cmd)
            && s[HEADER_SIZE..HEADER_SIZE + n] == packet.payload
            && s[..HEADER_SIZE + n] == body
            && s[HEADER_SIZE + n] == Low(p.frameCrc(body)) && s[HEADER_SIZE + n + 1] == High(p.frameCrc(body))
  {
    var n := |packet.payload|;
    var h, s := Header(p, sequence, packet), Encode(p, sequence, packet) + t;
    assert forall i :: 0 <= i < HEADER_SIZE ==> s[i] == h[i];
    assert s[..4] == h[..4] == [START_BYTE, Low(n), High(n), sequence];
    assert s[..HEADER_SIZE + n] == h + packet.payload;
    assert s[HEADER_SIZE..HEADER_SIZE + n] == packet.payload;
  }

  /** An encoded frame at the head of any stream is accepted and yields its packet. */
  lemma EncodeAccepted(p: Protocol, sequence: Byte, packet: Packet, t: seq<Byte>)
    requires Encodable(packet) && HEADER_SIZE + |packet.payload| + TAIL_SIZE <= p.maxFrame
    ensures var f := Encode(p, sequence, packet);
            f[0] == START_BYTE && Judge(p, f + t) == Success(packet, |f|)
  {
    EncodeLayout(p, sequence, packet, t);
    LowHigh(|packet.payload|);
    LowHigh(packet.cmd);
    LowHigh(p.frameCrc(Header(p, sequence, packet) + packet.payload));
    assert (Encode(p, sequence, packet) + t)[1] == Low(|packet.payload|);
    assert (Encode(p, sequence, packet) + t)[2] == High(|packet.payload|);
  }

  // ---- Round trip ----

  /** A piece of a stream: a frame, or bytes of noise. */
  datatype Piece = Frame(sequence: Byte, packet: Packet) | Noise(bytes: seq<Byte>)
  {
    predicate Sendable(p: Protocol) {
      match this
      case Frame(_, packet) => Encodable(packet) && HEADER_SIZE + |packet.payload| + TAIL_SIZE <= p.maxFrame
      case Noise(bytes) => START_BYTE !in bytes
    }

    function Bytes(p: Protocol): seq<Byte>
      requires Sendable(p)
    {
      match this
      case Frame(sequence, packet) => Encode(p, sequence, packet)
      case Noise(bytes) => bytes
    }
  }

  predicate AllSendable(p: Protocol, pieces: seq<Piece>) {
    forall i :: 0 <= i < |pieces| ==> pieces[i].Sendable(p)
  }

  function Stream(p: Protocol, pieces: seq<Piece>): seq<Byte>
    requires AllSendable(p, pieces)
  {
    if pieces == [] then [] else pieces[0].Bytes(p) + Stream(p, pieces[1..])
  }

  function Packets(pieces: seq<Piece>): seq<Packet> {
    if pieces == [] then []
    else (if pieces[0].Frame? then [pieces[0].packet] else []) + Packets(pieces[1..])
  }

  lemma {:induction false} NoiseSkipped(c: Scanner, noise: seq<Byte>, t: seq<Byte>)
    requires c.Sane() && START_BYTE !in noise
    ensures Scan(c, noise + t) == Scan(c, t)
    decreases noise
  {
    if noise == [] {
      assert noise + t == t;
    } else {
      assert (noise + t)[1..] == noise[1..] + t;
      NoiseSkipped(c, noise[1..], t);
    }
  }

  lemma FrameScanned(p: Protocol, sequence: Byte, packet: Packet, t: seq<Byte>)
    requires Encodable(packet) && HEADER_SIZE + |packet.payload| + TAIL_SIZE <= p.maxFrame
    requires ScannerOf(p).Sane()
    ensures Scan(ScannerOf(p), Encode(p, sequence, packet) + t) == Prepend(packet, Scan(ScannerOf(p), t))
  {
    var f := Encode(p, sequence, packet);
    EncodeAccepted(p, sequence, packet, t);
    assert (f + t)[|f|..] == t;
  }

  /** Any list of packets, encoded with any sequence numbers and with noise free of
      start bytes between them, comes out complete, in order, and with nothing left over. */
  lemma {:induction false} RoundTrip(p: Protocol, pieces: seq<Piece>)
    requires AllSendable(p, pieces) && ScannerOf(p).Sane()
    ensures Scan(ScannerOf(p), Stream(p, pieces)) == Scanned(Packets(pieces), [])
    decreases pieces
  {
    if pieces != [] {
      var t := Stream(p, pieces[1..]);
      RoundTrip(p, pieces[1..]);
      match pieces[0]
      case Frame(sequence, packet) => FrameScanned(p, sequence, packet, t);
      case Noise(bytes) => NoiseSkipped(ScannerOf(p), bytes, t);
    }
  }

  /** The same however the stream is cut into the chunks that are pushed. */
  lemma RoundTripInChunks(p: Protocol, pieces: seq<Piece>, chunks: seq<seq<Byte>>)
    requires AllSendable(p, pieces) && Flatten(chunks) == Stream(p, pieces)
    ensures ScannerOf(p).Sane()
    ensures ScanChunks(ScannerOf(p), [], chunks) == Scanned(Packets(pieces), [])
  {
    ScannerIsSane(p);
    ChunkingIrrelevant(ScannerOf(p), [], chunks);
    assert [] + Flatten(chunks) == Flatten(chunks);
    RoundTrip(p, pieces);
  }
}

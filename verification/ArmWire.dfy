/** Packet types of the arm on the frame format of the stack: the wires that the theorems on runs
    assume do exist. */
module ArmWires {
  import opened Bits
  import opened Encoding
  import opened Framing
  import opened Recovery
  import opened Scanning
  import opened Session
  import opened SessionRuns
  import opened Stacks
  import opened WindowLimit
  import opened Wires

  const SET_MIT_LIMIT_REQUEST: nat := 0x6103
  const SET_MIT_LIMIT_RESPONSE: nat := 0x6104
  const ACK_SIZE: nat := 7

  /** The acknowledgement, a request and its response, with the sizes of their structures. */
  predicate Declared(p: Packet) {
    || (p.cmd == ACK_CMD && |p.payload| == ACK_SIZE)
    || (p.cmd == SET_MIT_LIMIT_REQUEST && |p.payload| == 13)
    || (p.cmd == SET_MIT_LIMIT_RESPONSE && |p.payload| == 5)
  }

  /** How the transaction id that leads each of them is written and read. */
  datatype IdFormat = IdFormat(write: Word32 -> seq<Byte>, read: seq<Byte> -> Word32)
  {
    ghost predicate Sound() {
      forall k: Word32 :: |write(k)| == 4 && read(write(k)) == k
    }

    function TxIdOf(p: Packet): Word32 {
      if Declared(p) then read(p.payload[..4]) else 0
    }

    function Ack(k: Word32, cmd: Half): Packet {
      Packet(ACK_CMD, write(k) + [Low(cmd), High(cmd), 0])
    }
  }

  /** Least significant byte first. */
  function IdFrom(b: seq<Byte>): Word32 {
    if |b| < 4 then 0
    else
      var low: nat, high: nat := U16(b[0], b[1]), U16(b[2], b[3]);
      low + 0x1_0000 * high
  }

  function IdBytes(k: Word32): (b: seq<Byte>)
    ensures |b| == 4 && IdFrom(b) == k
  {
    var low, high := k % 0x1_0000, k / 0x1_0000;
    LowHigh(low);
    LowHigh(high);
    [Low(low), High(low), Low(high), High(high)]
  }

  lemma LittleEndianSound()
    ensures IdFormat(IdBytes, IdFrom).Sound()
  {
  }

  /** Requests to set the same limits, one for each id. */
  function SetLimits(ids: IdFormat, limits: seq<Byte>): Requests {
    Requests(SET_MIT_LIMIT_REQUEST, k => if 0 <= k < TWO32 then ids.write(k) + limits else [])
  }

  function LimitsSet(ids: IdFormat, status: Byte): Packet {
    Packet(SET_MIT_LIMIT_RESPONSE, ids.write(1) + [status])
  }

  function ArmWire(p: Protocol, ids: IdFormat): Wire {
    WireOf(p, Declared, ids.TxIdOf, ids.Ack, ACK_SIZE)
  }

  lemma CarriesItsId(w: Wire, p: Protocol, ids: IdFormat, packet: Packet, k: Word32, rest: seq<Byte>)
    requires p.maxFrame >= HEADER_SIZE + 13 + TAIL_SIZE && w == ArmWire(p, ids) && ids.Sound()
    requires Declared(packet) && packet.payload == ids.write(k) + rest
    ensures w.known(packet) && w.txIdOf(packet) == k
  {
    assert packet.payload[..4] == ids.write(k);
    assert Encodable(packet);
  }

  lemma LimitsUsable(w: Wire, p: Protocol, ids: IdFormat, r: Requests, limits: seq<Byte>)
    requires p.maxFrame >= HEADER_SIZE + 13 + TAIL_SIZE && w == ArmWire(p, ids) && ids.Sound()
    requires r == SetLimits(ids, limits) && |limits| == 9
    ensures r.Usable(w)
  {
    WireIsFaithful(p, Declared, ids.TxIdOf, ids.Ack, ACK_SIZE);
    forall k: TxId | 0 < k < TWO32
      ensures w.known(r.Of(k)) && w.txIdOf(r.Of(k)) == k && |r.payload(k)| <= Slots.MAX_PACKET_SIZE
    {
      CarriesItsId(w, p, ids, r.Of(k), k, limits);
    }
  }

  /** Whatever the checksums, those of the stack included: the requests, their acknowledgements and the
      response are what the theorems on runs ask for. */
  lemma ArmIsAnswerable(w: Wire, p: Protocol, ids: IdFormat, limits: seq<Byte>, status: Byte)
    requires p.maxFrame >= HEADER_SIZE + 13 + TAIL_SIZE && w == ArmWire(p, ids) && ids.Sound() && |limits| == 9
    ensures Answerable(w, SetLimits(ids, limits), LimitsSet(ids, status))
  {
    LimitsUsable(w, p, ids, SetLimits(ids, limits), limits);
    CarriesItsId(w, p, ids, LimitsSet(ids, status), 1, [status]);
    CarriesItsId(w, p, ids, ids.Ack(1, SET_MIT_LIMIT_REQUEST), 1,
                 [Low(SET_MIT_LIMIT_REQUEST), High(SET_MIT_LIMIT_REQUEST), 0]);
  }
}

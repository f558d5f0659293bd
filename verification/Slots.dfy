/** The fixed slots in which a session keeps requests and responses. */
module Slots {
  import opened Bits

  const MAX_PACKET_SIZE: nat := 256

  /** A slot holds no more than `MAX_PACKET_SIZE` bytes; the rest is lost. */
  function Truncated(bytes: seq<Byte>): (r: seq<Byte>)
    ensures r == bytes <==> |bytes| <= MAX_PACKET_SIZE
  {
    if |bytes| <= MAX_PACKET_SIZE then bytes else bytes[..MAX_PACKET_SIZE]
  }
}

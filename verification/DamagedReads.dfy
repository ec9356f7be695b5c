/** A read from the caller's side: what damage to the reply can do to the caller's array. */
module DamagedReads {
  import opened Packet
  import opened SpiBus
  import opened ErrorDetection
  import opened DamagedPackets

  /** The reply that arrives is the peer's well-formed reply `p` with an odd number of bits flipped anywhere
      under its CRC, CRC byte and count bits included: the read fails and the caller's array is as before. */
  method ReadUnderOddDamage(bus: Bus, address: bv16, data: array<bv16>, count: nat, x: Exchange, ghost p: Memory)
    returns (result: int)
    requires bus.Valid() && x.Valid() && x.Reply? && count <= data.Length && count <= PKT_MAX_REGS
    requires CrcOk(p) && Count(p) == count
    requires var m := ReadRequest(bus.Mem(), PageOf(address), OffsetOf(address), count);
             CountFlips(Damage(p, Exchanged(m, x)), 0) % 2 == 1
    modifies bus, bus.buffer, data
    ensures bus.Valid() && result < 0 && data[..] == old(data[..])
  {
    ghost var m := ReadRequest(bus.Mem(), PageOf(address), OffsetOf(address), count);
    OddDamageFailsRead(p, Exchanged(m, x), count);
    result := bus.Read(address, data, count, x);
  }
}

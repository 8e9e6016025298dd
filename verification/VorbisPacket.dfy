/** The bit buffer of a Vorbis packet, filled from the segments of Ogg pages. */
module VorbisPacket {
  import opened BitStream
  import opened OggPackets
  import opened VorbisDecode

  /** The packet's remaining bytes are those that the segment reader is going to deliver. */
  ghost predicate Feeds(r: Reader, bits: PacketBits, end: nat)
    reads r, r.segments, bits
  {
    r.Ready() && !r.Failed() && r.Remaining().Whole? && r.Remaining().end == end && r.Remaining().data == bits.packet
  }

  /** Takes one byte of the packet, if there is one. */
  method TakeByte(bits: PacketBits, r: Reader, ghost end: nat) returns (more: bool)
    requires bits.Valid() && bits.validBits <= 24 && (bits.validBits == 0 ==> bits.acc == 0) && Feeds(r, bits, end)
    modifies bits, r, r.segments
    ensures bits.Valid() && (bits.validBits == 0 ==> bits.acc == 0) && Feeds(r, bits, end)
    ensures bits.Stream() == old(bits.Stream()) && bits.Count() == old(bits.Count()) && bits.Offer() == old(bits.Offer())
    ensures more <==> old(bits.packet) != []
    ensures bits.validBits == old(bits.validBits) + if more then 8 else 0
  {
    if r.lastSeg && r.bytesInSeg == 0 {
      return false;
    }
    ghost var left := r.Remaining();
    ghost var next;
    var z;
    z, next := r.Get8PacketRaw(left);
    more := z != EOP;
    if more {
      bits.AppendByte(z);
    }
  }

  /** The refill over page and segment boundaries: as if the packet were one string of bytes. */
  method PrepHuffman(bits: PacketBits, r: Reader, ghost end: nat)
    requires bits.Valid() && Feeds(r, bits, end)
    modifies bits, r, r.segments
    ensures bits.Valid() && Feeds(r, bits, end)
    ensures bits.Stream() == old(bits.Stream()) && bits.Count() == old(bits.Count())
    ensures bits.validBits == old(bits.Offer()) == bits.Offer()
    ensures bits.acc == old(bits.Window()) == bits.Window()
  {
    if bits.validBits <= 24 {
      if bits.validBits == 0 {
        bits.acc := 0;
      }
      var more := true;
      while more && bits.validBits <= 24
        invariant bits.Valid() && (bits.validBits == 0 ==> bits.acc == 0) && Feeds(r, bits, end)
        invariant bits.Stream() == old(bits.Stream()) && bits.Count() == old(bits.Count()) && bits.Offer() == old(bits.Offer())
        invariant more || bits.packet == []
        decreases more, 32 - bits.validBits
      {
        more := TakeByte(bits, r, end);
        assert !more ==> bits.packet == [];
      }
    }
    BufferIsLow(bits.acc, bits.validBits, bits.packet, bits.validBits);
  }
}

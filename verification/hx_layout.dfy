/** The wire formats field by field, as the protocol document lays them out. */
module HxLayout {
  import opened Bytes
  import opened Wrappers
  import opened Crc32
  import opened HxCodec
  import Can

  /** A packet on the wire, by offset: magic, version, type, flags, length, sequence, payload, checksum. */
  lemma PacketLayout(p: Packet)
    requires p.Encodable()
    ensures var w, n := Encode(p), p.payloadSize;
      && |w| == 12 + n + 4
      && w[0] == 'H' as byte && w[1] == 'X' as byte && w[2] == 1 && w[3] == p.mtype
      && w[4] == (p.flags & 0xFF) as byte && w[5] == (p.flags >> 8) as byte
      && Number(w[6..8]) == n
      && w[8] == (p.sequence & 0xFF) as byte && w[9] == ((p.sequence >> 8) & 0xFF) as byte
      && w[10] == ((p.sequence >> 16) & 0xFF) as byte && w[11] == (p.sequence >> 24) as byte
      && w[12..12 + n] == p.payload[..n]
      && w[12 + n..] == Put32(Crc(w[..12 + n]))
  {
    hide Crc, PutSize, GetSize, Number;
    var w, n := Encode(p), p.payloadSize;
    assert w[6..8] == PutSize(n);
    SizeIsNumber(w[6..8]);
    assert w[..12 + n] == Body(p);
  }

  /** The message types of the protocol. */
  lemma Types(t: byte)
    ensures KnownType(t) <==>
      || 0x01 <= t <= 0x06 || t == 0x10 || 0x20 <= t <= 0x21 || 0x30 <= t <= 0x31 || 0x40 <= t <= 0x41 || t == 0x7F
  {
  }

  /** A CAN frame in the payload of a packet, by offset, and which frames can be carried. */
  lemma CanLayout(f: Can.Frame, m: CanMetadata, sequence: bv32)
    ensures MakeCanPacket(f, m, sequence).Some? <==>
      && f.id <= (if f.extended then 0x1FFF_FFFF else 0x7FF) && f.size <= (if f.fd then 64 else 8)
      && !(f.remote && f.fd) && (f.bitrateSwitch ==> f.fd)
    ensures MakeCanPacket(f, m, sequence).Some? ==>
      var p := MakeCanPacket(f, m, sequence).value;
      && p.mtype == 0x10 && p.flags == 0 && p.sequence == sequence && p.payloadSize == 16 + f.size <= 128
      && Number(p.payload[0..4]) == f.id && p.payload[4] as int == f.size
      && (p.payload[5] & 1 != 0 <==> f.extended) && (p.payload[5] & 2 != 0 <==> f.remote)
      && (p.payload[5] & 4 != 0 <==> f.fd) && (p.payload[5] & 8 != 0 <==> f.bitrateSwitch) && p.payload[5] <= 15
      && p.payload[6] == (match m.origin case PhysicalBus => 0 case LocalNode => 1 case WirelessClient => 2)
      && p.payload[7] == m.bus
      && p.payload[8..16] == Put64(m.timestamp) && p.payload[16..16 + f.size] == f.data[..f.size]
  {
    hide PutSize32, GetSize32, Put64, FlagByte, ByteOf, CanPayload, Number;
    if f.Valid() {
      CanPayloadParts(f, m);
      SizeIsNumber(PutSize32(f.id));
      FlagBits(f);
      var s, p := CanPayload(f, m), MakeCanPacket(f, m, sequence).value;
      SamePieces(s, p.payload, s);
    }
  }

  lemma FlagBits(f: Can.Frame)
    ensures var b := FlagByte(f);
      && (b & 1 != 0 <==> f.extended) && (b & 2 != 0 <==> f.remote)
      && (b & 4 != 0 <==> f.fd) && (b & 8 != 0 <==> f.bitrateSwitch) && b <= 15
  {
  }
}

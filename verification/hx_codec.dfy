/** HX v1 packets: the codec of `protocol.cpp`, and the exact set of byte strings it accepts. */
module HxCodec {
  import opened Bytes
  import opened Wrappers
  import opened Crc32
  import CrcBurst
  import Can

  const HEADER_SIZE := 12
  const CRC_SIZE := 4
  const MAX_PAYLOAD_SIZE := 128
  const MAX_PACKET_SIZE := HEADER_SIZE + MAX_PAYLOAD_SIZE + CRC_SIZE
  const PROTOCOL_VERSION: byte := 1

  type Payload = s: seq<byte> | |s| == MAX_PAYLOAD_SIZE witness Zeros(MAX_PAYLOAD_SIZE)

  function Pad(s: seq<byte>): (p: Payload)
    requires |s| <= MAX_PAYLOAD_SIZE
    ensures p[..|s|] == s
  {
    s + Zeros(MAX_PAYLOAD_SIZE - |s|)
  }

  /** A packet always holds 128 payload bytes; only the first `payloadSize` of them count.
      The type and the size are whatever the caller put there. */
  datatype Packet = Packet(mtype: byte, flags: bv16, sequence: bv32, payloadSize: u16, payload: Payload)
  {
    predicate Valid() {
      payloadSize <= MAX_PAYLOAD_SIZE
    }

    predicate Encodable() {
      Valid() && KnownType(mtype)
    }

    /** The same packet with the unused payload bytes cleared, as the decoder leaves them. */
    function Cleaned(): Packet
      requires Valid()
    {
      this.(payload := Pad(payload[..payloadSize]))
    }

    predicate Clean() {
      Valid() && Cleaned() == this
    }
  }

  predicate KnownType(t: byte) {
    t in [0x01, 0x02, 0x03, 0x04, 0x05, 0x06, 0x10, 0x20, 0x21, 0x30, 0x31, 0x40, 0x41, 0x7F]
  }

  predicate MagicAt(s: seq<byte>) {
    |s| >= 2 && s[0] == 0x48 && s[1] == 0x58
  }

  // ----- the encoder

  function Header(p: Packet): (s: seq<byte>)
    ensures |s| == HEADER_SIZE
  {
    [0x48, 0x58, PROTOCOL_VERSION, p.mtype] + Put16(p.flags) + PutSize(p.payloadSize) + Put32(p.sequence)
  }

  function Body(p: Packet): (s: seq<byte>)
    requires p.Valid()
    ensures |s| == HEADER_SIZE + p.payloadSize
  {
    Header(p) + p.payload[..p.payloadSize]
  }

  function Encode(p: Packet): (s: seq<byte>)
    requires p.Valid()
    ensures |s| == HEADER_SIZE + p.payloadSize + CRC_SIZE
  {
    Body(p) + Put32(Crc(Body(p)))
  }

  lemma EncodeStartsWithMagic(p: Packet)
    requires p.Valid()
    ensures MagicAt(Encode(p))
  {
  }

  /** The encoder fills a fixed buffer and refuses packets it could not decode again. */
  method EncodePacket(packet: Packet, wire: array<byte>) returns (ok: bool, size: nat)
    requires wire.Length == MAX_PACKET_SIZE
    modifies wire
    ensures ok <==> packet.Encodable()
    ensures ok ==> size == |Encode(packet)| && wire[..] == Encode(packet) + Zeros(MAX_PACKET_SIZE - size)
    ensures !ok ==> wire[..] == old(wire[..])
  {
    hide Put16, Put32, PutSize, Crc, KnownType, Header;
    if !packet.Valid() || !KnownType(packet.mtype) {
      return false, 0;
    }
    ok, size := true, HEADER_SIZE + packet.payloadSize + CRC_SIZE;
    forall i | 0 <= i < wire.Length { wire[i] := 0; }
    assert wire[..] == Zeros(MAX_PACKET_SIZE);
    StoreHeader(wire, packet);
    assert wire[..] == Header(packet) + Zeros(MAX_PACKET_SIZE - HEADER_SIZE);
    Store(wire, HEADER_SIZE, packet.payload[..packet.payloadSize]);
    assert wire[..] == Body(packet) + Zeros(MAX_PACKET_SIZE - (size - CRC_SIZE));
    var crc := Crc32Ieee(wire[..size - CRC_SIZE]);
    assert wire[..size - CRC_SIZE] == Body(packet);
    Store(wire, size - CRC_SIZE, Put32(crc));
    assert wire[..] == Encode(packet) + Zeros(MAX_PACKET_SIZE - size);
  }

  method StoreHeader(wire: array<byte>, packet: Packet)
    requires wire.Length == MAX_PACKET_SIZE
    modifies wire
    ensures wire[..] == Header(packet) + old(wire[HEADER_SIZE..])
  {
    hide Put16, Put32, PutSize;
    wire[0], wire[1], wire[2], wire[3] := 0x48, 0x58, PROTOCOL_VERSION, packet.mtype;
    ghost var start := [0x48, 0x58, PROTOCOL_VERSION, packet.mtype];
    assert wire[..4] == start;
    Store(wire, 4, Put16(packet.flags));
    assert wire[..6] == start + Put16(packet.flags);
    Store(wire, 6, PutSize(packet.payloadSize));
    assert wire[..8] == start + Put16(packet.flags) + PutSize(packet.payloadSize);
    Store(wire, 8, Put32(packet.sequence));
    assert wire[..HEADER_SIZE] == Header(packet);
    assert forall i :: HEADER_SIZE <= i < wire.Length ==> wire[i] == old(wire[i]);
    assert wire[..] == wire[..HEADER_SIZE] + wire[HEADER_SIZE..];
  }

  /** Copies bytes into the buffer. */
  method Store(wire: array<byte>, at: nat, s: seq<byte>)
    requires at + |s| <= wire.Length
    modifies wire
    ensures wire[..at] == old(wire[..at]) && wire[at..at + |s|] == s && wire[at + |s|..] == old(wire[at + |s|..])
    ensures wire[..] == old(wire[..at]) + s + old(wire[at + |s|..])
  {
    ghost var before := wire[..];
    forall i | at <= i < at + |s| { wire[i] := s[i - at]; }
    assert wire[at..at + |s|] == s && wire[..at] == before[..at] && wire[at + |s|..] == before[at + |s|..];
    assert wire[..] == wire[..at] + wire[at..at + |s|] + wire[at + |s|..];
  }

  // ----- the decoder

  /** An invalid result always consumes one byte, an incomplete one none. */
  datatype DecodeResult = Ok(packet: Packet, consumed: nat) | Incomplete | Invalid

  function Decode(s: seq<byte>): DecodeResult {
    if |s| < HEADER_SIZE then Incomplete
    else if !MagicAt(s) || s[2] != PROTOCOL_VERSION then Invalid
    else
      var size := GetSize(s[6..8]);
      if !KnownType(s[3]) || size > MAX_PAYLOAD_SIZE then Invalid
      else
        var total := HEADER_SIZE + size + CRC_SIZE;
        if |s| < total then Incomplete
        else if Crc(s[..total - CRC_SIZE]) != Get32(s[total - CRC_SIZE..total]) then Invalid
        else Ok(Packet(s[3], Get16(s[4..6]), Get32(s[8..12]), size,
                       Pad(s[HEADER_SIZE..HEADER_SIZE + size])), total)
  }

  method DecodePacket(bytes: seq<byte>) returns (r: DecodeResult)
    ensures r == Decode(bytes)
  {
    hide Crc, Get16, Get32, GetSize, KnownType, Pad;
    if |bytes| < HEADER_SIZE {
      return Incomplete;
    }
    if bytes[0] != 0x48 || bytes[1] != 0x58 || bytes[2] != PROTOCOL_VERSION {
      return Invalid;
    }
    var mtype, size := bytes[3], GetSize(bytes[6..8]);
    if !KnownType(mtype) || size > MAX_PAYLOAD_SIZE {
      return Invalid;
    }
    var total := HEADER_SIZE + size + CRC_SIZE;
    if |bytes| < total {
      return Incomplete;
    }
    var expected := Get32(bytes[total - CRC_SIZE..total]);
    var crc := Crc32Ieee(bytes[..total - CRC_SIZE]);
    if crc != expected {
      return Invalid;
    }
    return Ok(Packet(mtype, Get16(bytes[4..6]), Get32(bytes[8..12]), size,
                     Pad(bytes[HEADER_SIZE..HEADER_SIZE + size])), total);
  }

  // ----- the codec is a bijection between clean packets and accepted strings

  /** Decoding an encoded packet, whatever follows it, returns that packet and its exact length. */
  lemma DecodeEncode(p: Packet, t: seq<byte>)
    requires p.Encodable()
    ensures Decode(Encode(p) + t) == Ok(p.Cleaned(), |Encode(p)|)
  {
    hide Crc, Put16, Get16, Put32, Get32, PutSize, GetSize, KnownType, Pad;
    var w := Encode(p);
    var s := w + t;
    assert s[4..6] == Put16(p.flags) && s[6..8] == PutSize(p.payloadSize) && s[8..12] == Put32(p.sequence);
    assert s[..|w| - 4] == Body(p) && s[|w| - 4..|w|] == Put32(Crc(Body(p)));
    assert s[HEADER_SIZE..HEADER_SIZE + p.payloadSize] == p.payload[..p.payloadSize];
  }

  /** The header of a packet with the fields of twelve bytes is those bytes. */
  lemma HeaderReadsBack(s: seq<byte>, p: Packet)
    requires |s| >= HEADER_SIZE && MagicAt(s) && s[2] == PROTOCOL_VERSION
    requires p.mtype == s[3] && p.flags == Get16(s[4..6]) && p.payloadSize == GetSize(s[6..8])
        && p.sequence == Get32(s[8..12])
    ensures Header(p) == s[..HEADER_SIZE]
  {
    hide Put16, Get16, Put32, Get32, PutSize, GetSize;
    PutGet16(s[4..6]);
    PutGetSize(s[6..8]);
    PutGet32(s[8..12]);
    assert s[0..4] == [0x48, 0x58, PROTOCOL_VERSION, p.mtype];
    assert s[..HEADER_SIZE] == s[0..4] + s[4..6] + s[6..8] + s[8..12];
  }

  /** Encoding a decoded packet reproduces the bytes consumed. */
  lemma EncodeDecode(s: seq<byte>)
    requires Decode(s).Ok?
    ensures var r := Decode(s);
      && r.packet.Encodable() && r.packet.Clean()
      && r.consumed <= |s| && Encode(r.packet) == s[..r.consumed]
  {
    hide Crc, Put16, Get16, Put32, Get32, PutSize, GetSize, KnownType, Pad;
    var r := Decode(s);
    var p, total := r.packet, r.consumed;
    PutGet32(s[total - 4..total]);
    assert p.payload[..p.payloadSize] == s[HEADER_SIZE..HEADER_SIZE + p.payloadSize];
    HeaderReadsBack(s, p);
    assert s[..HEADER_SIZE] + s[HEADER_SIZE..total - 4] == s[..total - 4];
    assert Body(p) == s[..total - 4];
    assert s[..total - 4] + s[total - 4..total] == s[..total];
  }

  /** The decoder accepts exactly the encodings: no other string, and no packet but the clean one. */
  lemma DecodeExactly(s: seq<byte>, p: Packet, n: nat)
    ensures Decode(s) == Ok(p, n) <==> p.Encodable() && p.Clean() && Encode(p) <= s && n == |Encode(p)|
  {
    hide Decode, Encode;
    if Decode(s) == Ok(p, n) {
      EncodeDecode(s);
    }
    if p.Encodable() && p.Clean() && Encode(p) <= s {
      DecodeEncode(p, s[|Encode(p)|..]);
      assert s == Encode(p) + s[|Encode(p)|..];
    }
  }

  /** No encoding is a proper prefix of another: packets can be told apart in a stream. */
  lemma PrefixFree(p: Packet, q: Packet)
    requires p.Encodable() && q.Encodable() && Encode(p) <= Encode(q)
    ensures Encode(p) == Encode(q) && p.Cleaned() == q.Cleaned()
  {
    DecodeEncode(p, Encode(q)[|Encode(p)|..]);
    DecodeEncode(q, []);
    assert Encode(q) == Encode(p) + Encode(q)[|Encode(p)|..] == Encode(q) + [];
  }

  /** A decision once made is not changed by more input; an open one needs fewer than 144 bytes. */
  lemma DecodeMonotone(s: seq<byte>, t: seq<byte>)
    ensures !Decode(s).Incomplete? ==> Decode(s + t) == Decode(s)
    ensures Decode(s).Incomplete? ==> |s| < MAX_PACKET_SIZE
    ensures Decode(s).Ok? ==> HEADER_SIZE + CRC_SIZE <= Decode(s).consumed <= |s| && MagicAt(s)
  {
    hide Crc, Get16, Get32, GetSize, KnownType, Pad;
    if |s| >= HEADER_SIZE {
      assert (s + t)[4..6] == s[4..6] && (s + t)[6..8] == s[6..8] && (s + t)[8..12] == s[8..12];
      var total := HEADER_SIZE + GetSize(s[6..8]) + CRC_SIZE;
      if |s| >= total {
        assert (s + t)[..total - 4] == s[..total - 4] && (s + t)[total - 4..total] == s[total - 4..total];
        assert (s + t)[HEADER_SIZE..total - 4] == s[HEADER_SIZE..total - 4];
      }
    }
  }

  /** Every proper prefix of an encoding leaves the decoder waiting. */
  lemma PrefixIncomplete(p: Packet, k: nat)
    requires p.Encodable() && k < |Encode(p)|
    ensures Decode(Encode(p)[..k]) == Incomplete
  {
    hide Decode, Encode;
    var w := Encode(p);
    if !Decode(w[..k]).Incomplete? {
      DecodeMonotone(w[..k], w[k..]);
      assert w[..k] + w[k..] == w == w + [];
      DecodeEncode(p, []);
      assert false;
    }
  }

  // ----- error detection on the wire

  /** What the decoder takes damaged bytes for, when the payload is that of `p`. */
  function Claimed(p: Packet, s: seq<byte>): Packet
    requires |s| >= HEADER_SIZE
  {
    Packet(s[3], Get16(s[4..6]), Get32(s[8..12]), GetSize(s[6..8]), p.payload)
  }

  predicate Plausible(s: seq<byte>)
    requires |s| >= HEADER_SIZE
  {
    s[2] == PROTOCOL_VERSION && KnownType(s[3])
  }

  /** That the payload of a packet holds a checksum where a shorter length makes the decoder look for it. */
  predicate FindsChecksum(p: Packet, s: seq<byte>)
    requires p.Valid() && |s| >= HEADER_SIZE
  {
    var length := GetSize(s[6..8]);
    && length < p.payloadSize
    && Crc(Body(Claimed(p, s))) == Get32(Encode(p)[HEADER_SIZE + length..HEADER_SIZE + length + CRC_SIZE])
  }

  lemma ClaimedBody(p: Packet, s: seq<byte>)
    requires p.Valid() && |s| == |Encode(p)| && MagicAt(s) && s[2] == PROTOCOL_VERSION
    requires s[HEADER_SIZE..] == Encode(p)[HEADER_SIZE..] && GetSize(s[6..8]) < p.payloadSize
    ensures var end := HEADER_SIZE + GetSize(s[6..8]);
      && Claimed(p, s).Valid() && Body(Claimed(p, s)) == s[..end]
      && s[end..end + CRC_SIZE] == Encode(p)[end..end + CRC_SIZE]
      && p.payload[..end - HEADER_SIZE] == s[HEADER_SIZE..end]
  {
    hide Crc, Get16, Get32, Put32, GetSize, KnownType, Header;
    HeaderReadsBack(s, Claimed(p, s));
    var w, end := Encode(p), HEADER_SIZE + GetSize(s[6..8]);
    assert forall i :: HEADER_SIZE <= i < |s| ==> s[i] == s[HEADER_SIZE..][i - HEADER_SIZE] == w[i];
    assert w[HEADER_SIZE..end] == p.payload[..end - HEADER_SIZE];
  }

  /** Damage to the header alone, with another length in it: exactly when the decoder waits, and exactly when
      it takes the damaged bytes for a packet, and for which. */
  lemma HeaderDamageExactly(p: Packet, s: seq<byte>)
    requires p.Encodable() && |s| == |Encode(p)| && s[..2] == Encode(p)[..2]
    requires s[HEADER_SIZE..] == Encode(p)[HEADER_SIZE..] && GetSize(s[6..8]) != p.payloadSize
    ensures Decode(s).Incomplete? <==> Plausible(s) && p.payloadSize < GetSize(s[6..8]) <= MAX_PAYLOAD_SIZE
    ensures Decode(s).Ok? <==> Plausible(s) && FindsChecksum(p, s)
    ensures Decode(s).Ok? ==> Decode(s) == Ok(Claimed(p, s).Cleaned(), HEADER_SIZE + GetSize(s[6..8]) + CRC_SIZE)
  {
    hide Crc, Get16, Get32, Put32, GetSize, KnownType, Body, Encode;
    EncodeStartsWithMagic(p);
    assert s[0] == s[..2][0] && s[1] == s[..2][1];
    if s[2] == PROTOCOL_VERSION && GetSize(s[6..8]) < p.payloadSize {
      ClaimedBody(p, s);
    }
  }

  /** An encoded packet hit by a burst of up to 32 bits anywhere: it is rejected, unless the length field is
      hit and the header stays plausible; then the decoder waits for more exactly when the length has grown
      within the limit, and accepts exactly when it has shrunk to where the payload holds the checksum of
      what stands before it. */
  lemma BurstRejected(p: Packet, s: seq<byte>, from: nat, width: nat)
    requires p.Encodable() && |s| == |Encode(p)| && s != Encode(p)
    requires width <= 32 && CrcBurst.DifferWithin(Bits(Encode(p)), Bits(s), from, width)
    ensures s[6..8] == Encode(p)[6..8] ==> Decode(s) == Invalid
    ensures Decode(s).Incomplete? <==> Plausible(s) && p.payloadSize < GetSize(s[6..8]) <= MAX_PAYLOAD_SIZE
    ensures Decode(s).Ok? <==> Plausible(s) && FindsChecksum(p, s)
    ensures Decode(s).Ok? ==> Decode(s) == Ok(Claimed(p, s).Cleaned(), HEADER_SIZE + GetSize(s[6..8]) + CRC_SIZE)
  {
    hide Crc, Put16, Get16, Put32, Get32, KnownType, Bits, Decode, Header, Body, PutSize, GetSize, Plausible, Encode;
    var w := Encode(p);
    EncodedLength(p);
    if s[6..8] == w[6..8] {
      SameLengthRejected(p, s, from, width);
    } else {
      CrcBurst.BurstStaysNear(w, s, from, width, 6, 8);
      PutGetSize(s[6..8]);
      HeaderDamageExactly(p, s);
    }
  }

  lemma EncodedLength(p: Packet)
    requires p.Valid()
    ensures Encode(p)[6..8] == PutSize(p.payloadSize) && GetSize(Encode(p)[6..8]) == p.payloadSize
  {
    hide Crc, Put16, Put32, PutSize;
  }

  lemma SameLengthRejected(p: Packet, s: seq<byte>, from: nat, width: nat)
    requires p.Encodable() && |s| == |Encode(p)| && s != Encode(p) && s[6..8] == Encode(p)[6..8]
    requires width <= 32 && CrcBurst.DifferWithin(Bits(Encode(p)), Bits(s), from, width)
    ensures Decode(s) == Invalid
  {
    hide Crc, Put16, Get16, Put32, Get32, PutSize, GetSize, KnownType, Bits;
    var w := Encode(p);
    assert w[6..8] == PutSize(p.payloadSize);
    assert w[..|w| - 4] == Body(p) && w[|w| - 4..] == Put32(Crc(Body(p)));
    CrcBurst.SealBroken(w, s, from, width);
    assert s[..|s|] == s && s[|s| - 4..|s|] == s[|s| - 4..];
  }

  /** Damage to the two length bytes alone: what the decoder does with every other length. */
  lemma LengthDamageExactly(p: Packet, length: u16)
    requires p.Encodable() && length != p.payloadSize
    ensures var s := Encode(p)[..6] + PutSize(length) + Encode(p)[8..];
      && (Decode(s).Incomplete? <==> p.payloadSize < length <= MAX_PAYLOAD_SIZE)
      && (Decode(s).Ok? <==>
            && length < p.payloadSize
            && var end := HEADER_SIZE + length;
               Crc(Body(p.(payloadSize := length))) == Get32(Encode(p)[end..end + CRC_SIZE]))
      && (Decode(s).Ok? ==> Decode(s) == Ok(p.(payloadSize := length).Cleaned(), HEADER_SIZE + length + CRC_SIZE))
  {
    hide Crc, Put16, Get16, Put32, Get32, PutSize, GetSize, KnownType, Decode, Body, Encode;
    var w := Encode(p);
    var s := w[..6] + PutSize(length) + w[8..];
    HeaderFields(p);
    assert s[3] == w[3] && s[4..6] == w[4..6] && s[6..8] == PutSize(length) && s[8..12] == w[8..12];
    assert s[..2] == w[..2] && s[HEADER_SIZE..] == w[HEADER_SIZE..] && s[2] == w[2];
    assert Claimed(p, s) == p.(payloadSize := length);
    HeaderDamageExactly(p, s);
  }

  lemma HeaderFields(p: Packet)
    requires p.Valid()
    ensures var w := Encode(p);
      w[2] == PROTOCOL_VERSION && w[3] == p.mtype && Get16(w[4..6]) == p.flags && Get32(w[8..12]) == p.sequence
  {
    hide Crc, PutSize, Put16, Get16, Put32, Get32;
    var w := Encode(p);
    assert w[4..6] == Put16(p.flags) && w[8..12] == Put32(p.sequence);
  }

  /** So with a length that has grown the decoder waits, and takes what follows for the rest of the packet. */
  lemma LengthDamageMayWait(p: Packet)
    requires p.Encodable() && p.payloadSize < MAX_PAYLOAD_SIZE
    ensures Decode(Encode(p)[..6] + PutSize(p.payloadSize + 1) + Encode(p)[8..]) == Incomplete
  {
    LengthDamageExactly(p, p.payloadSize + 1);
  }

  /** That a damaged length field may still decode: for a packet that carries a checksum in the right
      place, flipping one bit of the length leaves the encoding of a shorter packet in front. */
  lemma LengthDamageMayDecode(flags: bv16, sequence: bv32)
    ensures var short := Packet(0x01, flags, sequence, 0, Pad([]));
      var long := short.(payloadSize := 4, payload := Pad(Put32(Crc(Header(short)))));
      && short.Encodable() && long.Encodable()
      && var s := Encode(long)[6 := 0];
         s != Encode(long) && Decode(s) == Ok(short, HEADER_SIZE + CRC_SIZE)
  {
    hide Encode, Decode, Crc, Put32, Header;
    var short := Packet(0x01, flags, sequence, 0, Pad([]));
    var long := short.(payloadSize := 4, payload := Pad(Put32(Crc(Header(short)))));
    var s := Encode(long)[6 := 0];
    ShortInLong(short, long);
    assert short.Cleaned() == short;
    DecodeEncode(short, s[HEADER_SIZE + CRC_SIZE..]);
  }

  lemma ShortInLong(short: Packet, long: Packet)
    requires short.Encodable() && short.payloadSize == 0
    requires long == short.(payloadSize := 4, payload := Pad(Put32(Crc(Header(short)))))
    ensures var s := Encode(long)[6 := 0];
      s != Encode(long) && |s| >= HEADER_SIZE + CRC_SIZE && s == Encode(short) + s[HEADER_SIZE + CRC_SIZE..]
  {
    hide Crc, Put32, Header;
    var crc := Put32(Crc(Header(short)));
    DamagedHeader(short, long);
    assert short.payload[..0] == [] && Header(short) + [] == Header(short) && Body(short) == Header(short);
    assert long.payload[..4] == crc;
    PatchFront(Header(long), crc, Put32(Crc(Body(long))));
  }

  lemma PatchFront(header: seq<byte>, a: seq<byte>, b: seq<byte>)
    requires |header| == HEADER_SIZE && |a| == CRC_SIZE
    ensures var s := header + a + b;
      && s[6] == header[6] && s[6 := 0] == header[6 := 0] + a + s[HEADER_SIZE + CRC_SIZE..]
      && s[6 := 0][HEADER_SIZE + CRC_SIZE..] == s[HEADER_SIZE + CRC_SIZE..]
  {
  }

  lemma DamagedHeader(short: Packet, long: Packet)
    requires short.payloadSize == 0 && long == short.(payloadSize := 4, payload := long.payload)
    ensures Header(long)[6] != 0 && Header(long)[6 := 0] == Header(short)
  {
    hide Put16, Put32, PutSize;
    FourToZero();
    assert Header(long)[6..8] == PutSize(4);
  }

  lemma FourToZero()
    ensures PutSize(4)[0] != 0 && PutSize(4)[0 := 0] == PutSize(0)
  {
    hide ByteOf, PutSize;
    var four := PutSize(4);
    assert four[0] as int == 4 && four[1] as int == 0;
    assert four[0 := 0] == [0, four[1]];
    PutGetSize(four[0 := 0]);
  }

  // ----- CAN frames inside packets

  datatype FrameOrigin = PhysicalBus | LocalNode | WirelessClient

  datatype CanMetadata = CanMetadata(origin: FrameOrigin, bus: byte, timestamp: bv64)

  const CAN_METADATA_SIZE := 16

  function OriginByte(o: FrameOrigin): byte {
    match o
    case PhysicalBus => 0
    case LocalNode => 1
    case WirelessClient => 2
  }

  function FlagByte(f: Can.Frame): byte {
    (if f.extended then 1 else 0) | (if f.remote then 2 else 0) | (if f.fd then 4 else 0)
    | (if f.bitrateSwitch then 8 else 0)
  }

  predicate FlagSet(b: byte, mask: byte) {
    b & mask != 0
  }

  function CanPayload(f: Can.Frame, m: CanMetadata): (s: seq<byte>)
    requires f.size <= 64
    ensures |s| == CAN_METADATA_SIZE + f.size
  {
    PutSize32(f.id) + [ByteOf(f.size), FlagByte(f), OriginByte(m.origin), m.bus] + Put64(m.timestamp) + f.data[..f.size]
  }

  function MakeCanPacket(f: Can.Frame, m: CanMetadata, sequence: bv32): Option<Packet> {
    if !f.Valid() then None
    else
      var s := CanPayload(f, m);
      Some(Packet(0x10, 0, sequence, |s|, Pad(s)))
  }

  function ParseCanPacket(p: Packet): Option<(Can.Frame, CanMetadata)> {
    if p.mtype != 0x10 || p.payloadSize < CAN_METADATA_SIZE then None
    else
      var size := p.payload[4] as int;
      var flags := p.payload[5];
      if FlagSet(flags, 0xF0) || p.payloadSize != CAN_METADATA_SIZE + size || p.payload[6] > 2 then None
      else
        var limit := if size <= 64 then size else 64;
        var f := Can.Frame(GetSize32(p.payload[0..4]), size, FlagSet(flags, 1), FlagSet(flags, 2), FlagSet(flags, 4),
            FlagSet(flags, 8),
                           Can.Pad(p.payload[16..16 + limit]));
        if !f.Valid() then None
        else
          var origin := if p.payload[6] == 0 then PhysicalBus
                        else if p.payload[6] == 1 then LocalNode else WirelessClient;
          Some((f, CanMetadata(origin, p.payload[7], Get64(p.payload[8..16]))))
  }

  lemma FlagsReadBack(f: Can.Frame)
    ensures var b := FlagByte(f);
      && !FlagSet(b, 0xF0) && FlagSet(b, 1) == f.extended && FlagSet(b, 2) == f.remote
      && FlagSet(b, 4) == f.fd && FlagSet(b, 8) == f.bitrateSwitch
  {
  }

  /** Parsing inverts making, on every valid frame and all metadata. */
  lemma ParseMake(f: Can.Frame, m: CanMetadata, sequence: bv32)
    requires f.Valid()
    ensures MakeCanPacket(f, m, sequence).Some?
    ensures var p := MakeCanPacket(f, m, sequence).value;
      p.Encodable() && p.Clean() && ParseCanPacket(p) == Some((f.Cleaned(), m))
  {
    hide PutSize32, GetSize32, Put64, Get64, FlagByte, ByteOf, CanPayload;
    CanPayloadParts(f, m);
    var s := CanPayload(f, m);
    var p := MakeCanPacket(f, m, sequence).value;
    assert p.payload[..p.payloadSize] == s;
    SamePieces(s, p.payload, s);
    hide MakeCanPacket, ParseCanPacket;
    ParseFields(p, f, m);
  }

  lemma ParseFields(p: Packet, f: Can.Frame, m: CanMetadata)
    requires f.Valid() && p.mtype == 0x10 && p.payloadSize == CAN_METADATA_SIZE + f.size
    requires p.payload[0..4] == PutSize32(f.id) && p.payload[4] as int == f.size && p.payload[5] == FlagByte(f)
    requires p.payload[6] == OriginByte(m.origin) && p.payload[7] == m.bus
    requires p.payload[8..16] == Put64(m.timestamp) && p.payload[16..16 + f.size] == f.data[..f.size]
    ensures ParseCanPacket(p) == Some((f.Cleaned(), m))
  {
    hide PutSize32, GetSize32, Put64, Get64, FlagByte, FlagSet, Can.Pad;
    FlagsReadBack(f);
  }

  /** The two strings share their pieces exactly when one starts with the other. */
  lemma SamePieces(t: seq<byte>, payload: seq<byte>, s: seq<byte>)
    requires CAN_METADATA_SIZE <= |s| == |t| <= |payload| && t == payload[..|t|]
    ensures s == t <==> (&& payload[0..4] == s[0..4] && payload[4] == s[4] && payload[5] == s[5] && payload[6] == s[6]
                         && payload[7] == s[7] && payload[8..16] == s[8..16] && payload[16..|s|] == s[16..])
  {
    if payload[0..4] == s[0..4] && payload[4] == s[4] && payload[5] == s[5] && payload[6] == s[6]
       && payload[7] == s[7] && payload[8..16] == s[8..16] && payload[16..|s|] == s[16..] {
      forall i | 0 <= i < |s| ensures t[i] == s[i] {
        if i < 4 {
          assert payload[0..4][i] == s[0..4][i];
        } else if 8 <= i < 16 {
          assert payload[8..16][i - 8] == s[8..16][i - 8];
        } else if 16 <= i {
          assert payload[16..|s|][i - 16] == s[16..][i - 16];
        }
      }
    }
  }

  lemma CanPayloadParts(f: Can.Frame, m: CanMetadata)
    requires f.size <= 64
    ensures var s := CanPayload(f, m);
      && s[0..4] == PutSize32(f.id) && s[4] as int == f.size && s[5] == FlagByte(f) && s[6] == OriginByte(m.origin)
      && s[7] == m.bus && s[8..16] == Put64(m.timestamp) && s[16..16 + f.size] == f.data[..f.size]
  {
    hide PutSize32, GetSize32, Put64, Get64, FlagByte, ByteOf;
  }

  /** Making inverts parsing: a parsed packet is the one its frame would be packed into, up to the
      packet's own flag word and unused payload. */
  lemma MakeParse(p: Packet)
    requires p.Valid() && ParseCanPacket(p).Some?
    ensures var (f, m) := ParseCanPacket(p).value;
      && f.Valid() && MakeCanPacket(f, m, p.sequence) == Some(p.Cleaned().(flags := 0))
  {
    hide PutSize32, GetSize32, Put64, Get64, FlagByte, FlagSet, ByteOf, ParseCanPacket, CanPayload, Pad,
         Can.Frame.Valid;
    var (f, m) := ParseCanPacket(p).value;
    FieldsOfParsed(p);
    CanPayloadParts(f, m);
    SameByte(CanPayload(f, m)[4], p.payload[4]);
    SamePieces(p.payload[..p.payloadSize], p.payload, CanPayload(f, m));
    assert CanPayload(f, m) == p.payload[..p.payloadSize];
  }

  lemma FieldsOfParsed(p: Packet)
    requires p.Valid() && ParseCanPacket(p).Some?
    ensures var (f, m) := ParseCanPacket(p).value;
      && f.Valid() && f.size <= 64 && p.mtype == 0x10 && p.payloadSize == CAN_METADATA_SIZE + f.size
      && p.payload[0..4] == PutSize32(f.id) && p.payload[4] as int == f.size && p.payload[5] == FlagByte(f)
      && p.payload[6] == OriginByte(m.origin) && p.payload[7] == m.bus
      && p.payload[8..16] == Put64(m.timestamp) && p.payload[16..16 + f.size] == f.data[..f.size]
  {
    hide PutSize32, GetSize32, Put64, Get64, FlagByte, FlagSet;
    var (f, m) := ParseCanPacket(p).value;
    PutGetSize32(p.payload[0..4]);
    PutGet64(p.payload[8..16]);
    FlagsRebuilt(p.payload[5], f);
    OriginRebuilt(p.payload[6]);
  }

  lemma FlagsRebuilt(b: byte, f: Can.Frame)
    requires !FlagSet(b, 0xF0) && f.extended == FlagSet(b, 1) && f.remote == FlagSet(b, 2)
    requires f.fd == FlagSet(b, 4) && f.bitrateSwitch == FlagSet(b, 8)
    ensures FlagByte(f) == b
  {
  }

  lemma OriginRebuilt(b: byte)
    ensures b <= 2 ==> b == 0 || b == 1 || b == 2
  {
  }
}

/** What a single damaged packet costs a connection that counts false starts. */
module HxDamage {
  import opened Bytes
  import opened Crc32
  import opened HxCodec
  import opened HxStream
  import opened HxLink
  import opened HxDelivery

  /** A packet whose payload repeats the magic bytes. */
  function Bait(k: nat): (p: Packet)
    requires k < 64
    ensures p.Encodable() && p.payloadSize == 2 * k + 1
  {
    Packet(0x01, 0, 0, 2 * k + 1, Pad(Garbage(k) + [0]))
  }

  /** A bait, with other bytes in place of its checksum, in front of a packet. */
  function Damaged(k: nat, crc: seq<byte>, q: Packet, t: seq<byte>): seq<byte>
    requires k < 64 && q.Valid()
  {
    Body(Bait(k)) + crc + Encode(q) + t
  }

  predicate OtherChecksum(k: nat, crc: seq<byte>)
    requires k < 64
  {
    |crc| == CRC_SIZE && crc != Put32(Crc(Body(Bait(k)))) && forall i :: 0 <= i < |crc| ==> crc[i] != 0x48
  }

  lemma SmallSize(n: nat)
    requires n < 0x100 && n % 2 == 1
    ensures PutSize(n)[0] as int == n && PutSize(n)[0] != 0x48 && PutSize(n)[1] == 0
  {
    hide ByteOf, PutSize;
    assert GetSize(PutSize(n)) == n;
  }

  lemma BaitHeader(k: nat)
    requires k < 64
    ensures var h := Header(Bait(k));
      && MagicAt(h) && GetSize(h[6..8]) == 2 * k + 1 && forall i :: 0 < i < HEADER_SIZE ==> h[i] != 0x48
  {
    hide Garbage, PutSize, GetSize, ByteOf;
    SmallSize(2 * k + 1);
    var h := Header(Bait(k));
    assert Put16(0) == [0, 0] && Put32(0) == [0, 0, 0, 0];
    assert h[6..8] == PutSize(2 * k + 1);
  }

  /** Where the bait has magic bytes. */
  lemma BaitBytes(k: nat)
    requires k < 64
    ensures var b := Body(Bait(k));
      && MagicAt(b) && b[HEADER_SIZE..] == Garbage(k) + [0] && GetSize(b[6..8]) == 2 * k + 1
      && forall i :: 0 < i < HEADER_SIZE ==> b[i] != 0x48
  {
    hide Garbage, Header, GetSize;
    BaitHeader(k);
    var b := Body(Bait(k));
    assert b[..HEADER_SIZE] == Header(Bait(k)) && b[6..8] == Header(Bait(k))[6..8];
    assert Bait(k).payload[..2 * k + 1] == Garbage(k) + [0];
  }

  /** The damaged bait itself fails its checksum. */
  lemma BaitIsRejected(k: nat, crc: seq<byte>, rest: seq<byte>)
    requires k < 64 && OtherChecksum(k, crc)
    ensures !Decode(Body(Bait(k)) + crc + rest).Ok?
  {
    hide Crc, Body, Put32, Get32, GetSize, KnownType, Get16;
    var b := Body(Bait(k));
    var s := b + crc + rest;
    BaitBytes(k);
    PutGet32(crc);
    assert s[6..8] == b[6..8];
    assert s[..|b|] == b && s[|b|..|b| + 4] == crc;
  }

  lemma {:induction false} StartsSplit(s: seq<byte>, n: nat, m: nat)
    requires n + m <= |s|
    ensures FalseStarts(s, n + m) == FalseStarts(s, n) + FalseStarts(s[n..], m)
    decreases n
  {
    if n == 0 {
      assert s[0..] == s;
    } else {
      assert s[1..][n - 1..] == s[n..];
      StartsSplit(s[1..], n - 1, m);
    }
  }

  lemma {:induction false} NoStarts(s: seq<byte>, n: nat)
    requires n <= |s| && forall i :: 0 <= i < n ==> s[i] != 0x48
    ensures FalseStarts(s, n) == 0
    decreases n
  {
    if n == 0 {
    } else {
      NoStarts(s[1..], n - 1);
    }
  }

  lemma HeaderStarts(s: seq<byte>)
    requires MagicAt(s) && |s| >= HEADER_SIZE && forall i :: 0 < i < HEADER_SIZE ==> s[i] != 0x48
    ensures FalseStarts(s, HEADER_SIZE) == 1
  {
    hide FalseStarts;
    StartsSplit(s, 1, HEADER_SIZE - 1);
    FirstStart(s);
    NoStarts(s[1..], HEADER_SIZE - 1);
  }

  lemma PayloadStarts(k: nat, tail: seq<byte>, n: nat)
    requires n <= |tail| && forall i :: 0 <= i < n ==> tail[i] != 0x48
    ensures FalseStarts(Garbage(k) + tail, 2 * k + n) == k
  {
    hide FalseStarts, Garbage;
    var s := Garbage(k) + tail;
    StartsSplit(s, 2 * k, n);
    GarbageStarts(k, tail);
    assert s[2 * k..] == tail;
    NoStarts(tail, n);
  }

  lemma HeadOfBait(k: nat, rest: seq<byte>)
    requires k < 64
    ensures FalseStarts(Body(Bait(k)) + rest, HEADER_SIZE) == 1
  {
    hide Body, Garbage, FalseStarts, Bait;
    BaitBytes(k);
    HeaderStarts(Body(Bait(k)) + rest);
  }

  lemma TailOfBait(k: nat, crc: seq<byte>, rest: seq<byte>)
    requires k < 64 && OtherChecksum(k, crc)
    ensures FalseStarts(Garbage(k) + ([0] + crc + rest), 2 * k + 5) == k
  {
    hide Body, Garbage, FalseStarts, Bait;
    var tail := [0] + crc + rest;
    assert forall i :: 0 < i < 5 ==> tail[i] == crc[i - 1];
    PayloadStarts(k, tail, 5);
  }

  /** Header, payload and checksum of a bait put together. */
  lemma JoinedStarts(b: seq<byte>, g: seq<byte>, crc: seq<byte>, rest: seq<byte>, n: nat)
    requires |b| >= HEADER_SIZE && b[HEADER_SIZE..] == g + [0] && n <= |g| + 1 + |crc + rest|
    ensures HEADER_SIZE + n <= |b + crc + rest|
    ensures FalseStarts(b + crc + rest, HEADER_SIZE + n)
         == FalseStarts(b + (crc + rest), HEADER_SIZE) + FalseStarts(g + ([0] + crc + rest), n)
  {
    hide FalseStarts;
    assert b + crc + rest == b + (crc + rest);
    StartsSplit(b + crc + rest, HEADER_SIZE, n);
    AfterHeader(b, g, crc, rest);
  }

  lemma BaitStarts(k: nat, crc: seq<byte>, rest: seq<byte>)
    requires k < 64 && OtherChecksum(k, crc)
    ensures |Body(Bait(k)) + crc + rest| >= 2 * k + 17
    ensures FalseStarts(Body(Bait(k)) + crc + rest, 2 * k + 17) == k + 1
  {
    hide Body, Garbage, FalseStarts, Bait, MagicAt, OtherChecksum, GetSize;
    BaitBytes(k);
    Length(k, crc);
    HeadOfBait(k, crc + rest);
    TailOfBait(k, crc, rest);
    JoinedStarts(Body(Bait(k)), Garbage(k), crc, rest, 2 * k + 5);
  }

  lemma AfterHeader(b: seq<byte>, g: seq<byte>, crc: seq<byte>, rest: seq<byte>)
    requires |b| >= HEADER_SIZE && b[HEADER_SIZE..] == g + [0]
    ensures (b + crc + rest)[HEADER_SIZE..] == g + ([0] + crc + rest)
  {
    assert (b + crc + rest)[HEADER_SIZE..] == b[HEADER_SIZE..] + crc + rest;
  }

  lemma FirstStart(s: seq<byte>)
    requires MagicAt(s)
    ensures FalseStarts(s, 1) == 1
  {
    assert FalseStarts(s[1..], 0) == 0;
  }

  lemma BaitNeverDecodes(k: nat, crc: seq<byte>, rest: seq<byte>, i: nat)
    requires k < 64 && OtherChecksum(k, crc) && i < 2 * k + 17
    ensures var s := Body(Bait(k)) + crc + rest; !Decode(s[i..]).Ok?
  {
    hide Body, Crc, KnownType, GetSize, Get16, Get32;
    BaitBytes(k);
    var b := Body(Bait(k));
    var s := b + crc + rest;
    if i == 0 {
      assert s[0..] == s;
      BaitIsRejected(k, crc, rest);
    } else if i < 12 {
      assert s[i..][0] == b[i];
    } else if i <= 12 + 2 * k {
      assert forall j :: 12 <= j < 13 + 2 * k ==> s[j] == b[12..][j - 12];
      assert s[i..][0] == s[i] && (i + 2 <= 12 + 2 * k ==> s[i..][2] == s[i + 2]);
    } else {
      assert s[i..][0] == crc[i - 13 - 2 * k];
    }
  }

  /** One damaged packet is enough: what counts against a connection is not packets but false starts. A
      packet whose payload repeats the magic bytes, hit in its checksum, drops the connection, and with it the
      next packet, if and only if there are seven or more of them. */
  lemma OneDamagedPacket(k: nat, crc: seq<byte>, q: Packet, t: seq<byte>, accepts: (nat, Packet) -> bool)
    requires k < 64 && OtherChecksum(k, crc) && q.Encodable() && |t| >= MAX_PAYLOAD_SIZE
    ensures var r := Handle(Scan(Damaged(k, crc, q, t)).events, 0, 0, accepts);
      if k + 1 < 8 then r.delivered != [] && r.delivered[0] == q.Cleaned()
      else r == Outcome([], false, 8)
  {
    hide Scan, Decode, Encode, FalseStarts, Handle, Body, OtherChecksum, Bait;
    var g := Body(Bait(k)) + crc;
    Length(k, crc);
    assert g + Encode(q) + t == g + (Encode(q) + t);
    forall i | 0 <= i < |g| ensures !Decode((g + Encode(q) + t)[i..]).Ok? {
      BaitNeverDecodes(k, crc, Encode(q) + t, i);
    }
    BaitStarts(k, crc, Encode(q) + t);
    HandedOnAfterGarbage(g, q, t, 0, 0, accepts);
  }

  lemma Length(k: nat, crc: seq<byte>)
    requires k < 64 && OtherChecksum(k, crc)
    ensures |Body(Bait(k)) + crc| == 2 * k + 17
  {
  }
}

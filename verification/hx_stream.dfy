/** The resynchronising stream decoder: its buffer in place, and the one-shot parse of the whole
    byte stream that any way of feeding it amounts to. */
module HxStream {
  import opened Bytes
  import opened Wrappers
  import opened HxCodec

  /** What the decoder reports: a packet, or a false start that cost one byte. */
  datatype Event = Received(packet: Packet) | Rejected

  // ----- the one-shot parse

  /** What the front of a stream allows: wait for more bytes, or take some and report events. */
  datatype Verdict = Wait | Take(n: nat, events: seq<Event>)

  function Look(s: seq<byte>): (v: Verdict)
    ensures v.Take? ==> 0 < v.n <= |s|
    ensures v.Wait? ==> |s| < MAX_PACKET_SIZE
  {
    DecodeMonotone(s, []);
    if |s| < 2 then Wait
    else if !MagicAt(s) then Take(1, [])
    else match Decode(s)
      case Incomplete => Wait
      case Invalid => Take(1, [Rejected])
      case Ok(p, n) => Take(n, [Received(p)])
  }

  datatype Parse = Parse(events: seq<Event>, left: seq<byte>)

  /** Left to right over a whole stream: bytes that cannot start a packet are skipped silently,
      what cannot be decided yet is left over. */
  function Scan(s: seq<byte>): Parse
    decreases |s|
  {
    var v := Look(s);
    if v.Wait? then Parse([], s)
    else
      var r := Scan(s[v.n..]);
      Parse(v.events + r.events, r.left)
  }

  /** One call of `next`: the event it reports, if any, and the bytes it leaves. */
  function NextEvent(s: seq<byte>): (Option<Event>, seq<byte>)
    decreases |s|
  {
    var v := Look(s);
    if v.Wait? then (None, s)
    else if v.events == [] then NextEvent(s[v.n..])
    else (Some(v.events[0]), s[v.n..])
  }

  /** Calling `next` until it reports nothing parses the buffer. */
  lemma {:induction false} ScanIsNextThenScan(s: seq<byte>)
    ensures var (e, left) := NextEvent(s);
      && |left| <= |s|
      && (e.None? ==> Scan(s) == Parse([], left) && |left| < MAX_PACKET_SIZE)
      && (e.Some? ==> |left| < |s| && Scan(s) == Parse([e.value] + Scan(left).events, Scan(left).left))
    decreases |s|
  {
    OneEventAtMost(s);
    hide Look;
    if Look(s).Take? && Look(s).events == [] {
      ScanIsNextThenScan(s[Look(s).n..]);
    }
  }

  lemma OneEventAtMost(s: seq<byte>)
    ensures Look(s).Take? ==> |Look(s).events| <= 1
  {
  }

  // ----- the decoder's buffer

  class StreamDecoder {
    const buffer: array<byte>
    var size: nat

    ghost predicate Valid()
      reads this, buffer
    {
      size <= buffer.Length
    }

    ghost function Contents(): seq<byte>
      reads this, buffer
      requires Valid()
    {
      buffer[..size]
    }

    constructor (capacity: nat)
      ensures Valid() && fresh(buffer) && buffer.Length == capacity && Contents() == []
    {
      buffer := new byte[capacity](_ => 0);
      size := 0;
    }

    method Reset()
      requires Valid()
      modifies this
      ensures Valid() && Contents() == []
    {
      size := 0;
    }

    /** All of the bytes are taken, or none. */
    method Append(bytes: seq<byte>) returns (ok: bool)
      requires Valid()
      modifies this, buffer
      ensures Valid() && ok == (|old(Contents())| + |bytes| <= buffer.Length)
      ensures Contents() == if ok then old(Contents()) + bytes else old(Contents())
    {
      if |bytes| > buffer.Length - size {
        return false;
      }
      forall i | size <= i < size + |bytes| { buffer[i] := bytes[i - size]; }
      size := size + |bytes|;
      return true;
    }

    /** Drops bytes at the front by moving the rest down. */
    method Discard(count: nat)
      requires Valid()
      modifies this, buffer
      ensures Valid()
      ensures Contents() == if count <= |old(Contents())| then old(Contents())[count..] else []
    {
      var n := if count < size then count else size;
      if n < size {
        forall i | 0 <= i < size - n { buffer[i] := buffer[i + n]; }
      }
      size := size - n;
    }

    method Next() returns (e: Option<Event>)
      requires Valid()
      modifies this, buffer
      ensures Valid() && (e, Contents()) == NextEvent(old(Contents()))
    {
      while size >= 2 && (buffer[0] != 0x48 || buffer[1] != 0x58)
        invariant Valid()
        invariant NextEvent(Contents()) == NextEvent(old(Contents()))
        decreases size
      {
        assert Contents()[0] == buffer[0] && Contents()[1] == buffer[1];
        Discard(1);
      }
      if size < 2 {
        return None;
      }
      assert Contents()[0] == buffer[0] && Contents()[1] == buffer[1];
      ghost var s := Contents();
      var result := DecodePacket(buffer[..size]);
      DecodeMonotone(s, []);
      match result {
        case Ok(p, n) =>
          Discard(n);
          e := Some(Received(p));
        case Invalid =>
          Discard(1);
          e := Some(Rejected);
        case Incomplete =>
          e := None;
      }
    }
  }

  // ----- chunk independence

  /** Feeding chunks one after the other, draining the decoder after each. */
  function Feed(rest: seq<byte>, chunks: seq<seq<byte>>): Parse
    decreases |chunks|
  {
    if chunks == [] then Parse([], rest)
    else
      var first := Scan(rest + chunks[0]);
      var more := Feed(first.left, chunks[1..]);
      Parse(first.events + more.events, more.left)
  }

  function Concat(chunks: seq<seq<byte>>): seq<byte> {
    if chunks == [] then [] else chunks[0] + Concat(chunks[1..])
  }

  /** What a drain leaves is shorter than a packet, and draining again reports nothing. */
  lemma {:induction false} ScanLeavesLittle(s: seq<byte>)
    ensures |Scan(s).left| < MAX_PACKET_SIZE && Scan(Scan(s).left) == Parse([], Scan(s).left)
    decreases |s|
  {
    hide Look;
    if Look(s).Take? {
      ScanLeavesLittle(s[Look(s).n..]);
    }
  }

  lemma LookMonotone(a: seq<byte>, b: seq<byte>)
    ensures Look(a).Take? ==> Look(a + b) == Look(a)
  {
    hide Decode;
    DecodeMonotone(a, b);
  }

  /** Parsing a stream is parsing its first part, then what that left over together with the rest. */
  lemma {:induction false} ScanSplit(a: seq<byte>, b: seq<byte>)
    ensures var r := Scan(a);
      Scan(a + b) == Parse(r.events + Scan(r.left + b).events, Scan(r.left + b).left)
    decreases |a|
  {
    hide Look;
    LookMonotone(a, b);
    if Look(a).Take? {
      var n := Look(a).n;
      assert (a + b)[n..] == a[n..] + b;
      ScanSplit(a[n..], b);
    }
  }

  /** Chunk independence: however a stream is cut into chunks, the reported events and what is left
      over equal those of one parse of the whole stream. */
  lemma {:induction false} ChunkIndependence(rest: seq<byte>, chunks: seq<seq<byte>>)
    requires Scan(rest) == Parse([], rest)
    ensures Feed(rest, chunks) == Scan(rest + Concat(chunks))
    decreases |chunks|
  {
    hide Scan;
    if chunks == [] {
      assert rest + [] == rest;
    } else {
      var first := Scan(rest + chunks[0]);
      ScanLeavesLittle(rest + chunks[0]);
      ChunkIndependence(first.left, chunks[1..]);
      ScanSplit(rest + chunks[0], Concat(chunks[1..]));
      assert rest + Concat(chunks) == rest + chunks[0] + Concat(chunks[1..]);
    }
  }

  // ----- streams of packets, streams with garbage

  ghost predicate AllEncodable(ps: seq<Packet>) {
    forall i :: 0 <= i < |ps| ==> ps[i].Encodable()
  }

  ghost function EncodeAll(ps: seq<Packet>): seq<byte>
    requires AllEncodable(ps)
  {
    if ps == [] then [] else Encode(ps[0]) + EncodeAll(ps[1..])
  }

  ghost function ReceivedAll(ps: seq<Packet>): (events: seq<Event>)
    requires AllEncodable(ps)
    ensures |events| == |ps|
    ensures forall i :: 0 <= i < |ps| ==> events[i] == Received(ps[i].Cleaned())
  {
    if ps == [] then [] else [Received(ps[0].Cleaned())] + ReceivedAll(ps[1..])
  }

  /** A stream that starts with an encoding yields that packet first. */
  lemma ScanPacket(p: Packet, t: seq<byte>)
    requires p.Encodable()
    ensures Scan(Encode(p) + t) == Parse([Received(p.Cleaned())] + Scan(t).events, Scan(t).left)
  {
    hide Decode, Encode;
    var s := Encode(p) + t;
    DecodeEncode(p, t);
    DecodeMonotone(s, []);
    assert s[|Encode(p)|..] == t;
  }

  /** The decoder reports exactly the packets sent, whatever follows them. */
  lemma {:induction false} ScanPackets(ps: seq<Packet>, t: seq<byte>)
    requires AllEncodable(ps)
    ensures Scan(EncodeAll(ps) + t) == Parse(ReceivedAll(ps) + Scan(t).events, Scan(t).left)
    decreases |ps|
  {
    hide Scan, Encode;
    if ps == [] {
      assert EncodeAll(ps) + t == t;
      assert ReceivedAll(ps) + Scan(t).events == Scan(t).events;
    } else {
      assert EncodeAll(ps) + t == Encode(ps[0]) + (EncodeAll(ps[1..]) + t);
      ScanPacket(ps[0], EncodeAll(ps[1..]) + t);
      ScanPackets(ps[1..], t);
      assert ReceivedAll(ps) + Scan(t).events == [Received(ps[0].Cleaned())] + (ReceivedAll(ps[1..]) + Scan(t).events);
    }
  }

  /** A packet that is not complete yet is left in the buffer untouched. */
  lemma ScanPartial(p: Packet, k: nat)
    requires p.Encodable() && k < |Encode(p)|
    ensures Scan(Encode(p)[..k]) == Parse([], Encode(p)[..k])
  {
    hide Decode, Encode;
    PrefixIncomplete(p, k);
    EncodeStartsWithMagic(p);
  }

  /** How many of the first `n` positions look like the start of a packet. */
  function FalseStarts(s: seq<byte>, n: nat): nat
    requires n <= |s|
  {
    if n == 0 then 0 else (if MagicAt(s) then 1 else 0) + FalseStarts(s[1..], n - 1)
  }

  function Rejections(n: nat): seq<Event> {
    seq(n, _ => Rejected)
  }

  /** Resynchronisation: after garbage at whose offsets no valid packet decodes, and with enough
      bytes behind it to decide every false start, the decoder reports one rejection for each
      false start and then the packet. */
  lemma {:induction false} Resynchronises(g: seq<byte>, p: Packet, t: seq<byte>)
    requires p.Encodable() && |t| >= MAX_PAYLOAD_SIZE
    requires forall i :: 0 <= i < |g| ==> !Decode((g + Encode(p) + t)[i..]).Ok?
    ensures var s := g + Encode(p) + t;
      Scan(s) == Parse(Rejections(FalseStarts(s, |g|)) + [Received(p.Cleaned())] + Scan(t).events, Scan(t).left)
    decreases |g|
  {
    hide Decode, Encode;
    var s := g + Encode(p) + t;
    if g == [] {
      assert s == Encode(p) + t;
      ScanPacket(p, t);
      assert Rejections(0) + [Received(p.Cleaned())] == [Received(p.Cleaned())];
    } else {
      var s' := g[1..] + Encode(p) + t;
      assert s[1..] == s';
      forall i | 0 <= i < |g[1..]| ensures !Decode(s'[i..]).Ok? {
        assert s'[i..] == s[i + 1..];
      }
      Resynchronises(g[1..], p, t);
      assert s[0..] == s;
      DecodeMonotone(s, []);
      OneMoreRejection(FalseStarts(s', |g| - 1), [Received(p.Cleaned())], Scan(t).events);
    }
  }

  lemma OneMoreRejection(k: nat, a: seq<Event>, b: seq<Event>)
    ensures [Rejected] + (Rejections(k) + a + b) == Rejections(1 + k) + a + b
  {
    assert [Rejected] + Rejections(k) == Rejections(1 + k);
    assert [Rejected] + (Rejections(k) + a + b) == [Rejected] + Rejections(k) + a + b;
  }
}

/** One TCP connection of `tcp_server.cpp`: its transmit ring with short writes, its receive loop,
    and what the two together deliver. The socket is a nondeterministic source and sink. */
module HxLink {
  import opened Bytes
  import opened Wrappers
  import opened HxCodec
  import opened HxStream
  import Arith

  const DECODER_CAPACITY := 3 * MAX_PACKET_SIZE
  const RECV_BUFFER_SIZE := 256
  const INVALID_LIMIT := 8

  datatype WirePacket = WirePacket(size: nat, bytes: seq<byte>) {
    ghost predicate Carries(p: Packet) {
      p.Encodable() && size == |Encode(p)| <= |bytes| && bytes[..size] == Encode(p)
    }
  }

  // ----- what the receive loop makes of a list of events

  datatype Outcome = Outcome(delivered: seq<Packet>, keep: bool, invalid: nat)

  /** Packets are handed on in order, the n-th one to a handler that may refuse it; eight false
      starts in a row, or a refusal, end the connection. */
  function Handle(events: seq<Event>, invalid: nat, n: nat, accepts: (nat, Packet) -> bool): Outcome {
    if events == [] then Outcome([], true, invalid)
    else match events[0]
      case Rejected =>
        if invalid + 1 >= INVALID_LIMIT then Outcome([], false, invalid + 1)
        else Handle(events[1..], invalid + 1, n, accepts)
      case Received(p) =>
        if !accepts(n, p) then Outcome([p], false, 0)
        else
          var r := Handle(events[1..], 0, n + 1, accepts);
          r.(delivered := [p] + r.delivered)
  }

  /** A loop that has handled part of `all` and delivered packets so far is on track when handling
      the rest of the events completes the outcome. */
  ghost predicate OnTrack(all: seq<Event>, start: nat, rest: seq<Event>, invalid: nat, delivered: seq<Packet>,
      accepts: (nat, Packet) -> bool)
  {
    var r := Handle(rest, invalid, |delivered|, accepts);
    Handle(all, start, 0, accepts) == r.(delivered := delivered + r.delivered)
  }

  lemma OnTrackStart(all: seq<Event>, start: nat, accepts: (nat, Packet) -> bool)
    ensures OnTrack(all, start, all, start, [], accepts)
  {
  }

  lemma OnTrackEnd(all: seq<Event>, start: nat, invalid: nat, delivered: seq<Packet>, accepts: (nat, Packet) -> bool)
    requires OnTrack(all, start, [], invalid, delivered, accepts)
    ensures Handle(all, start, 0, accepts) == Outcome(delivered, true, invalid)
  {
  }

  lemma OnTrackStep(all: seq<Event>, start: nat, e: Event, more: seq<Event>, invalid: nat, delivered: seq<Packet>,
      accepts: (nat, Packet) -> bool)
    requires OnTrack(all, start, [e] + more, invalid, delivered, accepts)
    ensures e.Rejected? ==>
      if invalid + 1 >= INVALID_LIMIT then Handle(all, start, 0, accepts) == Outcome(delivered, false, invalid + 1)
      else OnTrack(all, start, more, invalid + 1, delivered, accepts)
    ensures e.Received? ==>
      if !accepts(|delivered|, e.packet) then
        Handle(all, start, 0, accepts) == Outcome(delivered + [e.packet], false, 0)
      else OnTrack(all, start, more, 0, delivered + [e.packet], accepts)
  {
    assert ([e] + more)[1..] == more;
    if e.Received? {
      var r := Handle(more, 0, |delivered| + 1, accepts);
      assert delivered + ([e.packet] + r.delivered) == delivered + [e.packet] + r.delivered;
    }
  }

  // ----- the transmit ring

  /** What a ring holds, oldest first. */
  function Ring<T>(q: seq<T>, head: nat, count: nat): (s: seq<T>)
    requires |q| > 0
    ensures |s| == count
  {
    seq(count, i requires 0 <= i < count => q[(head + i) % |q|])
  }

  lemma RingPush<T>(q: seq<T>, head: nat, count: nat, x: T)
    requires head < |q| && count < |q|
    ensures Ring(q[(head + count) % |q| := x], head, count + 1) == Ring(q, head, count) + [x]
  {
    var q' := q[(head + count) % |q| := x];
    forall i | 0 <= i < count ensures Ring(q', head, count + 1)[i] == Ring(q, head, count)[i] {
      Wrap(head + i, |q|);
      Wrap(head + count, |q|);
    }
  }

  lemma RingPop<T>(q: seq<T>, head: nat, count: nat)
    requires head < |q| && 0 < count <= |q|
    ensures Ring(q, head, count)[0] == q[head]
    ensures Ring(q, (head + 1) % |q|, count - 1) == Ring(q, head, count)[1..]
  {
    Wrap(head, |q|);
    Wrap(head + 1, |q|);
    forall i | 0 <= i < count - 1
      ensures Ring(q, (head + 1) % |q|, count - 1)[i] == Ring(q, head, count)[1..][i]
    {
      Wrap(head + i + 1, |q|);
      Wrap((head + 1) % |q| + i, |q|);
    }
  }

  lemma Wrap(x: nat, depth: nat)
    requires depth > 0 && x < 2 * depth
    ensures x % depth == if x < depth then x else x - depth
  {
    Arith.Quotient(x, depth, if x < depth then 0 else 1);
  }

  lemma {:induction false} EncodeAllAppend(ps: seq<Packet>, p: Packet)
    requires AllEncodable(ps) && p.Encodable()
    ensures AllEncodable(ps + [p]) && EncodeAll(ps + [p]) == EncodeAll(ps) + Encode(p)
    decreases |ps|
  {
    hide Encode;
    if ps == [] {
      assert ps + [p] == [p];
      assert EncodeAll([p]) == Encode(p) + EncodeAll([]);
    } else {
      assert (ps + [p])[0] == ps[0] && (ps + [p])[1..] == ps[1..] + [p];
      EncodeAllAppend(ps[1..], p);
      assert Encode(ps[0]) + (EncodeAll(ps[1..]) + Encode(p)) == Encode(ps[0]) + EncodeAll(ps[1..]) + Encode(p);
    }
  }

  // ----- a connection as a value

  /** What the socket says to one call of `send`: how many of the offered bytes it took (never more than
      offered), that it would block, or another error. A socket asked more often than the script says
      would block. */
  datatype SendAnswer = Took(n: nat) | WouldBlock | Failed

  function AnswerAt(answers: seq<SendAnswer>, i: nat): SendAnswer {
    if i < |answers| then answers[i] else WouldBlock
  }

  /** Packets gone out completely, packets waiting, how much of the oldest of these has gone out, and all
      bytes the socket has taken. */
  datatype Link = Link(sent: seq<Packet>, queued: seq<Packet>, offset: nat, wire: seq<byte>)

  /** Conservation of bytes: what the socket has taken is every packet that has gone out, followed by the
      first `offset` bytes of the oldest packet still queued. */
  ghost predicate Conserved(l: Link) {
    && AllEncodable(l.sent) && AllEncodable(l.queued)
    && l.wire == EncodeAll(l.sent) + Started(l.queued, l.offset)
    && if l.queued == [] then l.offset == 0 else l.offset < |Encode(l.queued[0])|
  }

  ghost function Started(queued: seq<Packet>, offset: nat): seq<byte> {
    if queued != [] && queued[0].Encodable() && offset <= |Encode(queued[0])| then Encode(queued[0])[..offset] else []
  }

  /** What has not gone out yet of the oldest packet. */
  ghost function Left(l: Link): nat {
    if l.queued != [] && l.queued[0].Encodable() && l.offset <= |Encode(l.queued[0])|
    then |Encode(l.queued[0])| - l.offset
    else 0
  }

  /** Accepting a packet: when the ring has room and the packet can be encoded. */
  function Push(l: Link, p: Packet, depth: nat): (Link, bool) {
    if |l.queued| >= depth || !p.Encodable() then (l, false) else (l.(queued := l.queued + [p]), true)
  }

  /** The socket takes `k` bytes of the oldest packet. */
  ghost function Wrote(l: Link, k: nat): Link
    requires l.queued != [] && l.queued[0].Encodable() && l.offset + k <= |Encode(l.queued[0])|
  {
    var bytes := Encode(l.queued[0]);
    var wire := l.wire + bytes[l.offset..l.offset + k];
    if l.offset + k < |bytes| then l.(wire := wire, offset := l.offset + k)
    else Link(l.sent + [l.queued[0]], l.queued[1..], 0, wire)
  }

  /** A flush whose next call of `send` is the `i`-th and which may still finish `room` packets: the
      connection after it, whether it goes on, and the number of calls. */
  ghost function Flush(l: Link, answers: seq<SendAnswer>, i: nat, room: nat): (Link, bool, nat)
    requires Conserved(l)
    decreases room, Left(l)
  {
    hide Encode, EncodeAll, Started;
    if l.queued == [] || room == 0 then (l, true, i)
    else
      var remaining := |Encode(l.queued[0])| - l.offset;
      match AnswerAt(answers, i)
      case WouldBlock => (l, true, i + 1)
      case Failed => (l, false, i + 1)
      case Took(n) =>
        if n == 0 then (l, false, i + 1)
        else
          ConservedWrite(l, if n < remaining then n else remaining);
          Flush(Wrote(l, if n < remaining then n else remaining), answers, i + 1,
                if n < remaining then room else room - 1)
  }

  /** Taking bytes conserves: the wire carries the sent packets and the beginning of the next. */
  lemma ConservedWrite(l: Link, k: nat)
    requires Conserved(l) && l.queued != [] && 0 < k && l.offset + k <= |Encode(l.queued[0])|
    ensures l.queued[0].Encodable() && Conserved(Wrote(l, k))
    ensures l.wire <= Wrote(l, k).wire && |Wrote(l, k).wire| == |l.wire| + k && l.sent <= Wrote(l, k).sent
    ensures Wrote(l, k).sent + Wrote(l, k).queued == l.sent + l.queued
  {
    hide Encode, EncodeAll;
    var bytes := Encode(l.queued[0]);
    assert bytes[..l.offset] + bytes[l.offset..l.offset + k] == bytes[..l.offset + k];
    Associate(EncodeAll(l.sent), bytes[..l.offset], bytes[l.offset..l.offset + k]);
    if l.offset + k == |bytes| {
      EncodeAllAppend(l.sent, l.queued[0]);
      assert bytes[..|bytes|] == bytes;
      assert l.sent + l.queued == l.sent + [l.queued[0]] + l.queued[1..];
      assert AllEncodable(l.queued[1..]) by {
        assert forall i :: 0 <= i < |l.queued[1..]| ==> l.queued[1..][i] == l.queued[i + 1];
      }
    }
  }

  lemma ConservedPush(l: Link, p: Packet, depth: nat)
    requires Conserved(l)
    ensures Conserved(Push(l, p, depth).0)
  {
    hide Encode, EncodeAll;
  }

  /** Whatever the socket answers, no accepted packet is lost, doubled or reordered; every call but the
      last takes at least one byte; a flush that goes on has emptied the ring, finished a ringful of
      packets or been told to wait, and one that fails has been told so. */
  lemma {:induction false} FlushFacts(l: Link, answers: seq<SendAnswer>, i: nat, room: nat)
    requires Conserved(l)
    ensures var (r, ok, calls) := Flush(l, answers, i, room);
      && Conserved(r) && l.wire <= r.wire && l.sent <= r.sent && r.sent + r.queued == l.sent + l.queued
      && i <= calls && |r.wire| + 1 >= |l.wire| + calls - i
      && (ok ==>
            || ((r.queued == [] || |r.sent| == |l.sent| + room) && |r.wire| >= |l.wire| + calls - i)
            || (calls > i && AnswerAt(answers, calls - 1) == WouldBlock))
      && (!ok ==> calls > i && (AnswerAt(answers, calls - 1) == Failed || AnswerAt(answers, calls - 1) == Took(0)))
    decreases room, Left(l)
  {
    hide Encode, EncodeAll, Started, Conserved;
    if l.queued == [] || room == 0 || !AnswerAt(answers, i).Took? || AnswerAt(answers, i).n == 0 {
    } else {
      OldestIsStarted(l);
      var n, remaining := AnswerAt(answers, i).n, |Encode(l.queued[0])| - l.offset;
      var k := if n < remaining then n else remaining;
      ConservedWrite(l, k);
      FlushFacts(Wrote(l, k), answers, i + 1, if n < remaining then room else room - 1);
    }
  }

  lemma OldestIsStarted(l: Link)
    requires Conserved(l) && l.queued != []
    ensures l.queued[0].Encodable() && l.offset < |Encode(l.queued[0])|
  {
  }

  /** The transmitting half of a client. */
  class ClientTx {
    const txQueue: array<WirePacket>
    var txHead: nat
    var txCount: nat
    var txOffset: nat
    var txPackets: nat
    var txDropped: nat
    ghost var sent: seq<Packet>    // packets the socket has taken completely
    ghost var queued: seq<Packet>  // accepted packets still in the ring
    ghost var wire: seq<byte>      // bytes the socket has taken

    ghost predicate Shaped()
      reads this
    {
      txHead < txQueue.Length && txCount <= txQueue.Length
    }

    ghost function Pending(): seq<WirePacket>
      requires Shaped()
      reads this, txQueue
    {
      Ring(txQueue[..], txHead, txCount)
    }

    /** The ring holds the encodings of the queued packets. */
    ghost predicate Carried()
      reads this, txQueue
    {
      && Shaped() && txCount == |queued|
      && forall i :: 0 <= i < txCount ==> Pending()[i].Carries(queued[i])
    }

    ghost function Model(): Link
      reads this
    {
      Link(sent, queued, txOffset, wire)
    }

    ghost predicate Valid()
      reads this, txQueue
    {
      Carried() && Conserved(Model()) && txPackets == |sent|
    }

    constructor (depth: nat)
      requires depth > 0
      ensures Valid() && Model() == Link([], [], 0, []) && txDropped == 0
      ensures fresh(txQueue) && txQueue.Length == depth
    {
      txQueue := new WirePacket[depth](_ => WirePacket(0, []));
      txHead, txCount, txOffset, txPackets, txDropped := 0, 0, 0, 0, 0;
      sent, queued, wire := [], [], [];
    }

    /** Queues a packet, or refuses it when the ring is full or the packet cannot be encoded. */
    method SendPacket(packet: Packet) returns (ok: bool)
      requires Valid()
      modifies this`txCount, this`txDropped, this`queued, txQueue
      ensures Valid() && (Model(), ok) == Push(old(Model()), packet, txQueue.Length)
      ensures ok <==> |old(Model()).queued| < txQueue.Length && packet.Encodable()
      ensures Model() == if ok then old(Model()).(queued := old(Model()).queued + [packet]) else old(Model())
      ensures txDropped == if old(txCount) == txQueue.Length then old(txDropped) + 1 else old(txDropped)
    {
      hide Conserved, Encode, Ring;
      if txCount >= txQueue.Length {
        txDropped := txDropped + 1;
        return false;
      }
      var bytes := new byte[MAX_PACKET_SIZE](_ => 0);
      var size;
      ok, size := EncodePacket(packet, bytes);
      if !ok {
        return false;
      }
      var wirePacket := WirePacket(size, bytes[..]);
      assert wirePacket.bytes[..size] == Encode(packet);
      RingPush(txQueue[..], txHead, txCount, wirePacket);
      ConservedPush(Model(), packet, txQueue.Length);
      var tail := (txHead + txCount) % txQueue.Length;
      txQueue[tail] := wirePacket;
      txCount := txCount + 1;
      queued := queued + [packet];
    }

    /** Hands queued bytes to the socket until it would block, the ring is empty, or a ringful of
        packets has gone out; `answers` is what the socket says to each call in turn. */
    method FlushClient(answers: seq<SendAnswer>) returns (ok: bool, calls: nat)
      requires Valid()
      modifies this`txHead, this`txCount, this`txOffset, this`txPackets, this`wire, this`sent, this`queued
      ensures Valid() && (Model(), ok, calls) == Flush(old(Model()), answers, 0, txQueue.Length)
    {
      hide Encode, Ring, Conserved, WirePacket.Carries, Wrote;
      var flushed := 0;
      calls := 0;
      ghost var all := Flush(Model(), answers, 0, txQueue.Length);
      while txCount != 0 && flushed < txQueue.Length
        invariant Valid() && flushed <= txQueue.Length
        invariant Flush(Model(), answers, calls, txQueue.Length - flushed) == all
        decreases txQueue.Length - flushed, Left(Model())
      {
        OldestIsStarted(Model());
        OldestIsCarried();
        var remaining := txQueue[txHead].size - txOffset;
        var answer := AnswerAt(answers, calls);
        calls := calls + 1;
        if answer.Took? && answer.n > 0 {
          var finished := Advance(if answer.n < remaining then answer.n else remaining);
          if finished {
            flushed := flushed + 1;
          }
          continue;
        }
        return answer == WouldBlock, calls;
      }
      return true, calls;
    }

    /** The socket has taken some bytes of the oldest packet. */
    method Advance(taken: nat) returns (finished: bool)
      requires Valid() && 0 < taken <= Left(Model())
      modifies this`txHead, this`txCount, this`txOffset, this`txPackets, this`wire, this`sent, this`queued
      ensures Valid() && Model() == Wrote(old(Model()), taken) && finished == (taken == Left(old(Model())))
      ensures !finished ==> Left(Model()) == Left(old(Model())) - taken
    {
      hide Encode, Ring, Conserved, WirePacket.Carries;
      OldestIsStarted(Model());
      OldestIsCarried();
      ConservedWrite(Model(), taken);
      var packet := txQueue[txHead];
      TakenBytes(packet, Encode(queued[0]), txOffset, taken);
      wire := wire + packet.bytes[txOffset..txOffset + taken];
      txOffset := txOffset + taken;
      if txOffset < packet.size {
        return false;
      }
      PopCarried();
      sent, queued := sent + [queued[0]], queued[1..];
      txOffset := 0;
      txHead := (txHead + 1) % txQueue.Length;
      txCount := txCount - 1;
      txPackets := txPackets + 1;
      return true;
    }

    lemma OldestIsCarried()
      requires Carried() && txCount > 0
      ensures txQueue[txHead].Carries(queued[0]) && queued[0].Encodable()
      ensures txQueue[txHead].size == |Encode(queued[0])| <= |txQueue[txHead].bytes|
      ensures txQueue[txHead].bytes[..txQueue[txHead].size] == Encode(queued[0])
    {
      hide Encode;
      RingPop(txQueue[..], txHead, txCount);
      assert Pending()[0].Carries(queued[0]);
    }

    /** Advancing the head leaves the encodings of the other packets. */
    lemma PopCarried()
      requires Carried() && txCount > 0
      ensures var rest := Ring(txQueue[..], (txHead + 1) % txQueue.Length, txCount - 1);
        forall i :: 0 <= i < txCount - 1 ==> rest[i].Carries(queued[1..][i])
    {
      hide WirePacket.Carries, Ring;
      RingPop(txQueue[..], txHead, txCount);
      forall i | 0 <= i < txCount - 1 ensures Pending()[1..][i].Carries(queued[1..][i]) {
        assert Pending()[i + 1].Carries(queued[i + 1]);
      }
    }
  }

  lemma TakenBytes(packet: WirePacket, bytes: seq<byte>, offset: nat, k: nat)
    requires |bytes| <= |packet.bytes| && packet.bytes[..|bytes|] == bytes && offset + k <= |bytes|
    ensures packet.bytes[offset..offset + k] == bytes[offset..offset + k]
  {
    assert packet.bytes[..|bytes|][offset..offset + k] == packet.bytes[offset..offset + k];
  }

  // ----- the receiving half

  /** What `recv` can answer. */
  datatype RecvResult = Data(bytes: seq<byte>) | NothingYet | Gone

  class ClientRx {
    const decoder: StreamDecoder
    var invalidPackets: nat

    ghost predicate Valid()
      reads this, decoder, decoder.buffer
    {
      && decoder.Valid() && decoder.buffer.Length == DECODER_CAPACITY
      && Scan(decoder.Contents()) == Parse([], decoder.Contents())
      && invalidPackets < INVALID_LIMIT
    }

    constructor ()
      ensures Valid() && decoder.Contents() == [] && invalidPackets == 0
      ensures fresh(decoder) && fresh(decoder.buffer)
    {
      decoder := new StreamDecoder(DECODER_CAPACITY);
      invalidPackets := 0;
    }

    /** One call per readable socket: everything received is decoded and handed on at once. The
        decoder can always take what `recv` delivers; its refusal would end the connection. */
    method ReceiveClient(received: RecvResult, accepts: (nat, Packet) -> bool)
        returns (keep: bool, delivered: seq<Packet>)
      requires Valid()
      requires received.Data? ==> 0 < |received.bytes| <= RECV_BUFFER_SIZE
      modifies this, decoder, decoder.buffer
      ensures keep ==> Valid()
      ensures received.Data? ==>
        var r := Scan(old(decoder.Contents()) + received.bytes);
        && Outcome(delivered, keep, invalidPackets) == Handle(r.events, old(invalidPackets), 0, accepts)
        && (keep ==> decoder.Contents() == r.left)
      ensures !received.Data? ==>
        && keep == received.NothingYet? && delivered == [] && invalidPackets == old(invalidPackets)
        && decoder.Valid() && decoder.Contents() == old(decoder.Contents())
    {
      hide Scan, NextEvent, Handle, OnTrack;
      delivered := [];
      if !received.Data? {
        return received.NothingYet?, [];
      }
      ScanLeavesLittle(decoder.Contents());
      var ok := decoder.Append(received.bytes);
      if !ok {
        return false, [];
      }
      ScanLeavesLittle(decoder.Contents());
      ghost var all := Scan(decoder.Contents());
      OnTrackStart(all.events, invalidPackets, accepts);
      while true
        invariant decoder.Valid() && invalidPackets < INVALID_LIMIT
        invariant Scan(decoder.Contents()).left == all.left
        invariant OnTrack(all.events, old(invalidPackets), Scan(decoder.Contents()).events, invalidPackets, delivered,
            accepts)
        decreases |decoder.Contents()|
      {
        ScanIsNextThenScan(decoder.Contents());
        var e := decoder.Next();
        if e.None? {
          OnTrackEnd(all.events, old(invalidPackets), invalidPackets, delivered, accepts);
          return true, delivered;
        }
        OnTrackStep(all.events, old(invalidPackets), e.value, Scan(decoder.Contents()).events, invalidPackets,
            delivered, accepts);
        match e.value {
          case Rejected =>
            invalidPackets := invalidPackets + 1;
            if invalidPackets >= INVALID_LIMIT {
              return false, delivered;
            }
          case Received(packet) =>
            invalidPackets := 0;
            delivered := delivered + [packet];
            if !accepts(|delivered| - 1, packet) {
              return false, delivered;
            }
        }
      }
    }
  }
}

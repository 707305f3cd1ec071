/** End to end over one TCP connection: every run of the transmitting half, every cut of the stream into
    receives, and what garbage in between costs. */
module HxDelivery {
  import opened Bytes
  import opened Wrappers
  import opened HxCodec
  import opened HxStream
  import opened HxLink

  // ----- sending

  /** A peer that is fed a sender's bytes in any chunks reports exactly the packets that have left the
      sender's ring, in order, and holds the part of the next one that has been sent. */
  lemma EndToEnd(l: Link, chunks: seq<seq<byte>>)
    requires Conserved(l) && Concat(chunks) == l.wire
    ensures Feed([], chunks) == Parse(ReceivedAll(l.sent), Started(l.queued, l.offset))
  {
    hide Encode, Scan, EncodeAll;
    ScanOfNothing();
    if l.queued != [] {
      ScanPartial(l.queued[0], l.offset);
    }
    ChunkIndependence([], chunks);
    assert [] + l.wire == l.wire;
    ScanPackets(l.sent, Started(l.queued, l.offset));
    assert ReceivedAll(l.sent) + [] == ReceivedAll(l.sent);
  }

  lemma ScanOfNothing()
    ensures Scan([]) == Parse([], [])
  {
  }

  datatype Op = Send(packet: Packet) | FlushOnce(answers: seq<SendAnswer>)

  ghost function Apply(l: Link, op: Op, depth: nat): (Link, bool)
    requires Conserved(l)
  {
    match op
    case Send(p) => Push(l, p, depth)
    case FlushOnce(answers) => (var r := Flush(l, answers, 0, depth); (r.0, r.1))
  }

  lemma ApplyKeeps(l: Link, op: Op, depth: nat)
    requires Conserved(l)
    ensures var (l', ok) := Apply(l, op, depth);
      && Conserved(l') && l.sent <= l'.sent && l.wire <= l'.wire
      && l'.sent + l'.queued == l.sent + l.queued + (if op.Send? && ok then [op.packet] else [])
  {
    hide Conserved;
    match op
    case Send(p) => ConservedPush(l, p, depth);
    case FlushOnce(answers) => FlushFacts(l, answers, 0, depth);
  }

  /** A run of packets to send and flushes, and which of them reported success. */
  ghost function RunOps(l: Link, ops: seq<Op>, depth: nat): (r: (Link, seq<bool>))
    requires Conserved(l)
    ensures |r.1| == |ops|
    decreases |ops|
  {
    if ops == [] then (l, [])
    else
      ApplyKeeps(l, ops[0], depth);
      var (l', ok) := Apply(l, ops[0], depth);
      var (last, oks) := RunOps(l', ops[1..], depth);
      (last, [ok] + oks)
  }

  /** The packets whose sending reported success, in order. */
  function Kept(ops: seq<Op>, oks: seq<bool>): seq<Packet>
    requires |oks| == |ops|
    decreases |ops|
  {
    if ops == [] then []
    else (if ops[0].Send? && oks[0] then [ops[0].packet] else []) + Kept(ops[1..], oks[1..])
  }

  const START := Link([], [], 0, [])

  lemma StartIsConserved()
    ensures Conserved(START)
  {
  }

  lemma {:induction false} RunConserves(l: Link, ops: seq<Op>, depth: nat)
    requires Conserved(l)
    ensures var (last, oks) := RunOps(l, ops, depth);
      Conserved(last) && last.sent + last.queued == l.sent + l.queued + Kept(ops, oks) && l.sent <= last.sent
    decreases |ops|
  {
    hide Conserved, Apply;
    if ops == [] {
      assert l.sent + l.queued + [] == l.sent + l.queued;
    } else {
      ApplyKeeps(l, ops[0], depth);
      var (l', ok) := Apply(l, ops[0], depth);
      RunConserves(l', ops[1..], depth);
      var (last, oks) := RunOps(l', ops[1..], depth);
      assert ([ok] + oks)[1..] == oks;
      Associate(l.sent + l.queued, if ops[0].Send? && ok then [ops[0].packet] else [], Kept(ops[1..], oks));
    }
  }

  /** End-to-end delivery: for every run of sends and flushes with any socket answers, the packets that
      have gone out are a prefix of those whose sending succeeded; the rest of these wait in the ring;
      and a peer fed the bytes in any chunks reports exactly the former. */
  lemma DeliveredInEveryRun(ops: seq<Op>, depth: nat, chunks: seq<seq<byte>>)
    ensures Conserved(START)
    ensures var (l, oks) := RunOps(START, ops, depth);
      && Kept(ops, oks) == l.sent + l.queued && AllEncodable(l.sent)
      && (Concat(chunks) == l.wire ==> Feed([], chunks) == Parse(ReceivedAll(l.sent), Started(l.queued, l.offset)))
  {
    hide RunOps, EncodeAll, Started;
    StartIsConserved();
    RunConserves(START, ops, depth);
    var (l, oks) := RunOps(START, ops, depth);
    assert START.sent + START.queued + Kept(ops, oks) == Kept(ops, oks);
    if Concat(chunks) == l.wire {
      EndToEnd(l, chunks);
    }
  }

  /** The run in place. It goes on beyond a failure, where the server would close the connection. */
  method Run(ops: seq<Op>, depth: nat) returns (c: ClientTx, oks: seq<bool>)
    requires depth > 0
    ensures c.Valid() && Conserved(START) && (c.Model(), oks) == RunOps(START, ops, depth)
  {
    hide Conserved, Push, Flush;
    StartIsConserved();
    c := new ClientTx(depth);
    oks := [];
    ghost var all := RunOps(START, ops, depth);
    assert ops[0..] == ops && [] + all.1 == all.1;
    for n := 0 to |ops|
      invariant c.Valid() && fresh(c) && fresh(c.txQueue) && c.txQueue.Length == depth
      invariant all == (RunOps(c.Model(), ops[n..], depth).0, oks + RunOps(c.Model(), ops[n..], depth).1)
    {
      assert ops[n..][0] == ops[n] && ops[n..][1..] == ops[n + 1..];
      ApplyKeeps(c.Model(), ops[n], depth);
      ghost var (l, done) := Apply(c.Model(), ops[n], depth);
      Associate(oks, [done], RunOps(l, ops[n + 1..], depth).1);
      var ok;
      match ops[n] {
        case Send(p) => ok := c.SendPacket(p);
        case FlushOnce(answers) =>
          var calls;
          ok, calls := c.FlushClient(answers);
      }
      oks := oks + [ok];
    }
    assert oks + [] == oks;
  }

  // ----- receiving

  /** Handling two lists of events one after the other is handling them at once, unless the first ends
      the connection. */
  lemma {:induction false} HandleSplit(a: seq<Event>, b: seq<Event>, invalid: nat, n: nat,
      accepts: (nat, Packet) -> bool)
    ensures var first := Handle(a, invalid, n, accepts);
      Handle(a + b, invalid, n, accepts) ==
      if !first.keep then first
      else
        var r := Handle(b, first.invalid, n + |first.delivered|, accepts);
        r.(delivered := first.delivered + r.delivered)
    decreases |a|
  {
    if a == [] {
      assert a + b == b;
      var r := Handle(b, invalid, n, accepts);
      assert [] + r.delivered == r.delivered;
    } else {
      assert (a + b)[1..] == a[1..] + b;
      match a[0]
      case Rejected =>
        HandleSplit(a[1..], b, invalid + 1, n, accepts);
      case Received(p) =>
        HandleSplit(a[1..], b, 0, n + 1, accepts);
        var first := Handle(a[1..], 0, n + 1, accepts);
        if accepts(n, p) && first.keep {
          var r := Handle(b, first.invalid, n + 1 + |first.delivered|, accepts);
          Associate([p], first.delivered, r.delivered);
        }
    }
  }

  /** The same handler for a receive that starts counting at zero. */
  function Shifted(accepts: (nat, Packet) -> bool, base: nat): (nat, Packet) -> bool {
    (i: nat, p: Packet) => accepts(base + i, p)
  }

  lemma {:induction false} HandleShift(events: seq<Event>, invalid: nat, base: nat, n: nat,
      accepts: (nat, Packet) -> bool)
    ensures Handle(events, invalid, n, Shifted(accepts, base)) == Handle(events, invalid, base + n, accepts)
    decreases |events|
  {
    if events == [] {
    } else {
      match events[0]
      case Rejected => HandleShift(events[1..], invalid + 1, base, n, accepts);
      case Received(p) => HandleShift(events[1..], 0, base, n + 1, accepts);
    }
  }

  /** The packets among some events. */
  function PacketsOf(events: seq<Event>): seq<Packet>
    decreases |events|
  {
    if events == [] then []
    else (if events[0].Received? then [events[0].packet] else []) + PacketsOf(events[1..])
  }

  /** Packets go to the handler in order and none is left out; the connection ends at the first refusal or
      the eighth rejection in a row, and at nothing else. */
  predicate InOrder(r: Outcome, packets: seq<Packet>, n: nat, accepts: (nat, Packet) -> bool) {
    var last := |r.delivered| - 1;
    && r.delivered <= packets && (r.keep ==> r.delivered == packets && r.invalid < 8)
    && (forall i :: 0 <= i < last ==> accepts(n + i, r.delivered[i]))
    && (r.keep || r.invalid == 8 ==> last < 0 || accepts(n + last, r.delivered[last]))
    && (!r.keep ==> r.invalid == 8 || (last >= 0 && !accepts(n + last, r.delivered[last])))
  }

  lemma OneMoreAccepted(r: Outcome, packets: seq<Packet>, p: Packet, n: nat, accepts: (nat, Packet) -> bool)
    requires InOrder(r, packets, n + 1, accepts) && accepts(n, p)
    ensures InOrder(r.(delivered := [p] + r.delivered), [p] + packets, n, accepts)
  {
    var all := [p] + r.delivered;
    assert forall i :: 0 < i < |all| ==> all[i] == r.delivered[i - 1];
    forall i | 0 <= i < |all| - 1 ensures accepts(n + i, all[i]) {
      if i > 0 {
        assert accepts(n + 1 + (i - 1), r.delivered[i - 1]);
      }
    }
  }

  lemma NothingInOrder(invalid: nat, packets: seq<Packet>, n: nat, accepts: (nat, Packet) -> bool)
    ensures invalid < 8 ==> InOrder(Outcome([], true, invalid), [], n, accepts)
    ensures InOrder(Outcome([], false, 8), packets, n, accepts)
  {
  }

  lemma RefusedInOrder(p: Packet, packets: seq<Packet>, n: nat, accepts: (nat, Packet) -> bool)
    ensures !accepts(n, p) ==> InOrder(Outcome([p], false, 0), [p] + packets, n, accepts)
  {
  }

  /** What handing on means. */
  lemma {:induction false} HandedOnInOrder(events: seq<Event>, invalid: nat, n: nat, accepts: (nat, Packet) -> bool)
    requires invalid < 8
    ensures InOrder(Handle(events, invalid, n, accepts), PacketsOf(events), n, accepts)
    decreases |events|
  {
    hide InOrder;
    if events == [] {
      NothingInOrder(invalid, [], n, accepts);
    } else {
      var rest := PacketsOf(events[1..]);
      assert [] + rest == rest;
      match events[0]
      case Rejected =>
        NothingInOrder(0, rest, n, accepts);
        if invalid + 1 < 8 {
          HandedOnInOrder(events[1..], invalid + 1, n, accepts);
        }
      case Received(p) =>
        RefusedInOrder(p, rest, n, accepts);
        if accepts(n, p) {
          HandedOnInOrder(events[1..], 0, n + 1, accepts);
          OneMoreAccepted(Handle(events[1..], 0, n + 1, accepts), rest, p, n, accepts);
        }
    }
  }

  /** One receive within a stream: the parse of all of it is that of this receive, then of the rest. */
  lemma ReceiveOne(rest: seq<byte>, chunk: seq<byte>, chunks: seq<seq<byte>>, invalid: nat, delivered: seq<Packet>,
      accepts: (nat, Packet) -> bool)
    ensures var whole, first := Scan(rest + Concat([chunk] + chunks)), Scan(rest + chunk);
      var second := Scan(first.left + Concat(chunks));
      var w, o := Handle(whole.events, invalid, |delivered|, accepts),
          Handle(first.events, invalid, 0, Shifted(accepts, |delivered|));
      && whole.left == second.left
      && if !o.keep then w == o
         else
           var r := Handle(second.events, o.invalid, |delivered + o.delivered|, accepts);
           w == r.(delivered := o.delivered + r.delivered)
  {
    hide Scan, Handle, Shifted;
    var first := Scan(rest + chunk);
    assert ([chunk] + chunks)[1..] == chunks;
    assert rest + Concat([chunk] + chunks) == rest + chunk + Concat(chunks);
    ScanSplit(rest + chunk, Concat(chunks));
    HandleShift(first.events, invalid, |delivered|, 0, accepts);
    HandleSplit(first.events, Scan(first.left + Concat(chunks)).events, invalid, |delivered|, accepts);
  }

  lemma NothingToHandle(rest: seq<byte>, invalid: nat, n: nat, accepts: (nat, Packet) -> bool)
    requires Scan(rest) == Parse([], rest)
    ensures Concat([]) == [] && rest + [] == rest && Handle([], invalid, n, accepts) == Outcome([], true, invalid)
  {
  }

  /** Any number of receives: what is handed on, and whether the connection survives, is decided by one
      parse of everything received, however the stream is cut. */
  method ReceiveStream(rx: ClientRx, chunks: seq<seq<byte>>, accepts: (nat, Packet) -> bool)
    returns (keep: bool, delivered: seq<Packet>)
    requires rx.Valid() && forall i :: 0 <= i < |chunks| ==> 0 < |chunks[i]| <= RECV_BUFFER_SIZE
    modifies rx, rx.decoder, rx.decoder.buffer
    ensures keep ==> rx.Valid()
    ensures var r := Scan(old(rx.decoder.Contents()) + Concat(chunks));
      && Outcome(delivered, keep, rx.invalidPackets) == Handle(r.events, old(rx.invalidPackets), 0, accepts)
      && (keep ==> rx.decoder.Contents() == r.left)
  {
    hide Scan, Handle;
    keep, delivered := true, [];
    ghost var all := Scan(rx.decoder.Contents() + Concat(chunks));
    ghost var outcome := Handle(all.events, rx.invalidPackets, 0, accepts);
    assert chunks[0..] == chunks && [] + outcome.delivered == outcome.delivered;
    for n := 0 to |chunks|
      invariant rx.Valid() && keep
      invariant Scan(rx.decoder.Contents() + Concat(chunks[n..])).left == all.left
      invariant var r := Handle(Scan(rx.decoder.Contents() + Concat(chunks[n..])).events, rx.invalidPackets,
          |delivered|, accepts);
        outcome == r.(delivered := delivered + r.delivered)
    {
      var base := |delivered|;
      ReceiveOne(rx.decoder.Contents(), chunks[n], chunks[n + 1..], rx.invalidPackets, delivered, accepts);
      assert chunks[n..] == [chunks[n]] + chunks[n + 1..];
      var more;
      keep, more := rx.ReceiveClient(Data(chunks[n]), Shifted(accepts, base));
      if !keep {
        delivered := delivered + more;
        return;
      }
      ghost var later := Handle(Scan(rx.decoder.Contents() + Concat(chunks[n + 1..])).events, rx.invalidPackets,
                                |delivered + more|, accepts);
      Associate(delivered, more, later.delivered);
      delivered := delivered + more;
    }
    NothingToHandle(rx.decoder.Contents(), rx.invalidPackets, |delivered|, accepts);
    assert delivered + [] == delivered;
  }

  ghost function CleanedAll(ps: seq<Packet>): seq<Packet>
    requires AllEncodable(ps)
  {
    if ps == [] then [] else [ps[0].Cleaned()] + CleanedAll(ps[1..])
  }

  /** A list of received packets never ends a connection whose handler takes everything. */
  lemma {:induction false} CleanStreamDelivered(ps: seq<Packet>, invalid: nat, n: nat, accepts: (nat, Packet) -> bool)
    requires AllEncodable(ps) && invalid < INVALID_LIMIT
    requires forall i, p :: accepts(i, p)
    ensures Handle(ReceivedAll(ps), invalid, n, accepts)
         == Outcome(CleanedAll(ps), true, if ps == [] then invalid else 0)
    decreases |ps|
  {
    if ps == [] {
    } else {
      assert accepts(n, ps[0].Cleaned());
      CleanStreamDelivered(ps[1..], 0, n + 1, accepts);
    }
  }

  /** The bytes of any run of a sender are handed on completely: exactly the packets that have gone out,
      and the connection survives. */
  lemma WireIsHandedOn(l: Link, accepts: (nat, Packet) -> bool)
    requires Conserved(l) && forall i, p :: accepts(i, p)
    ensures Handle(Scan(l.wire).events, 0, 0, accepts) == Outcome(CleanedAll(l.sent), true, 0)
  {
    hide Encode, EncodeAll, Scan;
    ScanOfNothing();
    if l.queued != [] {
      ScanPartial(l.queued[0], l.offset);
    }
    ScanPackets(l.sent, Started(l.queued, l.offset));
    assert ReceivedAll(l.sent) + [] == ReceivedAll(l.sent);
    CleanStreamDelivered(l.sent, 0, 0, accepts);
  }

  // ----- garbage on the connection

  /** Events after `k` rejections: the next packet is handed on exactly when fewer than eight rejections
      have accumulated; otherwise nothing is, and the connection ends. */
  lemma {:induction false} ResynchronisesWithinLimit(k: nat, invalid: nat, n: nat, p: Packet, more: seq<Event>,
      accepts: (nat, Packet) -> bool)
    requires invalid < INVALID_LIMIT
    ensures var r := Handle(Rejections(k) + [Received(p)] + more, invalid, n, accepts);
      if invalid + k < INVALID_LIMIT then r.delivered != [] && r.delivered[0] == p
      else r == Outcome([], false, INVALID_LIMIT)
    decreases k
  {
    var events := Rejections(k) + [Received(p)] + more;
    if k == 0 {
      assert events[0] == Received(p);
    } else {
      assert events[0] == Rejected && events[1..] == Rejections(k - 1) + [Received(p)] + more;
      if invalid + 1 < INVALID_LIMIT {
        ResynchronisesWithinLimit(k - 1, invalid + 1, n, p, more, accepts);
      }
    }
  }

  /** Received bytes with garbage in front of a packet: the packet is handed on, as the first one, if and
      only if the garbage looks like the start of a packet at fewer than eight positions, counted together
      with the rejections before. */
  lemma HandedOnAfterGarbage(g: seq<byte>, p: Packet, t: seq<byte>, invalid: nat, n: nat,
      accepts: (nat, Packet) -> bool)
    requires p.Encodable() && |t| >= MAX_PAYLOAD_SIZE && invalid < INVALID_LIMIT
    requires forall i :: 0 <= i < |g| ==> !Decode((g + Encode(p) + t)[i..]).Ok?
    ensures var s := g + Encode(p) + t;
      var r := Handle(Scan(s).events, invalid, n, accepts);
      && (invalid + FalseStarts(s, |g|) < 8 <==> r.delivered != [] && r.delivered[0] == p.Cleaned())
      && (invalid + FalseStarts(s, |g|) >= 8 ==> r == Outcome([], false, 8))
  {
    hide Scan, Decode, Encode, FalseStarts, Handle;
    Resynchronises(g, p, t);
    ResynchronisesWithinLimit(FalseStarts(g + Encode(p) + t, |g|), invalid, n, p.Cleaned(), Scan(t).events, accepts);
  }

  /** The magic bytes over and over. */
  function Garbage(k: nat): (g: seq<byte>)
    ensures |g| == 2 * k
    ensures forall i :: 0 <= i < |g| ==> g[i] == if i % 2 == 0 then 0x48 else 0x58
  {
    if k == 0 then [] else [0x48, 0x58] + Garbage(k - 1)
  }

  lemma GarbageNeverDecodes(k: nat, p: Packet, t: seq<byte>, i: nat)
    requires p.Encodable() && i < 2 * k
    ensures !Decode((Garbage(k) + Encode(p) + t)[i..]).Ok?
  {
    hide Encode, KnownType;
    EncodeStartsWithMagic(p);
    var s := Garbage(k) + Encode(p) + t;
    assert s[i..][0] == s[i];
    if |s[i..]| > 2 {
      assert s[i..][2] == s[i + 2];
    }
  }

  lemma OneMoreStart(s: seq<byte>, n: nat)
    requires n <= |s|
    ensures FalseStarts([0x48, 0x58] + s, n + 2) == 1 + FalseStarts(s, n)
  {
    var x := [0x48, 0x58] + s;
    assert x[1..][1..] == s;
    assert FalseStarts(x[1..], n + 1) == FalseStarts(x[1..][1..], n);
  }

  lemma {:induction false} GarbageStarts(k: nat, rest: seq<byte>)
    ensures FalseStarts(Garbage(k) + rest, 2 * k) == k
  {
    hide FalseStarts;
    if k == 0 {
      NoStart(Garbage(k) + rest);
    } else {
      assert Garbage(k) + rest == [0x48, 0x58] + (Garbage(k - 1) + rest);
      OneMoreStart(Garbage(k - 1) + rest, 2 * (k - 1));
      GarbageStarts(k - 1, rest);
    }
  }

  lemma NoStart(s: seq<byte>)
    ensures FalseStarts(s, 0) == 0
  {
  }

  /** An input for every case: after the magic bytes `k` times over, any packet is handed on by a fresh
      connection if and only if `k` is below eight; from eight on the connection is dropped. */
  lemma DroppedByGarbage(k: nat, p: Packet, t: seq<byte>, accepts: (nat, Packet) -> bool)
    requires p.Encodable() && |t| >= MAX_PAYLOAD_SIZE
    ensures var r := Handle(Scan(Garbage(k) + Encode(p) + t).events, 0, 0, accepts);
      if k < 8 then r.delivered != [] && r.delivered[0] == p.Cleaned()
      else r == Outcome([], false, 8)
  {
    hide Scan, Decode, Encode, FalseStarts, Handle, Garbage;
    forall i | 0 <= i < |Garbage(k)| ensures !Decode((Garbage(k) + Encode(p) + t)[i..]).Ok? {
      GarbageNeverDecodes(k, p, t, i);
    }
    GarbageStarts(k, Encode(p) + t);
    Associate(Garbage(k), Encode(p), t);
    HandedOnAfterGarbage(Garbage(k), p, t, 0, 0, accepts);
  }
}

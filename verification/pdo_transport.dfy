/** From a transmit PDO over the wire into a receive PDO: every value arrives at its target. */
module PdoTransport {
  import opened Bytes
  import opened Wrappers
  import opened ObjectDictionary
  import opened Pdo
  import opened PdoSafety
  import Can
  import Wire = TwaiTransport
  import Addressing = PdoAddressing

  // ----- collecting and distributing

  ghost predicate SameLengths(a: Mapping, b: Mapping) {
    |a| == |b| && forall i :: 0 <= i < |a| ==> a[i].1 == b[i].1
  }

  ghost predicate Distinct(m: Mapping) {
    forall i, j :: 0 <= i < j < |m| ==> m[i].0 != m[j].0
  }

  /** Every target is a writable entry of the mapped length that no hook guards. */
  ghost predicate FreeTargets(od: Od, m: Mapping) {
    forall i :: 0 <= i < |m| ==>
      var e := Find(od.entries, m[i].0);
      e.Some? && e.value.access.Writable() && !e.value.writeHook && e.value.size == m[i].1
  }

  /** The value an entry shows on the wire. */
  function Shown(od: Od, key: OdKey): seq<byte>
    requires od.Valid()
  {
    var e := Find(od.entries, key);
    if e.None? then [] else od.Value(e.value)
  }

  lemma FreeWriteSucceeds(od: Od, key: OdKey, source: seq<byte>, hooks: Hooks, other: OdKey)
    requires od.Valid()
    requires var e := Find(od.entries, key);
      e.Some? && e.value.access.Writable() && !e.value.writeHook && e.value.size == |source|
    ensures var (code, od') := Write(od, key, source, hooks);
      && code == NoAbort && od'.Valid() && od'.entries == od.entries && Shown(od', key) == source
      && (other != key ==> Shown(od', other) == Shown(od, other))
      && od'.storage.Keys == od.storage.Keys
      && (other != key && other in od.storage ==> od'.storage[other] == od.storage[other])
  {
    SwapTwice(Find(od.entries, key).value, od.bigEndian, source);
  }

  /** Each target shows the value collected for it. */
  ghost predicate Delivered(sender: Od, a: Mapping, read: Hooks, od: Od, b: Mapping)
    requires sender.Valid() && od.Valid()
  {
    |a| == |b| && forall i :: 0 <= i < |b| ==> Read(sender, a[i].0, 8, read) == (NoAbort, Shown(od, b[i].0))
  }

  predicate IsTarget(key: OdKey, m: Mapping) {
    exists i :: 0 <= i < |m| && m[i].0 == key
  }

  /** Every entry that is not a target holds what it held. */
  ghost predicate OthersKept(od: Od, od': Od, m: Mapping) {
    && od'.entries == od.entries && od'.bigEndian == od.bigEndian && od'.storage.Keys == od.storage.Keys
    && forall key :: key in od.storage && !IsTarget(key, m) ==> od'.storage[key] == od.storage[key]
  }

  /** Distributing what was collected delivers value for value. */
  lemma {:induction false} SpreadDelivers(sender: Od, a: Mapping, read: Hooks, od: Od, b: Mapping, data: seq<byte>,
      hooks: Hooks)
    requires sender.Valid() && od.Valid() && SameLengths(a, b) && Distinct(b) && FreeTargets(od, b)
    requires Gather(sender, a, read).Some? && Gather(sender, a, read).value <= data
    ensures TotalLength(b) <= |data|
    ensures var (done, od') := Spread(od, b, data, hooks);
      done && Delivered(sender, a, read, od', b) && OthersKept(od, od', b)
    decreases |b|
  {
    hide Write, Read, Shown, OthersKept, Delivered, FreeTargets;
    LengthsAgree(a, b);
    if b == [] {
      NothingToDeliver(sender, a, read, od);
    } else {
      var (code, bytes) := Read(sender, a[0].0, 8, read);
      var rest := Gather(sender, a[1..], read).value;
      assert data[..b[0].1] == bytes && rest <= data[b[0].1..];
      var (wrote, od1) := Write(od, b[0].0, bytes, hooks);
      OneWrite(od, b, bytes, hooks);
      SpreadDelivers(sender, a[1..], read, od1, b[1..], data[b[0].1..], hooks);
      var (done, od') := Spread(od1, b[1..], data[b[0].1..], hooks);
      DeliveredAll(sender, a, read, od, od1, od', b, bytes);
    }
  }

  lemma NothingToDeliver(sender: Od, a: Mapping, read: Hooks, od: Od)
    requires sender.Valid() && od.Valid() && a == []
    ensures Delivered(sender, a, read, od, []) && OthersKept(od, od, [])
  {
  }

  /** The first write of a distribution. */
  lemma OneWrite(od: Od, b: Mapping, bytes: seq<byte>, hooks: Hooks)
    requires od.Valid() && FreeTargets(od, b) && b != [] && |bytes| == b[0].1
    ensures var (code, od1) := Write(od, b[0].0, bytes, hooks);
      && code == NoAbort && FreeTargets(od1, b[1..]) && OthersKept(od, od1, [b[0]]) && Shown(od1, b[0].0) == bytes
  {
    assert FreeTargets(od, b) && Find(od.entries, b[0].0).Some?;
    var (code, od1) := Write(od, b[0].0, bytes, hooks);
    FreeWriteSucceeds(od, b[0].0, bytes, hooks, b[0].0);
    forall key | key in od.storage && !IsTarget(key, [b[0]]) ensures od1.storage[key] == od.storage[key] {
      assert [b[0]][0].0 == b[0].0;
      FreeWriteSucceeds(od, b[0].0, bytes, hooks, key);
    }
    forall i | 0 <= i < |b[1..]|
      ensures var e := Find(od1.entries, b[1..][i].0);
        e.Some? && e.value.access.Writable() && !e.value.writeHook && e.value.size == b[1..][i].1
    {
      assert b[1..][i] == b[i + 1];
    }
  }

  /** The first target keeps its value while the others are written. */
  lemma DeliveredAll(sender: Od, a: Mapping, read: Hooks, od: Od, od1: Od, od': Od, b: Mapping, bytes: seq<byte>)
    requires sender.Valid() && od.Valid() && od1.Valid() && od'.Valid() && a != [] && b != [] && Distinct(b)
    requires OthersKept(od, od1, [b[0]]) && Shown(od1, b[0].0) == bytes
        && Read(sender, a[0].0, 8, read) == (NoAbort, bytes)
    requires Delivered(sender, a[1..], read, od', b[1..]) && OthersKept(od1, od', b[1..])
    ensures Delivered(sender, a, read, od', b) && OthersKept(od, od', b)
  {
    forall i | 0 <= i < |b| ensures Read(sender, a[i].0, 8, read) == (NoAbort, Shown(od', b[i].0)) {
      if i == 0 {
        forall j | 0 <= j < |b[1..]| ensures b[1..][j].0 != b[0].0 {
          assert b[1..][j] == b[j + 1];
        }
        assert !IsTarget(b[0].0, b[1..]);
      } else {
        assert a[1..][i - 1] == a[i] && b[1..][i - 1] == b[i];
      }
    }
    forall key | key in od.storage && !IsTarget(key, b) ensures od'.storage[key] == od.storage[key] {
      forall j | 0 <= j < |b[1..]| ensures b[1..][j].0 != key {
        assert b[1..][j] == b[j + 1];
      }
    }
  }

  lemma LengthsAgree(a: Mapping, b: Mapping)
    requires SameLengths(a, b)
    ensures TotalLength(a) == TotalLength(b)
    decreases |a|
  {
    if a == [] {
    } else {
      LengthsAgree(a[1..], b[1..]);
    }
  }

  // ----- node to node

  /** A frame transmitted by one node, padded on the wire, and received by another node whose lowest channel
      with the identifier of the sending one maps entries of the same lengths, distinct and without hooks:
      each target is written exactly the value the producer read, and every other entry is as it was. */
  lemma TransmitReceive(p: Manager, ch: Channel, now: nat, read: Hooks, q: Manager, rch: Channel, hooks: Hooks)
    requires Inv(p) && Inv(q)
    requires Transmit(p, ch, now, true, read).1.Sent?
    requires SameIdentifier(p.od, ch, q.od, rch) && forall k: Channel :: k < rch ==> !SameIdentifier(p.od, ch, q.od, k)
    requires Count(p.od, Tx, ch) <= MAX_MAPPINGS && Count(q.od, Rx, rch) <= MAX_MAPPINGS
    requires SameLengths(MappingOf(p.od, Tx, ch), MappingOf(q.od, Rx, rch))
    requires Distinct(MappingOf(q.od, Rx, rch)) && FreeTargets(q.od, MappingOf(q.od, Rx, rch))
    ensures var a, b := MappingOf(p.od, Tx, ch), MappingOf(q.od, Rx, rch);
      var f := Transmit(p, ch, now, true, read).1.frame;
      f.Valid() &&
      var (q', handled) := HandleFrame(q, Wire.OnWire(f), true, hooks);
      && handled && q'.od.Valid() && Delivered(p.od, a, read, q'.od, b) && OthersKept(q.od, q'.od, b)
  {
    hide Transmit, Gather, MappingOf, Listener, Inv, FreeTargets, HandleFrame, Delivered, OthersKept, SameLengths,
         Distinct, CobId, SameIdentifier, Configured, Count;
    InvConfigured(p);
    InvConfigured(q);
    SentPayload(p, ch, now, read);
    SentUnder(p, ch, now, true, read);
    SentIsHeard(p.od, ch, q.od, rch, Transmit(p, ch, now, true, read).1.frame.id);
    ReceivePadded(p.od, MappingOf(p.od, Tx, ch), read, q, rch, Transmit(p, ch, now, true, read).1.frame, hooks);
  }

  /** An enabled receive channel with the low eleven bits of a transmit channel. */
  predicate SameIdentifier(sender: Od, ch: Channel, receiver: Od, rch: Channel)
    requires Configured(sender) && Configured(receiver)
  {
    CobId(receiver, Rx, rch) < 0x8000_0000 && (CobId(receiver, Rx, rch) - CobId(sender, Tx, ch)) % 0x800 == 0
  }

  /** Frames go out under the low eleven bits of the COB-ID, as CAN-FD exactly when they need it. */
  lemma SentUnder(p: Manager, ch: Channel, now: nat, sendOk: bool, hooks: Hooks)
    requires Inv(p) && Transmit(p, ch, now, sendOk, hooks).1.Sent?
    ensures Configured(p.od)
    ensures var f, cob := Transmit(p, ch, now, sendOk, hooks).1.frame, CobId(p.od, Tx, ch);
      && cob < 0x8000_0000 && f.id < 0x800 && (cob - f.id) % 0x800 == 0
      && !f.extended && !f.remote && (f.fd <==> f.size > 8) && f.bitrateSwitch == f.fd
  {
    hide Inv, Gather, Inhibited, MappingOf, CobId;
    InvConfigured(p);
    AttemptUncached(p, ch, now, sendOk, hooks);
  }

  lemma InvConfigured(p: Manager)
    requires Inv(p)
    ensures Configured(p.od)
  {
  }

  lemma SentIsHeard(sender: Od, ch: Channel, receiver: Od, rch: Channel, id: nat)
    requires Configured(sender) && Configured(receiver)
    requires SameIdentifier(sender, ch, receiver, rch)
    requires forall k: Channel :: k < rch ==> !SameIdentifier(sender, ch, receiver, k)
    requires id < 0x800 && (CobId(sender, Tx, ch) - id) % 0x800 == 0
    ensures Listener(receiver, id, 0) == Some(rch)
  {
    hide Configured, CobId, Listener;
    forall k: Channel ensures Addressing.ListensTo(receiver, k, id) == SameIdentifier(sender, ch, receiver, k) {
      SameLowBits(CobId(receiver, Rx, k), CobId(sender, Tx, ch), id);
    }
    Addressing.TheListener(receiver, rch, id);
  }

  lemma SameLowBits(a: nat, b: nat, id: nat)
    requires id < 0x800 && (b - id) % 0x800 == 0
    ensures (a - id) % 0x800 == 0 <==> (a - b) % 0x800 == 0
  {
  }

  /** The receiving half. */
  lemma ReceivePadded(sender: Od, a: Mapping, read: Hooks, q: Manager, rch: Channel, f: Can.Frame, hooks: Hooks)
    requires sender.Valid() && Inv(q) && Count(q.od, Rx, rch) <= MAX_MAPPINGS
    requires f.Valid() && !f.extended && !f.remote && Listener(q.od, f.id, 0) == Some(rch)
    requires a != [] && SameLengths(a, MappingOf(q.od, Rx, rch))
    requires Distinct(MappingOf(q.od, Rx, rch)) && FreeTargets(q.od, MappingOf(q.od, Rx, rch))
    requires var payload := Gather(sender, a, read);
      payload.Some? && payload.value <= f.data && f.size == |payload.value|
    ensures var (q', handled) := HandleFrame(q, Wire.OnWire(f), true, hooks);
      && handled && q'.od.Valid()
      && Delivered(sender, a, read, q'.od, MappingOf(q.od, Rx, rch))
      && OthersKept(q.od, q'.od, MappingOf(q.od, Rx, rch))
  {
    PaddedIsReceivable(f);
    NothingChanged(q);
    hide Gather, MappingOf, Listener, Inv, FreeTargets, HandleFrame, Delivered, OthersKept, Spread, SameLengths,
         Distinct;
    hide Wire.OnWire, Receivable, Configured, Count;
    var b := MappingOf(q.od, Rx, rch);
    LengthsAgree(a, b);
    SpreadDelivers(sender, a, read, q.od, b, Wire.OnWire(f).data, hooks);
    HandleCacheTransparent(q, Wire.OnWire(f), true, hooks);
  }

  lemma PaddedIsReceivable(f: Can.Frame)
    requires f.Valid() && !f.extended && !f.remote
    ensures Receivable(Wire.OnWire(f), true) && f.size <= Wire.OnWire(f).size && Wire.OnWire(f).id == f.id
    ensures Wire.OnWire(f).data[..f.size] == f.data[..f.size]
  {
  }

  /** The data of a transmitted frame starts with what was collected. */
  lemma SentPayload(p: Manager, ch: Channel, now: nat, read: Hooks)
    requires Inv(p) && Transmit(p, ch, now, true, read).1.Sent?
    ensures Count(p.od, Tx, ch) <= MAX_MAPPINGS && MappingOf(p.od, Tx, ch) != []
    ensures var f := Transmit(p, ch, now, true, read).1.frame;
      var payload := Gather(p.od, MappingOf(p.od, Tx, ch), read);
      && payload.Some? && payload.value <= f.data && f.size == |payload.value| && !f.extended && !f.remote && f.Valid()
  {
    TransmitCacheTransparent(p, ch, now, true, read);
    hide Transmit, MappingOf, Inv;
  }

  // ----- when a transmit mapping works

  predicate NoReadHook(od: Od, w: nat) {
    var e := Find(od.entries, WordKey(w));
    e.Some? ==> !e.value.readHook
  }

  /** Validation accepts entries of up to 31 bytes, but values are collected through eight bytes: a
      safe mapping without reading hooks can be transmitted exactly when none of its entries is
      longer than that. */
  lemma TransmittableExactly(od: Od, ws: seq<nat>, hooks: Hooks)
    requires od.Valid() && forall i :: 0 <= i < |ws| ==> Mappable(od.entries, ws[i], Tx)
    requires forall i :: 0 <= i < |ws| ==> NoReadHook(od, ws[i])
    ensures Gather(od, Decode(ws), hooks).Some? <==> forall i :: 0 <= i < |ws| ==> WordBits(ws[i]) <= 64
    decreases |ws|
  {
    hide Mappable, NoReadHook, Read, WordKey, WordBits;
    if ws == [] {
    } else {
      var rest := ws[1..];
      assert forall i :: 0 <= i < |rest| ==> rest[i] == ws[i + 1];
      TransmittableExactly(od, rest, hooks);
      ReadsExactly(od, ws[0], hooks);
      GatherFirst(od, ws, hooks);
      assert (forall i :: 0 <= i < |ws| ==> WordBits(ws[i]) <= 64)
        <==> WordBits(ws[0]) <= 64 && forall i :: 0 <= i < |rest| ==> WordBits(rest[i]) <= 64;
    }
  }

  /** Collecting succeeds if the first value can be read at its length and the others can be collected. */
  lemma GatherFirst(od: Od, ws: seq<nat>, hooks: Hooks)
    requires od.Valid() && ws != []
    ensures var (code, bytes) := Read(od, WordKey(ws[0]), 8, hooks);
      Gather(od, Decode(ws), hooks).Some? <==>
        code == NoAbort && |bytes| == WordBits(ws[0]) / 8 && Gather(od, Decode(ws[1..]), hooks).Some?
  {
    hide Read, WordKey, WordBits;
    assert Decode(ws)[1..] == Decode(ws[1..]);
  }

  lemma ReadsExactly(od: Od, w: nat, hooks: Hooks)
    requires od.Valid() && Mappable(od.entries, w, Tx) && NoReadHook(od, w)
    ensures var (code, bytes) := Read(od, WordKey(w), 8, hooks);
      code == NoAbort && |bytes| == WordBits(w) / 8 <==> WordBits(w) <= 64
  {
    FoundIsStored(od, WordKey(w));
  }
}

/** One-to-many motor control: one CAN-FD frame carries the targets of up to eight motors, and each
    motor is given a mapping that skips the others. */
module Hexfellow {
  import opened Bytes
  import opened Wrappers
  import opened MitPacking
  import OD = ObjectDictionary
  import P = Pdo
  import Safety = PdoSafety
  import opened PdoConfiguration
  import Can

  const MAX_MOTORS := 8
  const RPDO_COB_ID := 0x190

  datatype Mode = Mit | Velocity

  function Size(mode: Mode): nat {
    if mode.Mit? then 8 else 6
  }

  /** Where the targets of the motors after `modes` begin. */
  function TotalSize(modes: seq<Mode>): nat
    decreases |modes|
  {
    if modes == [] then 0 else Size(modes[0]) + TotalSize(modes[1..])
  }

  // ----- the mapping of one motor

  function OdEntry(index: u16, sub: u8, bits: u8): u32 {
    index * 0x1_0000 + sub * 0x100 + bits
  }

  const PAD_U32 := OdEntry(0x3000, 0x03, 0x20)
  const PAD_U16 := OdEntry(0x3000, 0x02, 0x10)

  /** Dummy objects that skip a number of bytes. */
  function Padding(pad: nat): seq<nat> {
    if pad >= 4 then [PAD_U32] + Padding(pad - 4) else if pad >= 2 then [PAD_U16] else []
  }

  function OwnWords(mode: Mode): seq<nat> {
    if mode.Mit? then [OdEntry(0x2004, 0x02, 0x20), OdEntry(0x2004, 0x03, 0x20)]
    else [OdEntry(0x6072, 0x00, 0x10), OdEntry(0x60FF, 0x00, 0x20)]
  }

  function MotorMapping(modes: seq<Mode>, index: nat): seq<nat>
    requires index < |modes|
  {
    Padding(TotalSize(modes[..index])) + OwnWords(modes[index]) + Padding(TotalSize(modes[index + 1..]))
  }

  // ----- the motors' side

  /** The pieces of a frame that a mapping hands to its objects. */
  function Received(m: P.Mapping, data: seq<byte>): seq<(OD.OdKey, seq<byte>)>
    requires P.TotalLength(m) <= |data|
    decreases |m|
  {
    if m == [] then [] else [(m[0].0, data[..m[0].1])] + Received(m[1..], data[m[0].1..])
  }

  /** Without what goes to the padding objects. */
  function Relevant(pieces: seq<(OD.OdKey, seq<byte>)>): seq<(OD.OdKey, seq<byte>)>
    decreases |pieces|
  {
    if pieces == [] then []
    else (if pieces[0].0.index == 0x3000 then [] else [pieces[0]]) + Relevant(pieces[1..])
  }

  // ----- the controller's side

  /** The targets of one motor; the velocity is a 32-bit float, here its bits. */
  datatype Motor = Motor(mode: Mode, range: Ranges, mit: Targets, velocity: bv32, torque: bv16)

  function TargetBytes(motor: Motor): (s: seq<byte>)
    requires motor.mode.Mit? ==> motor.range.Proper()
    ensures |s| == Size(motor.mode)
  {
    if motor.mode.Mit? then Pack(motor.mit, motor.range) else Put16(motor.torque) + Put32(motor.velocity)
  }

  /** Motors in MIT mode need proper ranges. */
  predicate Proper(motors: seq<Motor>) {
    forall i :: 0 <= i < |motors| && motors[i].mode.Mit? ==> motors[i].range.Proper()
  }

  function ModesOf(motors: seq<Motor>): (m: seq<Mode>)
    ensures |m| == |motors|
  {
    seq(|motors|, i requires 0 <= i < |motors| => motors[i].mode)
  }

  function FrameBytes(motors: seq<Motor>): (s: seq<byte>)
    requires Proper(motors)
    decreases |motors|
  {
    if motors == [] then [] else TargetBytes(motors[0]) + FrameBytes(motors[1..])
  }

  /** What the motor must receive, and where. */
  function OwnPieces(motor: Motor): seq<(OD.OdKey, seq<byte>)>
    requires motor.mode.Mit? ==> motor.range.Proper()
  {
    var s := TargetBytes(motor);
    if motor.mode.Mit? then [(OD.OdKey(0x2004, 2), s[..4]), (OD.OdKey(0x2004, 3), s[4..])]
    else [(OD.OdKey(0x6072, 0), s[..2]), (OD.OdKey(0x60FF, 0), s[2..])]
  }

  // ----- layout

  lemma {:induction false} SizesAreEven(modes: seq<Mode>)
    ensures TotalSize(modes) % 2 == 0 && TotalSize(modes) <= 8 * |modes|
    decreases |modes|
  {
    if modes == [] {
    } else {
      SizesAreEven(modes[1..]);
    }
  }

  lemma {:induction false} SizesSplit(a: seq<Mode>, b: seq<Mode>)
    ensures TotalSize(a + b) == TotalSize(a) + TotalSize(b)
    decreases |a|
  {
    if a == [] {
      assert a + b == b;
    } else {
      assert (a + b)[1..] == a[1..] + b;
      SizesSplit(a[1..], b);
    }
  }

  lemma {:induction false} FrameSplit(a: seq<Motor>, b: seq<Motor>)
    requires Proper(a) && Proper(b)
    ensures Proper(a + b) && FrameBytes(a + b) == FrameBytes(a) + FrameBytes(b)
    decreases |a|
  {
    if a == [] {
      assert a + b == b;
    } else {
      assert Proper(a[1..]) by { assert forall i :: 0 <= i < |a[1..]| ==> a[1..][i] == a[i + 1]; }
      assert (a + b)[1..] == a[1..] + b;
      FrameSplit(a[1..], b);
      hide TargetBytes;
      assert TargetBytes(a[0]) + (FrameBytes(a[1..]) + FrameBytes(b)) == FrameBytes(a) + FrameBytes(b);
    }
  }

  lemma {:induction false} FrameLength(motors: seq<Motor>)
    requires Proper(motors)
    ensures |FrameBytes(motors)| == TotalSize(ModesOf(motors))
    decreases |motors|
  {
    if motors == [] {
    } else {
      assert Proper(motors[1..]) by { assert forall i :: 0 <= i < |motors[1..]| ==> motors[1..][i] == motors[i + 1]; }
      FrameLength(motors[1..]);
      assert ModesOf(motors)[1..] == ModesOf(motors[1..]);
    }
  }

  lemma DecodeOne(w: nat)
    ensures P.Decode([w]) == [(P.WordKey(w), P.WordBits(w) / 8)]
  {
  }

  lemma DecodeSplit(a: seq<nat>, b: seq<nat>)
    ensures P.Decode(a + b) == P.Decode(a) + P.Decode(b)
  {
  }

  /** One skipped piece in front. */
  lemma SkipFirst(length: nat, sub: u8, m: P.Mapping, data: seq<byte>)
    requires length + P.TotalLength(m) <= |data|
    ensures var all := [(OD.OdKey(0x3000, sub), length)] + m;
      && P.TotalLength(all) == length + P.TotalLength(m)
      && Relevant(Received(all, data)) == Relevant(Received(m, data[length..]))
  {
    var all := [(OD.OdKey(0x3000, sub), length)] + m;
    assert all[1..] == m;
    assert Received(all, data)[1..] == Received(m, data[length..]);
  }

  /** Padding for an even number of bytes skips exactly those, with one object per four bytes. */
  lemma {:induction false} PaddingSkips(pad: nat, data: seq<byte>)
    requires pad % 2 == 0 && |data| == pad
    ensures |Padding(pad)| == (pad + 2) / 4
    ensures P.TotalLength(P.Decode(Padding(pad))) == pad
    ensures Relevant(Received(P.Decode(Padding(pad)), data)) == []
    decreases pad
  {
    hide P.Decode, P.TotalLength, Received, Relevant, P.WordKey, P.WordBits;
    PadWords();
    DecodeNothing(data);
    if pad >= 4 {
      DecodeOne(PAD_U32);
      DecodeSplit([PAD_U32], Padding(pad - 4));
      PaddingSkips(pad - 4, data[4..]);
      SkipFirst(4, 3, P.Decode(Padding(pad - 4)), data);
    } else if pad == 2 {
      DecodeOne(PAD_U16);
      DecodeSplit([PAD_U16], []);
      assert Padding(pad) == [PAD_U16] + [];
      DecodeNothing(data[2..]);
      SkipFirst(2, 2, P.Decode([]), data);
    }
  }

  lemma PadWords()
    ensures P.WordKey(PAD_U32) == OD.OdKey(0x3000, 3) && P.WordBits(PAD_U32) == 32
    ensures P.WordKey(PAD_U16) == OD.OdKey(0x3000, 2) && P.WordBits(PAD_U16) == 16
  {
    hide OdEntry, P.WordKey, P.WordBits;
    EntryParts(0x3000, 0x03, 0x20);
    EntryParts(0x3000, 0x02, 0x10);
  }

  /** The slave takes a mapping word apart as the master put it together. */
  lemma EntryParts(index: u16, sub: u8, bits: u8)
    ensures P.WordKey(OdEntry(index, sub, bits)) == OD.OdKey(index, sub)
        && P.WordBits(OdEntry(index, sub, bits)) == bits
  {
    var w := OdEntry(index, sub, bits);
    assert w / 0x100 == index * 0x100 + sub;
  }

  lemma DecodeNothing(data: seq<byte>)
    ensures P.TotalLength(P.Decode([])) == 0 && Relevant(Received(P.Decode([]), data)) == []
  {
  }

  lemma {:induction false} LengthSplit(a: P.Mapping, b: P.Mapping)
    ensures P.TotalLength(a + b) == P.TotalLength(a) + P.TotalLength(b)
    decreases |a|
  {
    if a == [] {
      assert a + b == b;
    } else {
      assert (a + b)[1..] == a[1..] + b;
      LengthSplit(a[1..], b);
    }
  }

  lemma {:induction false} ReceivedSplit(a: P.Mapping, b: P.Mapping, x: seq<byte>, y: seq<byte>)
    requires P.TotalLength(a) == |x| && P.TotalLength(b) <= |y|
    ensures P.TotalLength(a + b) <= |x + y|
    ensures Received(a + b, x + y) == Received(a, x) + Received(b, y)
    decreases |a|
  {
    LengthSplit(a, b);
    if a == [] {
      assert a + b == b && x + y == y;
    } else {
      var n := a[0].1;
      assert (a + b)[1..] == a[1..] + b && (x + y)[..n] == x[..n] && (x + y)[n..] == x[n..] + y;
      ReceivedSplit(a[1..], b, x[n..], y);
      var first := [(a[0].0, x[..n])];
      assert Received(a + b, x + y) == first + Received(a[1..] + b, x[n..] + y);
      assert Received(a, x) == first + Received(a[1..], x[n..]);
      hide Received;
      Associate(first, Received(a[1..], x[n..]), Received(b, y));
    }
  }

  lemma {:induction false} RelevantSplit(a: seq<(OD.OdKey, seq<byte>)>, b: seq<(OD.OdKey, seq<byte>)>)
    ensures Relevant(a + b) == Relevant(a) + Relevant(b)
    decreases |a|
  {
    if a == [] {
      assert a + b == b;
    } else {
      assert (a + b)[1..] == a[1..] + b;
      RelevantSplit(a[1..], b);
    }
  }

  lemma OwnReceived(motor: Motor)
    requires motor.mode.Mit? ==> motor.range.Proper()
    ensures P.TotalLength(P.Decode(OwnWords(motor.mode))) == Size(motor.mode)
    ensures Relevant(Received(P.Decode(OwnWords(motor.mode)), TargetBytes(motor))) == OwnPieces(motor)
  {
    hide OwnWords, Pack, Put16, Put32, Received, Relevant, P.Decode, P.TotalLength;
    OwnDecoded(motor.mode);
    if motor.mode.Mit? {
      PairReceived((OD.OdKey(0x2004, 2), 4), (OD.OdKey(0x2004, 3), 4), TargetBytes(motor));
    } else {
      PairReceived((OD.OdKey(0x6072, 0), 2), (OD.OdKey(0x60FF, 0), 4), TargetBytes(motor));
    }
  }

  lemma OwnDecoded(mode: Mode)
    ensures P.Decode(OwnWords(mode)) ==
      if mode.Mit? then [(OD.OdKey(0x2004, 2), 4), (OD.OdKey(0x2004, 3), 4)]
      else [(OD.OdKey(0x6072, 0), 2), (OD.OdKey(0x60FF, 0), 4)]
  {
    hide P.Decode, P.WordKey, P.WordBits;
    MitWords();
    VelocityWords();
    DecodePair(OwnWords(mode)[0], OwnWords(mode)[1]);
  }

  lemma MitWords()
    ensures var v, w := OdEntry(0x2004, 0x02, 0x20), OdEntry(0x2004, 0x03, 0x20);
      && P.WordKey(v) == OD.OdKey(0x2004, 2) && P.WordBits(v) == 32
      && P.WordKey(w) == OD.OdKey(0x2004, 3) && P.WordBits(w) == 32
  {
    hide OdEntry, P.WordKey, P.WordBits;
    EntryParts(0x2004, 0x02, 0x20);
    EntryParts(0x2004, 0x03, 0x20);
  }

  lemma VelocityWords()
    ensures var v, w := OdEntry(0x6072, 0x00, 0x10), OdEntry(0x60FF, 0x00, 0x20);
      && P.WordKey(v) == OD.OdKey(0x6072, 0) && P.WordBits(v) == 16
      && P.WordKey(w) == OD.OdKey(0x60FF, 0) && P.WordBits(w) == 32
  {
    hide OdEntry, P.WordKey, P.WordBits;
    EntryParts(0x6072, 0x00, 0x10);
    EntryParts(0x60FF, 0x00, 0x20);
  }

  lemma DecodePair(v: nat, w: nat)
    ensures P.Decode([v, w]) == [(P.WordKey(v), P.WordBits(v) / 8), (P.WordKey(w), P.WordBits(w) / 8)]
  {
  }

  lemma PairReceived(a: (OD.OdKey, nat), b: (OD.OdKey, nat), data: seq<byte>)
    requires |data| == a.1 + b.1 && a.0.index != 0x3000 && b.0.index != 0x3000
    ensures P.TotalLength([a, b]) == |data|
    ensures Relevant(Received([a, b], data)) == [(a.0, data[..a.1]), (b.0, data[a.1..])]
  {
    assert [a, b][1..] == [b];
    assert data[a.1..][..b.1] == data[a.1..];
    var first, second := (a.0, data[..a.1]), (b.0, data[a.1..]);
    assert Received([b], data[a.1..]) == [second];
    assert Received([a, b], data) == [first, second];
    assert [first, second][1..] == [second];
    assert Relevant([second]) == [second];
  }

  /** A frame and a mapping, each in three parts: what comes before the motor, its own, the rest. */
  lemma Parts(motors: seq<Motor>, i: nat)
    requires Proper(motors) && i < |motors|
    ensures Proper(motors[..i]) && Proper(motors[i + 1..]) && (motors[i].mode.Mit? ==> motors[i].range.Proper())
    ensures var x, z := FrameBytes(motors[..i]), FrameBytes(motors[i + 1..]);
      && FrameBytes(motors) == x + (TargetBytes(motors[i]) + z)
      && MotorMapping(ModesOf(motors), i) == Padding(|x|) + (OwnWords(motors[i].mode) + Padding(|z|))
      && |x| % 2 == 0 && |x| <= 8 * i && |z| % 2 == 0 && |z| <= 8 * (|motors| - 1 - i)
  {
    hide TargetBytes, OwnWords, Padding, FrameBytes, TotalSize;
    var modes := ModesOf(motors);
    var before, own, after := motors[..i], [motors[i]], motors[i + 1..];
    assert motors == before + (own + after);
    assert Proper(before) && Proper(own) && Proper(after);
    FrameSplit(own, after);
    FrameSplit(before, own + after);
    SingleFrame(motors[i]);
    assert ModesOf(before) == modes[..i] && ModesOf(after) == modes[i + 1..];
    FrameLength(before);
    FrameLength(after);
    SizesAreEven(modes[..i]);
    SizesAreEven(modes[i + 1..]);
  }

  /** The pieces hold the motor's targets, as a motor decodes them: torque limit and velocity, or the five
      quantised fields of the packed word pair. */
  predicate Understood(motor: Motor, pieces: seq<(OD.OdKey, seq<byte>)>)
    requires motor.mode.Mit? ==> motor.range.Proper()
  {
    && |pieces| == 2
    && if motor.mode.Mit? then
         && pieces[0].0 == OD.OdKey(0x2004, 2) && |pieces[0].1| == 4
         && pieces[1].0 == OD.OdKey(0x2004, 3) && |pieces[1].1| == 4
         && Unpack(pieces[0].1 + pieces[1].1) == Quantised(motor.mit, motor.range)
       else
         && pieces[0].0 == OD.OdKey(0x6072, 0) && |pieces[0].1| == 2 && Get16(pieces[0].1) == motor.torque
         && pieces[1].0 == OD.OdKey(0x60FF, 0) && |pieces[1].1| == 4 && Get32(pieces[1].1) == motor.velocity
  }

  lemma OwnIsUnderstood(motor: Motor)
    requires motor.mode.Mit? ==> motor.range.Proper()
    ensures Understood(motor, OwnPieces(motor))
  {
    hide Unpack, Pack, Quantised, Get16, Put16, Get32, Put32;
    var s := TargetBytes(motor);
    if motor.mode.Mit? {
      MitRoundTrip(motor.mit, motor.range);
      assert s[..4] + s[4..] == s;
    } else {
      assert s[..2] == Put16(motor.torque) && s[2..] == Put32(motor.velocity);
    }
  }

  /** Layout agreement: under the mapping configured for it, each motor finds in the common frame
      exactly its own targets, each in its own object; the mapping covers the frame to the last byte, with
      at most two objects per motor. */
  lemma LayoutAgrees(motors: seq<Motor>, i: nat)
    requires Proper(motors) && i < |motors|
    ensures var m, frame := P.Decode(MotorMapping(ModesOf(motors), i)), FrameBytes(motors);
      && P.TotalLength(m) == |frame|
      && (motors[i].mode.Mit? ==> motors[i].range.Proper()) && Understood(motors[i], Relevant(Received(m, frame)))
    ensures |MotorMapping(ModesOf(motors), i)| <= 2 * |motors| && |FrameBytes(motors)| <= 8 * |motors|
    ensures |motors| <= 8 ==>
      |FrameBytes(motors)| <= 64 && |MotorMapping(ModesOf(motors), i)| <= P.MAX_MAPPINGS
  {
    hide OwnPieces, Received, Relevant, FrameBytes, MotorMapping, ModesOf, P.Decode, P.TotalLength, Understood;
    PiecesAgree(motors, i);
    OwnIsUnderstood(motors[i]);
  }

  /** Each motor finds exactly its own two pieces. */
  lemma {:induction false} PiecesAgree(motors: seq<Motor>, i: nat)
    requires Proper(motors) && i < |motors|
    ensures var m, frame := P.Decode(MotorMapping(ModesOf(motors), i)), FrameBytes(motors);
      && P.TotalLength(m) == |frame|
      && Relevant(Received(m, frame)) == OwnPieces(motors[i])
    ensures |MotorMapping(ModesOf(motors), i)| <= 2 * |motors| && |FrameBytes(motors)| <= 8 * |motors|
    ensures |motors| <= 8 ==>
      |FrameBytes(motors)| <= 64 && |MotorMapping(ModesOf(motors), i)| <= P.MAX_MAPPINGS
  {
    hide TargetBytes, OwnPieces, OwnWords, Received, Relevant, Padding, FrameBytes, MotorMapping, ModesOf, P.Decode,
         P.TotalLength;
    Parts(motors, i);
    var x, y, z := FrameBytes(motors[..i]), TargetBytes(motors[i]), FrameBytes(motors[i + 1..]);
    PaddingSkips(|x|, x);
    PaddingSkips(|z|, z);
    OwnReceived(motors[i]);
    OwnWordCount(motors[i].mode);
    var p, w, q := Padding(|x|), OwnWords(motors[i].mode), Padding(|z|);
    DecodeSplit(w, q);
    DecodeSplit(p, w + q);
    JoinPieces(P.Decode(p), P.Decode(w), P.Decode(q), x, y, z);
  }

  lemma JoinPieces(p: P.Mapping, w: P.Mapping, q: P.Mapping, x: seq<byte>, y: seq<byte>, z: seq<byte>)
    requires P.TotalLength(p) == |x| && P.TotalLength(w) == |y| && P.TotalLength(q) == |z|
    requires Relevant(Received(p, x)) == [] && Relevant(Received(q, z)) == []
    ensures P.TotalLength(p + (w + q)) == |x + (y + z)|
    ensures Relevant(Received(p + (w + q), x + (y + z))) == Relevant(Received(w, y))
  {
    hide Received, Relevant, P.TotalLength;
    LengthSplit(w, q);
    LengthSplit(p, w + q);
    ReceivedSplit(w, q, y, z);
    ReceivedSplit(p, w + q, x, y + z);
    RelevantSplit(Received(w, y), Received(q, z));
    RelevantSplit(Received(p, x), Received(w + q, y + z));
  }

  /** Writing pieces one after the other, up to the first refused one. */
  function WriteAll(od: OD.Od, pieces: seq<(OD.OdKey, seq<byte>)>, hooks: OD.Hooks): (r: (bool, OD.Od))
    requires od.Valid()
    ensures r.1.Valid()
    decreases |pieces|
  {
    if pieces == [] then (true, od)
    else
      var (code, od') := OD.Write(od, pieces[0].0, pieces[0].1, hooks);
      if code != OD.NoAbort then (false, od') else WriteAll(od', pieces[1..], hooks)
  }

  /** The pieces are what a receiving PDO manager writes. */
  lemma {:induction false} ReceivedIsWritten(od: OD.Od, m: P.Mapping, data: seq<byte>, hooks: OD.Hooks)
    requires od.Valid() && P.TotalLength(m) <= |data|
    ensures Safety.Spread(od, m, data, hooks) == WriteAll(od, Received(m, data), hooks)
    decreases |m|
  {
    if m == [] {
    } else {
      var (code, od') := OD.Write(od, m[0].0, data[..m[0].1], hooks);
      hide OD.Write;
      assert Received(m, data)[1..] == Received(m[1..], data[m[0].1..]);
      if code == OD.NoAbort {
        ReceivedIsWritten(od', m[1..], data[m[0].1..], hooks);
      }
    }
  }

  lemma {:induction false} WordsFit(pad: nat)
    ensures forall i :: 0 <= i < |Padding(pad)| ==> Padding(pad)[i] < 0x1_0000_0000
  {
    if pad >= 4 {
      WordsFit(pad - 4);
    }
  }

  lemma MappingIsSendable(motors: seq<Motor>, i: nat)
    requires Proper(motors) && i < |motors| <= 8
    ensures Sendable(MotorMapping(ModesOf(motors), i))
  {
    hide Padding, TotalSize, FrameBytes, Received, Relevant, P.Decode, P.TotalLength;
    LayoutAgrees(motors, i);
    WordsFit(TotalSize(ModesOf(motors)[..i]));
    WordsFit(TotalSize(ModesOf(motors)[i + 1..]));
  }

  /** A motor whose dictionary offers the mapped objects, and that has this project's PDO manager,
      accepts the mapping download and then distributes frames by exactly this mapping. */
  lemma MotorAcceptsMapping(p: P.Manager, motors: seq<Motor>, i: nat, hooks: OD.Hooks)
    requires P.Inv(p) && p.fd && Proper(motors) && i < |motors| <= 8
    requires forall w :: w in MotorMapping(ModesOf(motors), i) ==> P.Mappable(p.od.entries, w, P.Rx)
    ensures var words := MotorMapping(ModesOf(motors), i);
      && P.Configured(p.od) && Sendable(words)
      && (forall j :: 0 <= j < |MappingDownloads(words)| ==> Addressed(MappingDownloads(words)[j]))
      && var (code, p') := ApplyAll(p, P.Rx, 0, MappingDownloads(words), hooks);
         && code == OD.NoAbort && P.Inv(p')
         && P.Count(p'.od, P.Rx, 0) <= P.MAX_MAPPINGS && P.MappingOf(p'.od, P.Rx, 0) == P.Decode(words)
  {
    var words := MotorMapping(ModesOf(motors), i);
    hide MotorMapping, ModesOf, P.Inv, P.Configured, P.Mappable, P.Decode, P.TotalLength, FrameBytes, ApplyAll,
         MappingDownloads;
    MappingIsSendable(motors, i);
    LayoutAgrees(motors, i);
    P.BytesOfSafeWords(p.od.entries, words, P.Rx);
    ConfigurationTakesEffect(p, P.Rx, 0, words, hooks);
  }

  lemma OwnWordCount(mode: Mode)
    ensures |OwnWords(mode)| == 2
  {
  }

  lemma SingleFrame(motor: Motor)
    requires motor.mode.Mit? ==> motor.range.Proper()
    ensures Proper([motor]) && FrameBytes([motor]) == TargetBytes(motor)
  {
    assert [motor][1..] == [];
  }

  // ----- the controller in place

  lemma PaddingStep(words: seq<nat>, pad: nat)
    ensures pad >= 4 ==> words + Padding(pad) == (words + [PAD_U32]) + Padding(pad - 4)
    ensures 2 <= pad < 4 ==> words + Padding(pad) == words + [PAD_U16]
    ensures pad < 2 ==> words + Padding(pad) == words
  {
  }

  lemma DownloadNext(words: seq<nat>, word: nat)
    ensures Downloads(words) + [Download(|words| + 1, word)] == Downloads(words + [word])
  {
  }

  lemma NextSize(modes: seq<Mode>, i: nat)
    requires i < |modes|
    ensures TotalSize(modes[..i + 1]) == TotalSize(modes[..i]) + Size(modes[i])
  {
    assert modes[..i + 1] == modes[..i] + [modes[i]];
    SizesSplit(modes[..i], [modes[i]]);
    assert [modes[i]][1..] == [];
  }

  class Controller {
    var motors: seq<Motor>

    ghost predicate Valid()
      reads this
    {
      |motors| <= MAX_MOTORS && Proper(motors)
    }

    constructor (motors: seq<Motor>)
      requires |motors| <= MAX_MOTORS && Proper(motors)
      ensures Valid() && this.motors == motors
    {
      this.motors := motors;
    }

    /** Targets for a motor in the other mode, or for no motor, are ignored. */
    method SetMitTarget(index: nat, target: Targets)
      requires Valid()
      modifies this
      ensures Valid() && |motors| == |old(motors)|
      ensures motors ==
        if index < |motors| && old(motors)[index].mode.Mit?
            then old(motors)[index := old(motors)[index].(mit := target)]
        else old(motors)
    {
      if index < |motors| && motors[index].mode.Mit? {
        motors := motors[index := motors[index].(mit := target)];
      }
    }

    method SetVelocityTarget(index: nat, target: bv32, torque: bv16)
      requires Valid()
      modifies this
      ensures Valid() && |motors| == |old(motors)|
      ensures motors ==
        if index < |motors| && old(motors)[index].mode.Velocity?
        then old(motors)[index := old(motors)[index].(velocity := target, torque := torque)]
        else old(motors)
    {
      if index < |motors| && motors[index].mode.Velocity? {
        motors := motors[index := motors[index].(velocity := target, torque := torque)];
      }
    }

    /** The downloads that give one motor its mapping. */
    method RpdoMapMotor(index: nat) returns (out: seq<Download>)
      requires Valid() && index < |motors|
      ensures out == MappingDownloads(MotorMapping(ModesOf(motors), index))
    {
      hide TotalSize, Padding, Downloads;
      ghost var modes := ModesOf(motors);
      var frameSize := FrameSize(|motors|);
      var offset := FrameSize(index);
      assert modes[..|motors|] == modes == modes[..index + 1] + modes[index + 1..];
      SizesSplit(modes[..index + 1], modes[index + 1..]);
      NextSize(modes, index);
      var dataSize := if motors[index].mode.Mit? then 8 else 6;

      ghost var before := Padding(offset);
      var sub;
      out, sub := Skip([], [], 1, offset);
      assert [] + before == before;
      if motors[index].mode.Mit? {
        out := out + [Download(sub, OdEntry(0x2004, 0x02, 0x20)), Download(sub + 1, OdEntry(0x2004, 0x03, 0x20))];
      } else {
        out := out + [Download(sub, OdEntry(0x6072, 0x00, 0x10)), Download(sub + 1, OdEntry(0x60FF, 0x00, 0x20))];
      }
      ghost var own := OwnWords(motors[index].mode);
      TwoDownloads(before, own[0], own[1]);
      assert before + own == before + [own[0], own[1]];
      out, sub := Skip(out, before + own, sub + 2, frameSize - offset - dataSize);
      assert before + own + Padding(frameSize - offset - dataSize) == MotorMapping(modes, index);
      out := [Download(0, 0)] + out + [Download(0, sub - 1)];
    }

    /** The bytes of the first `n` motors in a frame. */
    method FrameSize(n: nat) returns (size: nat)
      requires n <= |motors|
      ensures size == TotalSize(ModesOf(motors)[..n])
    {
      ghost var modes := ModesOf(motors);
      size := 0;
      for i := 0 to n
        invariant size == TotalSize(modes[..i])
      {
        NextSize(modes, i);
        size := size + if motors[i].mode.Mit? then 8 else 6;
      }
    }

    /** Downloads dummy objects for `bytes` bytes, from subindex `sub`, after those of `words`. */
    method Skip(done: seq<Download>, ghost words: seq<nat>, sub: nat, bytes: nat)
        returns (out: seq<Download>, next: nat)
      requires done == Downloads(words) && sub == |words| + 1
      ensures out == Downloads(words + Padding(bytes)) && next == |words + Padding(bytes)| + 1
    {
      hide Downloads, Padding;
      out, next := done, sub;
      var pad := bytes;
      ghost var ws: seq<nat> := words;
      assert ws + Padding(pad) == words + Padding(bytes);
      while pad >= 4
        invariant ws + Padding(pad) == words + Padding(bytes) && out == Downloads(ws) && next == |ws| + 1
      {
        PaddingStep(ws, pad);
        DownloadNext(ws, PAD_U32);
        out := out + [Download(next, PAD_U32)];
        ws := ws + [PAD_U32];
        next := next + 1;
        pad := pad - 4;
      }
      PaddingStep(ws, pad);
      if pad >= 2 {
        DownloadNext(ws, PAD_U16);
        out := out + [Download(next, PAD_U16)];
        next := next + 1;
      }
    }

    method StoreBytes(data: array<byte>, pos: nat, bytes: seq<byte>)
      requires pos + |bytes| <= data.Length
      modifies data
      ensures data[..] == old(data[..pos]) + bytes + old(data[pos + |bytes|..])
    {
      for k := 0 to |bytes|
        invariant data[..] == old(data[..pos]) + bytes[..k] + old(data[pos + k..])
      {
        data[pos + k] := bytes[k];
      }
    }

    /** The targets of all motors one after the other, in one CAN-FD frame for all of them. */
    method BuildRpdoFrame() returns (out: Can.Frame)
      requires Valid()
      ensures |FrameBytes(motors)| <= 64 && out.Valid()
      ensures out == Can.Frame(0x190, |FrameBytes(motors)|, false, false, true, true, Can.Pad(FrameBytes(motors)))
    {
      hide FrameBytes, TargetBytes;
      NoFrame();
      var data := new byte[64](_ => 0);
      var pos := 0;
      assert motors[..0] == [];
      for i := 0 to |motors|
        invariant Valid() && Proper(motors[..i]) && pos == |FrameBytes(motors[..i])| <= 64
        invariant data[..] == FrameBytes(motors[..i]) + Zeros(64 - pos)
      {
        NextFrame(motors, i);
        ghost var before := FrameBytes(motors[..i]);
        var bytes := TargetBytes(motors[i]);
        StoreBytes(data, pos, bytes);
        assert Zeros(64 - pos)[|bytes|..] == Zeros(64 - pos - |bytes|);
        assert data[..] == before + bytes + Zeros(64 - pos - |bytes|);
        pos := pos + |bytes|;
      }
      assert motors[..|motors|] == motors;
      out := Can.Frame(RPDO_COB_ID, pos, false, false, true, true, data[..]);
    }
  }

  lemma TwoDownloads(words: seq<nat>, v: nat, w: nat)
    ensures Downloads(words) + [Download(|words| + 1, v), Download(|words| + 2, w)] == Downloads(words + [v, w])
  {
  }

  lemma NoFrame()
    ensures FrameBytes([]) == []
  {
  }

  /** The frame grows by one motor's bytes and stays within 64. */
  lemma NextFrame(motors: seq<Motor>, i: nat)
    requires Proper(motors) && i < |motors| <= 8
    ensures Proper(motors[..i]) && Proper(motors[..i + 1]) && motors[i].mode.Mit? ==> motors[i].range.Proper()
    ensures FrameBytes(motors[..i + 1]) == FrameBytes(motors[..i]) + TargetBytes(motors[i])
    ensures |FrameBytes(motors[..i + 1])| <= 64
  {
    assert motors[..i + 1] == motors[..i] + [motors[i]];
    SingleFrame(motors[i]);
    FrameSplit(motors[..i], [motors[i]]);
    FrameLength(motors[..i + 1]);
    SizesAreEven(ModesOf(motors[..i + 1]));
  }
}

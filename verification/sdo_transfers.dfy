/** What SDO transfers achieve: a conforming client reads and writes whole entries, and whatever
    else arrives, the dictionary changes only by complete downloads. */
module SdoTransfers {
  import opened Bytes
  import opened Wrappers
  import opened ObjectDictionary
  import opened SdoServer

  // ----- the client's messages

  function UploadRequest(key: OdKey): Message {
    [0x40] + KeyBytes(key) + Zeros(4)
  }

  function UploadSegmentRequest(t: bool): Message {
    [0x60 | ToggleMask(t)] + Zeros(7)
  }

  /** The size may be announced or left to the server. */
  function DownloadRequest(key: OdKey, announced: Option<u32>): Message {
    match announced
    case None => [0x20] + KeyBytes(key) + Zeros(4)
    case Some(n) => [0x21] + KeyBytes(key) + PutSize32(n)
  }

  function DownloadSegmentRequest(t: bool, data: seq<byte>, last: bool): Message
    requires |data| <= 7
  {
    SegmentMessage(t, data, last)
  }

  function ExpeditedRequest(key: OdKey, data: seq<byte>): Message
    requires |data| <= 4
  {
    [ExpeditedCommand(0x23, 4 - |data|)] + KeyBytes(key) + data + Zeros(4 - |data|)
  }

  // ----- the bits of a first byte

  lemma SegmentCommandReadsBack(t: bool, unused: nat, last: bool)
    requires unused <= 7
    ensures var b := SegmentCommand(t, unused, last);
      TopBits(b) == 0 && Bit(b, 0x10) == t && Bit(b, 1) == last && SegmentUnused(b) == unused
  {
    hide ByteOf;
    SmallByte(ByteOf(unused));
    SegmentBits(if t then 0x10 else 0, ByteOf(unused), if last then 1 else 0);
  }

  lemma SegmentBits(c: byte, u: byte, l: byte)
    requires (c == 0 || c == 0x10) && u <= 7 && l <= 1
    ensures var b := c | (u << 1) | l;
      b >> 5 == 0 && (b & 0x10 != 0 <==> c == 0x10) && (b & 1 != 0 <==> l == 1) && (b >> 1) & 7 == u
  {
  }

  lemma SmallByte(b: byte)
    ensures b as int <= 7 ==> b <= 7
    ensures b as int <= 3 ==> b <= 3
  {
  }

  /** A segment reads back as it was written. */
  lemma SegmentReadsBack(t: bool, data: seq<byte>, last: bool)
    requires |data| <= 7 && (last || |data| == 7)
    ensures var m := SegmentMessage(t, data, last);
      Specifier(m) == 0 && Bit(m[0], 0x10) == t && Bit(m[0], 1) == last && SegmentData(m) == data
  {
    hide SegmentCommand, TopBits, Bit, SegmentUnused;
    SegmentCommandReadsBack(t, 7 - |data|, last);
  }

  lemma ExpeditedCommandReadsBack(base: byte, unused: nat)
    requires (base == 0x23 || base == 0x43) && unused <= 3
    ensures var b := ExpeditedCommand(base, unused);
      TopBits(b) == (if base == 0x23 then 1 else 2) && Bit(b, 2) && Bit(b, 1) && ExpeditedUnused(b) == unused
  {
    hide ByteOf;
    SmallByte(ByteOf(unused));
    ExpeditedBits(base, ByteOf(unused));
  }

  lemma ExpeditedBits(c: byte, u: byte)
    requires (c == 0x23 || c == 0x43) && u <= 3
    ensures var b := c | (u << 2);
      (c == 0x23 ==> b >> 5 == 1) && (c == 0x43 ==> b >> 5 == 2) && b & 2 != 0 && b & 1 != 0 && (b >> 2) & 3 == u
  {
  }

  /** An expedited request or answer names its data exactly. */
  lemma ExpeditedReadsBack(m: Message, base: byte, key: seq<byte>, data: seq<byte>)
    requires (base == 0x23 || base == 0x43) && |key| == 3 && 1 <= |data| <= 4
    requires m == [ExpeditedCommand(base, 4 - |data|)] + key + data + Zeros(4 - |data|)
    ensures Specifier(m) == (if base == 0x23 then 1 else 2) && Bit(m[0], 2) && ExpeditedData(m) == data
        && m[1..4] == key
  {
    hide ExpeditedCommand, TopBits, Bit, ExpeditedUnused;
    ExpeditedCommandReadsBack(base, 4 - |data|);
  }

  lemma KeyReadsBack(key: OdKey, m: Message)
    requires m[1..4] == KeyBytes(key)
    ensures RequestKey(m) == key
  {
    assert m[1..3] == m[1..4][..2] == PutSize(key.index);
    assert m[3] == m[1..4][2];
  }

  lemma CommandBits()
    ensures (0x40 as byte) >> 5 == 2 && (0x41 as byte) >> 5 == 2 && (0x20 as byte) >> 5 == 1 && (0x21 as byte) >> 5 == 1
    ensures (0x60 as byte | 0x10) >> 5 == 3 && (0x60 as byte | 0) >> 5 == 3 && (0x60 as byte) >> 5 == 3
    ensures (0x20 as byte | 0x10) >> 5 == 1 && (0x20 as byte | 0) >> 5 == 1
    ensures (0x20 as byte | 0x10) & 0xF == 0 && (0x20 as byte | 0) & 0xF == 0 && (0x60 as byte) & 0xF == 0
    ensures Bit(0x20 | 0x10, 0x10) && !Bit(0x20 | 0, 0x10) && !Bit(0x60, 0x10) && Bit(0x41, 1)
    ensures !Bit(0x41, 2) && !Bit(0x20, 2) && !Bit(0x21, 2) && !Bit(0x20, 1) && Bit(0x21, 1)
    ensures Bit(0x60 | 0x10, 0x10) && !Bit(0x60 | 0, 0x10)
    ensures (0x80 as byte) >> 5 == 4
  {
  }

  // ----- how a client judges replies, by the bits of the protocol

  /** The server agrees to what was asked of an entry: the specifier of the answer, and the entry again. */
  predicate Agrees(reply: Option<Message>, specifier: byte, key: OdKey) {
    reply.Some? && Specifier(reply.value) == specifier && reply.value[1..4] == KeyBytes(key)
  }

  /** An answer that says nothing more: all reserved bits and bytes are zero. */
  predicate Bare(m: Message, from: nat)
    requires from <= 8
  {
    m[0] & 0xF == 0 && m[from..] == Zeros(8 - from)
  }

  predicate DownloadStarts(reply: Option<Message>, key: OdKey) {
    Agrees(reply, 3, key) && Bare(reply.value, 4) && !Bit(reply.value[0], 0x10)
  }

  /** A segment has arrived: specifier 1, and the toggle bit of the segment. */
  predicate Acknowledges(reply: Option<Message>, t: bool) {
    && reply.Some? && Specifier(reply.value) == 1 && Bit(reply.value[0], 0x10) == t
    && Bare(reply.value, 1)
  }

  /** An abort names the entry and carries the reason as a 32-bit number. */
  predicate Refuses(reply: Option<Message>, key: OdKey, code: AbortCode) {
    Agrees(reply, 4, key) && Get32(reply.value[4..8]) == code.Number()
  }

  lemma AckAcknowledges(t: bool)
    ensures Acknowledges(Some(SegmentAck(t)), t)
  {
    CommandBits();
    assert SegmentAck(t)[0] == 0x20 | ToggleMask(t);
    assert SegmentAck(t)[1..] == Zeros(7);
  }

  lemma AbortRefuses(key: OdKey, code: AbortCode)
    ensures Refuses(Some(AbortMessage(key, code)), key, code)
  {
    hide KeyBytes;
    CommandBits();
    var m := AbortMessage(key, code);
    assert m[0] == 0x80 && m[1..4] == KeyBytes(key) && m[4..8] == Put32(code.Number());
  }

  lemma AnswerStarts(key: OdKey, m: Message)
    requires m[1..4] == KeyBytes(key)
    ensures DownloadStarts(Some(Answer(0x60, m, [])), key)
  {
    hide KeyBytes;
    CommandBits();
    var answer := Answer(0x60, m, []);
    assert answer[0] == 0x60 && answer[1..4] == m[1..4] && answer[4..] == Zeros(4);
  }

  lemma RefusalIsNoConsent(key: OdKey, code: AbortCode, t: bool)
    ensures !Acknowledges(Some(AbortMessage(key, code)), t) && !DownloadStarts(Some(AbortMessage(key, code)), key)
  {
    AbortRefuses(key, code);
  }

  // ----- downloads by a conforming client

  /** Sends the data from position `k` on, seven bytes at a time, while the server acknowledges. */
  function SendSegments(s: Sdo, od: Od, b: seq<byte>, k: nat, t: bool, now: nat -> nat, hooks: Hooks): (Sdo, Od, bool)
    requires od.Valid() && s.Sound() && k <= |b|
    decreases |b| - k
  {
    var last := |b| - k <= 7;
    var data := if last then b[k..] else b[k..k + 7];
    var r := Request(s, od, DownloadSegmentRequest(t, data, last), now(k), hooks);
    if !Acknowledges(r.reply, t) then (r.sdo, r.od, false)
    else if last then (r.sdo, r.od, true)
    else SendSegments(r.sdo, r.od, b, k + 7, !t, now, hooks)
  }

  /** A whole segmented download, with or without announcing the size. */
  function DownloadAll(s: Sdo, od: Od, key: OdKey, b: seq<byte>, announce: bool, now: nat -> nat, hooks: Hooks)
    : (Sdo, Od, bool)
    requires od.Valid() && s.Sound() && |b| < 0x1_0000_0000
  {
    var m := DownloadRequest(key, if announce then Some(|b|) else None);
    var r := Request(s, od, m, now(0), hooks);
    if !DownloadStarts(r.reply, key) then (r.sdo, r.od, false)
    else SendSegments(r.sdo, r.od, b, 0, false, now, hooks)
  }

  /** The last segment of a download that has gone well so far commits the data, or nothing when the
      sizes differ or the dictionary refuses. */
  lemma LastSegmentCommits(s: Sdo, od: Od, b: seq<byte>, k: nat, t: bool, now: nat -> nat, hooks: Hooks)
    requires od.Valid() && s.Sound() && s.state == Download && k <= |b| <= k + 7
    requires s.offset == k && s.transfer[..k] == b[..k] && s.toggle == t
    ensures Committed(s, od, b, SendSegments(s, od, b, k, t, now, hooks), hooks)
  {
    hide SegmentMessage, SegmentData, Acknowledges, Specifier, Bit, Write, Request, DownloadSegmentRequest;
    var data := b[k..];
    RequestReadsBack(t, data, true);
    assert b[..|b|] == b;
    DownloadSegmentWrites(s, od, DownloadSegmentRequest(t, data, true), now(k), hooks, b, data, true);
  }

  /** Any other segment either overruns the announced size, which ends the transfer, or is collected. */
  lemma MiddleSegmentContinues(s: Sdo, od: Od, b: seq<byte>, k: nat, t: bool, now: nat -> nat, hooks: Hooks)
    requires od.Valid() && s.Sound() && s.state == Download && k + 7 < |b|
    requires s.offset == k && s.transfer[..k] == b[..k] && s.toggle == t
    ensures var r := Request(s, od, DownloadSegmentRequest(t, b[k..k + 7], false), now(k), hooks);
      var all := SendSegments(s, od, b, k, t, now, hooks);
      if k + 7 > s.size then all.1 == od && !all.2 && all.0.state == Idle && all.0.Sound()
      else
        && all == SendSegments(r.sdo, od, b, k + 7, !t, now, hooks)
        && r.sdo.state == Download && r.sdo.key == s.key && r.sdo.size == s.size
        && r.sdo.offset == k + 7 && r.sdo.toggle == !t && r.sdo.transfer[..k + 7] == b[..k + 7]
  {
    hide SegmentMessage, SegmentData, Acknowledges, Specifier, Bit, Write, Request, DownloadSegmentRequest;
    var data := b[k..k + 7];
    RequestReadsBack(t, data, false);
    DownloadSegmentWrites(s, od, DownloadSegmentRequest(t, data, false), now(k), hooks, b, data, false);
  }

  lemma RequestReadsBack(t: bool, data: seq<byte>, last: bool)
    requires |data| <= 7 && (last || |data| == 7)
    ensures var m := DownloadSegmentRequest(t, data, last);
      Specifier(m) == 0 && Bit(m[0], 0x10) == t && Bit(m[0], 1) == last && SegmentData(m) == data
  {
    SegmentReadsBack(t, data, last);
    hide SegmentMessage, SegmentData, Specifier, Bit;
  }

  /** A download has had the effect of one write of all its data, or none. */
  predicate Committed(s: Sdo, od: Od, b: seq<byte>, r: (Sdo, Od, bool), hooks: Hooks)
    requires od.Valid()
  {
    var (code, written) := Write(od, s.key, b, hooks);
    var ok := code == NoAbort && |b| == s.size;
    r.2 == ok && r.1 == (if ok then written else od) && r.0.state == Idle && r.0.Sound()
  }

  /** From any point of a download that has gone well so far, the client's segments commit exactly
      its data, or nothing when the sizes differ or the dictionary refuses. */
  lemma {:induction false} SendSegmentsCommits(s: Sdo, od: Od, b: seq<byte>, k: nat, t: bool, now: nat -> nat,
      hooks: Hooks)
    requires od.Valid() && s.Sound() && s.state == Download && k <= |b|
    requires s.offset == k && s.transfer[..k] == b[..k] && s.toggle == t
    ensures Committed(s, od, b, SendSegments(s, od, b, k, t, now, hooks), hooks)
    decreases |b| - k
  {
    hide Request, DownloadSegmentRequest, Write, SendSegments;
    if |b| <= k + 7 {
      LastSegmentCommits(s, od, b, k, t, now, hooks);
    } else {
      MiddleSegmentContinues(s, od, b, k, t, now, hooks);
      if k + 7 <= s.size {
        var r := Request(s, od, DownloadSegmentRequest(t, b[k..k + 7], false), now(k), hooks);
        SendSegmentsCommits(r.sdo, od, b, k + 7, !t, now, hooks);
      }
    }
  }

  /** One segment of a download seen from the client's data. */
  lemma DownloadSegmentWrites(s: Sdo, od: Od, m: Message, now: nat, hooks: Hooks, b: seq<byte>, data: seq<byte>,
      last: bool)
    requires od.Valid() && s.Sound() && s.state == Download && s.offset + |data| <= |b|
    requires Specifier(m) == 0 && Bit(m[0], 0x10) == s.toggle && Bit(m[0], 1) == last && SegmentData(m) == data
    requires s.transfer[..s.offset] == b[..s.offset] && data == b[s.offset..s.offset + |data|]
    ensures var r := Request(s, od, m, now, hooks);
      var ack := Acknowledges(r.reply, s.toggle);
      var end := s.offset + |data|;
      if end > s.size then
        !ack && r.od == od && r.sdo.state == Idle
      else if !last then
        && ack && r.od == od && r.sdo.state == Download && r.sdo.key == s.key && r.sdo.size == s.size
        && r.sdo.offset == end && r.sdo.toggle == !s.toggle && r.sdo.transfer[..end] == b[..end]
      else
        && r.sdo.state == Idle
        && (if end == s.size && Write(od, s.key, b[..end], hooks).0 == NoAbort
            then ack && r.od == Write(od, s.key, b[..end], hooks).1
            else !ack && r.od == od)
  {
    hide SegmentData, SegmentAck, Specifier, Bit, AbortMessage, Write, Acknowledges;
    AckAcknowledges(s.toggle);
    RefusalIsNoConsent(s.key, DataTooLong, s.toggle);
    RefusalIsNoConsent(s.key, DataTooShort, s.toggle);
    RefusalIsNoConsent(s.key, Write(od, s.key, b[..s.offset + |data|], hooks).0, s.toggle);
    var end := s.offset + |data|;
    if end <= s.size {
      var filled := Overwrite(s.transfer, s.offset, data);
      assert filled[..end] == filled[..s.offset] + filled[s.offset..end] == b[..end];
    }
  }

  /** A segmented download of any data to any entry, by a conforming client, does exactly what
      writing the entry at once would do, provided the data fits the workspace. */
  lemma DownloadIsWrite(s: Sdo, od: Od, key: OdKey, b: seq<byte>, announce: bool, now: nat -> nat, hooks: Hooks)
    requires od.Valid() && s.Sound() && s.state == Idle && |b| < 0x1_0000_0000
    ensures var (code, written) := Write(od, key, b, hooks);
      var ok := code == NoAbort && |b| <= 512;
      var (s', od', accepted) := DownloadAll(s, od, key, b, announce, now, hooks);
      && accepted == ok && od' == (if ok then written else od) && s'.state == Idle && s'.Sound()
  {
    hide Write, Request, DownloadRequest, DownloadStarts, SendSegments;
    DownloadInitiated(s, od, key, b, announce, now(0), hooks);
    var m := DownloadRequest(key, if announce then Some(|b|) else None);
    var r := Request(s, od, m, now(0), hooks);
    if DownloadStarts(r.reply, key) {
      SendSegmentsCommits(r.sdo, od, b, 0, false, now, hooks);
    }
  }

  /** The server agrees to a download of the entry's size only; what it refuses could not have been
      written either, or does not fit. */
  lemma DownloadInitiated(s: Sdo, od: Od, key: OdKey, b: seq<byte>, announce: bool, now: nat, hooks: Hooks)
    requires od.Valid() && s.Sound() && s.state == Idle && |b| < 0x1_0000_0000
    ensures var m := DownloadRequest(key, if announce then Some(|b|) else None);
      var r := Request(s, od, m, now, hooks);
      && r.od == od
      && (DownloadStarts(r.reply, key) ==>
            && r.sdo.state == Download && r.sdo.key == key && r.sdo.offset == 0 && !r.sdo.toggle
            && (Write(od, key, b, hooks).0 == NoAbort ==> r.sdo.size == |b|))
      && (!DownloadStarts(r.reply, key) ==>
            r.sdo == s && (Write(od, key, b, hooks).0 != NoAbort || |b| > TRANSFER_CAPACITY))
  {
    hide Specifier, Bit, DownloadRequest, AbortMessage, Answer, DownloadStarts;
    var m := DownloadRequest(key, if announce then Some(|b|) else None);
    DownloadRequestReadsBack(key, if announce then Some(|b|) else None);
    AnswerStarts(key, m);
    forall code ensures !DownloadStarts(Some(AbortMessage(key, code)), key) {
      RefusalIsNoConsent(key, code, true);
    }
  }

  lemma DownloadRequestReadsBack(key: OdKey, announced: Option<u32>)
    ensures var m := DownloadRequest(key, announced);
      && Specifier(m) == 1 && !Bit(m[0], 2) && m[1..4] == KeyBytes(key) && RequestKey(m) == key
      && Bit(m[0], 1) == announced.Some?
      && (announced.Some? ==> GetSize32(m[4..8]) == announced.value)
  {
    CommandBits();
    var m := DownloadRequest(key, announced);
    assert m[1..4] == KeyBytes(key);
    KeyReadsBack(key, m);
    if announced.Some? {
      assert m[4..8] == PutSize32(announced.value);
    }
  }

  /** An expedited download of one to four bytes is a write, too; a refusal carries its reason. */
  lemma ExpeditedIsWrite(s: Sdo, od: Od, key: OdKey, data: seq<byte>, now: nat, hooks: Hooks)
    requires od.Valid() && s.Sound() && s.state == Idle && 1 <= |data| <= 4
    ensures var (code, written) := Write(od, key, data, hooks);
      var m := ExpeditedRequest(key, data);
      var r := Request(s, od, m, now, hooks);
      && r.sdo == s && r.od == written
      && if code == NoAbort then DownloadStarts(r.reply, key) else Refuses(r.reply, key, code)
  {
    hide KeyBytes;
    var m := ExpeditedRequest(key, data);
    AnswerStarts(key, m);
    AbortRefuses(key, Write(od, key, data, hooks).0);
    ExpeditedReadsBack(ExpeditedRequest(key, data), 0x23, KeyBytes(key), data);
    KeyReadsBack(key, ExpeditedRequest(key, data));
    hide Specifier, Bit, ExpeditedData, RequestKey, AbortMessage, DownloadStarts, Refuses, Answer;
  }

  // ----- uploads by a conforming client

  /** Asks for segment after segment and collects their data; meanwhile the dictionary may be
      anything, a new one before every segment. */
  function ReceiveSegments(s: Sdo, ods: nat -> ValidOd, t: bool, now: nat -> nat, hooks: Hooks)
    : (Sdo, Option<seq<byte>>)
    requires s.Sound()
    decreases s.size - s.offset, if s.state == Upload then 1 else 0
  {
    if s.state != Upload then (s, None)
    else
      var r := Request(s, ods(s.offset), UploadSegmentRequest(t), now(s.offset), hooks);
      if !IsSegment(r.reply, t) then (r.sdo, None)
      else if Bit(r.reply.value[0], 1) then (r.sdo, Some(SegmentData(r.reply.value)))
      else if r.sdo.size - r.sdo.offset >= s.size - s.offset then (r.sdo, None)
      else
        var (s', rest) := ReceiveSegments(r.sdo, ods, !t, now, hooks);
        (s', Prefixed(SegmentData(r.reply.value), rest))
  }

  predicate IsSegment(reply: Option<Message>, t: bool) {
    reply.Some? && Specifier(reply.value) == 0 && Bit(reply.value[0], 0x10) == t
  }

  function Prefixed(data: seq<byte>, rest: Option<seq<byte>>): Option<seq<byte>> {
    if rest.None? then None else Some(data + rest.value)
  }

  function UploadAll(s: Sdo, od: Od, ods: nat -> ValidOd, key: OdKey, now: nat -> nat, hooks: Hooks)
    : (Sdo, Option<seq<byte>>)
    requires od.Valid() && s.Sound()
  {
    var r := Request(s, od, UploadRequest(key), now(0), hooks);
    if !Agrees(r.reply, 2, key) then (r.sdo, None)
    else if Bit(r.reply.value[0], 2) then (r.sdo, Some(ExpeditedData(r.reply.value)))
    else
      var (s', got) := ReceiveSegments(r.sdo, ods, false, now, hooks);
      (s', if AsAnnounced(r.reply.value, got) then got else None)
  }

  /** A segmented upload announces its size, and keeps to it. */
  predicate AsAnnounced(m: Message, got: Option<seq<byte>>) {
    Bit(m[0], 1) && got.Some? && GetSize32(m[4..8]) == |got.value|
  }

  /** Whatever happens to the dictionary in between, the client collects the workspace's bytes. */
  lemma {:induction false} ReceiveSegmentsCollects(s: Sdo, ods: nat -> ValidOd, t: bool, now: nat -> nat, hooks: Hooks)
    requires s.Sound() && s.state == Upload && s.toggle == t
    ensures var (s', got) := ReceiveSegments(s, ods, t, now, hooks);
      got == Some(s.transfer[s.offset..s.size]) && s'.state == Idle && s'.Sound()
    decreases s.size - s.offset
  {
    hide SegmentMessage, SegmentData, Specifier, Bit, Request, ToggleMask, UploadSegmentRequest, ReceiveSegments;
    var remaining := s.size - s.offset;
    var count := if remaining < 7 then remaining else 7;
    var data := s.transfer[s.offset..s.offset + count];
    SegmentReadsBack(t, data, count == remaining);
    UploadSegmentSends(s, ods(s.offset), t, now(s.offset), hooks, count);
    var r := Request(s, ods(s.offset), UploadSegmentRequest(t), now(s.offset), hooks);
    ReceiveUnfolds(s, ods, t, now, hooks, r, data);
    if count < remaining {
      ReceiveSegmentsCollects(r.sdo, ods, !t, now, hooks);
      assert data + s.transfer[s.offset + 7..s.size] == s.transfer[s.offset..s.size];
    }
  }

  lemma ReceiveUnfolds(s: Sdo, ods: nat -> ValidOd, t: bool, now: nat -> nat, hooks: Hooks, r: Step, data: seq<byte>)
    requires s.Sound() && s.state == Upload
    requires r == Request(s, ods(s.offset), UploadSegmentRequest(t), now(s.offset), hooks)
    requires IsSegment(r.reply, t) && SegmentData(r.reply.value) == data
    ensures Bit(r.reply.value[0], 1) ==> ReceiveSegments(s, ods, t, now, hooks) == (r.sdo, Some(data))
    ensures !Bit(r.reply.value[0], 1) && r.sdo.size - r.sdo.offset < s.size - s.offset ==>
      r.sdo.Sound() &&
      var (s', rest) := ReceiveSegments(r.sdo, ods, !t, now, hooks);
      ReceiveSegments(s, ods, t, now, hooks) == (s', Prefixed(data, rest))
  {
    hide SegmentData, IsSegment, Bit, Request, UploadSegmentRequest;
  }

  /** One segment of an upload seen from the client. */
  lemma UploadSegmentSends(s: Sdo, od: Od, t: bool, now: nat, hooks: Hooks, count: nat)
    requires s.Sound() && s.state == Upload && s.toggle == t && od.Valid()
    requires count == if s.size - s.offset < 7 then s.size - s.offset else 7
    ensures var r := Request(s, od, UploadSegmentRequest(t), now, hooks);
      var complete := count == s.size - s.offset;
      && r.reply == Some(SegmentMessage(t, s.transfer[s.offset..s.offset + count], complete))
      && r.sdo == if complete then s.Reset()
                  else s.(offset := s.offset + count, toggle := !t, deadline := now + TRANSFER_TIMEOUT_US)
  {
    CommandBits();
    assert UploadSegmentRequest(t)[0] == 0x60 | ToggleMask(t);
  }

  /** How an upload starts: with an abort, with all the data, or with a workspace full of it. */
  lemma UploadInitiated(s: Sdo, od: Od, key: OdKey, now: nat, hooks: Hooks)
    requires od.Valid() && s.Sound() && s.state == Idle
    ensures var (code, bytes) := Read(od, key, TRANSFER_CAPACITY, hooks);
      var m := UploadRequest(key);
      var r := Request(s, od, m, now, hooks);
      m[1..4] == KeyBytes(key) &&
      if code != NoAbort then r.reply == Some(AbortMessage(key, code)) && r.sdo == s
      else if |bytes| <= 4 then
        && r.reply == Some(Answer(ExpeditedCommand(0x43, 4 - |bytes|), m, bytes)) && r.sdo.state == Idle
        && r.sdo.Sound()
        && 0 < |bytes|
      else
        && r.reply == Some(Answer(0x41, m, PutSize32(|bytes|))) && r.sdo.Sound() && r.sdo.state == Upload
        && r.sdo.offset == 0 && !r.sdo.toggle && r.sdo.size == |bytes| && r.sdo.transfer[..|bytes|] == bytes
  {
    hide AbortMessage, Answer, ExpeditedCommand, Read, PutSize32;
    CommandBits();
    var m := UploadRequest(key);
    assert m[1..4] == KeyBytes(key);
    KeyReadsBack(key, m);
    ReadFits(od, key, hooks);
  }

  lemma ReadFits(od: Od, key: OdKey, hooks: Hooks)
    requires od.Valid()
    ensures var (code, bytes) := Read(od, key, TRANSFER_CAPACITY, hooks);
      code == NoAbort ==> 0 < |bytes| <= TRANSFER_CAPACITY
  {
  }

  /** An upload by a conforming client returns what reading the entry at the first request gives,
      even if the dictionary changes between segments. */
  lemma UploadIsRead(s: Sdo, od: Od, ods: nat -> ValidOd, key: OdKey, now: nat -> nat, hooks: Hooks)
    requires od.Valid() && s.Sound() && s.state == Idle
    ensures var (code, bytes) := Read(od, key, TRANSFER_CAPACITY, hooks);
      var (s', got) := UploadAll(s, od, ods, key, now, hooks);
      got == (if code == NoAbort then Some(bytes) else None) && s'.state == Idle && s'.Sound()
  {
    hide Read, Request, UploadRequest, ReceiveSegments, Specifier, Bit, ExpeditedData, Answer, AbortMessage,
         ExpeditedCommand, KeyBytes, AsAnnounced;
    UploadInitiated(s, od, key, now(0), hooks);
    var m := UploadRequest(key);
    var (code, bytes) := Read(od, key, TRANSFER_CAPACITY, hooks);
    if code != NoAbort {
      AbortRefuses(key, code);
    } else if |bytes| <= 4 {
      AnswerIsExpedited(key, m, bytes);
    } else {
      AnswerIsSegmented(key, m, bytes);
      var r := Request(s, od, m, now(0), hooks);
      ReceiveSegmentsCollects(r.sdo, ods, false, now, hooks);
      assert r.sdo.transfer[0..|bytes|] == bytes;
    }
  }

  lemma AnswerIsExpedited(key: OdKey, m: Message, bytes: seq<byte>)
    requires 1 <= |bytes| <= 4 && m[1..4] == KeyBytes(key)
    ensures var answer := Answer(ExpeditedCommand(0x43, 4 - |bytes|), m, bytes);
      Agrees(Some(answer), 2, key) && Bit(answer[0], 2) && ExpeditedData(answer) == bytes
  {
    ExpeditedReadsBack(Answer(ExpeditedCommand(0x43, 4 - |bytes|), m, bytes), 0x43, m[1..4], bytes);
  }

  lemma AnswerIsSegmented(key: OdKey, m: Message, bytes: seq<byte>)
    requires |bytes| <= TRANSFER_CAPACITY && m[1..4] == KeyBytes(key)
    ensures var answer := Answer(0x41, m, PutSize32(|bytes|));
      Agrees(Some(answer), 2, key) && !Bit(answer[0], 2) && AsAnnounced(answer, Some(bytes))
  {
    hide KeyBytes, PutSize32, GetSize32;
    CommandBits();
    var answer := Answer(0x41, m, PutSize32(|bytes|));
    assert answer[0] == 0x41 && answer[1..4] == m[1..4] && answer[4..8] == PutSize32(|bytes|);
  }

  /** The round trip: what a client downloads, segmented, to a readable and writable entry without
      hooks of one to 512 bytes, a client uploads again. */
  lemma RoundTrip(s: Sdo, od: Od, ods: nat -> ValidOd, e: Entry, b: seq<byte>, announce: bool, now: nat -> nat,
      hooks: Hooks)
    requires od.Valid() && s.Sound() && s.state == Idle
    requires e in od.entries && e.access == ReadWrite && !e.readHook && !e.writeHook
    requires |b| == e.size <= 512
    ensures var (s1, od1, ok) := DownloadAll(s, od, e.key, b, announce, now, hooks);
      ok && s1.Sound() && od1.Valid() && od1 == od.With(e, b) && UploadAll(s1, od1, ods, e.key, now, hooks).1 == Some(b)
  {
    FindUnique(od.entries, e);
    DownloadIsWrite(s, od, e.key, b, announce, now, hooks);
    var (s1, od1, ok) := DownloadAll(s, od, e.key, b, announce, now, hooks);
    ReadAfterWrite(od, e.key, b, TRANSFER_CAPACITY, hooks, hooks);
    hide DownloadAll, UploadAll;
    UploadIsRead(s1, od1, ods, e.key, now, hooks);
  }
}

/** The SDO server of a CANopen slave (CiA 301, section 7.2.4): expedited and segmented transfers
    of one dictionary entry at a time, over a 512-byte workspace. */
module SdoServer {
  import opened Bytes
  import opened Wrappers
  import opened ObjectDictionary
  import Can

  const TRANSFER_CAPACITY := 512
  const TRANSFER_TIMEOUT_US := 1_000_000

  datatype State = Idle | Upload | Download

  /** The server's fields. The workspace keeps its bytes between transfers. */
  datatype Sdo = Sdo(
    state: State, key: OdKey, transfer: seq<byte>, size: nat, offset: nat, toggle: bool, deadline: nat)
  {
    function Reset(): Sdo {
      Sdo(Idle, OdKey(0, 0), transfer, 0, 0, false, 0)
    }

    /** The workspace is large enough for the transfer at hand; every operation keeps this. */
    predicate Sound() {
      |transfer| == TRANSFER_CAPACITY && offset <= size <= TRANSFER_CAPACITY
    }
  }

  /** The outcome of one request: new server, new dictionary, and the response payload if any. */
  datatype Step = Step(sdo: Sdo, od: Od, reply: Option<Message>)

  // ----- message layout

  /** Requests and responses are the eight data bytes of a classic frame. */
  type Message = m: seq<byte> | |m| == 8 witness Zeros(8)

  /** The command specifier: the top three bits of the first byte. */
  function Specifier(m: Message): byte {
    TopBits(m[0])
  }

  function TopBits(b: byte): byte {
    b >> 5
  }

  predicate Bit(b: byte, mask: byte) {
    b & mask != 0
  }

  function ToggleMask(t: bool): byte {
    if t then 0x10 else 0
  }

  function RequestKey(m: Message): OdKey {
    OdKey(GetSize(m[1..3]), m[3] as int)
  }

  function KeyBytes(key: OdKey): (s: seq<byte>)
    ensures |s| == 3
  {
    PutSize(key.index) + [ByteOf(key.subindex)]
  }

  function AbortMessage(key: OdKey, code: AbortCode): Message {
    [0x80] + KeyBytes(key) + Put32(code.Number())
  }

  /** An answer that names the entry it is about. */
  function Answer(command: byte, request: Message, data: seq<byte>): Message
    requires |data| <= 4
  {
    [command] + request[1..4] + data + Zeros(4 - |data|)
  }

  /** Three bits of the first byte of a segment: how many of its seven data bytes are unused. */
  function SegmentUnused(b: byte): (n: nat)
    ensures n <= 7
  {
    ((b >> 1) & 7) as int
  }

  /** The data bytes of a segment: all seven unless it is marked as the last one. */
  function SegmentData(m: Message): (s: seq<byte>)
    ensures |s| <= 7
  {
    if Bit(m[0], 1) then m[1..8 - SegmentUnused(m[0])] else m[1..8]
  }

  function SegmentAck(t: bool): Message {
    [0x20 | ToggleMask(t)] + Zeros(7)
  }

  function SegmentMessage(t: bool, data: seq<byte>, last: bool): Message
    requires |data| <= 7
  {
    [SegmentCommand(t, 7 - |data|, last)] + data + Zeros(7 - |data|)
  }

  function SegmentCommand(t: bool, unused: nat, last: bool): byte
    requires unused <= 7
  {
    ToggleMask(t) | (ByteOf(unused) << 1) | (if last then 1 else 0)
  }

  /** The data bytes of an expedited transfer. */
  function ExpeditedData(m: Message): (s: seq<byte>)
    ensures |s| <= 4
  {
    m[4..8 - (if Bit(m[0], 1) then ExpeditedUnused(m[0]) else 0)]
  }

  function ExpeditedUnused(b: byte): (n: nat)
    ensures n <= 3
  {
    ((b >> 2) & 3) as int
  }

  function ExpeditedCommand(base: byte, unused: nat): byte
    requires unused <= 4
  {
    base | (ByteOf(unused) << 2)
  }

  // ----- the server

  /** A request addressed to this server; a client abort ends the transfer without an answer. */
  function Request(s: Sdo, od: Od, m: Message, now: nat, hooks: Hooks): (r: Step)
    requires od.Valid() && s.Sound()
    ensures r.sdo.Sound() && r.od.Valid()
  {
    if Specifier(m) == 4 then Step(s.Reset(), od, None)
    else match s.state
      case Idle => Initiate(s, od, m, now, hooks)
      case Upload =>
        if Specifier(m) == 3 then UploadSegment(s, od, m, now)
        else Step(s.Reset(), od, Some(AbortMessage(s.key, InvalidCommand)))
      case Download =>
        if Specifier(m) == 0 then DownloadSegment(s, od, m, now, hooks)
        else Step(s.Reset(), od, Some(AbortMessage(s.key, InvalidCommand)))
  }

  function Initiate(s: Sdo, od: Od, m: Message, now: nat, hooks: Hooks): (r: Step)
    requires od.Valid() && s.Sound()
    ensures r.sdo.Sound() && r.od.Valid()
  {
    if Specifier(m) == 2 then InitiateUpload(s, od, m, now, hooks)
    else if Specifier(m) == 1 then
      if Bit(m[0], 2) then ExpeditedDownload(s, od, m, hooks) else InitiateDownload(s, od, m, now)
    else Step(s, od, Some(AbortMessage(RequestKey(m), InvalidCommand)))
  }

  /** The entry is read once, here; up to four bytes go out at once, more are kept in the workspace. */
  function InitiateUpload(s: Sdo, od: Od, m: Message, now: nat, hooks: Hooks): (r: Step)
    requires od.Valid() && s.Sound()
    ensures r.sdo.Sound() && r.od.Valid()
  {
    var key := RequestKey(m);
    var (code, bytes) := Read(od, key, TRANSFER_CAPACITY, hooks);
    if code != NoAbort then Step(s, od, Some(AbortMessage(key, code)))
    else
      var size := |bytes|;
      var loaded := s.(transfer := Overwrite(s.transfer, 0, bytes));
      if size <= 4 then Step(loaded, od, Some(Answer(ExpeditedCommand(0x43, 4 - size), m, bytes)))
      else Step(Sdo(Upload, key, loaded.transfer, size, 0, false, now + TRANSFER_TIMEOUT_US), od,
                Some(Answer(0x41, m, PutSize32(size))))
  }

  function ExpeditedDownload(s: Sdo, od: Od, m: Message, hooks: Hooks): (r: Step)
    requires od.Valid() && s.Sound()
    ensures r.sdo.Sound() && r.od.Valid()
  {
    var key := RequestKey(m);
    var (code, od') := Write(od, key, ExpeditedData(m), hooks);
    if code != NoAbort then Step(s, od, Some(AbortMessage(key, code)))
    else Step(s, od', Some(Answer(0x60, m, [])))
  }

  /** The announced size must be exactly the entry's, and fit the workspace. */
  function InitiateDownload(s: Sdo, od: Od, m: Message, now: nat): (r: Step)
    requires od.Valid() && s.Sound()
    ensures r.sdo.Sound() && r.od.Valid()
  {
    var key := RequestKey(m);
    var found := Find(od.entries, key);
    if found.None? then Step(s, od, Some(AbortMessage(key, ObjectNotFound)))
    else
      var entrySize := found.value.size;
      var size := if Bit(m[0], 1) then GetSize32(m[4..8]) else entrySize;
      if size > TRANSFER_CAPACITY then Step(s, od, Some(AbortMessage(key, OutOfMemory)))
      else if size != entrySize then
        Step(s, od, Some(AbortMessage(key, if size > entrySize then DataTooLong else DataTooShort)))
      else Step(Sdo(Download, key, s.transfer, size, 0, false, now + TRANSFER_TIMEOUT_US), od,
          Some(Answer(0x60, m, [])))
  }

  function UploadSegment(s: Sdo, od: Od, m: Message, now: nat): (r: Step)
    requires od.Valid() && s.Sound()
    ensures r.sdo.Sound() && r.od.Valid()
  {
    if Bit(m[0], 0x10) != s.toggle then
      Step(s.Reset(), od, Some(AbortMessage(s.key, ToggleBit)))
    else
      var remaining := s.size - s.offset;
      var count := if remaining < 7 then remaining else 7;
      var complete := count == remaining;
      var reply := SegmentMessage(s.toggle, s.transfer[s.offset..s.offset + count], complete);
      if complete then Step(s.Reset(), od, Some(reply))
      else
        Step(s.(offset := s.offset + count, toggle := !s.toggle, deadline := now + TRANSFER_TIMEOUT_US), od,
            Some(reply))
  }

  /** Data is collected in the workspace; the dictionary is written once, after the last segment. */
  function DownloadSegment(s: Sdo, od: Od, m: Message, now: nat, hooks: Hooks): (r: Step)
    requires od.Valid() && s.Sound()
    ensures r.sdo.Sound() && r.od.Valid()
  {
    if Bit(m[0], 0x10) != s.toggle then Step(s.Reset(), od, Some(AbortMessage(s.key, ToggleBit)))
    else
      var data := SegmentData(m);
      if s.offset + |data| > s.size then
        Step(s.Reset(), od, Some(AbortMessage(s.key, DataTooLong)))
      else
        var reply := SegmentAck(s.toggle);
        var filled := Overwrite(s.transfer, s.offset, data);
        var end := s.offset + |data|;
        if !Bit(m[0], 1) then
          Step(s.(transfer := filled, offset := end, toggle := !s.toggle, deadline := now + TRANSFER_TIMEOUT_US), od,
               Some(reply))
        else if end != s.size then
          Step(s.(transfer := filled).Reset(), od, Some(AbortMessage(s.key, DataTooShort)))
        else
          var (code, od') := Write(od, s.key, filled[..s.size], hooks);
          if code != NoAbort then Step(s.(transfer := filled).Reset(), od, Some(AbortMessage(s.key, code)))
          else Step(s.(transfer := filled).Reset(), od', Some(reply))
  }

  function Overwrite(s: seq<byte>, at: nat, data: seq<byte>): (t: seq<byte>)
    requires at + |data| <= |s|
    ensures |t| == |s| && t[at..at + |data|] == data && t[..at] == s[..at]
  {
    s[..at] + data + s[at + |data|..]
  }

  /** The periodic call: a transfer that has waited too long is aborted. */
  function Process(s: Sdo, now: nat): (Sdo, Option<Message>) {
    if s.state != Idle && now >= s.deadline then (s.Reset(), Some(AbortMessage(s.key, ProtocolTimeout))) else (s, None)
  }

  // ----- the server in place

  class Server {
    const nodeId: u8
    const dictionary: Dictionary
    const transfer: array<byte>
    var state: State
    var activeKey: OdKey
    var transferSize: nat
    var offset: nat
    var toggle: bool
    var deadline: nat

    function Model(): Sdo
      reads this, transfer
    {
      Sdo(state, activeKey, transfer[..], transferSize, offset, toggle, deadline)
    }

    ghost predicate Valid()
      reads this, transfer, dictionary, dictionary.entries
    {
      dictionary.Valid() && Model().Sound()
    }

    constructor (nodeId: u8, dictionary: Dictionary)
      requires dictionary.Valid()
      ensures Valid() && state == Idle && this.dictionary == dictionary && this.nodeId == nodeId && fresh(transfer)
    {
      this.nodeId, this.dictionary := nodeId, dictionary;
      transfer := new byte[TRANSFER_CAPACITY](_ => 0);
      state, activeKey, transferSize, offset, toggle, deadline := Idle, OdKey(0, 0), 0, 0, false, 0;
    }

    predicate Addressed(frame: Can.Frame) {
      && !frame.extended && !frame.remote && !frame.fd
      && frame.id == 0x600 + nodeId && frame.size == 8
    }

    function ResponseFrame(m: Message): Can.Frame {
      Can.Frame(0x580 + nodeId, 8, false, false, false, false, m + Zeros(56))
    }

    method Reset()
      requires Valid()
      modifies this
      ensures Valid() && Model() == old(Model()).Reset()
    {
      state, activeKey, transferSize, offset, toggle, deadline := Idle, OdKey(0, 0), 0, 0, false, 0;
    }

    /** Frames that are not for this server are left to others; the rest is one step of `Request`. */
    method Handle(frame: Can.Frame, now: nat, hooks: Hooks) returns (handled: bool, response: Option<Can.Frame>)
      requires Valid()
      modifies this, transfer, dictionary`storage
      ensures Valid() && (handled <==>
        && !frame.extended && !frame.remote && !frame.fd && frame.id == 0x600 + nodeId && frame.size == 8)
      ensures response.Some? ==>
        var f := response.value;
        f.Valid() && f.id == 0x580 + nodeId && f.size == 8 && !f.extended && !f.remote && !f.fd
      ensures !handled ==> response == None && Model() == old(Model()) && dictionary.Model() == old(dictionary.Model())
      ensures handled ==>
        var r := Request(old(Model()), old(dictionary.Model()), frame.data[..8], now, hooks);
        && Model() == r.sdo && dictionary.Model() == r.od
        && (response.Some? <==> r.reply.Some?) && (r.reply.Some? ==> response.value.data[..8] == r.reply.value)
        && response == (if r.reply.None? then None else Some(ResponseFrame(r.reply.value)))
    {
      if !Addressed(frame) {
        return false, None;
      }
      handled := true;
      var m: Message := frame.data[..8];
      var reply: Option<Message> := None;
      var specifier := Specifier(m);
      if specifier == 4 {
        Reset();
        return true, None;
      }
      match state {
        case Idle =>
          reply := HandleInitiate(m, now, hooks);
        case Upload =>
          if specifier == 3 {
            reply := HandleUploadSegment(m, now);
          } else {
            reply := Some(AbortMessage(activeKey, InvalidCommand));
            Reset();
          }
        case Download =>
          if specifier == 0 {
            reply := HandleDownloadSegment(m, now, hooks);
          } else {
            reply := Some(AbortMessage(activeKey, InvalidCommand));
            Reset();
          }
      }
      response := if reply.None? then None else Some(ResponseFrame(reply.value));
    }

    method HandleInitiate(m: Message, now: nat, hooks: Hooks) returns (reply: Option<Message>)
      requires Valid() && state == Idle
      modifies this, transfer, dictionary`storage
      ensures Valid() && Step(Model(), dictionary.Model(), reply)
          == Initiate(old(Model()), old(dictionary.Model()), m, now, hooks)
    {
      hide AbortMessage, Answer, ExpeditedData, ExpeditedCommand, RequestKey, Bit, TopBits, Write, GetSize32, PutSize32;
      var key := RequestKey(m);
      if Specifier(m) == 2 {
        var code, bytes := dictionary.ReadValue(key, TRANSFER_CAPACITY, hooks);
        if code != NoAbort {
          return Some(AbortMessage(key, code));
        }
        var size := |bytes|;
        CopyIn(0, bytes);
        if size <= 4 {
          return Some(Answer(ExpeditedCommand(0x43, 4 - size), m, bytes));
        }
        Begin(Upload, key, size, now);
        return Some(Answer(0x41, m, PutSize32(size)));
      }
      if Specifier(m) == 1 {
        if Bit(m[0], 2) {
          var code := dictionary.WriteValue(key, ExpeditedData(m), hooks);
          if code != NoAbort {
            return Some(AbortMessage(key, code));
          }
          return Some(Answer(0x60, m, []));
        }
        var index := dictionary.IndexOf(key);
        if index == dictionary.size {
          return Some(AbortMessage(key, ObjectNotFound));
        }
        var entrySize := dictionary.entries[index].size;
        var size := if Bit(m[0], 1) then GetSize32(m[4..8]) else entrySize;
        if size > TRANSFER_CAPACITY {
          return Some(AbortMessage(key, OutOfMemory));
        }
        if size != entrySize {
          return Some(AbortMessage(key, if size > entrySize then DataTooLong else DataTooShort));
        }
        Begin(Download, key, size, now);
        return Some(Answer(0x60, m, []));
      }
      return Some(AbortMessage(key, InvalidCommand));
    }

    method Begin(kind: State, key: OdKey, size: nat, now: nat)
      requires size <= TRANSFER_CAPACITY == transfer.Length
      modifies this
      ensures Model() == Sdo(kind, key, old(transfer[..]), size, 0, false, now + TRANSFER_TIMEOUT_US)
    {
      activeKey, transferSize, offset, toggle := key, size, 0, false;
      deadline := now + TRANSFER_TIMEOUT_US;
      state := kind;
    }

    method CopyIn(at: nat, data: seq<byte>)
      requires at + |data| <= transfer.Length
      modifies transfer
      ensures transfer[..] == Overwrite(old(transfer[..]), at, data)
    {
      forall i | at <= i < at + |data| { transfer[i] := data[i - at]; }
    }

    method HandleUploadSegment(m: Message, now: nat) returns (reply: Option<Message>)
      requires Valid() && state == Upload
      modifies this
      ensures Valid() && Step(Model(), dictionary.Model(), reply)
          == UploadSegment(old(Model()), old(dictionary.Model()), m, now)
    {
      if Bit(m[0], 0x10) != toggle {
        reply := Some(AbortMessage(activeKey, ToggleBit));
        Reset();
        return;
      }
      var remaining := transferSize - offset;
      var count := if remaining < 7 then remaining else 7;
      var complete := count == remaining;
      reply := Some(SegmentMessage(toggle, transfer[offset..offset + count], complete));
      offset := offset + count;
      if complete {
        Reset();
      } else {
        toggle := !toggle;
        deadline := now + TRANSFER_TIMEOUT_US;
      }
    }

    method HandleDownloadSegment(m: Message, now: nat, hooks: Hooks) returns (reply: Option<Message>)
      requires Valid() && state == Download
      modifies this, transfer, dictionary`storage
      ensures Valid() && Step(Model(), dictionary.Model(), reply)
          == DownloadSegment(old(Model()), old(dictionary.Model()), m, now, hooks)
    {
      hide AbortMessage, SegmentAck, SegmentData, Bit;
      if Bit(m[0], 0x10) != toggle {
        reply := Some(AbortMessage(activeKey, ToggleBit));
        Reset();
        return;
      }
      var complete := Bit(m[0], 1);
      var data := SegmentData(m);
      if offset + |data| > transferSize {
        reply := Some(AbortMessage(activeKey, DataTooLong));
        Reset();
        return;
      }
      CopyIn(offset, data);
      offset := offset + |data|;
      if complete {
        if offset != transferSize {
          reply := Some(AbortMessage(activeKey, DataTooShort));
          Reset();
          return;
        }
        var code := dictionary.WriteValue(activeKey, transfer[..transferSize], hooks);
        if code != NoAbort {
          reply := Some(AbortMessage(activeKey, code));
          Reset();
          return;
        }
      }
      reply := Some(SegmentAck(toggle));
      if complete {
        Reset();
      } else {
        toggle := !toggle;
        deadline := now + TRANSFER_TIMEOUT_US;
      }
    }

    method ProcessTimeout(now: nat) returns (response: Option<Can.Frame>)
      requires Valid()
      modifies this
      ensures Valid()
      ensures var (s, reply) := Process(old(Model()), now);
        Model() == s && response == if reply.None? then None else Some(ResponseFrame(reply.value))
    {
      response := None;
      if state != Idle && now >= deadline {
        response := Some(ResponseFrame(AbortMessage(activeKey, ProtocolTimeout)));
        Reset();
      }
    }
  }
}

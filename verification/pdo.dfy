/** The PDO manager of a CANopen slave (CiA 301, section 7.2.2): four receive and four transmit
    channels whose mappings live in the object dictionary and are decoded into a cache that a
    revision counter keeps current. */
module Pdo {
  import opened Bytes
  import opened Wrappers
  import opened ObjectDictionary
  import Can

  const PDO_COUNT := 4
  const MAX_MAPPINGS := 16

  type Channel = n: nat | n < PDO_COUNT

  datatype Direction = Rx | Tx

  // ----- the configuration entries

  function CommKey(d: Direction, ch: Channel, sub: u8): OdKey {
    OdKey((if d.Rx? then 0x1400 else 0x1800) + ch, sub)
  }

  function MapKey(d: Direction, ch: Channel, sub: u8): OdKey {
    OdKey((if d.Rx? then 0x1600 else 0x1A00) + ch, sub)
  }

  function ConfigType(size: nat): DataType {
    if size == 1 then Unsigned8 else if size == 2 then Unsigned16 else Unsigned32
  }

  /** The size of a configuration entry: communication parameters, and the mapping count and words. */
  function ConfigSize(key: OdKey): Option<nat> {
    if 0x1400 <= key.index < 0x1404 || 0x1800 <= key.index < 0x1804 then
      if key.subindex == 0 || key.subindex == 2 then Some(1)
      else if key.subindex == 1 then Some(4)
      else if key.index < 0x1800 then None
      else if key.subindex == 3 || key.subindex == 5 then Some(2)
      else if key.subindex == 4 then Some(1)
      else None
    else if 0x1600 <= key.index < 0x1604 || 0x1A00 <= key.index < 0x1A04 then
      if key.subindex == 0 then Some(1) else if key.subindex <= MAX_MAPPINGS then Some(4) else None
    else None
  }

  predicate IsConfig(key: OdKey) {
    ConfigSize(key).Some?
  }

  /** Only the number of communication parameters is fixed; everything else is guarded by the hook. */
  predicate Hooked(key: OdKey) {
    IsConfig(key) && !(key.subindex == 0 && (0x1400 <= key.index < 0x1404 || 0x1800 <= key.index < 0x1804))
  }

  function ConfigEntry(key: OdKey): Entry
    requires IsConfig(key)
  {
    var size := ConfigSize(key).value;
    Entry(key, ConfigType(size), if Hooked(key) then ReadWrite else ReadOnly, false, size, false, Hooked(key))
  }

  /** The dictionary as it stands after registration. */
  ghost predicate Configured(od: Od) {
    od.Valid() && forall key :: IsConfig(key) ==> Find(od.entries, key) == Some(ConfigEntry(key))
  }

  /** The bytes of a configuration entry as they travel. */
  function Field(od: Od, key: OdKey): (s: seq<byte>)
    requires Configured(od) && IsConfig(key)
    ensures |s| == ConfigSize(key).value
  {
    assert key in od.storage && |od.storage[key]| == ConfigSize(key).value by { FoundIsStored(od, key); }
    od.Value(ConfigEntry(key))
  }

  lemma FoundIsStored(od: Od, key: OdKey)
    requires od.Valid() && Find(od.entries, key).Some?
    ensures key in od.storage && |od.storage[key]| == Find(od.entries, key).value.size
  {
  }

  function Count(od: Od, d: Direction, ch: Channel): nat
    requires Configured(od)
  {
    Field(od, MapKey(d, ch, 0))[0] as int
  }

  function Word(od: Od, d: Direction, ch: Channel, i: nat): nat
    requires Configured(od) && i < MAX_MAPPINGS
  {
    GetSize32(Field(od, MapKey(d, ch, i + 1)))
  }

  function CobId(od: Od, d: Direction, ch: Channel): nat
    requires Configured(od)
  {
    GetSize32(Field(od, CommKey(d, ch, 1)))
  }

  function TransmissionType(od: Od, ch: Channel): nat
    requires Configured(od)
  {
    Field(od, CommKey(Tx, ch, 2))[0] as int
  }

  function InhibitUs(od: Od, ch: Channel): nat
    requires Configured(od)
  {
    GetSize(Field(od, CommKey(Tx, ch, 3))) * 100
  }

  function EventTimerUs(od: Od, ch: Channel): nat
    requires Configured(od)
  {
    GetSize(Field(od, CommKey(Tx, ch, 5))) * 1000
  }

  /** Bit 31 of a COB-ID switches the channel off; its low eleven bits are the identifier. */
  predicate CobEnabled(cob: nat) {
    cob < 0x8000_0000
  }

  // ----- mapping words: index, subindex and bit length packed into 32 bits

  function WordKey(w: nat): OdKey {
    OdKey((w / 0x1_0000) % 0x1_0000, (w / 0x100) % 0x100)
  }

  function WordBits(w: nat): nat {
    w % 0x100
  }

  function ValidateWord(entries: seq<Entry>, w: nat, d: Direction): AbortCode {
    if WordBits(w) == 0 || WordBits(w) % 8 != 0 then NotMappable
    else
      var found := Find(entries, WordKey(w));
      if found.None? || !found.value.pdoMappable || found.value.size * 8 != WordBits(w) then NotMappable
      else if d.Rx? && !found.value.access.Writable() then AccessReadOnly
      else if d.Tx? && !found.value.access.Readable() then AccessWriteOnly
      else NoAbort
  }

  /** What a mapping word must be: it names a mappable entry, by its exact size, that may be accessed
      in the direction of the channel. */
  predicate Mappable(entries: seq<Entry>, w: nat, d: Direction) {
    var found := Find(entries, WordKey(w));
    && found.Some? && found.value.pdoMappable
    && WordBits(w) == found.value.size * 8 && found.value.size > 0
    && if d.Rx? then found.value.access.Writable() else found.value.access.Readable()
  }

  lemma ValidateWordExactly(entries: seq<Entry>, w: nat, d: Direction)
    ensures ValidateWord(entries, w, d) == NoAbort <==> Mappable(entries, w, d)
  {
  }

  function Words(od: Od, d: Direction, ch: Channel, n: nat): (ws: seq<nat>)
    requires Configured(od) && n <= MAX_MAPPINGS
    ensures |ws| == n
  {
    seq(n, i requires 0 <= i < n => Word(od, d, ch, i))
  }

  function TotalBits(ws: seq<nat>): nat {
    if ws == [] then 0 else WordBits(ws[0]) + TotalBits(ws[1..])
  }

  function BitLimit(fd: bool): nat {
    if fd then 512 else 64
  }

  /** What a mapping in force must satisfy. */
  ghost predicate MappingSafe(entries: seq<Entry>, ws: seq<nat>, d: Direction, fd: bool) {
    (forall i :: 0 <= i < |ws| ==> Mappable(entries, ws[i], d)) && TotalBits(ws) <= BitLimit(fd)
  }

  /** The first bad word, if any, decides; then the total length. */
  function FirstBad(entries: seq<Entry>, ws: seq<nat>, d: Direction): AbortCode
    decreases |ws|
  {
    if ws == [] then NoAbort
    else if ValidateWord(entries, ws[0], d) != NoAbort then ValidateWord(entries, ws[0], d)
    else FirstBad(entries, ws[1..], d)
  }

  function ValidateWords(entries: seq<Entry>, ws: seq<nat>, d: Direction, fd: bool): AbortCode {
    var bad := FirstBad(entries, ws, d);
    if bad != NoAbort then bad else if TotalBits(ws) <= BitLimit(fd) then NoAbort else PdoLengthExceeded
  }

  /** A mapping set is accepted exactly when it is safe. */
  lemma ValidateWordsExactly(entries: seq<Entry>, ws: seq<nat>, d: Direction, fd: bool)
    ensures ValidateWords(entries, ws, d, fd) == NoAbort <==> MappingSafe(entries, ws, d, fd)
  {
    FirstBadExactly(entries, ws, d);
  }

  lemma {:induction false} FirstBadExactly(entries: seq<Entry>, ws: seq<nat>, d: Direction)
    ensures FirstBad(entries, ws, d) == NoAbort <==> forall i :: 0 <= i < |ws| ==> Mappable(entries, ws[i], d)
    decreases |ws|
  {
    hide ValidateWord, Mappable;
    if ws == [] {
    } else {
      ValidateWordExactly(entries, ws[0], d);
      FirstBadExactly(entries, ws[1..], d);
      assert forall i :: 0 < i < |ws| ==> ws[i] == ws[1..][i - 1];
    }
  }

  // ----- writes to the configuration

  predicate ValidTransmissionType(value: nat) {
    value <= 240 || value == 254 || value == 255
  }

  function DirectionOf(key: OdKey): Direction {
    if key.index < 0x1800 then Rx else Tx
  }

  /** All four index ranges start at a multiple of four. */
  function ChannelOf(key: OdKey): Channel {
    key.index % 4
  }

  lemma KeyReadsBack(d: Direction, ch: Channel, sub: u8)
    ensures DirectionOf(CommKey(d, ch, sub)) == DirectionOf(MapKey(d, ch, sub)) == d
    ensures ChannelOf(CommKey(d, ch, sub)) == ChannelOf(MapKey(d, ch, sub)) == ch
  {
  }

  /** The hook: which writes to a configuration entry are accepted. */
  function ValidateConfig(od: Od, fd: bool, key: OdKey, source: seq<byte>): AbortCode
    requires Configured(od) && Hooked(key) && |source| == ConfigSize(key).value
  {
    var d, ch := DirectionOf(key), ChannelOf(key);
    if 0x1400 <= key.index < 0x1404 || 0x1800 <= key.index < 0x1804 then
      if key.subindex == 1 then
        var candidate, current := GetSize32(source), CobId(od, d, ch);
        if (candidate / 0x800) % 0x4_0000 != 0 || (candidate / 0x2000_0000) % 2 == 1 then ValueRange
        else if CobEnabled(current) && candidate != current && CobEnabled(candidate) then DeviceState
        else NoAbort
      else if key.subindex == 2 && !ValidTransmissionType(source[0] as int) then ValueRange
      else NoAbort
    else if key.subindex == 0 then
      var count := source[0] as int;
      if count > MAX_MAPPINGS then ValueRange else ValidateWords(od.entries, Words(od, d, ch, count), d, fd)
    else if Count(od, d, ch) != 0 then DeviceState
    else ValidateWord(od.entries, GetSize32(source), d)
  }

  /** The dictionary's hooks with the manager answering for its own entries. */
  function ManagerHooks(od: Od, fd: bool, hooks: Hooks): Hooks
    requires Configured(od)
  {
    Hooks(hooks.read,
          (key: OdKey, source: seq<byte>) =>
            if Hooked(key) && |source| == ConfigSize(key).value then ValidateConfig(od, fd, key, source)
            else hooks.write(key, source))
  }

  // ----- the manager's state

  /** The decoded mapping of one channel, with the revision it was decoded at. */
  datatype Cached = Cached(
    valid: bool, payloadSize: nat, syncCounter: nat, lastTransmit: nat, revision: nat,
    keys: seq<OdKey>, lengths: seq<nat>)

  const EMPTY_RUNTIME :=
    Cached(false, 0, 0, 0, 0, seq(MAX_MAPPINGS, _ => OdKey(0, 0)), seq(MAX_MAPPINGS, _ => 0))

  type Runtime = r: Cached | |r.keys| == |r.lengths| == MAX_MAPPINGS witness EMPTY_RUNTIME

  type Runtimes = rs: seq<Runtime> | |rs| == PDO_COUNT witness seq(PDO_COUNT, _ => EMPTY_RUNTIME)

  datatype Manager = Manager(
    od: Od, fd: bool, revision: nat, rx: Runtimes, tx: Runtimes, received: nat, transmitted: nat,
    defaults: map<OdKey, seq<byte>>)
  {
    function At(d: Direction, ch: Channel): Runtime {
      if d.Rx? then rx[ch] else tx[ch]
    }

    function Put(d: Direction, ch: Channel, r: Runtime): (p: Manager)
      ensures p.At(d, ch) == r
      ensures p == this.(rx := p.rx, tx := p.tx)
    {
      if d.Rx? then this.(rx := rx[ch := r]) else this.(tx := tx[ch := r])
    }
  }

  /** Mapping safety: in force are only mappable words, within the length of a frame. */
  ghost predicate Safe(od: Od, fd: bool, d: Direction, ch: Channel)
    requires Configured(od)
  {
    && Count(od, d, ch) <= MAX_MAPPINGS
    && MappingSafe(od.entries, Words(od, d, ch, Count(od, d, ch)), d, fd)
  }

  /** The runtime mapping is the decoding of the words. */
  ghost predicate Decoded(r: Runtime, ws: seq<nat>) {
    && |ws| <= MAX_MAPPINGS && r.valid == (ws != []) && r.payloadSize == TotalBytes(ws)
    && Pairs(r, |ws|) == Decode(ws)
  }

  /** Cache coherence: a runtime mapping of the current revision is up to date. */
  ghost predicate Coherent(p: Manager, d: Direction, ch: Channel)
    requires Configured(p.od) && Safe(p.od, p.fd, d, ch)
  {
    var r := p.At(d, ch);
    r.revision <= p.revision && (r.revision == p.revision ==> Decoded(r, Words(p.od, d, ch, Count(p.od, d, ch))))
  }

  /** The configuration storage right after construction: everything at its default, no mappings. */
  ghost predicate DefaultsOk(defaults: map<OdKey, seq<byte>>) {
    && (forall key :: key in defaults <==> IsConfig(key))
    && (forall key :: key in defaults ==> |defaults[key]| == ConfigSize(key).value)
    && (forall d: Direction, ch: Channel :: MapKey(d, ch, 0) in defaults ==> defaults[MapKey(d, ch, 0)] == [0])
  }

  ghost predicate Inv(p: Manager) {
    && Configured(p.od) && DefaultsOk(p.defaults) && p.revision > 0
    && (forall d: Direction, ch: Channel :: Safe(p.od, p.fd, d, ch))
    && (forall d: Direction, ch: Channel :: Coherent(p, d, ch))
  }

  /** A write through the dictionary, by SDO, RPDO or the application; an accepted change of the
      configuration moves the revision on. */
  function OdWrite(p: Manager, key: OdKey, source: seq<byte>, hooks: Hooks): (r: (AbortCode, Manager))
    requires Configured(p.od)
    ensures Configured(r.1.od)
  {
    var (code, od') := Write(p.od, key, source, ManagerHooks(p.od, p.fd, hooks));
    (code, p.(od := od', revision := p.revision + if code == NoAbort && Hooked(key) then 1 else 0))
  }

  /** Decodes a channel's mapping again if the configuration has changed since it was last decoded. */
  function Refresh(r: Runtime, revision: nat, entries: seq<Entry>, ws: seq<nat>, d: Direction, fd: bool): Runtime
    requires |ws| <= MAX_MAPPINGS
  {
    if r.revision == revision then r
    else
      var cleared := r.(valid := false, payloadSize := 0, revision := revision);
      if ValidateWords(entries, ws, d, fd) != NoAbort then cleared
      else cleared.(valid := |ws| > 0, payloadSize := TotalBytes(ws),
                    keys := KeysOf(ws) + r.keys[|ws|..], lengths := LengthsOf(ws) + r.lengths[|ws|..])
  }

  function Refreshed(p: Manager, d: Direction, ch: Channel): Runtime
    requires Configured(p.od) && Count(p.od, d, ch) <= MAX_MAPPINGS
  {
    Refresh(p.At(d, ch), p.revision, p.od.entries, Words(p.od, d, ch, Count(p.od, d, ch)), d, p.fd)
  }

  function TotalBytes(ws: seq<nat>): nat {
    if ws == [] then 0 else WordBits(ws[0]) / 8 + TotalBytes(ws[1..])
  }

  function KeysOf(ws: seq<nat>): (ks: seq<OdKey>)
    ensures |ks| == |ws|
  {
    seq(|ws|, i requires 0 <= i < |ws| => WordKey(ws[i]))
  }

  function LengthsOf(ws: seq<nat>): (ls: seq<nat>)
    ensures |ls| == |ws|
  {
    seq(|ws|, i requires 0 <= i < |ws| => WordBits(ws[i]) / 8)
  }

  /** The targets and lengths of a mapping. */
  type Mapping = seq<(OdKey, nat)>

  function Decode(ws: seq<nat>): (m: Mapping)
    ensures |m| == |ws|
  {
    seq(|ws|, i requires 0 <= i < |ws| => (WordKey(ws[i]), WordBits(ws[i]) / 8))
  }

  /** The first `n` entries of a runtime mapping. */
  function Pairs(r: Runtime, n: nat): (m: Mapping)
    requires n <= MAX_MAPPINGS
    ensures |m| == n
  {
    seq(n, i requires 0 <= i < n => (r.keys[i], r.lengths[i]))
  }

  function TotalLength(m: Mapping): nat {
    if m == [] then 0 else m[0].1 + TotalLength(m[1..])
  }

  // ----- a usable mapping fits a frame

  lemma {:induction false} BytesOfSafeWords(entries: seq<Entry>, ws: seq<nat>, d: Direction)
    requires forall i :: 0 <= i < |ws| ==> Mappable(entries, ws[i], d)
    ensures TotalBits(ws) == 8 * TotalBytes(ws) && TotalBytes(ws) == TotalLength(Decode(ws))
    decreases |ws|
  {
    if ws == [] {
    } else {
      assert Mappable(entries, ws[0], d);
      forall i | 0 <= i < |ws[1..]| ensures Mappable(entries, ws[1..][i], d) {
        assert ws[1..][i] == ws[i + 1];
      }
      BytesOfSafeWords(entries, ws[1..], d);
      assert Decode(ws)[1..] == Decode(ws[1..]);
    }
  }

  lemma SafeFits(od: Od, fd: bool, d: Direction, ch: Channel)
    requires Configured(od) && Safe(od, fd, d, ch)
    ensures var ws := Words(od, d, ch, Count(od, d, ch));
      TotalBytes(ws) == TotalLength(Decode(ws)) <= if fd then 64 else 8
  {
    BytesOfSafeWords(od.entries, Words(od, d, ch, Count(od, d, ch)), d);
  }

  lemma WordsInForce(p: Manager, d: Direction, ch: Channel)
    requires Inv(p)
    ensures Configured(p.od) && Count(p.od, d, ch) <= MAX_MAPPINGS
    ensures var ws := Words(p.od, d, ch, Count(p.od, d, ch));
      && ValidateWords(p.od.entries, ws, d, p.fd) == NoAbort
      && (p.At(d, ch).revision == p.revision ==> Decoded(p.At(d, ch), ws))
  {
    hide MappingSafe, ValidateWords, Configured, DefaultsOk, Decoded, Field;
    assert Safe(p.od, p.fd, d, ch) && Coherent(p, d, ch);
    ValidateWordsExactly(p.od.entries, Words(p.od, d, ch, Count(p.od, d, ch)), d, p.fd);
  }

  /** After a refresh the runtime mapping is the decoding of the words in force. */
  lemma RefreshDecodes(p: Manager, d: Direction, ch: Channel)
    requires Inv(p)
    ensures Count(p.od, d, ch) <= MAX_MAPPINGS
    ensures Decoded(Refreshed(p, d, ch), Words(p.od, d, ch, Count(p.od, d, ch)))
    ensures Refreshed(p, d, ch).revision == p.revision
  {
    hide Inv, ValidateWords, Configured, Count;
    WordsInForce(p, d, ch);
    var ws := Words(p.od, d, ch, Count(p.od, d, ch));
    var r := Refreshed(p, d, ch);
    if p.At(d, ch).revision != p.revision {
      assert Pairs(r, |ws|) == Decode(ws);
    }
  }

  /** The mapping in force, decoded from the words. */
  function MappingOf(od: Od, d: Direction, ch: Channel): Mapping
    requires Configured(od) && Count(od, d, ch) <= MAX_MAPPINGS
  {
    Decode(Words(od, d, ch, Count(od, d, ch)))
  }

  /** All that is needed of a refreshed runtime mapping. */
  lemma RefreshFacts(p: Manager, d: Direction, ch: Channel)
    requires Inv(p)
    ensures Count(p.od, d, ch) <= MAX_MAPPINGS && Safe(p.od, p.fd, d, ch)
    ensures var r, m := Refreshed(p, d, ch), MappingOf(p.od, d, ch);
      && r.valid == (m != []) && r.payloadSize == TotalLength(m) <= (if p.fd then 64 else 8)
      && Pairs(r, Count(p.od, d, ch)) == m && r.revision == p.revision && r.lastTransmit == p.At(d, ch).lastTransmit
  {
    RefreshDecodes(p, d, ch);
    assert Safe(p.od, p.fd, d, ch);
    SafeFits(p.od, p.fd, d, ch);
  }

  // ----- receiving

  /** The first enabled channel that listens to the identifier. */
  function Listener(od: Od, id: nat, from: nat): Option<nat>
    requires Configured(od) && from <= PDO_COUNT
    ensures Listener(od, id, from).Some? ==> Listener(od, id, from).value < PDO_COUNT
    decreases PDO_COUNT - from
  {
    if from == PDO_COUNT then None
    else if CobEnabled(CobId(od, Rx, from)) && id == CobId(od, Rx, from) % 0x800 then Some(from)
    else Listener(od, id, from + 1)
  }

  /** Distributes the data over the targets in order; the first refused write ends it. */
  function Scatter(p: Manager, m: Mapping, data: seq<byte>, hooks: Hooks): (r: (bool, Manager))
    requires Configured(p.od) && TotalLength(m) <= |data|
    ensures Configured(r.1.od)
    decreases |m|
  {
    if m == [] then (true, p)
    else
      var (code, p') := OdWrite(p, m[0].0, data[..m[0].1], hooks);
      if code != NoAbort then (false, p') else Scatter(p', m[1..], data[m[0].1..], hooks)
  }

  predicate Receivable(frame: Can.Frame, operational: bool) {
    operational && !frame.extended && !frame.remote && frame.Valid()
  }

  /** A frame for one of the channels is consumed even when the channel has no usable mapping, the
      frame is too short, or a target refuses; longer frames are padded and welcome. */
  function HandleFrame(p: Manager, frame: Can.Frame, operational: bool, hooks: Hooks): (Manager, bool)
    requires Inv(p)
  {
    if !Receivable(frame, operational) then (p, false)
    else
      var listener := Listener(p.od, frame.id, 0);
      if listener.None? then (p, false)
      else
        var ch: Channel := listener.value;
        RefreshFacts(p, Rx, ch);
        var r := Refreshed(p, Rx, ch);
        var p' := p.Put(Rx, ch, r);
        if !r.valid || frame.size < r.payloadSize then (p', true)
        else
          var (done, p'') := Scatter(p', Pairs(r, Count(p.od, Rx, ch)), frame.data, hooks);
          (p''.(received := p''.received + if done then 1 else 0), true)
  }

  // ----- transmitting

  /** Collects the targets' values through an eight-byte buffer. */
  function Gather(od: Od, m: Mapping, hooks: Hooks): (r: Option<seq<byte>>)
    requires od.Valid()
    ensures r.Some? ==> |r.value| == TotalLength(m)
    decreases |m|
  {
    if m == [] then Some([])
    else
      var (code, bytes) := Read(od, m[0].0, 8, hooks);
      if code != NoAbort || |bytes| != m[0].1 then None
      else
        var rest := Gather(od, m[1..], hooks);
        if rest.None? then None else Some(bytes + rest.value)
  }

  /** What a transmission attempt did: nothing, or a frame handed to the transport. */
  datatype Attempt = Nothing | Sent(frame: Can.Frame, ok: bool)

  function FrameOf(cob: nat, payload: seq<byte>): Can.Frame
    requires |payload| <= Can.FD_MAX_PAYLOAD
  {
    var fd := |payload| > Can.CLASSIC_MAX_PAYLOAD;
    Can.Frame(cob % 0x800, |payload|, false, false, fd, fd, Can.Pad(payload))
  }

  predicate Inhibited(od: Od, ch: Channel, r: Runtime, now: nat)
    requires Configured(od)
  {
    r.lastTransmit != 0 && now - r.lastTransmit < InhibitUs(od, ch)
  }

  /** Sends a channel's values unless it is off, unmapped, inhibited, or a value cannot be read. */
  function Transmit(p: Manager, ch: Channel, now: nat, sendOk: bool, hooks: Hooks): (Manager, Attempt)
    requires Inv(p)
  {
    if !CobEnabled(CobId(p.od, Tx, ch)) then (p, Nothing)
    else
      RefreshFacts(p, Tx, ch);
      var r := Refreshed(p, Tx, ch);
      var p' := p.Put(Tx, ch, r);
      if !r.valid || Inhibited(p.od, ch, r, now) then (p', Nothing)
      else
        var payload := Gather(p.od, Pairs(r, Count(p.od, Tx, ch)), hooks);
        if payload.None? then (p', Nothing)
        else
          var sent := Sent(FrameOf(CobId(p.od, Tx, ch), payload.value), sendOk);
          if !sendOk then (p', sent)
          else (p'.Put(Tx, ch, r.(lastTransmit := now)).(transmitted := p'.transmitted + 1), sent)
  }

  /** SYNC: a synchronous channel transmits at every n-th one, n being its transmission type. */
  function SyncChannel(p: Manager, ch: Channel, now: nat, sendOk: bool, hooks: Hooks): (r: (Manager, seq<Attempt>))
    requires Inv(p)
    ensures Inv(r.0) && r.0.od == p.od && r.0.revision == p.revision
  {
    var n := TransmissionType(p.od, ch);
    if !(1 <= n <= 240) then (p, [])
    else
      var count := p.tx[ch].syncCounter + 1;
      var p' := p.Put(Tx, ch, p.tx[ch].(syncCounter := if count >= n then 0 else count));
      TouchKeepsInv(p, ch, p'.tx[ch]);
      if count < n then (p', [])
      else
        var (p'', a) := Transmit(p', ch, now, sendOk, hooks);
        TransmitKeepsInv(p', ch, now, sendOk, hooks);
        TransmitChanges(p', ch, now, sendOk, hooks);
        (p'', [a])
  }

  function OnSync(p: Manager, ch: nat, now: nat, operational: bool, sendOk: nat -> bool, hooks: Hooks)
    : (r: (Manager, seq<Attempt>))
    requires Inv(p) && ch <= PDO_COUNT
    ensures Inv(r.0) && r.0.od == p.od && r.0.revision == p.revision
    decreases PDO_COUNT - ch
  {
    if !operational || ch == PDO_COUNT then (p, [])
    else
      var (p', a) := SyncChannel(p, ch, now, sendOk(ch), hooks);
      var (last, rest) := OnSync(p', ch + 1, now, operational, sendOk, hooks);
      (last, a + rest)
  }

  /** The periodic call: an event-driven channel transmits when its timer has run out. */
  function TimerChannel(p: Manager, ch: Channel, now: nat, sendOk: bool, hooks: Hooks): (r: (Manager, seq<Attempt>))
    requires Inv(p)
    ensures Inv(r.0) && r.0.od == p.od && r.0.revision == p.revision
  {
    var n, timer, last := TransmissionType(p.od, ch), EventTimerUs(p.od, ch), p.tx[ch].lastTransmit;
    if (n == 254 || n == 255) && timer > 0 && (last == 0 || now - last >= timer) then
      var (p', a) := Transmit(p, ch, now, sendOk, hooks);
      TransmitKeepsInv(p, ch, now, sendOk, hooks);
      TransmitChanges(p, ch, now, sendOk, hooks);
      (p', [a])
    else (p, [])
  }

  function Process(p: Manager, ch: nat, now: nat, operational: bool, sendOk: nat -> bool, hooks: Hooks)
    : (r: (Manager, seq<Attempt>))
    requires Inv(p) && ch <= PDO_COUNT
    ensures Inv(r.0) && r.0.od == p.od && r.0.revision == p.revision
    decreases PDO_COUNT - ch
  {
    if !operational || ch == PDO_COUNT then (p, [])
    else
      var (p', a) := TimerChannel(p, ch, now, sendOk(ch), hooks);
      var (last, rest) := Process(p', ch + 1, now, operational, sendOk, hooks);
      (last, a + rest)
  }

  // ----- reset

  /** Back to the defaults: all mappings are off and every cached mapping is forgotten. */
  function ResetCommunication(p: Manager): Manager {
    p.(od := p.od.(storage := p.od.storage + p.defaults), revision := p.revision + 1,
       rx := seq(PDO_COUNT, _ => EMPTY_RUNTIME), tx := seq(PDO_COUNT, _ => EMPTY_RUNTIME))
  }

  // ----- the cache may be replaced by what a refresh computes

  lemma RefreshKeepsInv(p: Manager, d: Direction, ch: Channel)
    requires Inv(p)
    ensures Count(p.od, d, ch) <= MAX_MAPPINGS && Inv(p.Put(d, ch, Refreshed(p, d, ch)))
  {
    RefreshDecodes(p, d, ch);
    PutKeepsInv(p, d, ch, Refreshed(p, d, ch));
  }

  /** A new runtime mapping keeps the invariant when it is current, or when it differs from the old
      one in its counters only. */
  lemma PutKeepsInv(p: Manager, d: Direction, ch: Channel, r: Runtime)
    requires Inv(p) && r.revision <= p.revision
    requires r.revision == p.revision ==>
      Count(p.od, d, ch) <= MAX_MAPPINGS && Decoded(r, Words(p.od, d, ch, Count(p.od, d, ch)))
    ensures Inv(p.Put(d, ch, r))
  {
    hide Configured, DefaultsOk, Decoded;
    var p' := p.Put(d, ch, r);
    forall d', ch': Channel ensures Coherent(p', d', ch') {
      assert Safe(p.od, p.fd, d', ch') && Coherent(p, d', ch');
    }
  }

  lemma TouchKeepsInv(p: Manager, ch: Channel, r: Runtime)
    requires Inv(p)
    requires r == p.tx[ch].(syncCounter := r.syncCounter)
    ensures Inv(p.Put(Tx, ch, r))
  {
    assert Safe(p.od, p.fd, Tx, ch) && Coherent(p, Tx, ch);
    if r.revision == p.revision {
      var ws := Words(p.od, Tx, ch, Count(p.od, Tx, ch));
      assert Pairs(r, |ws|) == Pairs(p.tx[ch], |ws|);
    }
    PutKeepsInv(p, Tx, ch, r);
  }

  lemma TransmitKeepsInv(p: Manager, ch: Channel, now: nat, sendOk: bool, hooks: Hooks)
    requires Inv(p)
    ensures Inv(Transmit(p, ch, now, sendOk, hooks).0)
  {
    RefreshDecodes(p, Tx, ch);
    TransmitChanges(p, ch, now, sendOk, hooks);
    var r := Refreshed(p, Tx, ch);
    PutKeepsInv(p, Tx, ch, r);
    SentKeepsDecoded(r, now, Words(p.od, Tx, ch, Count(p.od, Tx, ch)));
    PutKeepsInv(p, Tx, ch, r.(lastTransmit := now));
    hide Inv, Transmit;
    InvIgnoresCounters(p.Put(Tx, ch, r.(lastTransmit := now)), p.received, p.transmitted + 1);
  }

  lemma TransmitChanges(p: Manager, ch: Channel, now: nat, sendOk: bool, hooks: Hooks)
    requires Inv(p)
    ensures Count(p.od, Tx, ch) <= MAX_MAPPINGS
    ensures var r, p' := Refreshed(p, Tx, ch), Transmit(p, ch, now, sendOk, hooks).0;
      || p' == p || p' == p.Put(Tx, ch, r)
      || p' == p.Put(Tx, ch, r.(lastTransmit := now)).(transmitted := p.transmitted + 1)
  {
    hide Inv, Configured, Refreshed, Gather, Inhibited, FrameOf, CobId, MappingOf, Safe;
    RefreshFacts(p, Tx, ch);
  }

  lemma SentKeepsDecoded(r: Runtime, now: nat, ws: seq<nat>)
    requires Decoded(r, ws)
    ensures Decoded(r.(lastTransmit := now), ws)
  {
    assert Pairs(r.(lastTransmit := now), |ws|) == Pairs(r, |ws|);
  }

  lemma InvIgnoresCounters(p: Manager, received: nat, transmitted: nat)
    requires Inv(p)
    ensures Inv(p.(received := received, transmitted := transmitted))
  {
    hide Configured, DefaultsOk, Decoded;
    var p' := p.(received := received, transmitted := transmitted);
    forall d, ch: Channel ensures Coherent(p', d, ch) {
      assert Safe(p.od, p.fd, d, ch) && Coherent(p, d, ch);
    }
  }
}

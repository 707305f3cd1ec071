/** The PDO manager in place, over the dictionary that holds its configuration. */
module PdoInPlace {
  import opened Bytes
  import opened Wrappers
  import opened ObjectDictionary
  import opened Pdo
  import Safety = PdoSafety
  import Can

  // ----- registration

  /** The configuration entries of one channel and direction, in the order of registration. */
  function DirectionKeys(d: Direction, ch: Channel): seq<OdKey> {
    var comm := if d.Rx? then 3 else 6;
    seq(comm, i requires 0 <= i < comm => CommKey(d, ch, i))
    + seq(MAX_MAPPINGS + 1, i requires 0 <= i <= MAX_MAPPINGS => MapKey(d, ch, i))
  }

  function KeysBelow(n: nat): (keys: seq<OdKey>)
    requires n <= PDO_COUNT
    ensures |keys| == 43 * n
  {
    if n == 0 then [] else KeysBelow(n - 1) + DirectionKeys(Rx, n - 1) + DirectionKeys(Tx, n - 1)
  }

  ghost predicate Distinct(keys: seq<OdKey>) {
    forall i, j :: 0 <= i < j < |keys| ==> keys[i] != keys[j]
  }

  lemma DistinctTogether(a: seq<OdKey>, b: seq<OdKey>)
    requires Distinct(a) && Distinct(b) && forall key :: key in a ==> key !in b
    ensures Distinct(a + b)
  {
    forall i, j | 0 <= i < j < |a + b| ensures (a + b)[i] != (a + b)[j] {
      if i < |a| <= j {
        assert a[i] in a && b[j - |a|] in b;
      }
    }
  }

  lemma DirectionKeysAre(d: Direction, ch: Channel)
    ensures var keys := DirectionKeys(d, ch);
      Distinct(keys) && forall key :: key in keys <==> IsConfig(key) && ChannelOf(key) == ch && DirectionOf(key) == d
  {
    var keys := DirectionKeys(d, ch);
    var comm := if d.Rx? then 3 else 6;
    forall key | IsConfig(key) && ChannelOf(key) == ch && DirectionOf(key) == d ensures key in keys {
      if key.index == CommKey(d, ch, 0).index {
        assert keys[key.subindex] == key;
      } else {
        assert keys[comm + key.subindex] == key;
      }
    }
  }

  /** Each configuration entry once. */
  lemma {:induction false} KeysBelowAre(n: nat)
    requires n <= PDO_COUNT
    ensures Distinct(KeysBelow(n)) && forall key :: key in KeysBelow(n) <==> IsConfig(key) && ChannelOf(key) < n
  {
    if n == 0 {
    } else {
      hide IsConfig, ChannelOf, DirectionOf, DirectionKeys, Distinct;
      KeysBelowAre(n - 1);
      DirectionKeysAre(Rx, n - 1);
      DirectionKeysAre(Tx, n - 1);
      DistinctTogether(KeysBelow(n - 1), DirectionKeys(Rx, n - 1));
      DistinctTogether(KeysBelow(n - 1) + DirectionKeys(Rx, n - 1), DirectionKeys(Tx, n - 1));
      ChannelsBelow(n);
    }
  }

  lemma ChannelsBelow(n: nat)
    requires n > 0
    ensures forall key: OdKey :: ChannelOf(key) < n <==> ChannelOf(key) < n - 1 || ChannelOf(key) == n - 1
  {
  }

  /** The values before any configuration: only the identifiers are not constant. */
  function DefaultBytes(nodeId: u8, key: OdKey): (s: seq<byte>)
    requires IsConfig(key)
    ensures |s| == ConfigSize(key).value
  {
    var d, ch := DirectionOf(key), ChannelOf(key);
    if key.index != CommKey(d, ch, 0).index then Zeros(ConfigSize(key).value)
    else if key.subindex == 0 then [if d.Rx? then 2 else 5]
    else if key.subindex == 1 then
      PutSize32(if d.Rx? then 0x200 + 0x100 * ch + nodeId else 0x4000_0000 + 0x180 + 0x100 * ch + nodeId)
    else if key.subindex == 2 then [255]
    else Zeros(ConfigSize(key).value)
  }

  function Defaults(nodeId: u8, bigEndian: bool): map<OdKey, seq<byte>> {
    KeysBelowAre(PDO_COUNT);
    map key | key in KeysBelow(PDO_COUNT) :: Swap(ConfigEntry(key), bigEndian, DefaultBytes(nodeId, key))
  }

  lemma DefaultsAreOk(nodeId: u8, bigEndian: bool)
    ensures DefaultsOk(Defaults(nodeId, bigEndian))
  {
    hide KeysBelow, IsConfig, DefaultBytes, MapKey;
    var defaults := Defaults(nodeId, bigEndian);
    KeysBelowAre(PDO_COUNT);
    forall d: Direction, ch: Channel ensures MapKey(d, ch, 0) in defaults && defaults[MapKey(d, ch, 0)] == [0] {
      DefaultCount(nodeId, bigEndian, d, ch);
    }
  }

  lemma DefaultCount(nodeId: u8, bigEndian: bool, d: Direction, ch: Channel)
    ensures var key := MapKey(d, ch, 0);
      IsConfig(key) && Swap(ConfigEntry(key), bigEndian, DefaultBytes(nodeId, key)) == [0]
  {
    KeyReadsBack(d, ch, 0);
    assert Zeros(1) == [0];
  }

  class PdoManager {
    const dictionary: Dictionary
    const fd: bool
    const defaults: map<OdKey, seq<byte>>
    var revision: nat
    var rx: Runtimes
    var tx: Runtimes
    var received: nat
    var transmitted: nat

    /** All parameters at their defaults, nothing mapped. */
    constructor (nodeId: u8, dictionary: Dictionary, fd: bool)
      ensures this.dictionary == dictionary && this.fd == fd && revision == 1 && received == transmitted == 0
      ensures rx == tx == seq(PDO_COUNT, _ => EMPTY_RUNTIME)
      ensures DefaultsOk(defaults) && defaults == Defaults(nodeId, dictionary.bigEndian)
    {
      hide Defaults, DefaultsOk;
      this.dictionary, this.fd := dictionary, fd;
      revision, received, transmitted := 1, 0, 0;
      rx := seq(PDO_COUNT, _ => EMPTY_RUNTIME);
      tx := seq(PDO_COUNT, _ => EMPTY_RUNTIME);
      defaults := Defaults(nodeId, dictionary.bigEndian);
      DefaultsAreOk(nodeId, dictionary.bigEndian);
    }

    ghost function Model(): Manager
      requires dictionary.Valid()
      reads this, dictionary, dictionary.entries
    {
      Manager(dictionary.Model(), fd, revision, rx, tx, received, transmitted, defaults)
    }

    ghost predicate Wired()
      reads this, dictionary, dictionary.entries
    {
      dictionary.Valid() && Configured(dictionary.Model())
    }

    ghost predicate Valid()
      reads this, dictionary, dictionary.entries
    {
      dictionary.Valid() && Inv(Model())
    }

    // ----- the parameters, as the dictionary holds them

    function Parameter(key: OdKey): (s: seq<byte>)
      requires Wired() && IsConfig(key)
      reads this, dictionary, dictionary.entries
      ensures s == Field(dictionary.Model(), key) && |s| == ConfigSize(key).value
    {
      assert key in dictionary.storage by { FoundIsStored(dictionary.Model(), key); }
      assert |Field(dictionary.Model(), key)| == ConfigSize(key).value;
      Swap(ConfigEntry(key), dictionary.bigEndian, dictionary.storage[key])
    }

    function MappingCount(d: Direction, ch: Channel): (n: nat)
      requires Wired()
      reads this, dictionary, dictionary.entries
      ensures n == Count(dictionary.Model(), d, ch)
    {
      Parameter(MapKey(d, ch, 0))[0] as int
    }

    function MappingWord(d: Direction, ch: Channel, i: nat): (w: nat)
      requires Wired() && i < MAX_MAPPINGS
      reads this, dictionary, dictionary.entries
      ensures w == Word(dictionary.Model(), d, ch, i)
    {
      GetSize32(Parameter(MapKey(d, ch, i + 1)))
    }

    function Cob(d: Direction, ch: Channel): (id: nat)
      requires Wired()
      reads this, dictionary, dictionary.entries
      ensures id == CobId(dictionary.Model(), d, ch)
    {
      GetSize32(Parameter(CommKey(d, ch, 1)))
    }

    // ----- validation

    method ValidateMappingWord(word: nat, d: Direction) returns (code: AbortCode)
      requires dictionary.Valid()
      ensures code == ValidateWord(dictionary.Model().entries, word, d)
    {
      var bits := WordBits(word);
      if bits == 0 || bits % 8 != 0 {
        return NotMappable;
      }
      var index := dictionary.IndexOf(WordKey(word));
      if index == dictionary.size {
        return NotMappable;
      }
      var entry := dictionary.entries[index];
      if !entry.pdoMappable || entry.size * 8 != bits {
        return NotMappable;
      }
      if d.Rx? && !entry.access.Writable() {
        return AccessReadOnly;
      }
      if d.Tx? && !entry.access.Readable() {
        return AccessWriteOnly;
      }
      return NoAbort;
    }

    method ValidateMappingSet(d: Direction, ch: Channel, count: nat) returns (code: AbortCode)
      requires Wired() && count <= MAX_MAPPINGS
      ensures code == ValidateWords(dictionary.Model().entries, Words(dictionary.Model(), d, ch, count), d, fd)
    {
      hide Configured, ValidateWord, Word, IsConfig;
      ghost var entries := dictionary.Model().entries;
      ghost var ws := Words(dictionary.Model(), d, ch, count);
      var bits := 0;
      for mapping := 0 to count
        invariant FirstBad(entries, ws, d) == FirstBad(entries, ws[mapping..], d)
        invariant TotalBits(ws) == bits + TotalBits(ws[mapping..])
      {
        var word := MappingWord(d, ch, mapping);
        assert ws[mapping..][0] == word && ws[mapping..][1..] == ws[mapping + 1..];
        var result := ValidateMappingWord(word, d);
        if result != NoAbort {
          return result;
        }
        bits := bits + WordBits(word);
      }
      return if bits <= (if fd then 512 else 64) then NoAbort else PdoLengthExceeded;
    }

    // ----- writes to the configuration

    /** The write hook of the configuration entries; accepting moves the revision on. */
    method ValidateConfigWrite(key: OdKey, source: seq<byte>) returns (code: AbortCode)
      requires Wired() && Hooked(key) && |source| == ConfigSize(key).value
      modifies this`revision
      ensures Wired() && code == ValidateConfig(dictionary.Model(), fd, key, source)
      ensures revision == old(revision) + if code == NoAbort then 1 else 0
    {
      hide Configured, Field, ValidateWords, ValidateWord, Word, ConfigEntry;
      var d, ch := DirectionOf(key), ChannelOf(key);
      if 0x1400 <= key.index < 0x1404 || 0x1800 <= key.index < 0x1804 {
        if key.subindex == 1 {
          var candidate := GetSize32(source);
          if (candidate / 0x800) % 0x4_0000 != 0 || (candidate / 0x2000_0000) % 2 == 1 {
            return ValueRange;
          }
          var current := Cob(d, ch);
          if CobEnabled(current) && candidate != current && CobEnabled(candidate) {
            return DeviceState;
          }
        } else if key.subindex == 2 && !ValidTransmissionType(source[0] as int) {
          return ValueRange;
        }
      } else if key.subindex == 0 {
        var count := source[0] as int;
        if count > MAX_MAPPINGS {
          return ValueRange;
        }
        code := ValidateMappingSet(d, ch, count);
        if code != NoAbort {
          return;
        }
      } else {
        if MappingCount(d, ch) != 0 {
          return DeviceState;
        }
        code := ValidateMappingWord(GetSize32(source), d);
        if code != NoAbort {
          return;
        }
      }
      revision := revision + 1;
      return NoAbort;
    }

    /** A write through the dictionary, whose entry may belong to the manager. */
    method WriteEntry(key: OdKey, source: seq<byte>, hooks: Hooks) returns (code: AbortCode)
      requires Wired()
      modifies this`revision, dictionary`storage
      ensures Wired() && (code, Model()) == OdWrite(old(Model()), key, source, hooks)
    {
      hide ValidateConfig, ConfigSize, ConfigEntry;
      if Hooked(key) && |source| == ConfigSize(key).value {
        var verdict := ValidateConfigWrite(key, source);
        HookedWrite(old(Model()), key, source, hooks, verdict);
        code := dictionary.WriteValue(key, source, Hooks(hooks.read, (_, _) => verdict));
      } else {
        UnhookedWrite(Model(), key, source, hooks);
        code := dictionary.WriteValue(key, source, hooks);
      }
    }

    // ----- the cache

    method Store(d: Direction, ch: Channel, runtime: Runtime)
      requires dictionary.Valid()
      modifies this`rx, this`tx
      ensures Model() == old(Model()).Put(d, ch, runtime)
    {
      if d.Rx? {
        rx := rx[ch := runtime];
      } else {
        tx := tx[ch := runtime];
      }
    }

    /** Decodes a channel's mapping again if the configuration has changed since. */
    method RefreshMapping(d: Direction, ch: Channel)
      requires Wired() && Count(dictionary.Model(), d, ch) <= MAX_MAPPINGS
      modifies this`rx, this`tx
      ensures Wired() && Model() == old(Model()).Put(d, ch, Refreshed(old(Model()), d, ch))
    {
      hide Configured, ValidateWords, Words, Count, WordKey, WordBits;
      var runtime := if d.Rx? then rx[ch] else tx[ch];
      if runtime.revision == revision {
        PutSame(Model(), d, ch);
        return;
      }
      runtime := DecodeMapping(d, ch, runtime);
      Store(d, ch, runtime);
    }

    method DecodeMapping(d: Direction, ch: Channel, stale: Runtime) returns (runtime: Runtime)
      requires Wired() && Count(dictionary.Model(), d, ch) <= MAX_MAPPINGS && stale.revision != revision
      ensures var od := dictionary.Model();
        runtime == Refresh(stale, revision, od.entries, Words(od, d, ch, Count(od, d, ch)), d, fd)
    {
      hide Configured, ValidateWords, Word, WordKey, WordBits;
      runtime := stale.(valid := false, payloadSize := 0, revision := revision);
      var count := MappingCount(d, ch);
      ghost var ws := Words(dictionary.Model(), d, ch, count);
      ghost var was := runtime;
      var code := ValidateMappingSet(d, ch, count);
      if code != NoAbort {
        return;
      }
      assert KeysOf(ws[..0]) + was.keys[0..] == was.keys && LengthsOf(ws[..0]) + was.lengths[0..] == was.lengths;
      for mapping := 0 to count
        invariant runtime == was.(payloadSize := TotalBytes(ws[..mapping]),
                                  keys := KeysOf(ws[..mapping]) + was.keys[mapping..],
                                  lengths := LengthsOf(ws[..mapping]) + was.lengths[mapping..])
      {
        var word := MappingWord(d, ch, mapping);
        MoreWords(ws, mapping, was);
        runtime := runtime.(keys := runtime.keys[mapping := WordKey(word)],
                            lengths := runtime.lengths[mapping := WordBits(word) / 8],
                            payloadSize := runtime.payloadSize + WordBits(word) / 8);
      }
      assert ws[..count] == ws;
      runtime := runtime.(valid := count > 0);
    }

    // ----- receiving

    /** The first enabled channel that listens to the identifier, or the number of channels. */
    method FindListener(id: nat) returns (ch: nat)
      requires Wired()
      ensures ch <= PDO_COUNT
      ensures Listener(dictionary.Model(), id, 0) == if ch == PDO_COUNT then None else Some(ch)
    {
      hide Configured, CobId;
      ch := 0;
      while ch < PDO_COUNT
        invariant ch <= PDO_COUNT && Listener(dictionary.Model(), id, 0) == Listener(dictionary.Model(), id, ch)
      {
        if CobEnabled(Cob(Rx, ch)) && id == Cob(Rx, ch) % 0x800 {
          return;
        }
        ch := ch + 1;
      }
    }

    method Handle(frame: Can.Frame, operational: bool, hooks: Hooks) returns (handled: bool)
      requires Valid()
      modifies this`rx, this`tx, this`revision, this`received, dictionary`storage
      ensures Valid() && (Model(), handled) == HandleFrame(old(Model()), frame, operational, hooks)
    {
      hide Inv, Configured, Listener, Scatter, Refreshed, Receivable, Count, Pairs, TotalLength, MappingOf, Safe,
           Manager.Put,
           Safety.HandleUncached, Safety.SameConfig;
      InvIsWired(Model());
      Safety.HandleCacheTransparent(Model(), frame, operational, hooks);
      handled := false;
      if Receivable(frame, operational) {
        var ch := FindListener(frame.id);
        if ch < PDO_COUNT {
          handled := true;
          RefreshFacts(Model(), Rx, ch);
          RefreshMapping(Rx, ch);
          var runtime := rx[ch];
          if runtime.valid && frame.size >= runtime.payloadSize {
            var done := Distribute(runtime, MappingCount(Rx, ch), frame.data, hooks);
            received := received + if done then 1 else 0;
          }
        }
      }
    }

    /** Writes the data to the targets in order, up to the first that is refused. */
    method Distribute(runtime: Runtime, count: nat, data: seq<byte>, hooks: Hooks) returns (done: bool)
      requires Wired() && count <= MAX_MAPPINGS && TotalLength(Pairs(runtime, count)) <= |data|
      modifies this`revision, dictionary`storage
      ensures Wired() && (done, Model()) == Scatter(old(Model()), Pairs(runtime, count), data, hooks)
    {
      hide Configured, OdWrite;
      ghost var m := Pairs(runtime, count);
      ghost var all := Scatter(Model(), m, data, hooks);
      var offset := 0;
      for mapping := 0 to count
        invariant Wired() && offset + TotalLength(m[mapping..]) <= |data|
        invariant Scatter(Model(), m[mapping..], data[offset..], hooks) == all
      {
        var length := runtime.lengths[mapping];
        assert m[mapping..][0] == m[mapping] && m[mapping..][1..] == m[mapping + 1..];
        assert data[offset..][..length] == data[offset..offset + length];
        assert data[offset..][length..] == data[offset + length..];
        var code := WriteEntry(runtime.keys[mapping], data[offset..offset + length], hooks);
        if code != NoAbort {
          return false;
        }
        offset := offset + length;
      }
      return true;
    }

    // ----- transmitting

    /** Collects the values of a mapping into the data of a frame. */
    method Collect(runtime: Runtime, count: nat, hooks: Hooks) returns (ok: bool, data: Can.FrameData)
      requires Wired() && count <= MAX_MAPPINGS && TotalLength(Pairs(runtime, count)) <= Can.FD_MAX_PAYLOAD
      ensures var payload := Gather(dictionary.Model(), Pairs(runtime, count), hooks);
        if ok then payload.Some? && data == Can.Pad(payload.value) else payload.None?
    {
      hide Configured, Read;
      ghost var m := Pairs(runtime, count);
      ghost var od := dictionary.Model();
      ghost var collected: seq<byte> := [];
      data := Zeros(64);
      var offset := 0;
      assert m[0..] == m && (Gather(od, m, hooks).Some?
          ==> [] + Gather(od, m, hooks).value == Gather(od, m, hooks).value);
      for mapping := 0 to count
        invariant offset == |collected| && offset + TotalLength(m[mapping..]) == TotalLength(m)
            && data == Can.Pad(collected)
        invariant var rest := Gather(od, m[mapping..], hooks);
          Gather(od, m, hooks) == if rest.None? then None else Some(collected + rest.value)
      {
        var code, value := dictionary.ReadValue(runtime.keys[mapping], 8, hooks);
        assert m[mapping..][0] == m[mapping] && m[mapping..][1..] == m[mapping + 1..];
        if code != NoAbort || |value| != runtime.lengths[mapping] {
          return false, data;
        }
        PadMore(collected, value);
        ghost var rest := Gather(od, m[mapping + 1..], hooks);
        if rest.Some? {
          Associate(collected, value, rest.value);
        }
        data := data[..offset] + value + data[offset + |value|..];
        collected := collected + value;
        offset := offset + |value|;
      }
      return true, data;
    }

    method Transmit(ch: Channel, now: nat, sendOk: bool, hooks: Hooks) returns (attempt: Attempt)
      requires Valid()
      modifies this`rx, this`tx, this`transmitted
      ensures Valid() && (Model(), attempt) == Pdo.Transmit(old(Model()), ch, now, sendOk, hooks)
    {
      hide Inv, Configured, Refreshed, Count, Pairs, Gather, TotalLength, MappingOf, Safe, Manager.Put, InhibitUs,
           Can.Pad;
      InvIsWired(Model());
      TransmitKeepsInv(Model(), ch, now, sendOk, hooks);
      attempt := Nothing;
      if CobEnabled(Cob(Tx, ch)) {
        RefreshFacts(Model(), Tx, ch);
        RefreshMapping(Tx, ch);
        var runtime := tx[ch];
        if runtime.valid && !(runtime.lastTransmit != 0 && now - runtime.lastTransmit < Inhibit(ch)) {
          var ok, data := Collect(runtime, MappingCount(Tx, ch), hooks);
          if ok {
            var long := runtime.payloadSize > Can.CLASSIC_MAX_PAYLOAD;
            attempt := Sent(Can.Frame(Cob(Tx, ch) % 0x800, runtime.payloadSize, false, false, long, long, data),
                sendOk);
            if sendOk {
              Store(Tx, ch, runtime.(lastTransmit := now));
              transmitted := transmitted + 1;
            }
          }
        }
      }
    }

    function Inhibit(ch: Channel): (us: nat)
      requires Wired()
      reads this, dictionary, dictionary.entries
      ensures us == InhibitUs(dictionary.Model(), ch)
    {
      GetSize(Parameter(CommKey(Tx, ch, 3))) * 100
    }

    function SyncType(ch: Channel): (n: nat)
      requires Wired()
      reads this, dictionary, dictionary.entries
      ensures n == TransmissionType(dictionary.Model(), ch)
    {
      Parameter(CommKey(Tx, ch, 2))[0] as int
    }

    function EventTimer(ch: Channel): (us: nat)
      requires Wired()
      reads this, dictionary, dictionary.entries
      ensures us == EventTimerUs(dictionary.Model(), ch)
    {
      GetSize(Parameter(CommKey(Tx, ch, 5))) * 1000
    }

    method SyncOne(ch: Channel, now: nat, sendOk: bool, hooks: Hooks) returns (attempts: seq<Attempt>)
      requires Valid()
      modifies this`rx, this`tx, this`transmitted
      ensures Valid() && (Model(), attempts) == SyncChannel(old(Model()), ch, now, sendOk, hooks)
    {
      hide Inv, Configured, Pdo.Transmit, TransmissionType;
      InvIsWired(Model());
      attempts := [];
      var n := SyncType(ch);
      if 1 <= n <= 240 {
        var count := tx[ch].syncCounter + 1;
        TouchKeepsInv(Model(), ch, tx[ch].(syncCounter := if count >= n then 0 else count));
        Store(Tx, ch, tx[ch].(syncCounter := if count >= n then 0 else count));
        if count >= n {
          var attempt := Transmit(ch, now, sendOk, hooks);
          attempts := [attempt];
        }
      }
    }

    method OnSync(now: nat, operational: bool, sendOk: nat -> bool, hooks: Hooks) returns (attempts: seq<Attempt>)
      requires Valid()
      modifies this`rx, this`tx, this`transmitted
      ensures Valid() && (Model(), attempts) == Pdo.OnSync(old(Model()), 0, now, operational, sendOk, hooks)
    {
      hide Inv, SyncChannel;
      attempts := [];
      if operational {
        ghost var all := Pdo.OnSync(Model(), 0, now, operational, sendOk, hooks);
        for ch := 0 to PDO_COUNT
          invariant Valid() && Pdo.OnSync(Model(), ch, now, operational, sendOk, hooks).0 == all.0
          invariant attempts + Pdo.OnSync(Model(), ch, now, operational, sendOk, hooks).1 == all.1
        {
          var more := SyncOne(ch, now, sendOk(ch), hooks);
          Associate(attempts, more, Pdo.OnSync(Model(), ch + 1, now, operational, sendOk, hooks).1);
          attempts := attempts + more;
        }
        assert attempts + [] == attempts;
      }
    }

    method TimerOne(ch: Channel, now: nat, sendOk: bool, hooks: Hooks) returns (attempts: seq<Attempt>)
      requires Valid()
      modifies this`rx, this`tx, this`transmitted
      ensures Valid() && (Model(), attempts) == TimerChannel(old(Model()), ch, now, sendOk, hooks)
    {
      hide Inv, Configured, Pdo.Transmit, TransmissionType, EventTimerUs;
      InvIsWired(Model());
      attempts := [];
      var n := SyncType(ch);
      if (n == 254 || n == 255) && EventTimer(ch) > 0 {
        if tx[ch].lastTransmit == 0 || now - tx[ch].lastTransmit >= EventTimer(ch) {
          var attempt := Transmit(ch, now, sendOk, hooks);
          attempts := [attempt];
        }
      }
    }

    method Process(now: nat, operational: bool, sendOk: nat -> bool, hooks: Hooks) returns (attempts: seq<Attempt>)
      requires Valid()
      modifies this`rx, this`tx, this`transmitted
      ensures Valid() && (Model(), attempts) == Pdo.Process(old(Model()), 0, now, operational, sendOk, hooks)
    {
      hide Inv, TimerChannel;
      attempts := [];
      if operational {
        ghost var all := Pdo.Process(Model(), 0, now, operational, sendOk, hooks);
        for ch := 0 to PDO_COUNT
          invariant Valid() && Pdo.Process(Model(), ch, now, operational, sendOk, hooks).0 == all.0
          invariant attempts + Pdo.Process(Model(), ch, now, operational, sendOk, hooks).1 == all.1
        {
          var more := TimerOne(ch, now, sendOk(ch), hooks);
          Associate(attempts, more, Pdo.Process(Model(), ch + 1, now, operational, sendOk, hooks).1);
          attempts := attempts + more;
        }
        assert attempts + [] == attempts;
      }
    }

    // ----- registration and reset

    /** Adds every configuration entry at its default; the first that cannot be added ends it. */
    method RegisterDictionaryEntries() returns (code: AbortCode)
      requires dictionary.Valid() && revision == 1 && DefaultsOk(defaults)
      requires rx == tx == seq(PDO_COUNT, _ => EMPTY_RUNTIME)
      modifies dictionary, dictionary.entries
      ensures dictionary.Valid() && (code == NoAbort || code == OutOfMemory)
      ensures code == NoAbort <==>
        && !old(dictionary.frozen) && old(dictionary.size) + 172 <= MAX_ENTRIES
        && forall key :: IsConfig(key) ==> Find(old(dictionary.Model()).entries, key).None?
      ensures code == NoAbort ==> Valid() && dictionary.size == old(dictionary.size) + 172
      ensures code == NoAbort ==> forall key :: IsConfig(key) ==>
        && key in dictionary.storage && key in defaults && dictionary.storage[key] == defaults[key]
      ensures code == NoAbort ==> forall key :: !IsConfig(key) ==>
        Find(dictionary.Model().entries, key) == Find(old(dictionary.Model()).entries, key)
    {
      hide IsConfig, ConfigSize, ConfigEntry, KeysBelow, DefaultsOk, Inv, Distinct, Registered, Find;
      KeysBelowAre(PDO_COUNT);
      var keys := KeysBelow(PDO_COUNT);
      ghost var was := dictionary.Model();
      NothingRegistered(was, keys, defaults);
      for i := 0 to |keys|
        invariant dictionary.Valid() && dictionary.frozen == old(dictionary.frozen)
            && dictionary.size == old(dictionary.size) + i
        invariant Registered(dictionary.Model(), was, keys, i, defaults) && (i > 0 ==> !dictionary.frozen)
      {
        DefaultFits(keys[i], defaults);
        RegisterOne(dictionary.Model(), was, keys, i, defaults);
        var result := dictionary.Add(ConfigEntry(keys[i]), defaults[keys[i]]);
        if result != NoAbort {
          return OutOfMemory;
        }
      }
      AllRegistered(Model(), was, keys);
      return NoAbort;
    }

    method ResetCommunication()
      requires Valid()
      modifies this`rx, this`tx, this`revision, dictionary`storage
      ensures Valid() && Model() == Pdo.ResetCommunication(old(Model()))
    {
      hide Inv;
      InvIsWired(Model());
      Safety.ResetKeepsInv(Model());
      ResetStaysValid(Model());
      dictionary.storage := dictionary.storage + defaults;
      revision := revision + 1;
      rx := seq(PDO_COUNT, _ => EMPTY_RUNTIME);
      tx := seq(PDO_COUNT, _ => EMPTY_RUNTIME);
    }
  }

  /** The first `n` entries have been added, and nothing else has changed. */
  ghost predicate Registered(od: Od, was: Od, keys: seq<OdKey>, n: nat, defaults: map<OdKey, seq<byte>>) {
    && n <= |keys|
    && (forall i :: 0 <= i < n ==>
          && IsConfig(keys[i]) && keys[i] in defaults && keys[i] in od.storage
          && Find(was.entries, keys[i]).None?
          && Find(od.entries, keys[i]) == Some(ConfigEntry(keys[i])) && od.storage[keys[i]] == defaults[keys[i]])
    && (forall key :: key !in keys[..n] ==> Find(od.entries, key) == Find(was.entries, key))
  }

  lemma NothingRegistered(od: Od, keys: seq<OdKey>, defaults: map<OdKey, seq<byte>>)
    ensures Registered(od, od, keys, 0, defaults)
  {
  }

  lemma DefaultFits(key: OdKey, defaults: map<OdKey, seq<byte>>)
    requires DefaultsOk(defaults) && IsConfig(key)
    ensures key in defaults && |defaults[key]| == ConfigEntry(key).size > 0 && ConfigEntry(key).key == key
  {
  }

  /** What adding the next entry finds, and leaves when it succeeds. */
  lemma RegisterOne(od: Od, was: Od, keys: seq<OdKey>, n: nat, defaults: map<OdKey, seq<byte>>)
    requires Registered(od, was, keys, n, defaults) && n < |keys| && Distinct(keys) && IsConfig(keys[n])
        && keys[n] in defaults
    ensures Find(od.entries, keys[n]) == Find(was.entries, keys[n])
    ensures Find(od.entries, keys[n]).None? ==>
      Registered(Od(od.entries + [ConfigEntry(keys[n])], od.storage[keys[n] := defaults[keys[n]]], od.bigEndian),
                 was, keys, n + 1, defaults)
  {
    hide Find, IsConfig, ConfigSize;
    var entry := ConfigEntry(keys[n]);
    if Find(od.entries, keys[n]).None? {
      forall key
        ensures Find(od.entries + [entry], key) == if key == entry.key then Some(entry) else Find(od.entries, key)
      {
        FindAppend(od.entries, entry, key);
      }
      assert keys[..n + 1] == keys[..n] + [keys[n]];
    }
  }

  /** With all entries in place the manager starts in its invariant. */
  lemma AllRegistered(p: Manager, was: Od, keys: seq<OdKey>)
    requires p.od.Valid() && DefaultsOk(p.defaults) && p.revision == 1
    requires p.rx == p.tx == seq(PDO_COUNT, _ => EMPTY_RUNTIME)
    requires Registered(p.od, was, keys, |keys|, p.defaults) && forall key :: key in keys <==> IsConfig(key)
    ensures Inv(p) && forall key :: IsConfig(key) ==> Find(was.entries, key).None?
    ensures forall key :: !IsConfig(key) ==> Find(p.od.entries, key) == Find(was.entries, key)
    ensures forall key :: IsConfig(key) ==>
      key in p.od.storage && key in p.defaults && p.od.storage[key] == p.defaults[key]
  {
    hide Find, IsConfig, ConfigSize;
    assert keys[..|keys|] == keys;
    forall key | IsConfig(key)
      ensures Find(p.od.entries, key) == Some(ConfigEntry(key)) && Find(was.entries, key).None?
      ensures key in p.defaults && key in p.od.storage && p.od.storage[key] == p.defaults[key]
    {
      assert key in keys;
    }
    Safety.ConstructedInv(p);
  }

  lemma ResetStaysValid(p: Manager)
    requires Inv(p)
    ensures ResetCommunication(p).od.Valid()
  {
    Safety.ResetKeepsInv(p);
    InvIsWired(ResetCommunication(p));
  }

  lemma PadMore(a: seq<byte>, b: seq<byte>)
    requires |a| + |b| <= 64
    ensures Can.Pad(a + b) == Can.Pad(a)[..|a|] + b + Can.Pad(a)[|a| + |b|..]
  {
    assert Zeros(64 - |a|)[|b|..] == Zeros(64 - |a| - |b|);
  }

  lemma InvIsWired(p: Manager)
    requires Inv(p)
    ensures Configured(p.od)
  {
  }

  lemma PutSame(p: Manager, d: Direction, ch: Channel)
    ensures p.Put(d, ch, p.At(d, ch)) == p
  {
  }

  lemma {:induction false} BytesAppend(ws: seq<nat>, w: nat)
    ensures TotalBytes(ws + [w]) == TotalBytes(ws) + WordBits(w) / 8
    decreases |ws|
  {
    if ws == [] {
      assert [w][1..] == [];
    } else {
      assert (ws + [w])[1..] == ws[1..] + [w];
      BytesAppend(ws[1..], w);
    }
  }

  /** One more decoded word. */
  lemma MoreWords(ws: seq<nat>, i: nat, r: Runtime)
    requires i < |ws| <= MAX_MAPPINGS
    ensures TotalBytes(ws[..i + 1]) == TotalBytes(ws[..i]) + WordBits(ws[i]) / 8
    ensures KeysOf(ws[..i + 1]) + r.keys[i + 1..] == (KeysOf(ws[..i]) + r.keys[i..])[i := WordKey(ws[i])]
    ensures LengthsOf(ws[..i + 1]) + r.lengths[i + 1..]
        == (LengthsOf(ws[..i]) + r.lengths[i..])[i := WordBits(ws[i]) / 8]
  {
    hide WordKey, WordBits;
    assert ws[..i + 1] == ws[..i] + [ws[i]];
    BytesAppend(ws[..i], ws[i]);
  }

  /** The dictionary asks the hook of a configuration entry once, and only for a write that fits. */
  lemma HookedWrite(p: Manager, key: OdKey, source: seq<byte>, hooks: Hooks, verdict: AbortCode)
    requires Configured(p.od) && Hooked(key) && |source| == ConfigSize(key).value
    requires verdict == ValidateConfig(p.od, p.fd, key, source)
    ensures Write(p.od, key, source, Hooks(hooks.read, (_, _) => verdict))
        == Write(p.od, key, source, ManagerHooks(p.od, p.fd, hooks))
    ensures Write(p.od, key, source, ManagerHooks(p.od, p.fd, hooks)).0 == verdict
  {
    hide ValidateConfig;
  }

  lemma UnhookedWrite(p: Manager, key: OdKey, source: seq<byte>, hooks: Hooks)
    requires Configured(p.od) && !(Hooked(key) && |source| == ConfigSize(key).value)
    ensures Write(p.od, key, source, ManagerHooks(p.od, p.fd, hooks)) == Write(p.od, key, source, hooks)
    ensures Hooked(key) ==> Write(p.od, key, source, hooks).0 != NoAbort
  {
    hide ValidateConfig;
  }
}

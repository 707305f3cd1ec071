/** What the parameters of the PDO channels mean: where in the dictionary they live, how they are set, and
    which frames they make a channel listen to. */
module PdoAddressing {
  import opened Bytes
  import opened Wrappers
  import opened ObjectDictionary
  import opened Pdo
  import opened PdoSafety
  import InPlace = PdoInPlace
  import Can

  // ----- whose frame it is

  /** An enabled channel with these low eleven bits. */
  predicate ListensTo(od: Od, ch: Channel, id: nat)
    requires Configured(od)
  {
    var cob := CobId(od, Rx, ch);
    cob < 0x8000_0000 && id < 0x800 && (cob - id) % 0x800 == 0
  }

  lemma {:induction false} ListenerIsLowest(od: Od, id: nat, from: nat)
    requires Configured(od) && from <= PDO_COUNT
    ensures match Listener(od, id, from)
      case None => forall ch: Channel :: from <= ch ==> !ListensTo(od, ch, id)
      case Some(ch) =>
        from <= ch && ListensTo(od, ch, id) && forall k: Channel :: from <= k < ch ==> !ListensTo(od, k, id)
    decreases PDO_COUNT - from
  {
    hide Configured, CobId;
    if from == PDO_COUNT {
    } else {
      LowBits(CobId(od, Rx, from), id);
      ListenerIsLowest(od, id, from + 1);
    }
  }

  lemma LowBits(cob: nat, id: nat)
    ensures id == cob % 0x800 <==> id < 0x800 && (cob - id) % 0x800 == 0
  {
  }

  lemma TheListener(od: Od, ch: Channel, id: nat)
    requires Configured(od) && ListensTo(od, ch, id) && forall k: Channel :: k < ch ==> !ListensTo(od, k, id)
    ensures Listener(od, id, 0) == Some(ch)
  {
    hide Configured, ListensTo;
    ListenerIsLowest(od, id, 0);
  }

  /** A frame is consumed if and only if the node is operational, it is a valid data frame with an eleven-bit
      identifier, and some enabled channel has that identifier; the lowest such channel writes it. */
  lemma ReceivedByLowest(p: Manager, frame: Can.Frame, operational: bool, hooks: Hooks)
    requires Inv(p)
    ensures Configured(p.od)
    ensures HandleFrame(p, frame, operational, hooks).1 <==>
      && operational && frame.Valid() && !frame.extended && !frame.remote
      && exists ch: Channel :: ListensTo(p.od, ch, frame.id)
    ensures forall ch: Channel ::
      HandleFrame(p, frame, operational, hooks).1
      && ListensTo(p.od, ch, frame.id) && (forall k: Channel :: k < ch ==> !ListensTo(p.od, k, frame.id)) ==>
        && Count(p.od, Rx, ch) <= MAX_MAPPINGS
        && var m := MappingOf(p.od, Rx, ch);
           HandleFrame(p, frame, operational, hooks).0.od
           == if m == [] || frame.size < TotalLength(m) then p.od else Spread(p.od, m, frame.data, hooks).1
  {
    hide Inv, Configured, Listener, ListensTo, MappingOf, HandleFrame, Count, Spread;
    NothingChanged(p);
    ListenerIsLowest(p.od, frame.id, 0);
    HandleCacheTransparent(p, frame, operational, hooks);
    forall ch: Channel ensures Count(p.od, Rx, ch) <= MAX_MAPPINGS {
      RefreshFacts(p, Rx, ch);
    }
  }

  /** The statistics count the frames whose values have all been written, and the frames that the transport
      has taken. */
  lemma ReceivedIsCounted(p: Manager, frame: Can.Frame, hooks: Hooks, ch: Channel)
    requires Inv(p) && frame.Valid() && !frame.extended && !frame.remote
    requires Listener(p.od, frame.id, 0) == Some(ch)
    ensures Count(p.od, Rx, ch) <= MAX_MAPPINGS
    ensures var p', m := HandleFrame(p, frame, true, hooks).0, MappingOf(p.od, Rx, ch);
      && p'.transmitted == p.transmitted
      && p'.received == p.received +
           if m != [] && frame.size >= TotalLength(m) && Spread(p.od, m, frame.data, hooks).0 then 1 else 0
  {
    hide Scatter, Spread, SameConfig, Inv, Refreshed, MappingOf, Configured, Listener, Safe, Count;
    RefreshFacts(p, Rx, ch);
    RefreshKeepsInv(p, Rx, ch);
    SafeTargets(p.od, p.fd, Rx, ch);
    var r, m := Refreshed(p, Rx, ch), MappingOf(p.od, Rx, ch);
    if r.valid && frame.size >= r.payloadSize {
      ScatterIsSpread(p.Put(Rx, ch, r), m, frame.data, hooks);
    }
  }

  lemma SentIsCounted(p: Manager, ch: Channel, now: nat, sendOk: bool, hooks: Hooks)
    requires Inv(p)
    ensures var (p', a) := Transmit(p, ch, now, sendOk, hooks);
      p'.received == p.received && p'.transmitted == p.transmitted + if a.Sent? && a.ok then 1 else 0
  {
    hide Inv, Configured, Refreshed, Gather, Inhibited, FrameOf, CobId, MappingOf, Safe;
    RefreshFacts(p, Tx, ch);
  }

  // ----- where the parameters live

  /** The parameters as a client reads them, by the indices of CiA 301. */
  lemma ParametersAreEntries(od: Od, d: Direction, ch: Channel, i: nat, hooks: Hooks)
    requires Configured(od) && i < MAX_MAPPINGS
    ensures var comm, mapping := if d.Rx? then 0x1400 + ch else 0x1800 + ch, if d.Rx? then 0x1600 + ch else 0x1A00 + ch;
      && Sized(od, OdKey(comm, 0), 1) && Sized(od, OdKey(comm, 2), 1) && (d.Tx? ==> Sized(od, OdKey(comm, 4), 1))
      && Shows(od, OdKey(comm, 1), 4, CobId(od, d, ch), hooks)
      && Shows(od, OdKey(mapping, 0), 1, Count(od, d, ch), hooks)
      && Shows(od, OdKey(mapping, i + 1), 4, Word(od, d, ch, i), hooks)
      && (d.Tx? ==>
            && Shows(od, OdKey(comm, 2), 1, TransmissionType(od, ch), hooks)
            && InhibitUs(od, ch) % 100 == 0 && Shows(od, OdKey(comm, 3), 2, InhibitUs(od, ch) / 100, hooks)
            && EventTimerUs(od, ch) % 1000 == 0 && Shows(od, OdKey(comm, 5), 2, EventTimerUs(od, ch) / 1000, hooks))
  {
    hide Configured, Field, GetSize, GetSize32, Shows, Sized;
    FieldShows(od, CommKey(d, ch, 0), hooks);
    FieldShows(od, CommKey(d, ch, 1), hooks);
    FieldShows(od, CommKey(d, ch, 2), hooks);
    FieldShows(od, MapKey(d, ch, 0), hooks);
    FieldShows(od, MapKey(d, ch, i + 1), hooks);
    if d.Tx? {
      FieldShows(od, CommKey(d, ch, 3), hooks);
      FieldShows(od, CommKey(d, ch, 4), hooks);
      FieldShows(od, CommKey(d, ch, 5), hooks);
    }
  }

  predicate Sized(od: Od, key: OdKey, size: nat) {
    Find(od.entries, key).Some? && Find(od.entries, key).value.size == size
  }

  predicate Shows(od: Od, key: OdKey, size: nat, value: nat, hooks: Hooks)
    requires od.Valid()
  {
    var (code, bytes) := Read(od, key, 8, hooks);
    code == NoAbort && |bytes| == size && Number(bytes) == value
  }

  lemma FieldShows(od: Od, key: OdKey, hooks: Hooks)
    requires Configured(od) && IsConfig(key)
    ensures od.Valid() && Sized(od, key, ConfigSize(key).value)
    ensures var f := Field(od, key);
      && (|f| == 1 ==> Shows(od, key, 1, f[0] as int, hooks))
      && (|f| == 2 ==> Shows(od, key, 2, GetSize(f), hooks))
      && (|f| == 4 ==> Shows(od, key, 4, GetSize32(f), hooks))
  {
    FoundIsStored(od, key);
    SizeIsNumber(Field(od, key));
  }

  // ----- how they are set

  /** The identifiers: eleven bits, and the two highest as switches; an enabled channel must be switched off
      before it may be given another one. */
  lemma CobIdWritten(p: Manager, d: Direction, ch: Channel, source: seq<byte>, hooks: Hooks)
    requires Inv(p) && |source| == 4
    ensures var (code, p') := OdWrite(p, CommKey(d, ch, 1), source, hooks);
      var was, cob := CobId(p.od, d, ch), Number(source);
      && code == (if cob % 0x4000_0000 >= 0x800 then ValueRange
                  else if was < 0x8000_0000 && cob < 0x8000_0000 && cob != was then DeviceState
                  else NoAbort)
      && Configured(p'.od) && CobId(p'.od, d, ch) == if code == NoAbort then cob else was
  {
    hide Inv, Field, GetSize32, Write, ManagerHooks, Number;
    var key := CommKey(d, ch, 1);
    SizeIsNumber(source);
    KeyReadsBack(d, ch, 1);
    HookDecides(p, key, source, hooks);
    CobBits(GetSize32(source));
    FieldAfterWrite(p.od, key, source, ManagerHooks(p.od, p.fd, hooks), key);
  }

  lemma CobBits(cob: u32)
    ensures (cob / 0x800) % 0x4_0000 != 0 || (cob / 0x2000_0000) % 2 == 1 <==> cob % 0x4000_0000 >= 0x800
  {
  }

  /** A write of the right size to a configuration entry is decided by the manager's hook alone. */
  lemma HookDecides(p: Manager, key: OdKey, source: seq<byte>, hooks: Hooks)
    requires Inv(p) && Hooked(key) && |source| == ConfigSize(key).value
    ensures Configured(p.od) && OdWrite(p, key, source, hooks).0 == ValidateConfig(p.od, p.fd, key, source)
  {
    hide ValidateConfig, Field;
    assert Find(p.od.entries, key) == Some(ConfigEntry(key));
  }

  lemma TypeIsChecked(od: Od, fd: bool, ch: Channel, source: seq<byte>)
    requires Configured(od) && |source| == 1
    ensures ValidateConfig(od, fd, CommKey(Tx, ch, 2), source) == NoAbort
      <==> source[0] as int <= 240 || source[0] as int >= 254
  {
    hide ValidateWords, ValidateWord, Field, Words;
  }

  lemma TimesAreUnchecked(od: Od, fd: bool, ch: Channel, source: seq<byte>)
    requires Configured(od) && |source| == 2
    ensures ValidateConfig(od, fd, CommKey(Tx, ch, 3), source) == NoAbort
    ensures ValidateConfig(od, fd, CommKey(Tx, ch, 5), source) == NoAbort
  {
    hide ValidateWords, ValidateWord, Field, Words;
  }

  /** The transmission type of a channel: 241 to 253 are reserved. */
  lemma TypeWritten(p: Manager, ch: Channel, source: seq<byte>, hooks: Hooks)
    requires Inv(p) && |source| == 1
    ensures var (code, p') := OdWrite(p, OdKey(0x1800 + ch, 2), source, hooks);
      && (code == NoAbort <==> source[0] as int <= 240 || source[0] as int >= 254)
      && Configured(p'.od) && (code == NoAbort ==> TransmissionType(p'.od, ch) == source[0] as int)
  {
    hide Inv, Field, OdWrite, ValidateConfig, Configured;
    InvConfigured(p);
    TypeIsChecked(p.od, p.fd, ch, source);
    WrittenIsStored(p, CommKey(Tx, ch, 2), source, hooks);
  }

  /** The inhibit time in units of 100 microseconds, and the event timer in milliseconds. */
  lemma TimesWritten(p: Manager, ch: Channel, source: seq<byte>, hooks: Hooks)
    requires Inv(p) && |source| == 2
    ensures var (code, p') := OdWrite(p, OdKey(0x1800 + ch, 3), source, hooks);
      code == NoAbort && Configured(p'.od) && InhibitUs(p'.od, ch) == 100 * Number(source)
    ensures var (code, p') := OdWrite(p, OdKey(0x1800 + ch, 5), source, hooks);
      code == NoAbort && Configured(p'.od) && EventTimerUs(p'.od, ch) == 1000 * Number(source)
  {
    hide Inv, Field, OdWrite, ValidateConfig, Configured, GetSize, Number;
    InvConfigured(p);
    SizeIsNumber(source);
    TimesAreUnchecked(p.od, p.fd, ch, source);
    WrittenIsStored(p, CommKey(Tx, ch, 3), source, hooks);
    WrittenIsStored(p, CommKey(Tx, ch, 5), source, hooks);
  }

  /** Why a mapping word is refused. */
  lemma WordRefused(entries: seq<Entry>, w: nat, d: Direction)
    ensures var code, e := ValidateWord(entries, w, d),
                           Find(entries, OdKey(w / 0x1_0000 % 0x1_0000, w / 0x100 % 0x100));
      var named := e.Some? && e.value.pdoMappable && e.value.size > 0 && w % 0x100 == 8 * e.value.size;
      && (!named ==> code == NotMappable)
      && (named && d.Rx? ==> code == if e.value.access == ReadOnly then AccessReadOnly else NoAbort)
      && (named && d.Tx? ==> code == if e.value.access == WriteOnly then AccessWriteOnly else NoAbort)
  {
  }

  lemma WordIsChecked(od: Od, fd: bool, d: Direction, ch: Channel, i: nat, source: seq<byte>)
    requires Configured(od) && i < MAX_MAPPINGS && |source| == 4
    ensures ValidateConfig(od, fd, MapKey(d, ch, i + 1), source)
         == if Count(od, d, ch) != 0 then DeviceState else ValidateWord(od.entries, Number(source), d)
  {
    hide ValidateWord, ValidateWords, Words, Field, Configured, GetSize32, Number;
    KeyReadsBack(d, ch, i + 1);
    SizeIsNumber(source);
  }

  /** A mapping word can be written while the mapping is off, if it is mappable. */
  lemma WordWritten(p: Manager, d: Direction, ch: Channel, i: nat, source: seq<byte>, hooks: Hooks)
    requires Inv(p) && i < MAX_MAPPINGS && |source| == 4
    ensures Configured(p.od)
    ensures var key := OdKey(if d.Rx? then 0x1600 + ch else 0x1A00 + ch, i + 1);
      var (code, p') := OdWrite(p, key, source, hooks);
      && code == (if Count(p.od, d, ch) != 0 then DeviceState else ValidateWord(p.od.entries, Number(source), d))
      && Configured(p'.od) && (code == NoAbort ==> Word(p'.od, d, ch, i) == Number(source))
  {
    hide Inv, Field, OdWrite, ValidateConfig, ValidateWord, Configured, GetSize32, Number, Count;
    InvConfigured(p);
    SizeIsNumber(source);
    WordIsChecked(p.od, p.fd, d, ch, i, source);
    WrittenIsStored(p, MapKey(d, ch, i + 1), source, hooks);
  }

  lemma CountIsChecked(od: Od, fd: bool, d: Direction, ch: Channel, source: seq<byte>)
    requires Configured(od) && |source| == 1
    ensures var n := source[0] as int;
      ValidateConfig(od, fd, MapKey(d, ch, 0), source)
      == if n > 16 then ValueRange else ValidateWords(od.entries, Words(od, d, ch, n), d, fd)
  {
    hide ValidateWord, ValidateWords, Words, Field, Configured;
    KeyReadsBack(d, ch, 0);
  }

  /** A mapping is switched on by its number of words if these are safe; otherwise the client is told whether
      there are too many words, one that is not mappable, or too many bits for a frame. */
  lemma CountWritten(p: Manager, d: Direction, ch: Channel, source: seq<byte>, hooks: Hooks)
    requires Inv(p) && |source| == 1
    ensures Configured(p.od)
    ensures var key, n := OdKey(if d.Rx? then 0x1600 + ch else 0x1A00 + ch, 0), source[0] as int;
      var (code, p') := OdWrite(p, key, source, hooks);
      && (n > 16 ==> code == ValueRange)
      && (n <= 16 ==>
            var ws := Words(p.od, d, ch, n);
            && (code == NoAbort <==> MappingSafe(p.od.entries, ws, d, p.fd))
            && (code == PdoLengthExceeded <==>
                  && TotalBits(ws) > (if p.fd then 512 else 64)
                  && forall k :: 0 <= k < n ==> Mappable(p.od.entries, ws[k], d)))
      && Configured(p'.od) && (code == NoAbort ==> Count(p'.od, d, ch) == n)
  {
    hide Inv, Field, OdWrite, ValidateConfig, ValidateWord, Configured, Words, MappingSafe, TotalBits, FirstBad,
         Mappable;
    InvConfigured(p);
    CountIsChecked(p.od, p.fd, d, ch, source);
    WrittenIsStored(p, MapKey(d, ch, 0), source, hooks);
    if source[0] as int <= 16 {
      var ws := Words(p.od, d, ch, source[0] as int);
      ValidateWordsExactly(p.od.entries, ws, d, p.fd);
      FirstBadExactly(p.od.entries, ws, d);
      NotTheLength(p.od.entries, ws, d);
    }
  }

  lemma {:induction false} NotTheLength(entries: seq<Entry>, ws: seq<nat>, d: Direction)
    ensures FirstBad(entries, ws, d) != PdoLengthExceeded
    decreases |ws|
  {
    if ws == [] {
    } else {
      NotTheLength(entries, ws[1..], d);
    }
  }

  lemma InvConfigured(p: Manager)
    requires Inv(p)
    ensures Configured(p.od)
  {
  }

  lemma WrittenIsStored(p: Manager, key: OdKey, source: seq<byte>, hooks: Hooks)
    requires Inv(p) && Hooked(key) && |source| == ConfigSize(key).value
    ensures Configured(p.od) && OdWrite(p, key, source, hooks).0 == ValidateConfig(p.od, p.fd, key, source)
    ensures var (code, p') := OdWrite(p, key, source, hooks);
      Configured(p'.od) && (code == NoAbort ==> Field(p'.od, key) == source)
  {
    hide Inv, Field, Write, ManagerHooks, ValidateConfig;
    HookDecides(p, key, source, hooks);
    FieldAfterWrite(p.od, key, source, ManagerHooks(p.od, p.fd, hooks), key);
  }

  // ----- a fresh node

  /** Every parameter stands at the default of this node number. */
  ghost predicate AtDefaults(od: Od, nodeId: u8) {
    var defaults := InPlace.Defaults(nodeId, od.bigEndian);
    forall key :: IsConfig(key) ==> key in od.storage && key in defaults && od.storage[key] == defaults[key]
  }

  lemma DefaultField(od: Od, nodeId: u8, key: OdKey)
    requires Configured(od) && AtDefaults(od, nodeId) && IsConfig(key)
    ensures Field(od, key) == InPlace.DefaultBytes(nodeId, key)
  {
    hide InPlace.DefaultBytes, InPlace.KeysBelow;
    InPlace.KeysBelowAre(PDO_COUNT);
    SwapTwice(ConfigEntry(key), od.bigEndian, InPlace.DefaultBytes(nodeId, key));
  }

  /** The identifiers of the predefined connection set, nothing mapped, event-driven without timers. */
  lemma DefaultParameters(od: Od, nodeId: u8, d: Direction, ch: Channel)
    requires Configured(od) && AtDefaults(od, nodeId)
    ensures CobId(od, Rx, ch) == 0x200 + 0x100 * ch + nodeId
    ensures CobId(od, Tx, ch) == 0x4000_0180 + 0x100 * ch + nodeId
    ensures Count(od, d, ch) == 0 && TransmissionType(od, ch) == 255
    ensures InhibitUs(od, ch) == 0 && EventTimerUs(od, ch) == 0
  {
    hide Configured, AtDefaults, Field;
    DefaultField(od, nodeId, CommKey(Rx, ch, 1));
    DefaultField(od, nodeId, CommKey(Tx, ch, 1));
    DefaultField(od, nodeId, MapKey(d, ch, 0));
    DefaultField(od, nodeId, CommKey(Tx, ch, 2));
    DefaultField(od, nodeId, CommKey(Tx, ch, 3));
    DefaultField(od, nodeId, CommKey(Tx, ch, 5));
    KeyReadsBack(Rx, ch, 1);
    KeyReadsBack(Tx, ch, 1);
    KeyReadsBack(d, ch, 0);
    KeyReadsBack(Tx, ch, 2);
    KeyReadsBack(Tx, ch, 3);
    KeyReadsBack(Tx, ch, 5);
  }

  /** So a fresh node n listens to 0x200 + n, 0x300 + n, 0x400 + n and 0x500 + n, each on its own channel. */
  lemma FreshNodeListens(od: Od, nodeId: u8, ch: Channel)
    requires Configured(od) && AtDefaults(od, nodeId) && 1 <= nodeId <= 127
    ensures Listener(od, 0x200 + 0x100 * ch + nodeId, 0) == Some(ch)
  {
    hide Configured, AtDefaults, CobId;
    forall k: Channel ensures CobId(od, Rx, k) == 0x200 + 0x100 * k + nodeId {
      DefaultParameters(od, nodeId, Rx, k);
    }
    TheListener(od, ch, 0x200 + 0x100 * ch + nodeId);
  }

  /** A reset brings a node back to that. */
  lemma ResetIsFresh(p: Manager, nodeId: u8)
    requires Inv(p) && p.defaults == InPlace.Defaults(nodeId, p.od.bigEndian)
    ensures Inv(ResetCommunication(p)) && AtDefaults(ResetCommunication(p).od, nodeId)
  {
    hide InPlace.Defaults;
    ResetKeepsInv(p);
  }
}

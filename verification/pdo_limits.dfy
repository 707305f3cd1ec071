/** Where transmitting falls short of what is promised, at real inputs: validation accepts entries of any
    length, but values are collected through eight bytes; and a transmission at time zero is forgotten. */
module PdoLimits {
  import opened Bytes
  import opened Wrappers
  import opened ObjectDictionary
  import opened Pdo
  import opened PdoSafety
  import opened PdoTransport
  import opened PdoConfiguration
  import opened PdoTiming
  import InPlace = PdoInPlace

  /** The words in force on a transmit channel. */
  function TxWords(p: Manager, ch: Channel): seq<nat>
    requires Inv(p)
  {
    RefreshFacts(p, Tx, ch);
    Words(p.od, Tx, ch, Count(p.od, Tx, ch))
  }

  /** A channel without reading hooks hands a frame to the transport if and only if it is enabled, mapped,
      not inhibited, and every mapped entry has at most 64 bits. */
  lemma TransmitsExactly(p: Manager, ch: Channel, now: nat, sendOk: bool, hooks: Hooks)
    requires Inv(p) && forall i :: 0 <= i < |TxWords(p, ch)| ==> NoReadHook(p.od, TxWords(p, ch)[i])
    ensures var ws := TxWords(p, ch);
      Transmit(p, ch, now, sendOk, hooks).1.Sent? <==>
        && CobEnabled(CobId(p.od, Tx, ch)) && ws != [] && !Inhibited(p.od, ch, p.tx[ch], now)
        && forall i :: 0 <= i < |ws| ==> WordBits(ws[i]) <= 64
  {
    hide Transmit, Inv, Configured, Gather, NoReadHook, Decode, Mappable, Inhibited, CobId, Words;
    AttemptUncached(p, ch, now, sendOk, hooks);
    RefreshFacts(p, Tx, ch);
    InvIsValid(p);
    TransmittableExactly(p.od, TxWords(p, ch), hooks);
  }

  lemma InvIsValid(p: Manager)
    requires Inv(p)
    ensures Configured(p.od) && p.od.Valid()
  {
  }

  // ----- a mapping that is accepted and never sent

  /** The mapping word for an entry of the given length. */
  function WordFor(key: OdKey, size: nat): nat
    requires size < 32
  {
    key.index * 0x1_0000 + key.subindex * 0x100 + size * 8
  }

  lemma WordForParts(key: OdKey, size: nat)
    requires size < 32
    ensures WordKey(WordFor(key, size)) == key && WordBits(WordFor(key, size)) == size * 8
    ensures WordFor(key, size) < 0x1_0000_0000
  {
    assert WordFor(key, size) / 0x100 == key.index * 0x100 + key.subindex;
  }

  /** In every manager with FD: mapping a readable entry of 9 to 31 bytes is accepted, and from then on the
      channel sends nothing, whenever it is asked. */
  lemma LongEntryNeverSent(p: Manager, ch: Channel, e: Entry, configuring: Hooks, now: nat, sendOk: bool, hooks: Hooks)
    requires Inv(p) && p.fd && Find(p.od.entries, e.key) == Some(e)
    requires e.pdoMappable && e.access.Readable() && !e.readHook && 8 < e.size < 32
    ensures var words := [WordFor(e.key, e.size)];
      && Sendable(words) && Configured(p.od)
      && (forall j :: 0 <= j < |MappingDownloads(words)| ==> Addressed(MappingDownloads(words)[j]))
      && var (code, p') := ApplyAll(p, Tx, ch, MappingDownloads(words), configuring);
         && code == NoAbort && Inv(p') && SameElsewhere(p, p', Tx, ch) && TxWords(p', ch) == words
         && Transmit(p', ch, now, sendOk, hooks).1 == Nothing
  {
    hide Transmit, Inv, Configured, Mappable, Words, Count, ApplyAll, MappingDownloads, Downloads, Decode, WordFor,
         Addressed;
    var words := [WordFor(e.key, e.size)];
    WordForParts(e.key, e.size);
    LongEntryIsSafe(p.od.entries, e);
    ConfigurationTakesEffect(p, Tx, ch, words, configuring);
    var p' := ApplyAll(p, Tx, ch, MappingDownloads(words), configuring).1;
    RefreshFacts(p', Tx, ch);
    TransmitsExactly(p', ch, now, sendOk, hooks);
    assert WordBits(TxWords(p', ch)[0]) > 64;
    NotSentIsNothing(p', ch, now, sendOk, hooks);
  }

  lemma LongEntryIsSafe(entries: seq<Entry>, e: Entry)
    requires Find(entries, e.key) == Some(e) && e.pdoMappable && e.access.Readable() && 0 < e.size < 32
    ensures MappingSafe(entries, [WordFor(e.key, e.size)], Tx, true)
  {
    hide WordFor, WordKey, WordBits, Find;
    WordForParts(e.key, e.size);
    assert TotalBits([WordFor(e.key, e.size)]) == e.size * 8 + TotalBits([]);
  }

  lemma NotSentIsNothing(p: Manager, ch: Channel, now: nat, sendOk: bool, hooks: Hooks)
    requires Inv(p) && !Transmit(p, ch, now, sendOk, hooks).1.Sent?
    ensures Transmit(p, ch, now, sendOk, hooks).1 == Nothing
  {
    hide Transmit;
  }

  // ----- such a manager exists

  /** A string of sixteen bytes. */
  const LONG_ENTRY := Entry(OdKey(0x2100, 1), OctetString, ReadOnly, true, 16, false, false)

  /** An application entry beside the configuration. */
  predicate Beside(e: Entry) {
    !IsConfig(e.key) && e.size > 0
  }

  function ExampleEntries(e: Entry): seq<Entry> {
    InPlace.KeysBelowAre(PDO_COUNT);
    var keys := InPlace.KeysBelow(PDO_COUNT);
    [e] + seq(|keys|, i requires 0 <= i < |keys| => assert keys[i] in keys; ConfigEntry(keys[i]))
  }

  /** A manager right after registration, beside one application entry. */
  function ExampleManager(nodeId: u8, e: Entry): Manager {
    var defaults := InPlace.Defaults(nodeId, false);
    Manager(Od(ExampleEntries(e), defaults[e.key := Zeros(e.size)], false), true, 1,
            seq(PDO_COUNT, _ => EMPTY_RUNTIME), seq(PDO_COUNT, _ => EMPTY_RUNTIME), 0, 0, defaults)
  }

  lemma ExampleEntriesAre(e: Entry)
    requires Beside(e)
    ensures var entries := ExampleEntries(e);
      && |entries| == 173
      && (forall i, j :: 0 <= i < j < |entries| ==> entries[i].key != entries[j].key)
      && (forall i :: 0 <= i < |entries| ==>
            entries[i] == e || (IsConfig(entries[i].key) && entries[i] == ConfigEntry(entries[i].key)))
      && e in entries && (forall key :: IsConfig(key) ==> ConfigEntry(key) in entries)
  {
    hide IsConfig, InPlace.KeysBelow;
    InPlace.KeysBelowAre(PDO_COUNT);
    var keys, entries := InPlace.KeysBelow(PDO_COUNT), ExampleEntries(e);
    assert entries[0] == e;
    forall i | 1 <= i < |entries| ensures IsConfig(entries[i].key) && entries[i] == ConfigEntry(entries[i].key) {
      assert keys[i - 1] in keys;
    }
    forall i, j | 0 <= i < j < |entries| ensures entries[i].key != entries[j].key {
      if i > 0 {
        assert keys[i - 1] != keys[j - 1];
      }
    }
    forall key | IsConfig(key) ensures ConfigEntry(key) in entries {
      var i :| 0 <= i < |keys| && keys[i] == key;
      assert entries[i + 1] == ConfigEntry(key);
    }
  }

  lemma ConfigEntryFits(nodeId: u8, key: OdKey)
    requires IsConfig(key)
    ensures var defaults := InPlace.Defaults(nodeId, false);
      key in defaults && |defaults[key]| == ConfigEntry(key).size > 0
  {
    InPlace.DefaultsAreOk(nodeId, false);
    hide InPlace.Defaults;
  }

  lemma ExampleIsValid(nodeId: u8, e: Entry)
    requires Beside(e)
    ensures ExampleManager(nodeId, e).od.Valid()
  {
    hide ExampleEntries, InPlace.Defaults, IsConfig, ConfigEntry, Zeros;
    ExampleEntriesAre(e);
    var od := ExampleManager(nodeId, e).od;
    forall i | 0 <= i < |od.entries|
      ensures od.entries[i].key in od.storage && od.entries[i].size > 0
      ensures |od.storage[od.entries[i].key]| == od.entries[i].size
    {
      if od.entries[i] != e {
        ConfigEntryFits(nodeId, od.entries[i].key);
      }
    }
  }

  lemma ExampleIsConfigured(nodeId: u8, e: Entry)
    requires Beside(e)
    ensures Configured(ExampleManager(nodeId, e).od)
    ensures Find(ExampleManager(nodeId, e).od.entries, e.key) == Some(e)
  {
    hide ExampleEntries, InPlace.Defaults, IsConfig, Find, Zeros;
    ExampleIsValid(nodeId, e);
    ExampleEntriesAre(e);
    FindUnique(ExampleEntries(e), e);
    forall key | IsConfig(key) ensures Find(ExampleEntries(e), key) == Some(ConfigEntry(key)) {
      FindUnique(ExampleEntries(e), ConfigEntry(key));
    }
  }

  /** The mapping of that string is accepted by a real manager on each channel, all of which are enabled and
      not inhibited; still nothing is ever sent for it. */
  lemma AcceptedAndNeverSent(nodeId: u8, ch: Channel, configuring: Hooks, now: nat, sendOk: bool, hooks: Hooks)
    ensures var p := ExampleManager(nodeId, LONG_ENTRY);
      && Inv(p) && Sendable([0x2100_0180])
      && (forall j :: 0 <= j < |MappingDownloads([0x2100_0180])| ==> Addressed(MappingDownloads([0x2100_0180])[j]))
      && var (code, p') := ApplyAll(p, Tx, ch, MappingDownloads([0x2100_0180]), configuring);
         && code == NoAbort && Inv(p') && CobEnabled(CobId(p'.od, Tx, ch)) && !Inhibited(p'.od, ch, p'.tx[ch], now)
         && Transmit(p', ch, now, sendOk, hooks).1 == Nothing
  {
    hide Inv, Configured, ExampleManager, ApplyAll, Transmit, MappingDownloads, Downloads, Addressed, CobId, Inhibited,
         SameElsewhere, TxWords, WordFor;
    var p := ExampleManager(nodeId, LONG_ENTRY);
    ExampleInv(nodeId, LONG_ENTRY);
    ExampleWord();
    LongEntryNeverSent(p, ch, LONG_ENTRY, configuring, now, sendOk, hooks);
    var p' := ApplyAll(p, Tx, ch, MappingDownloads([0x2100_0180]), configuring).1;
    InvIsValid(p');
    StillReady(nodeId, p', ch, now);
  }

  lemma ExampleWord()
    ensures WordFor(LONG_ENTRY.key, LONG_ENTRY.size) == 0x2100_0180
  {
  }

  lemma ExampleInv(nodeId: u8, e: Entry)
    requires Beside(e)
    ensures var p := ExampleManager(nodeId, e);
      Inv(p) && Configured(p.od) && p.fd && Find(p.od.entries, e.key) == Some(e)
  {
    hide ExampleEntries, Inv, Configured;
    ExampleIsConfigured(nodeId, e);
    InPlace.DefaultsAreOk(nodeId, false);
    ConstructedInv(ExampleManager(nodeId, e));
  }

  lemma StillReady(nodeId: u8, p': Manager, ch: Channel, now: nat)
    requires Configured(ExampleManager(nodeId, LONG_ENTRY).od) && Configured(p'.od)
    requires SameElsewhere(ExampleManager(nodeId, LONG_ENTRY), p', Tx, ch)
    ensures CobEnabled(CobId(p'.od, Tx, ch)) && !Inhibited(p'.od, ch, p'.tx[ch], now)
  {
    hide ExampleEntries, Configured, SameElsewhere, CobId, InhibitUs;
    ExampleIsEnabled(nodeId, LONG_ENTRY, ch);
    SameChannel(ExampleManager(nodeId, LONG_ENTRY), p', ch);
  }

  lemma SameChannel(p: Manager, p': Manager, ch: Channel)
    requires Configured(p.od) && Configured(p'.od) && SameElsewhere(p, p', Tx, ch)
    ensures CobId(p'.od, Tx, ch) == CobId(p.od, Tx, ch) && InhibitUs(p'.od, ch) == InhibitUs(p.od, ch)
    ensures p'.tx == p.tx && p'.od.entries == p.od.entries
  {
    FoundIsStored(p.od, CommKey(Tx, ch, 1));
    FoundIsStored(p.od, CommKey(Tx, ch, 3));
  }

  lemma ExampleIsEnabled(nodeId: u8, e: Entry, ch: Channel)
    requires Beside(e)
    ensures Configured(ExampleManager(nodeId, e).od) && CobEnabled(CobId(ExampleManager(nodeId, e).od, Tx, ch))
  {
    hide ExampleEntries, InPlace.KeysBelow;
    ExampleIsConfigured(nodeId, e);
    InPlace.KeysBelowAre(PDO_COUNT);
    KeyReadsBack(Tx, ch, 1);
    assert IsConfig(CommKey(Tx, ch, 1));
  }

  // ----- two frames in one inhibit time

  /** One mappable byte. */
  const SHORT_ENTRY := Entry(OdKey(0x2100, 1), Unsigned8, ReadOnly, true, 1, false, false)

  lemma InhibitIsUnchecked(p: Manager, ch: Channel, source: seq<byte>, hooks: Hooks)
    requires Configured(p.od) && |source| == 2
    ensures OdWrite(p, CommKey(Tx, ch, 3), source, hooks).0 == NoAbort
  {
    hide ValidateWords, ValidateWord, Field, GetSize32, Words;
    var key := CommKey(Tx, ch, 3);
    assert ValidateConfig(p.od, p.fd, key, source) == NoAbort;
    assert ManagerHooks(p.od, p.fd, hooks).write(key, source) == NoAbort;
    assert Find(p.od.entries, key) == Some(ConfigEntry(key));
  }

  /** The inhibit time of a channel can always be set. */
  lemma InhibitIsSet(p: Manager, ch: Channel, source: seq<byte>, hooks: Hooks)
    requires Inv(p) && |source| == 2
    ensures var (code, p') := OdWrite(p, CommKey(Tx, ch, 3), source, hooks);
      && code == NoAbort && Inv(p') && InhibitUs(p'.od, ch) == GetSize(source) * 100
      && CobId(p'.od, Tx, ch) == CobId(p.od, Tx, ch) && p' == p.(od := p'.od, revision := p'.revision)
      && p'.od.entries == p.od.entries
  {
    hide Inv, Configured, ManagerHooks, Write, Field, GetSize, GetSize32;
    var key := CommKey(Tx, ch, 3);
    InvIsConfigured(p);
    OdWriteKeepsInv(p, key, source, hooks);
    InhibitIsUnchecked(p, ch, source, hooks);
    WriteKeepsEntries(p, key, source, hooks);
    FieldAfterWrite(p.od, key, source, ManagerHooks(p.od, p.fd, hooks), key);
    FieldAfterWrite(p.od, key, source, ManagerHooks(p.od, p.fd, hooks), CommKey(Tx, ch, 1));
  }

  /** A manager whose clock starts at zero sends two frames within the inhibit time of one channel. */
  lemma ForgottenAtZero(nodeId: u8, ch: Channel, configuring: Hooks, now: nat, sendOk: bool, hooks: Hooks)
    requires now < 1000
    ensures var p, words := ExampleManager(nodeId, SHORT_ENTRY), [0x2100_0108];
      && Inv(p) && Sendable(words)
      && (forall j :: 0 <= j < |MappingDownloads(words)| ==> Addressed(MappingDownloads(words)[j]))
      && var (written, p1) := OdWrite(p, CommKey(Tx, ch, 3), PutSize(10), configuring);
         && written == NoAbort && Inv(p1)
         && var (mapped, p2) := ApplyAll(p1, Tx, ch, MappingDownloads(words), configuring);
            && mapped == NoAbort && Inv(p2) && InhibitUs(p2.od, ch) == 1000
            && var (p3, first) := Transmit(p2, ch, 0, true, hooks);
               && first.Sent? && first.ok && Inv(p3) && Transmit(p3, ch, now, sendOk, hooks).1.Sent?
  {
    hide Inv, Configured, ExampleManager, ApplyAll, Transmit, MappingDownloads, Downloads, Addressed, CobId, InhibitUs,
         SameElsewhere, OdWrite, Words, Count, WordFor, Find, Decode;
    var p, words := ExampleManager(nodeId, SHORT_ENTRY), [0x2100_0108];
    ExampleInv(nodeId, SHORT_ENTRY);
    ExampleIsEnabled(nodeId, SHORT_ENTRY, ch);
    InhibitIsSet(p, ch, PutSize(10), configuring);
    var p1 := OdWrite(p, CommKey(Tx, ch, 3), PutSize(10), configuring).1;
    ShortWord();
    LongEntryIsSafe(p1.od.entries, SHORT_ENTRY);
    ConfigurationTakesEffect(p1, Tx, ch, words, configuring);
    var p2 := ApplyAll(p1, Tx, ch, MappingDownloads(words), configuring).1;
    InvIsConfigured(p2);
    SameChannel(p1, p2, ch);
    ExampleIsFresh(nodeId, ch);
    ShortIsSent(p2, ch, hooks);
    InhibitExactly(p2, ch, 0, now, sendOk, hooks);
  }

  lemma ShortWord()
    ensures WordFor(SHORT_ENTRY.key, SHORT_ENTRY.size) == 0x2100_0108
    ensures WordKey(0x2100_0108) == SHORT_ENTRY.key && WordBits(0x2100_0108) == 8
  {
  }

  lemma ShortIsSent(p: Manager, ch: Channel, hooks: Hooks)
    requires Inv(p) && Configured(p.od) && Find(p.od.entries, SHORT_ENTRY.key) == Some(SHORT_ENTRY)
    requires Count(p.od, Tx, ch) == 1 && Words(p.od, Tx, ch, 1) == [0x2100_0108]
    requires CobEnabled(CobId(p.od, Tx, ch)) && p.tx[ch].lastTransmit == 0
    ensures Transmit(p, ch, 0, true, hooks).1.Sent? && Transmit(p, ch, 0, true, hooks).1.ok
  {
    hide Inv, Configured, Transmit, CobId, InhibitUs, Words, Count, Find, WordKey, WordBits;
    ShortWord();
    TransmitsExactly(p, ch, 0, true, hooks);
    SentIsOk(p, ch, 0, hooks);
  }

  lemma ExampleIsFresh(nodeId: u8, ch: Channel)
    ensures ExampleManager(nodeId, SHORT_ENTRY).tx[ch].lastTransmit == 0 && ExampleManager(nodeId, SHORT_ENTRY).fd
  {
  }
}

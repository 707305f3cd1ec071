/** Safety of the PDO manager over every run, and the proof that its cache cannot be observed. */
module PdoSafety {
  import opened Bytes
  import opened Wrappers
  import opened ObjectDictionary
  import opened Pdo
  import Can

  // ----- what one write does to the configuration

  lemma FieldAfterWrite(od: Od, key: OdKey, source: seq<byte>, hooks: Hooks, other: OdKey)
    requires Configured(od) && IsConfig(other)
    ensures var (code, od') := Write(od, key, source, hooks);
      && Configured(od')
      && Field(od', other) == if code == NoAbort && other == key then source else Field(od, other)
  {
    FoundIsStored(od, other);
    if Find(od.entries, key).Some? {
      SwapTwice(Find(od.entries, key).value, od.bigEndian, source);
    }
  }

  /** The two dictionaries hold the same configuration. */
  ghost predicate SameConfig(od: Od, od': Od)
    requires Configured(od) && Configured(od')
  {
    od'.entries == od.entries && forall key :: IsConfig(key) ==> Field(od', key) == Field(od, key)
  }

  lemma SameConfigSameMapping(od: Od, od': Od, d: Direction, ch: Channel)
    requires Configured(od) && Configured(od') && SameConfig(od, od')
    ensures Count(od', d, ch) == Count(od, d, ch)
    ensures Count(od, d, ch) <= MAX_MAPPINGS ==>
      Words(od', d, ch, Count(od, d, ch)) == Words(od, d, ch, Count(od, d, ch))
    ensures CobId(od', d, ch) == CobId(od, d, ch)
  {
    hide Configured, Field;
    assert IsConfig(MapKey(d, ch, 0)) && IsConfig(CommKey(d, ch, 1));
    forall i | 0 <= i < MAX_MAPPINGS ensures Word(od', d, ch, i) == Word(od, d, ch, i) {
      assert IsConfig(MapKey(d, ch, i + 1));
    }
  }

  /** Writes that are refused, or go to an entry the manager does not guard, leave the configuration
      alone, and with it every cached mapping. */
  lemma OtherWriteKeepsInv(p: Manager, key: OdKey, source: seq<byte>, hooks: Hooks)
    requires Inv(p) && (!Hooked(key) || OdWrite(p, key, source, hooks).0 != NoAbort)
    ensures var p' := OdWrite(p, key, source, hooks).1;
      Inv(p') && SameConfig(p.od, p'.od) && p'.revision == p.revision
  {
    var p' := OdWrite(p, key, source, hooks).1;
    forall other | IsConfig(other) ensures Field(p'.od, other) == Field(p.od, other) {
      FieldAfterWrite(p.od, key, source, ManagerHooks(p.od, p.fd, hooks), other);
    }
    InvOfSameConfig(p, p');
  }

  lemma InvOfSameConfig(p: Manager, p': Manager)
    requires Inv(p) && Configured(p'.od) && SameConfig(p.od, p'.od)
    requires p' == p.(od := p'.od)
    ensures Inv(p')
  {
    hide Configured, DefaultsOk, Decoded, MappingSafe, SameConfig;
    forall d, ch: Channel ensures Safe(p'.od, p'.fd, d, ch) && Coherent(p', d, ch) {
      assert Safe(p.od, p.fd, d, ch) && Coherent(p, d, ch);
      SameConfigSameMapping(p.od, p'.od, d, ch);
      SameEntries(p.od, p'.od);
    }
  }

  lemma SameEntries(od: Od, od': Od)
    requires Configured(od) && Configured(od') && SameConfig(od, od')
    ensures od'.entries == od.entries
  {
  }

  /** An accepted configuration write leaves every mapping safe: the count is checked against the
      words in place, and words only change while the count is zero. */
  lemma ConfigWriteKeepsSafe(p: Manager, key: OdKey, source: seq<byte>, hooks: Hooks, d: Direction, ch: Channel)
    requires Inv(p) && Hooked(key) && OdWrite(p, key, source, hooks).0 == NoAbort
    ensures Safe(OdWrite(p, key, source, hooks).1.od, p.fd, d, ch)
  {
    var p' := OdWrite(p, key, source, hooks).1;
    AcceptedConfigWrite(p, key, source, hooks, d, ch);
    CountAfterWrite(p, key, source, hooks, d, ch);
    WriteKeepsEntries(p, key, source, hooks);
    assert Safe(p.od, p.fd, d, ch);
    hide Configured, Field, DefaultsOk, MappingSafe, ValidateWords, OdWrite;
    var n := Count(p'.od, d, ch);
    if IsWordKey(key, d, ch) {
      assert n == 0;
      NoWordsAreSafe(p.od.entries, d, p.fd);
      assert Words(p'.od, d, ch, 0) == [];
    } else {
      WordsAfterWrite(p, key, source, hooks, d, ch, n);
      ValidateWordsExactly(p.od.entries, Words(p.od, d, ch, n), d, p.fd);
    }
  }

  predicate IsWordKey(key: OdKey, d: Direction, ch: Channel) {
    1 <= key.subindex <= MAX_MAPPINGS && key == MapKey(d, ch, key.subindex)
  }

  lemma AcceptedIsValidated(p: Manager, key: OdKey, source: seq<byte>, hooks: Hooks)
    requires Configured(p.od) && Hooked(key) && OdWrite(p, key, source, hooks).0 == NoAbort
    ensures |source| == ConfigSize(key).value && ValidateConfig(p.od, p.fd, key, source) == NoAbort
  {
    hide ValidateConfig;
  }

  /** What the hook has checked when it accepts. */
  lemma AcceptedConfigWrite(p: Manager, key: OdKey, source: seq<byte>, hooks: Hooks, d: Direction, ch: Channel)
    requires Configured(p.od) && Hooked(key) && OdWrite(p, key, source, hooks).0 == NoAbort
    ensures |source| == ConfigSize(key).value
    ensures key == MapKey(d, ch, 0) ==>
      var n := source[0] as int;
      n <= MAX_MAPPINGS && ValidateWords(p.od.entries, Words(p.od, d, ch, n), d, p.fd) == NoAbort
    ensures IsWordKey(key, d, ch) ==> Count(p.od, d, ch) == 0
  {
    AcceptedIsValidated(p, key, source, hooks);
    KeyReadsBack(d, ch, key.subindex);
    hide Configured, Field, ValidateWords, ValidateWord, Write, OdWrite, CobId, DirectionOf, ChannelOf, Words, Count,
         GetSize32;
  }

  lemma CountAfterWrite(p: Manager, key: OdKey, source: seq<byte>, hooks: Hooks, d: Direction, ch: Channel)
    requires Configured(p.od) && Hooked(key) && OdWrite(p, key, source, hooks).0 == NoAbort
    ensures |source| == ConfigSize(key).value
    ensures Count(OdWrite(p, key, source, hooks).1.od, d, ch)
         == if key == MapKey(d, ch, 0) then source[0] as int else Count(p.od, d, ch)
  {
    FieldAfterWrite(p.od, key, source, ManagerHooks(p.od, p.fd, hooks), MapKey(d, ch, 0));
  }

  lemma WriteKeepsEntries(p: Manager, key: OdKey, source: seq<byte>, hooks: Hooks)
    requires Configured(p.od)
    ensures OdWrite(p, key, source, hooks).1.od.entries == p.od.entries
  {
  }

  lemma NoWordsAreSafe(entries: seq<Entry>, d: Direction, fd: bool)
    ensures MappingSafe(entries, [], d, fd)
  {
  }

  lemma WordsAfterWrite(p: Manager, key: OdKey, source: seq<byte>, hooks: Hooks, d: Direction, ch: Channel, n: nat)
    requires Configured(p.od) && n <= MAX_MAPPINGS
    requires !IsWordKey(key, d, ch)
    ensures Words(OdWrite(p, key, source, hooks).1.od, d, ch, n) == Words(p.od, d, ch, n)
  {
    forall i | 0 <= i < n ensures Word(OdWrite(p, key, source, hooks).1.od, d, ch, i) == Word(p.od, d, ch, i) {
      FieldAfterWrite(p.od, key, source, ManagerHooks(p.od, p.fd, hooks), MapKey(d, ch, i + 1));
    }
  }

  /** Every write keeps the mappings safe and the caches coherent. */
  lemma OdWriteKeepsInv(p: Manager, key: OdKey, source: seq<byte>, hooks: Hooks)
    requires Inv(p)
    ensures Inv(OdWrite(p, key, source, hooks).1)
  {
    if !Hooked(key) || OdWrite(p, key, source, hooks).0 != NoAbort {
      OtherWriteKeepsInv(p, key, source, hooks);
    } else {
      var p' := OdWrite(p, key, source, hooks).1;
      assert p'.revision == p.revision + 1;
      forall d, ch: Channel ensures Safe(p'.od, p'.fd, d, ch) && Coherent(p', d, ch) {
        ConfigWriteKeepsSafe(p, key, source, hooks, d, ch);
        assert Safe(p.od, p.fd, d, ch) && Coherent(p, d, ch);
      }
    }
  }

  // ----- receiving keeps the configuration

  lemma MappedIsNotConfig(od: Od, w: nat, d: Direction)
    requires Configured(od) && Mappable(od.entries, w, d)
    ensures !IsConfig(WordKey(w)) && Find(od.entries, WordKey(w)).Some?
  {
  }

  /** The targets of a mapping are application entries. */
  ghost predicate OnlyTargets(m: Mapping) {
    forall i :: 0 <= i < |m| ==> !IsConfig(m[i].0)
  }

  lemma SafeTargets(od: Od, fd: bool, d: Direction, ch: Channel)
    requires Configured(od) && Safe(od, fd, d, ch)
    ensures OnlyTargets(MappingOf(od, d, ch))
  {
    var ws := Words(od, d, ch, Count(od, d, ch));
    forall i | 0 <= i < |ws| ensures !IsConfig(Decode(ws)[i].0) {
      assert Mappable(od.entries, ws[i], d);
      MappedIsNotConfig(od, ws[i], d);
    }
  }

  /** Distributing a frame, written without manager, cache or configuration hooks. */
  function Spread(od: Od, m: Mapping, data: seq<byte>, hooks: Hooks): (r: (bool, Od))
    requires od.Valid() && TotalLength(m) <= |data|
    ensures r.1.Valid()
    decreases |m|
  {
    if m == [] then (true, od)
    else
      var (code, od') := Write(od, m[0].0, data[..m[0].1], hooks);
      if code != NoAbort then (false, od') else Spread(od', m[1..], data[m[0].1..], hooks)
  }

  lemma TargetWriteIsPlain(p: Manager, key: OdKey, source: seq<byte>, hooks: Hooks)
    requires Configured(p.od) && !IsConfig(key)
    ensures var (code, od') := Write(p.od, key, source, hooks);
      OdWrite(p, key, source, hooks) == (code, p.(od := od'))
  {
  }

  lemma {:induction false} ScatterIsSpread(p: Manager, m: Mapping, data: seq<byte>, hooks: Hooks)
    requires Inv(p) && OnlyTargets(m) && TotalLength(m) <= |data|
    ensures var (done, od') := Spread(p.od, m, data, hooks);
      && Scatter(p, m, data, hooks) == (done, p.(od := od'))
      && Configured(od') && Inv(p.(od := od')) && SameConfig(p.od, od')
    decreases |m|
  {
    hide Inv, OdWrite, Write, Configured, SameConfig;
    NothingChanged(p);
    if m == [] {
      assert p.(od := p.od) == p;
    } else {
      var source := data[..m[0].1];
      assert !IsConfig(m[0].0);
      TargetWriteIsPlain(p, m[0].0, source, hooks);
      OtherWriteKeepsInv(p, m[0].0, source, hooks);
      var (code, p') := OdWrite(p, m[0].0, source, hooks);
      if code == NoAbort {
        ScatterIsSpread(p', m[1..], data[m[0].1..], hooks);
        SameConfigTransitive(p.od, p'.od, Spread(p'.od, m[1..], data[m[0].1..], hooks).1);
      }
    }
  }

  lemma NothingChanged(p: Manager)
    requires Inv(p)
    ensures Configured(p.od) && SameConfig(p.od, p.od)
  {
  }

  lemma SameConfigTransitive(a: Od, b: Od, c: Od)
    requires Configured(a) && Configured(b) && Configured(c) && SameConfig(a, b) && SameConfig(b, c)
    ensures SameConfig(a, c)
  {
  }

  /** Receiving as if there were no cache: the words in force are decoded for every frame. */
  function HandleUncached(p: Manager, frame: Can.Frame, operational: bool, hooks: Hooks): (Od, bool)
    requires Inv(p)
  {
    if !Receivable(frame, operational) then (p.od, false)
    else
      var listener := Listener(p.od, frame.id, 0);
      if listener.None? then (p.od, false)
      else
        var ch: Channel := listener.value;
        RefreshFacts(p, Rx, ch);
        var m := MappingOf(p.od, Rx, ch);
        if m == [] || frame.size < TotalLength(m) then (p.od, true)
        else (Spread(p.od, m, frame.data, hooks).1, true)
  }

  /** The cache cannot be observed when receiving, and receiving never changes the configuration. */
  lemma HandleCacheTransparent(p: Manager, frame: Can.Frame, operational: bool, hooks: Hooks)
    requires Inv(p)
    ensures var (p', handled) := HandleFrame(p, frame, operational, hooks);
      && (p'.od, handled) == HandleUncached(p, frame, operational, hooks)
      && Inv(p') && SameConfig(p.od, p'.od) && p'.revision == p.revision
  {
    hide Scatter, Spread, SameConfig, Inv, Refreshed, MappingOf, Configured, Listener, Receivable, Safe;
    NothingChanged(p);
    if Receivable(frame, operational) && Listener(p.od, frame.id, 0).Some? {
      var ch: Channel := Listener(p.od, frame.id, 0).value;
      RefreshFacts(p, Rx, ch);
      RefreshKeepsInv(p, Rx, ch);
      SafeTargets(p.od, p.fd, Rx, ch);
      var r := Refreshed(p, Rx, ch);
      var p' := p.Put(Rx, ch, r);
      var m := MappingOf(p.od, Rx, ch);
      if r.valid && frame.size >= r.payloadSize {
        ScatterIsSpread(p', m, frame.data, hooks);
        var (done, p'') := Scatter(p', m, frame.data, hooks);
        InvIgnoresCounters(p'', p''.received + (if done then 1 else 0), p''.transmitted);
      }
    }
  }

  /** Transmitting as if there were no cache. */
  function FrameUncached(p: Manager, ch: Channel, now: nat, hooks: Hooks): Option<Can.Frame>
    requires Inv(p)
  {
    RefreshFacts(p, Tx, ch);
    var m := MappingOf(p.od, Tx, ch);
    if !CobEnabled(CobId(p.od, Tx, ch)) || m == [] || Inhibited(p.od, ch, p.tx[ch], now) then None
    else
      var payload := Gather(p.od, m, hooks);
      if payload.None? then None else Some(FrameOf(CobId(p.od, Tx, ch), payload.value))
  }

  /** The cache cannot be observed when transmitting; the frame, if any, is a valid one of exactly
      the mapped length, never longer than the data of a frame. */
  lemma TransmitCacheTransparent(p: Manager, ch: Channel, now: nat, sendOk: bool, hooks: Hooks)
    requires Inv(p)
    ensures var (p', a) := Transmit(p, ch, now, sendOk, hooks);
      && a == (match FrameUncached(p, ch, now, hooks) case None => Nothing case Some(f) => Sent(f, sendOk))
      && p'.od == p.od && p'.revision == p.revision && Inv(p')
    ensures Count(p.od, Tx, ch) <= MAX_MAPPINGS
    ensures var a := Transmit(p, ch, now, sendOk, hooks).1;
      a.Sent? ==> a.frame.Valid() && (p.fd || !a.frame.fd) && a.frame.size == TotalLength(MappingOf(p.od, Tx, ch))
  {
    AttemptUncached(p, ch, now, sendOk, hooks);
    TransmitKeepsInv(p, ch, now, sendOk, hooks);
    TransmitChanges(p, ch, now, sendOk, hooks);
    hide Transmit, FrameUncached, Inv, MappingOf, Refreshed;
  }

  lemma AttemptUncached(p: Manager, ch: Channel, now: nat, sendOk: bool, hooks: Hooks)
    requires Inv(p)
    ensures var a, frame := Transmit(p, ch, now, sendOk, hooks).1, FrameUncached(p, ch, now, hooks);
      a == (match frame case None => Nothing case Some(f) => Sent(f, sendOk))
    ensures Count(p.od, Tx, ch) <= MAX_MAPPINGS
    ensures var a := Transmit(p, ch, now, sendOk, hooks).1;
      a.Sent? ==> a.frame.Valid() && (p.fd || !a.frame.fd) && a.frame.size == TotalLength(MappingOf(p.od, Tx, ch))
  {
    hide Inv, Refreshed, MappingOf, Configured, Gather, Safe, CobId, InhibitUs, Manager.Put;
    RefreshFacts(p, Tx, ch);
  }

  // ----- reset, and whole runs

  lemma ResetKeepsInv(p: Manager)
    requires Inv(p)
    ensures Inv(ResetCommunication(p))
    ensures forall d, ch: Channel :: Count(ResetCommunication(p).od, d, ch) == 0
  {
    var p' := ResetCommunication(p);
    ResetIsConfigured(p);
    forall d, ch: Channel ensures Count(p'.od, d, ch) == 0 && Safe(p'.od, p'.fd, d, ch) && Coherent(p', d, ch) {
      assert MapKey(d, ch, 0) in p.defaults;
      NoWordsAreSafe(p'.od.entries, d, p'.fd);
      assert Words(p'.od, d, ch, 0) == [];
    }
  }

  /** A freshly constructed manager over a registered dictionary satisfies the invariant. */
  lemma ConstructedInv(p: Manager)
    requires Configured(p.od) && DefaultsOk(p.defaults) && p.revision == 1
    requires forall key :: key in p.defaults ==> key in p.od.storage && p.od.storage[key] == p.defaults[key]
    requires p.rx == p.tx == seq(PDO_COUNT, _ => EMPTY_RUNTIME)
    ensures Inv(p)
  {
    forall d, ch: Channel ensures Safe(p.od, p.fd, d, ch) && Coherent(p, d, ch) {
      assert MapKey(d, ch, 0) in p.defaults;
      NoWordsAreSafe(p.od.entries, d, p.fd);
      assert Count(p.od, d, ch) == 0 && Words(p.od, d, ch, 0) == [];
    }
  }

  lemma ResetIsConfigured(p: Manager)
    requires Configured(p.od) && DefaultsOk(p.defaults)
    ensures Configured(ResetCommunication(p).od)
  {
    var od' := ResetCommunication(p).od;
    forall i | 0 <= i < |od'.entries|
      ensures od'.entries[i].key in od'.storage && |od'.storage[od'.entries[i].key]| == od'.entries[i].size
    {
      var e := od'.entries[i];
      if e.key in p.defaults {
        FindUnique(od'.entries, e);
      }
    }
  }

  datatype Input =
    | WriteInput(key: OdKey, source: seq<byte>, hooks: Hooks)
    | FrameInput(frame: Can.Frame, operational: bool, hooks: Hooks)
    | SyncInput(now: nat, operational: bool, sendOk: nat -> bool, hooks: Hooks)
    | TimerInput(now: nat, operational: bool, sendOk: nat -> bool, hooks: Hooks)
    | ResetInput

  function Apply(p: Manager, input: Input): Manager
    requires Inv(p)
  {
    match input
    case WriteInput(key, source, hooks) => OdWrite(p, key, source, hooks).1
    case FrameInput(frame, operational, hooks) => HandleFrame(p, frame, operational, hooks).0
    case SyncInput(now, operational, sendOk, hooks) => OnSync(p, 0, now, operational, sendOk, hooks).0
    case TimerInput(now, operational, sendOk, hooks) => Process(p, 0, now, operational, sendOk, hooks).0
    case ResetInput => ResetCommunication(p)
  }

  lemma ApplyKeepsInv(p: Manager, input: Input)
    requires Inv(p)
    ensures Inv(Apply(p, input))
  {
    hide Inv, OdWrite, HandleFrame, ResetCommunication;
    match input
    case WriteInput(key, source, hooks) => OdWriteKeepsInv(p, key, source, hooks);
    case FrameInput(frame, operational, hooks) => HandleCacheTransparent(p, frame, operational, hooks);
    case ResetInput => ResetKeepsInv(p);
    case _ =>
  }

  ghost function Run(p: Manager, inputs: seq<Input>): (r: Manager)
    requires Inv(p)
    ensures Inv(r)
    decreases |inputs|
  {
    if inputs == [] then p
    else
      ApplyKeepsInv(p, inputs[0]);
      Run(Apply(p, inputs[0]), inputs[1..])
  }
}

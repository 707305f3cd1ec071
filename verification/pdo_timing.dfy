/** When a transmit channel sends, over whole runs: every n-th SYNC, and never within its inhibit time. */
module PdoTiming {
  import opened Arith
  import opened Bytes
  import opened Wrappers
  import opened ObjectDictionary
  import opened Pdo
  import opened PdoSafety
  import Can

  // ----- the attempts of one channel

  /** What one channel attempts at a SYNC, as the channels have their turn. */
  function SyncAttempts(p: Manager, turn: nat, ch: Channel, input: Input): seq<Attempt>
    requires Inv(p) && turn <= PDO_COUNT && input.SyncInput?
    decreases PDO_COUNT - turn
  {
    if !input.operational || turn == PDO_COUNT then []
    else
      var (p', a) := SyncChannel(p, turn, input.now, input.sendOk(turn), input.hooks);
      (if turn == ch then a else []) + SyncAttempts(p', turn + 1, ch, input)
  }

  /** What one channel attempts at a periodic call. */
  function TimerAttempts(p: Manager, turn: nat, ch: Channel, input: Input): seq<Attempt>
    requires Inv(p) && turn <= PDO_COUNT && input.TimerInput?
    decreases PDO_COUNT - turn
  {
    if !input.operational || turn == PDO_COUNT then []
    else
      var (p', a) := TimerChannel(p, turn, input.now, input.sendOk(turn), input.hooks);
      (if turn == ch then a else []) + TimerAttempts(p', turn + 1, ch, input)
  }

  function AttemptsOf(p: Manager, input: Input, ch: Channel): seq<Attempt>
    requires Inv(p)
  {
    if input.SyncInput? then SyncAttempts(p, 0, ch, input)
    else if input.TimerInput? then TimerAttempts(p, 0, ch, input)
    else []
  }

  /** Four parts in order, where those before the turn are empty. */
  predicate InTurn(turn: nat, all: seq<Attempt>, s0: seq<Attempt>, s1: seq<Attempt>, s2: seq<Attempt>,
      s3: seq<Attempt>)
  {
    && all == s0 + s1 + s2 + s3
    && (turn > 0 ==> s0 == []) && (turn > 1 ==> s1 == []) && (turn > 2 ==> s2 == []) && (turn > 3 ==> s3 == [])
  }

  lemma OneTurn(turn: Channel, a: seq<Attempt>, all: seq<Attempt>,
                s0: seq<Attempt>, s1: seq<Attempt>, s2: seq<Attempt>, s3: seq<Attempt>)
    requires InTurn(turn + 1, all, s0, s1, s2, s3)
    ensures InTurn(turn, a + all, (if turn == 0 then a else []) + s0, (if turn == 1 then a else []) + s1,
                   (if turn == 2 then a else []) + s2, (if turn == 3 then a else []) + s3)
  {
  }

  lemma {:induction false} SyncByChannel(p: Manager, turn: nat, input: Input)
    requires Inv(p) && turn <= PDO_COUNT && input.SyncInput?
    ensures InTurn(turn, OnSync(p, turn, input.now, input.operational, input.sendOk, input.hooks).1,
                   SyncAttempts(p, turn, 0, input), SyncAttempts(p, turn, 1, input),
                   SyncAttempts(p, turn, 2, input), SyncAttempts(p, turn, 3, input))
    decreases PDO_COUNT - turn
  {
    hide Inv, SyncChannel, InTurn;
    if !input.operational || turn == PDO_COUNT {
      NoTurn(turn);
    } else {
      var (p', a) := SyncChannel(p, turn, input.now, input.sendOk(turn), input.hooks);
      SyncByChannel(p', turn + 1, input);
      OneTurn(turn, a, OnSync(p', turn + 1, input.now, input.operational, input.sendOk, input.hooks).1,
              SyncAttempts(p', turn + 1, 0, input), SyncAttempts(p', turn + 1, 1, input),
              SyncAttempts(p', turn + 1, 2, input), SyncAttempts(p', turn + 1, 3, input));
    }
  }

  lemma {:induction false} TimerByChannel(p: Manager, turn: nat, input: Input)
    requires Inv(p) && turn <= PDO_COUNT && input.TimerInput?
    ensures InTurn(turn, Process(p, turn, input.now, input.operational, input.sendOk, input.hooks).1,
                   TimerAttempts(p, turn, 0, input), TimerAttempts(p, turn, 1, input),
                   TimerAttempts(p, turn, 2, input), TimerAttempts(p, turn, 3, input))
    decreases PDO_COUNT - turn
  {
    hide Inv, TimerChannel, InTurn;
    if !input.operational || turn == PDO_COUNT {
      NoTurn(turn);
    } else {
      var (p', a) := TimerChannel(p, turn, input.now, input.sendOk(turn), input.hooks);
      TimerByChannel(p', turn + 1, input);
      OneTurn(turn, a, Process(p', turn + 1, input.now, input.operational, input.sendOk, input.hooks).1,
              TimerAttempts(p', turn + 1, 0, input), TimerAttempts(p', turn + 1, 1, input),
              TimerAttempts(p', turn + 1, 2, input), TimerAttempts(p', turn + 1, 3, input));
    }
  }

  lemma NoTurn(turn: nat)
    ensures InTurn(turn, [], [], [], [], [])
  {
  }

  /** Every attempt is one channel's. */
  lemma AttemptsByChannel(p: Manager, input: Input)
    requires Inv(p) && (input.SyncInput? || input.TimerInput?)
    ensures AttemptsOf(p, input, 0) + AttemptsOf(p, input, 1) + AttemptsOf(p, input, 2) + AttemptsOf(p, input, 3)
         == if input.SyncInput? then OnSync(p, 0, input.now, input.operational, input.sendOk, input.hooks).1
            else Process(p, 0, input.now, input.operational, input.sendOk, input.hooks).1
  {
    hide Inv, SyncAttempts, TimerAttempts, OnSync, Process;
    if input.SyncInput? {
      SyncByChannel(p, 0, input);
    } else {
      TimerByChannel(p, 0, input);
    }
  }

  // ----- what an input does to the clocks of a channel

  /** The attempts of one input, and the time of the last success: nothing is sent while inhibited. */
  predicate Paced(od: Od, ch: Channel, before: Runtime, after: Runtime, now: nat, a: seq<Attempt>)
    requires Configured(od)
  {
    && |a| <= 1
    && (a != [] && a[0].Sent? ==> !Inhibited(od, ch, before, now))
    && after.lastTransmit == if a != [] && a[0].Sent? && a[0].ok then now else before.lastTransmit
  }

  lemma RefreshKeepsClocks(p: Manager, ch: Channel)
    requires Inv(p)
    ensures Count(p.od, Tx, ch) <= MAX_MAPPINGS
    ensures var r := Refreshed(p, Tx, ch);
      r.syncCounter == p.tx[ch].syncCounter && r.lastTransmit == p.tx[ch].lastTransmit
  {
    hide Inv, Configured, ValidateWords, Words, TotalBytes, KeysOf, LengthsOf, Safe;
    RefreshFacts(p, Tx, ch);
  }

  lemma TransmitIsPaced(p: Manager, ch: Channel, now: nat, sendOk: bool, hooks: Hooks)
    requires Inv(p)
    ensures var (p', a) := Transmit(p, ch, now, sendOk, hooks);
      && p'.od == p.od && Paced(p.od, ch, p.tx[ch], p'.tx[ch], now, [a])
      && p'.tx[ch].syncCounter == p.tx[ch].syncCounter
      && forall other: Channel :: other != ch ==> p'.tx[other] == p.tx[other]
  {
    hide Inv, Configured, Refreshed, Gather, FrameOf, CobId, MappingOf, Safe, InhibitUs;
    RefreshFacts(p, Tx, ch);
    RefreshKeepsClocks(p, ch);
  }

  lemma SyncIsPaced(p: Manager, ch: Channel, now: nat, sendOk: bool, hooks: Hooks)
    requires Inv(p)
    ensures var (p', a) := SyncChannel(p, ch, now, sendOk, hooks);
      && Paced(p.od, ch, p.tx[ch], p'.tx[ch], now, a) && Counted(p.od, ch, p.tx[ch], p'.tx[ch], |a|)
      && forall other: Channel :: other != ch ==> p'.tx[other] == p.tx[other]
  {
    hide Inv, Configured, Transmit, InhibitUs, TransmissionType;
    InvIsConfigured(p);
    var n, count := TransmissionType(p.od, ch), p.tx[ch].syncCounter + 1;
    var p' := p.Put(Tx, ch, p.tx[ch].(syncCounter := if count >= n then 0 else count));
    TouchKeepsInv(p, ch, p'.tx[ch]);
    TransmitIsPaced(p', ch, now, sendOk, hooks);
  }

  lemma TimerIsPaced(p: Manager, ch: Channel, now: nat, sendOk: bool, hooks: Hooks)
    requires Inv(p)
    ensures var (p', a) := TimerChannel(p, ch, now, sendOk, hooks);
      && Paced(p.od, ch, p.tx[ch], p'.tx[ch], now, a) && Uncounted(p.od, ch, p.tx[ch], p'.tx[ch], |a|)
      && forall other: Channel :: other != ch ==> p'.tx[other] == p.tx[other]
  {
    hide Inv, Configured, Transmit, InhibitUs, TransmissionType, EventTimerUs;
    InvIsConfigured(p);
    TransmitIsPaced(p, ch, now, sendOk, hooks);
  }

  lemma InvIsConfigured(p: Manager)
    requires Inv(p)
    ensures Configured(p.od)
  {
  }

  /** One SYNC: the counter runs up to the transmission type, and an attempt takes it back to zero. */
  predicate Counted(od: Od, ch: Channel, before: Runtime, after: Runtime, attempts: nat)
    requires Configured(od)
  {
    var n, count := TransmissionType(od, ch), before.syncCounter + 1;
    if !(1 <= n <= 240) then attempts == 0 && after.syncCounter == before.syncCounter
    else if count < n then attempts == 0 && after.syncCounter == count
    else attempts == 1 && after.syncCounter == 0
  }

  /** Anything else leaves the counter, and a synchronous channel silent. */
  predicate Uncounted(od: Od, ch: Channel, before: Runtime, after: Runtime, attempts: nat)
    requires Configured(od)
  {
    after.syncCounter == before.syncCounter && (1 <= TransmissionType(od, ch) <= 240 ==> attempts == 0)
  }

  lemma OneOf(mine: bool, a: seq<Attempt>, rest: seq<Attempt>)
    ensures mine && rest == [] ==> (if mine then a else []) + rest == a
    ensures !mine ==> (if mine then a else []) + rest == rest
  {
  }

  lemma {:induction false} SyncTurns(p: Manager, turn: nat, ch: Channel, input: Input)
    requires Inv(p) && turn <= PDO_COUNT && input.SyncInput?
    ensures Configured(p.od)
    ensures var p' := OnSync(p, turn, input.now, input.operational, input.sendOk, input.hooks).0;
      var a := SyncAttempts(p, turn, ch, input);
      if input.operational && turn <= ch then
        Paced(p.od, ch, p.tx[ch], p'.tx[ch], input.now, a) && Counted(p.od, ch, p.tx[ch], p'.tx[ch], |a|)
      else a == [] && p'.tx[ch] == p.tx[ch]
    decreases PDO_COUNT - turn
  {
    hide Inv, SyncChannel, Paced, Counted, Configured;
    InvIsConfigured(p);
    if !input.operational || turn == PDO_COUNT {
    } else {
      var (p', a) := SyncChannel(p, turn, input.now, input.sendOk(turn), input.hooks);
      SyncIsPaced(p, turn, input.now, input.sendOk(turn), input.hooks);
      SyncTurns(p', turn + 1, ch, input);
      OneOf(turn == ch, a, SyncAttempts(p', turn + 1, ch, input));
    }
  }

  lemma {:induction false} TimerTurns(p: Manager, turn: nat, ch: Channel, input: Input)
    requires Inv(p) && turn <= PDO_COUNT && input.TimerInput?
    ensures Configured(p.od)
    ensures var p' := Process(p, turn, input.now, input.operational, input.sendOk, input.hooks).0;
      var a := TimerAttempts(p, turn, ch, input);
      if input.operational && turn <= ch then
        Paced(p.od, ch, p.tx[ch], p'.tx[ch], input.now, a) && Uncounted(p.od, ch, p.tx[ch], p'.tx[ch], |a|)
      else a == [] && p'.tx[ch] == p.tx[ch]
    decreases PDO_COUNT - turn
  {
    hide Inv, TimerChannel, Paced, Uncounted, Configured;
    InvIsConfigured(p);
    if !input.operational || turn == PDO_COUNT {
    } else {
      var (p', a) := TimerChannel(p, turn, input.now, input.sendOk(turn), input.hooks);
      TimerIsPaced(p, turn, input.now, input.sendOk(turn), input.hooks);
      TimerTurns(p', turn + 1, ch, input);
      OneOf(turn == ch, a, TimerAttempts(p', turn + 1, ch, input));
    }
  }

  // ----- runs that leave the configuration alone

  /** Anything but a reset or a write to the configuration. */
  predicate Plain(input: Input) {
    !input.ResetInput? && (input.WriteInput? ==> !Hooked(input.key))
  }

  predicate IsSync(input: Input) {
    input.SyncInput? && input.operational
  }

  lemma {:induction false} ScatterKeepsTx(p: Manager, m: Mapping, data: seq<byte>, hooks: Hooks)
    requires Configured(p.od) && TotalLength(m) <= |data|
    ensures Scatter(p, m, data, hooks).1.tx == p.tx
    decreases |m|
  {
    hide Configured, Write, ManagerHooks;
    if m == [] {
    } else {
      var (code, p') := OdWrite(p, m[0].0, data[..m[0].1], hooks);
      if code == NoAbort {
        ScatterKeepsTx(p', m[1..], data[m[0].1..], hooks);
      }
    }
  }

  lemma FrameKeepsTx(p: Manager, frame: Can.Frame, operational: bool, hooks: Hooks)
    requires Inv(p)
    ensures HandleFrame(p, frame, operational, hooks).0.tx == p.tx
  {
    hide Inv, Scatter, Refreshed, MappingOf, Configured, Listener, Receivable, Safe;
    InvIsConfigured(p);
    if Receivable(frame, operational) && Listener(p.od, frame.id, 0).Some? {
      var ch: Channel := Listener(p.od, frame.id, 0).value;
      RefreshFacts(p, Rx, ch);
      var r, m := Refreshed(p, Rx, ch), MappingOf(p.od, Rx, ch);
      if r.valid && frame.size >= r.payloadSize {
        ScatterKeepsTx(p.Put(Rx, ch, r), m, frame.data, hooks);
      }
    }
  }

  lemma PlainKeepsConfig(p: Manager, input: Input)
    requires Inv(p) && Plain(input)
    ensures Inv(Apply(p, input)) && Configured(p.od) && Configured(Apply(p, input).od)
    ensures SameConfig(p.od, Apply(p, input).od)
  {
    hide Inv, OdWrite, HandleFrame, OnSync, Process, SameConfig, Configured;
    ApplyKeepsInv(p, input);
    InvIsConfigured(p);
    NothingChanged(p);
    InvIsConfigured(Apply(p, input));
    match input
    case WriteInput(key, source, hooks) => OtherWriteKeepsInv(p, key, source, hooks);
    case FrameInput(frame, operational, hooks) => HandleCacheTransparent(p, frame, operational, hooks);
    case _ =>
  }

  /** What one input does to a transmit channel. */
  lemma PlainIsPaced(p: Manager, input: Input, ch: Channel)
    requires Inv(p) && Plain(input)
    ensures Configured(p.od)
    ensures var p', a := Apply(p, input), AttemptsOf(p, input, ch);
      && Paced(p.od, ch, p.tx[ch], p'.tx[ch], Moment(input), a)
      && if IsSync(input) then Counted(p.od, ch, p.tx[ch], p'.tx[ch], |a|)
         else Uncounted(p.od, ch, p.tx[ch], p'.tx[ch], |a|)
  {
    hide Inv, OdWrite, HandleFrame, OnSync, Process, Configured, SyncAttempts, TimerAttempts, Inhibited,
         TransmissionType;
    InvIsConfigured(p);
    match input
    case WriteInput(key, source, hooks) => WriteKeepsTx(p, key, source, hooks);
    case FrameInput(frame, operational, hooks) => FrameKeepsTx(p, frame, operational, hooks);
    case SyncInput(_, _, _, _) => SyncTurns(p, 0, ch, input);
    case TimerInput(_, _, _, _) => TimerTurns(p, 0, ch, input);
  }

  lemma WriteKeepsTx(p: Manager, key: OdKey, source: seq<byte>, hooks: Hooks)
    requires Configured(p.od)
    ensures OdWrite(p, key, source, hooks).1.tx == p.tx
  {
  }

  function Moment(input: Input): nat {
    if input.SyncInput? || input.TimerInput? then input.now else 0
  }

  lemma SameTiming(od: Od, od': Od, ch: Channel)
    requires Configured(od) && Configured(od') && SameConfig(od, od')
    ensures TransmissionType(od', ch) == TransmissionType(od, ch) && InhibitUs(od', ch) == InhibitUs(od, ch)
  {
    hide Configured, Field;
    assert IsConfig(CommKey(Tx, ch, 2)) && IsConfig(CommKey(Tx, ch, 3));
  }

  // ----- every n-th SYNC

  predicate AllPlain(inputs: seq<Input>) {
    forall i :: 0 <= i < |inputs| ==> Plain(inputs[i])
  }

  /** The SYNCs that an operational node gets. */
  function Syncs(inputs: seq<Input>): nat
    decreases |inputs|
  {
    if inputs == [] then 0 else (if IsSync(inputs[0]) then 1 else 0) + Syncs(inputs[1..])
  }

  /** What a channel attempts in a run, with the times. */
  function History(p: Manager, inputs: seq<Input>, ch: Channel): seq<(nat, Attempt)>
    requires Inv(p)
    decreases |inputs|
  {
    if inputs == [] then []
    else
      ApplyKeepsInv(p, inputs[0]);
      var a := AttemptsOf(p, inputs[0], ch);
      (if a == [] then [] else [(Moment(inputs[0]), a[0])]) + History(Apply(p, inputs[0]), inputs[1..], ch)
  }

  function Min(a: nat, b: nat): nat {
    if a < b then a else b
  }

  /** A synchronous channel of type n attempts a transmission at every n-th SYNC, whatever writes, frames
      and periodic calls come between: after k of them floor((c + k) / n), c being where its counter
      stood. (A counter left beyond n by a change of the type counts as n - 1.) */
  lemma {:induction false} EveryNthSync(p: Manager, inputs: seq<Input>, ch: Channel)
    requires Inv(p) && AllPlain(inputs)
    ensures Configured(p.od)
    ensures var n, k := TransmissionType(p.od, ch), Syncs(inputs);
      1 <= n <= 240 ==>
        var c := Min(p.tx[ch].syncCounter, n - 1);
        && |History(p, inputs, ch)| == (c + k) / n
        && Run(p, inputs).tx[ch].syncCounter == if k == 0 then p.tx[ch].syncCounter else (c + k) % n
    decreases |inputs|
  {
    hide Inv, Configured, Apply, AttemptsOf, TransmissionType, IsSync, Plain;
    InvIsConfigured(p);
    var n, k, c := TransmissionType(p.od, ch), Syncs(inputs), p.tx[ch].syncCounter;
    if inputs == [] {
      if n > 0 {
        Quotient(Min(c, n - 1), n, 0);
      }
    } else {
      CountInput(p, inputs[0], ch);
      EveryNthSync(Apply(p, inputs[0]), inputs[1..], ch);
      if 1 <= n <= 240 && IsSync(inputs[0]) {
        CountOn(n, c, k - 1);
      }
    }
  }

  lemma CountInput(p: Manager, input: Input, ch: Channel)
    requires Inv(p) && Plain(input)
    ensures var p', attempts := Apply(p, input), |AttemptsOf(p, input, ch)|;
      && Configured(p.od) && Inv(p') && Configured(p'.od)
      && var n, c, c' := TransmissionType(p.od, ch), p.tx[ch].syncCounter, p'.tx[ch].syncCounter;
         && TransmissionType(p'.od, ch) == n
         && (1 <= n <= 240 ==>
               if !IsSync(input) then attempts == 0 && c' == c
               else if c + 1 < n then attempts == 0 && c' == c + 1
               else attempts == 1 && c' == 0)
  {
    hide Inv, Configured, Apply, AttemptsOf, Paced, TransmissionType, SameConfig, InhibitUs, IsSync, Plain;
    PlainKeepsConfig(p, input);
    PlainIsPaced(p, input, ch);
    SameTiming(p.od, Apply(p, input).od, ch);
  }

  /** Counting one more, and starting again at n. */
  lemma CountOn(n: nat, c: nat, k: nat)
    requires n > 0
    ensures var m, c' := Min(c, n - 1), if c + 1 < n then c + 1 else 0;
      && (m + k + 1) / n == (if c + 1 < n then 0 else 1) + (Min(c', n - 1) + k) / n
      && (m + k + 1) % n == (Min(c', n - 1) + k) % n
      && (k == 0 ==> c' == (m + 1) % n)
  {
    if c + 1 < n {
      Quotient(c + 1, n, 0);
    } else {
      Quotient(n + k, n, 1 + k / n);
      Quotient(n, n, 1);
    }
  }

  // ----- the inhibit time

  /** The times of the successful transmissions. */
  function Successes(history: seq<(nat, Attempt)>): seq<nat>
    decreases |history|
  {
    if history == [] then []
    else (if history[0].1.Sent? && history[0].1.ok then [history[0].0] else []) + Successes(history[1..])
  }

  /** Each time at least a gap after the one before; a time of zero is taken for none. */
  predicate Spaced(last: nat, times: seq<nat>, gap: nat)
    decreases |times|
  {
    times == [] || ((last != 0 ==> times[0] - last >= gap) && Spaced(times[0], times[1..], gap))
  }

  predicate Succeeds(a: seq<Attempt>) {
    a != [] && a[0].Sent? && a[0].ok
  }

  lemma FirstSuccess(p: Manager, inputs: seq<Input>, ch: Channel)
    requires Inv(p) && inputs != []
    ensures Inv(Apply(p, inputs[0]))
    ensures Successes(History(p, inputs, ch))
         == (if Succeeds(AttemptsOf(p, inputs[0], ch)) then [Moment(inputs[0])] else [])
            + Successes(History(Apply(p, inputs[0]), inputs[1..], ch))
  {
    hide Inv, Apply, AttemptsOf;
    ApplyKeepsInv(p, inputs[0]);
    var a, rest := AttemptsOf(p, inputs[0], ch), History(Apply(p, inputs[0]), inputs[1..], ch);
    if a == [] {
      assert History(p, inputs, ch) == rest;
    } else {
      assert History(p, inputs, ch)[0] == (Moment(inputs[0]), a[0]) && History(p, inputs, ch)[1..] == rest;
    }
  }

  /** In every run that leaves the configuration alone, the successful transmissions of a channel, at
      SYNCs or by its timer, keep the inhibit time, the last one before the run included. */
  lemma {:induction false} InhibitKept(p: Manager, inputs: seq<Input>, ch: Channel)
    requires Inv(p) && AllPlain(inputs)
    ensures Configured(p.od)
    ensures Spaced(p.tx[ch].lastTransmit, Successes(History(p, inputs, ch)), InhibitUs(p.od, ch))
    decreases |inputs|
  {
    hide Inv, Configured, Apply, AttemptsOf, TransmissionType, SameConfig, InhibitUs, Plain, Counted, Uncounted;
    InvIsConfigured(p);
    if inputs == [] {
    } else {
      PlainKeepsConfig(p, inputs[0]);
      PlainIsPaced(p, inputs[0], ch);
      SameTiming(p.od, Apply(p, inputs[0]).od, ch);
      InhibitKept(Apply(p, inputs[0]), inputs[1..], ch);
      FirstSuccess(p, inputs, ch);
      OneMore(Moment(inputs[0]), Successes(History(Apply(p, inputs[0]), inputs[1..], ch)));
    }
  }

  lemma OneMore(time: nat, times: seq<nat>)
    ensures ([time] + times)[0] == time && ([time] + times)[1..] == times && [] + times == times
  {
  }

  /** Spelled out: consecutive ones are a gap apart, and so no stretch of time holds more of them than fit. */
  lemma {:induction false} SpacedApart(last: nat, times: seq<nat>, gap: nat, i: nat, j: nat)
    requires Spaced(last, times, gap) && i <= j < |times| && times[i] > 0
    ensures times[j] >= times[i] + (j - i) * gap
    decreases |times|
  {
    if j == 0 {
    } else if i > 0 {
      SpacedApart(times[0], times[1..], gap, i - 1, j - 1);
    } else {
      assert times[1] >= times[0] + gap;
      SpacedApart(times[0], times[1..], gap, 0, j - 1);
      assert j * gap == (j - 1) * gap + gap;
    }
  }

  /** The exact limit of that: right after a success, an attempt within the inhibit time is refused if
      and only if the clock did not stand at zero. */
  lemma InhibitExactly(p: Manager, ch: Channel, sentAt: nat, now: nat, sendOk: bool, hooks: Hooks)
    requires Inv(p) && Transmit(p, ch, sentAt, true, hooks).1.Sent?
    requires sentAt <= now < sentAt + InhibitUs(p.od, ch)
    ensures var p' := Transmit(p, ch, sentAt, true, hooks).0;
      Inv(p') && (Transmit(p', ch, now, sendOk, hooks).1.Sent? <==> sentAt == 0)
  {
    hide Inv, Configured, Transmit, Gather, InhibitUs, FrameOf, CobId, MappingOf, Refreshed;
    TransmitKeepsInv(p, ch, sentAt, true, hooks);
    TransmitIsPaced(p, ch, sentAt, true, hooks);
    var p' := Transmit(p, ch, sentAt, true, hooks).0;
    SentIsOk(p, ch, sentAt, hooks);
    AttemptUncached(p, ch, sentAt, true, hooks);
    AttemptUncached(p', ch, now, sendOk, hooks);
  }

  lemma SentIsOk(p: Manager, ch: Channel, now: nat, hooks: Hooks)
    requires Inv(p) && Transmit(p, ch, now, true, hooks).1.Sent?
    ensures Transmit(p, ch, now, true, hooks).1.ok
  {
    hide Inv, Gather, Inhibited, FrameOf;
  }
}

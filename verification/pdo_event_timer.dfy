/** The event timer of a transmit channel over whole runs: how far apart its transmissions lie. */
module PdoEventTimer {
  import opened Bytes
  import opened ObjectDictionary
  import opened Pdo
  import opened PdoTransport
  import opened PdoTiming
  import Safety = PdoSafety
  import Limits = PdoLimits

  /** A channel that transmits by its timer. */
  predicate EventDriven(od: Od, ch: Channel)
    requires Configured(od)
  {
    TransmissionType(od, ch) in [254, 255] && EventTimerUs(od, ch) > 0
  }

  /** Both the event timer and the inhibit time must be over. */
  function Period(od: Od, ch: Channel): nat
    requires Configured(od)
  {
    var timer, inhibit := EventTimerUs(od, ch), InhibitUs(od, ch);
    if timer < inhibit then inhibit else timer
  }

  predicate Due(od: Od, ch: Channel, r: Runtime, now: nat)
    requires Configured(od)
  {
    r.lastTransmit == 0 || now - r.lastTransmit >= Period(od, ch)
  }

  /** A channel whose values can always be collected: enabled, mapped, no reading hooks, no long entries. */
  predicate Ready(od: Od, ch: Channel)
    requires Configured(od)
  {
    && CobEnabled(CobId(od, Tx, ch)) && 0 < Count(od, Tx, ch) <= MAX_MAPPINGS
    && forall w :: w in Words(od, Tx, ch, Count(od, Tx, ch)) ==> NoReadHook(od, w) && WordBits(w) <= 64
  }

  // ----- one periodic call

  /** An attempt is only made when the timer is over; when the channel is ready it succeeds exactly when it is
      due. */
  lemma TimerWhenDue(p: Manager, ch: Channel, now: nat, sendOk: bool, hooks: Hooks)
    requires Inv(p) && Configured(p.od) && EventDriven(p.od, ch)
    ensures WhenDue(p.od, ch, p.tx[ch], now, sendOk, TimerChannel(p, ch, now, sendOk, hooks).1)
  {
    hide Inv, Configured, Transmit, TransmissionType, EventTimerUs, InhibitUs, Words, Count, CobId, NoReadHook;
    TransmitIsPaced(p, ch, now, sendOk, hooks);
    if Ready(p.od, ch) && sendOk && Due(p.od, ch, p.tx[ch], now) {
      ReadyTransmits(p, ch, now, hooks);
    }
  }

  lemma ReadyTransmits(p: Manager, ch: Channel, now: nat, hooks: Hooks)
    requires Inv(p) && Configured(p.od) && Ready(p.od, ch) && !Inhibited(p.od, ch, p.tx[ch], now)
    ensures var a := Transmit(p, ch, now, true, hooks).1; a.Sent? && a.ok
  {
    hide Inv, Configured, Transmit, Words, Count, CobId, NoReadHook, Inhibited;
    RefreshFacts(p, Tx, ch);
    Limits.TransmitsExactly(p, ch, now, true, hooks);
    SentIsOk(p, ch, now, hooks);
  }

  /** Of the attempts of one periodic call: success only when due, and always then if nothing is in the way. */
  predicate WhenDue(od: Od, ch: Channel, r: Runtime, now: nat, sendOk: bool, a: seq<Attempt>)
    requires Configured(od)
  {
    && (Succeeds(a) ==> Due(od, ch, r, now))
    && (Ready(od, ch) && sendOk && Due(od, ch, r, now) ==> Succeeds(a))
  }

  lemma {:induction false} TurnsWhenDue(p: Manager, turn: nat, ch: Channel, input: Safety.Input)
    requires Inv(p) && turn <= ch && input.TimerInput? && input.operational
    requires Configured(p.od) && EventDriven(p.od, ch)
    ensures WhenDue(p.od, ch, p.tx[ch], input.now, input.sendOk(ch), TimerAttempts(p, turn, ch, input))
    decreases ch - turn
  {
    hide Inv, Configured, TimerChannel, EventDriven, Due, Ready, Succeeds, Paced, Uncounted;
    var (p', a) := TimerChannel(p, turn, input.now, input.sendOk(turn), input.hooks);
    if turn == ch {
      TimerWhenDue(p, ch, input.now, input.sendOk(ch), input.hooks);
      TimerTurns(p', turn + 1, ch, input);
    } else {
      TimerIsPaced(p, turn, input.now, input.sendOk(turn), input.hooks);
      TurnsWhenDue(p', turn + 1, ch, input);
    }
    OneOf(turn == ch, a, TimerAttempts(p', turn + 1, ch, input));
  }

  /** One input of a run: only a periodic call makes the channel transmit, and when it is due. */
  lemma InputWhenDue(p: Manager, input: Safety.Input, ch: Channel)
    requires Inv(p) && Plain(input) && Configured(p.od) && EventDriven(p.od, ch)
    ensures var a := AttemptsOf(p, input, ch);
      if input.TimerInput? && input.operational then
        WhenDue(p.od, ch, p.tx[ch], input.now, input.sendOk(ch), a)
      else a == []
  {
    hide Inv, Configured, SyncAttempts, TimerAttempts, WhenDue, EventTimerUs, Paced, TransmissionType;
    if input.SyncInput? {
      SyncTurns(p, 0, ch, input);
    } else if input.TimerInput? {
      if input.operational {
        TurnsWhenDue(p, 0, ch, input);
      } else {
        TimerTurns(p, 0, ch, input);
      }
    }
  }

  lemma SameTimer(od: Od, od': Od, ch: Channel)
    requires Configured(od) && Configured(od') && Safety.SameConfig(od, od')
    ensures EventDriven(od', ch) == EventDriven(od, ch) && Period(od', ch) == Period(od, ch)
    ensures Count(od, Tx, ch) <= MAX_MAPPINGS ==> Ready(od', ch) == Ready(od, ch)
  {
    hide Configured, Field, Words;
    assert IsConfig(CommKey(Tx, ch, 2)) && IsConfig(CommKey(Tx, ch, 3)) && IsConfig(CommKey(Tx, ch, 5));
    Safety.SameConfigSameMapping(od, od', Tx, ch);
  }

  /** All that one input does to an event-driven channel. */
  lemma OneInput(p: Manager, input: Safety.Input, ch: Channel)
    requires Inv(p) && Plain(input) && Configured(p.od) && EventDriven(p.od, ch)
    ensures var p', a := Safety.Apply(p, input), AttemptsOf(p, input, ch);
      && Inv(p') && Configured(p'.od) && EventDriven(p'.od, ch) && Period(p'.od, ch) == Period(p.od, ch)
      && Ready(p'.od, ch) == Ready(p.od, ch)
      && p'.tx[ch].lastTransmit == (if Succeeds(a) then Moment(input) else p.tx[ch].lastTransmit)
      && if input.TimerInput? && input.operational then
           WhenDue(p.od, ch, p.tx[ch], input.now, input.sendOk(ch), a)
         else !Succeeds(a)
  {
    hide Inv, Configured, Safety.Apply, AttemptsOf, WhenDue, EventDriven, Ready, Safety.SameConfig, Plain, Period,
         TransmissionType, Inhibited;
    PlainKeepsConfig(p, input);
    PlainIsPaced(p, input, ch);
    InputWhenDue(p, input, ch);
    RefreshFacts(p, Tx, ch);
    SameTimer(p.od, Safety.Apply(p, input).od, ch);
  }

  // ----- runs

  /** In every run that leaves the configuration alone, the transmissions of an event-driven channel lie at
      least its event timer, and its inhibit time, apart. */
  lemma {:induction false} TimerKept(p: Manager, inputs: seq<Safety.Input>, ch: Channel)
    requires Inv(p) && AllPlain(inputs) && Configured(p.od) && EventDriven(p.od, ch)
    ensures Spaced(p.tx[ch].lastTransmit, Successes(History(p, inputs, ch)), Period(p.od, ch))
    decreases |inputs|
  {
    hide Inv, Configured, Safety.Apply, AttemptsOf, EventDriven, Ready, Plain, Period, Succeeds, History, Successes;
    if inputs == [] {
      NoHistory(p, ch);
    } else {
      OneInput(p, inputs[0], ch);
      TimerKept(Safety.Apply(p, inputs[0]), inputs[1..], ch);
      FirstSuccess(p, inputs, ch);
      OneMore(Moment(inputs[0]), Successes(History(Safety.Apply(p, inputs[0]), inputs[1..], ch)));
    }
  }

  lemma NoHistory(p: Manager, ch: Channel)
    requires Inv(p)
    ensures Successes(History(p, [], ch)) == []
  {
  }

  /** Every periodic call comes within `gap` of the one before, and its frames are taken. */
  predicate Served(inputs: seq<Safety.Input>, ch: Channel, last: nat, gap: nat)
    decreases |inputs|
  {
    inputs == []
    || if inputs[0].TimerInput? then
         && inputs[0].operational && inputs[0].sendOk(ch) && inputs[0].now <= last + gap
         && Served(inputs[1..], ch, inputs[0].now, gap)
       else Served(inputs[1..], ch, last, gap)
  }

  function LastCall(last: nat, inputs: seq<Safety.Input>): nat
    decreases |inputs|
  {
    if inputs == [] then last
    else LastCall(if inputs[0].TimerInput? then inputs[0].now else last, inputs[1..])
  }

  /** Each time less than a bound after the one before; a time of zero is taken for none. */
  predicate Within(last: nat, times: seq<nat>, bound: nat)
    decreases |times|
  {
    times == [] || ((last != 0 ==> times[0] < last + bound) && Within(times[0], times[1..], bound))
  }

  /** And when periodic calls come within `gap` of each other and nothing else keeps the channel from sending,
      they lie less than that period and one gap apart, up to the end of the run. */
  lemma {:induction false} TimerServed(p: Manager, inputs: seq<Safety.Input>, ch: Channel, last: nat, gap: nat)
    requires Inv(p) && AllPlain(inputs) && Configured(p.od) && EventDriven(p.od, ch)
    requires Ready(p.od, ch) && Served(inputs, ch, last, gap)
    requires p.tx[ch].lastTransmit != 0 ==> last < p.tx[ch].lastTransmit + Period(p.od, ch)
    ensures Within(p.tx[ch].lastTransmit, Successes(History(p, inputs, ch)), Period(p.od, ch) + gap)
    ensures var sent := Safety.Run(p, inputs).tx[ch].lastTransmit;
      sent != 0 ==> LastCall(last, inputs) < sent + Period(p.od, ch)
    decreases |inputs|
  {
    hide Inv, Configured, Safety.Apply, AttemptsOf, EventDriven, Ready, Plain, Period, Succeeds, History, Successes;
    if inputs == [] {
      NoHistory(p, ch);
    } else {
      PeriodIsPositive(p.od, ch);
      OneInput(p, inputs[0], ch);
      var p', last' := Safety.Apply(p, inputs[0]), if inputs[0].TimerInput? then inputs[0].now else last;
      TimerServed(p', inputs[1..], ch, last', gap);
      FirstSuccess(p, inputs, ch);
      OneMore(Moment(inputs[0]), Successes(History(p', inputs[1..], ch)));
    }
  }

  lemma PeriodIsPositive(od: Od, ch: Channel)
    requires Configured(od) && EventDriven(od, ch)
    ensures Period(od, ch) > 0
  {
    hide EventTimerUs, InhibitUs, TransmissionType;
  }
}

/** A button over real time: what the worker makes of a line that is held, or let go, when every sleep
    ends when it was asked to. */
module ButtonRuns {
  import opened Wrappers
  import opened Buttons

  /** The passes of the worker at these times, the line standing at one level. */
  function Passes(times: seq<nat>, high: bool): seq<Input>
    decreases |times|
  {
    if times == [] then [] else [PassAt(times[0] % MODULUS, high)] + Passes(times[1..], high)
  }

  /** No pass comes later than the sleep asked for; an earlier one, for another button, may. */
  predicate Punctual(slot: Slot, last: nat, times: seq<nat>, high: bool, rate: nat)
    requires 0 < rate <= 1000
    decreases |times|
  {
    times == []
    || (var wait := SlotWait(slot, last % MODULUS, rate);
        && last <= times[0] && (wait != MAX_DELAY ==> times[0] <= last + wait)
        && Punctual(Process(slot, times[0] % MODULUS, high, rate).slot, times[0], times[1..], high, rate))
  }

  function Last(from: nat, times: seq<nat>): nat {
    if times == [] then from else times[|times| - 1]
  }

  function Debounce(slot: Slot, rate: nat): nat
    requires 0 < rate <= 1000
  {
    Ticks(slot.config.debounceMs, rate)
  }

  function Long(slot: Slot, rate: nat): nat
    requires 0 < rate <= 1000
  {
    Ticks(slot.config.longPressMs, rate)
  }

  lemma OnePassMore(slot: Slot, times: seq<nat>, high: bool, rate: nat)
    requires 0 < rate <= 1000 && times != []
    ensures var outcome := Process(slot, times[0] % MODULUS, high, rate);
      var (last, marks) := Run(outcome.slot, Passes(times[1..], high), rate);
      Run(slot, Passes(times, high), rate) == (last, Marks(slot, outcome) + marks)
  {
    hide Process;
    assert Passes(times, high)[1..] == Passes(times[1..], high);
  }

  // ----- nothing pending

  lemma {:induction false} NothingPending(slot: Slot, times: seq<nat>, high: bool, rate: nat)
    requires 0 < rate <= 1000 && !Pending(slot)
    ensures Run(slot, Passes(times, high), rate) == (slot, [])
    decreases |times|
  {
    hide Ticks;
    if times == [] {
    } else {
      OnePassMore(slot, times, high, rate);
      var outcome := Process(slot, times[0] % MODULUS, high, rate);
      assert outcome == Outcome(slot, None) && Marks(slot, outcome) == [];
      NothingPending(slot, times[1..], high, rate);
    }
  }

  // ----- held

  /** Accepted at `accepted`, and held since. */
  predicate Holding(slot: Slot, accepted: nat) {
    slot.LongPending() && !slot.Unsettled() && slot.pressTick == accepted % MODULUS
  }

  lemma HoldingPass(slot: Slot, accepted: nat, last: nat, now: nat, high: bool, rate: nat)
    requires 0 < rate <= 1000 && Holding(slot, accepted) && accepted <= last < accepted + Long(slot, rate)
    requires var wait := SlotWait(slot, last % MODULUS, rate);
      last <= now && (wait != MAX_DELAY ==> now <= last + wait)
    ensures last + SlotWait(slot, last % MODULUS, rate) == accepted + Long(slot, rate)
    ensures now <= accepted + Long(slot, rate)
    ensures var o := Process(slot, now % MODULUS, high, rate);
      if now < accepted + Long(slot, rate) then o == Outcome(slot, None)
      else o == Outcome(slot.(reported := true), Some(LongPress))
  {
    hide Ticks;
    ElapsedIsTime(accepted, last);
    ElapsedIsTime(accepted, now);
  }

  /** The long press is reported at its deadline. */
  lemma {:induction false} HeldIsReported(slot: Slot, accepted: nat, last: nat, times: seq<nat>, high: bool, rate: nat)
    requires 0 < rate <= 1000 && Holding(slot, accepted) && accepted <= last < accepted + Long(slot, rate)
    requires Punctual(slot, last, times, high, rate)
    ensures var (slot', marks) := Run(slot, Passes(times, high), rate);
      if Last(last, times) < accepted + Long(slot, rate) then
        && slot' == slot && marks == []
        && Last(last, times) + SlotWait(slot', Last(last, times) % MODULUS, rate) == accepted + Long(slot, rate)
      else slot' == slot.(reported := true) && marks == [Event(LongPress)]
    decreases |times|
  {
    hide Process, SlotWait, Ticks;
    if times == [] {
      HoldingPass(slot, accepted, last, last, high, rate);
    } else {
      HoldingPass(slot, accepted, last, times[0], high, rate);
      OnePassMore(slot, times, high, rate);
      if times[0] < accepted + Long(slot, rate) {
        HeldIsReported(slot, accepted, times[0], times[1..], high, rate);
      } else {
        NothingPending(slot.(reported := true), times[1..], high, rate);
        LastIsLater(slot, last, times, high, rate);
      }
    }
  }

  lemma {:induction false} LastIsLater(slot: Slot, last: nat, times: seq<nat>, high: bool, rate: nat)
    requires 0 < rate <= 1000 && Punctual(slot, last, times, high, rate) && times != []
    ensures times[0] <= Last(last, times)
    decreases |times|
  {
    hide Process, SlotWait;
    if |times| > 1 {
      LastIsLater(Process(slot, times[0] % MODULUS, high, rate).slot, times[0], times[1..], high, rate);
    }
  }

  // ----- from the edge to the report

  /** An edge at `edge` is settling; before it the line stood at the other level. */
  predicate Settling(slot: Slot, edge: nat, high: bool) {
    && slot.Unsettled() && slot.lastEdge == edge % MODULUS && slot.pressed != IsPressed(slot.config, high)
  }

  /** A pass inside the debounce time does nothing, and the sleep does not pass its end. */
  lemma SettlingPass(slot: Slot, edge: nat, last: nat, now: nat, high: bool, rate: nat)
    requires 0 < rate <= 1000 && Settling(slot, edge, high) && edge <= last < edge + Debounce(slot, rate)
    requires var wait := SlotWait(slot, last % MODULUS, rate);
      last <= now && (wait != MAX_DELAY ==> now <= last + wait)
    ensures now <= edge + Debounce(slot, rate)
    ensures !slot.pressed ==> last + SlotWait(slot, last % MODULUS, rate) == edge + Debounce(slot, rate)
    ensures var o := Process(slot, now % MODULUS, high, rate);
      if now < edge + Debounce(slot, rate) then o == Outcome(slot, None)
      else
        && !o.slot.Unsettled() && o.slot.config == slot.config && o.slot.pressed == !slot.pressed
        && (!slot.pressed ==> o.event == None && Holding(o.slot, now))
        && (slot.pressed ==> o.event == if slot.reported then None else Some(Click))
  {
    hide Ticks;
    ElapsedIsTime(edge, last);
    ElapsedIsTime(edge, now);
    ElapsedIsTime(now, now);
  }

  /** The marks of a press held until `now`. */
  function PressMarks(edge: nat, now: nat, debounce: nat, long: nat): seq<Mark> {
    if now < edge + debounce then []
    else if now < edge + debounce + long then [Press]
    else [Press, Event(LongPress)]
  }

  /** When the worker must look again. */
  function NextDeadline(edge: nat, now: nat, debounce: nat, long: nat): nat {
    if now < edge + debounce then edge + debounce else edge + debounce + long
  }

  /** What is made of a press that settles from `edge` on, seen from a pass at `last`. */
  predicate Pressed(slot: Slot, edge: nat, last: nat, times: seq<nat>, high: bool, rate: nat)
    requires 0 < rate <= 1000
  {
    var (slot', marks) := Run(slot, Passes(times, high), rate);
    var now, debounce, long := Last(last, times), Debounce(slot, rate), Long(slot, rate);
    && marks == PressMarks(edge, now, debounce, long)
    && (now < edge + debounce + long ==>
          now + SlotWait(slot', now % MODULUS, rate) == NextDeadline(edge, now, debounce, long))
  }

  /** The pass that accepts the press, and those after it. */
  lemma PressAccepted(slot: Slot, edge: nat, last: nat, times: seq<nat>, high: bool, rate: nat)
    requires 0 < rate <= 1000 && Settling(slot, edge, high) && !slot.pressed
    requires edge <= last < edge + Debounce(slot, rate) && Punctual(slot, last, times, high, rate)
    requires times != [] && times[0] >= edge + Debounce(slot, rate)
    ensures Pressed(slot, edge, last, times, high, rate)
  {
    hide Process, SlotWait, Ticks, Settling;
    SettlingPass(slot, edge, last, times[0], high, rate);
    OnePassMore(slot, times, high, rate);
    HeldIsReported(Process(slot, times[0] % MODULUS, high, rate).slot, times[0], times[0], times[1..], high, rate);
    LastIsLater(slot, last, times, high, rate);
  }

  lemma {:induction false} PressSettles(slot: Slot, edge: nat, last: nat, times: seq<nat>, high: bool, rate: nat)
    requires 0 < rate <= 1000 && Settling(slot, edge, high) && !slot.pressed
    requires edge <= last < edge + Debounce(slot, rate) && Punctual(slot, last, times, high, rate)
    ensures Pressed(slot, edge, last, times, high, rate)
    decreases |times|
  {
    hide Process, SlotWait, Ticks, Settling, PressMarks, NextDeadline;
    if times == [] {
      SettlingPass(slot, edge, last, last, high, rate);
      NotYet(edge, last, Debounce(slot, rate), Long(slot, rate));
    } else if times[0] < edge + Debounce(slot, rate) {
      SettlingPass(slot, edge, last, times[0], high, rate);
      OnePassMore(slot, times, high, rate);
      PressSettles(slot, edge, times[0], times[1..], high, rate);
    } else {
      PressAccepted(slot, edge, last, times, high, rate);
    }
  }

  lemma NotYet(edge: nat, now: nat, debounce: nat, long: nat)
    requires now < edge + debounce
    ensures PressMarks(edge, now, debounce, long) == [] && NextDeadline(edge, now, debounce, long) == edge + debounce
  {
  }

  /** The promise to the user: on a line held pressed from an edge on, with a worker that is woken when it
      asked to be, the press is accepted when the debounce time is over, and the long press reported when
      the long-press time after that is over; neither comes earlier, nothing else does, and until then the
      sleep asked for always ends at the next of the two. Earlier edges may still be settling. */
  lemma HeldLine(slot: Slot, edge: nat, times: seq<nat>, high: bool, rate: nat)
    requires 0 < rate <= 1000 && !slot.pressed && IsPressed(slot.config, high)
    requires (slot.generation + 1) % MODULUS != slot.handled
    requires Punctual(Edge(slot, edge % MODULUS), edge, times, high, rate)
    ensures var (slot', marks) := Run(slot, [EdgeAt(edge % MODULUS)] + Passes(times, high), rate);
      var now, debounce, long := Last(edge, times), Debounce(slot, rate), Long(slot, rate);
      && marks == PressMarks(edge, now, debounce, long)
      && (now < edge + debounce + long ==>
            now + SlotWait(slot', now % MODULUS, rate) == NextDeadline(edge, now, debounce, long))
  {
    hide Process, SlotWait, Ticks, Passes;
    var inputs := [EdgeAt(edge % MODULUS)] + Passes(times, high);
    assert inputs[1..] == Passes(times, high);
    PressSettles(Edge(slot, edge % MODULUS), edge, edge, times, high, rate);
  }

  /** The marks of a release that has stood until `now`. */
  function ReleaseMarks(reported: bool, edge: nat, now: nat, debounce: nat): seq<Mark> {
    if now < edge + debounce then [] else if reported then [Release] else [Event(Click), Release]
  }

  lemma {:induction false} ReleaseSettles(slot: Slot, edge: nat, last: nat, times: seq<nat>, high: bool, rate: nat)
    requires 0 < rate <= 1000 && Settling(slot, edge, high) && slot.pressed
    requires edge <= last < edge + Debounce(slot, rate) && Punctual(slot, last, times, high, rate)
    ensures Run(slot, Passes(times, high), rate).1
         == ReleaseMarks(slot.reported, edge, Last(last, times), Debounce(slot, rate))
    decreases |times|
  {
    hide Process, SlotWait, Ticks, Settling;
    if times == [] {
    } else {
      SettlingPass(slot, edge, last, times[0], high, rate);
      OnePassMore(slot, times, high, rate);
      var slot' := Process(slot, times[0] % MODULUS, high, rate).slot;
      if times[0] < edge + Debounce(slot, rate) {
        ReleaseSettles(slot, edge, times[0], times[1..], high, rate);
      } else {
        NothingPending(slot', times[1..], high, rate);
        LastIsLater(slot, last, times, high, rate);
      }
    }
  }

  /** Letting go of an accepted press: its click, unless a long press has been reported, and its release
      when the debounce time is over, however close the long-press deadline was. Earlier edges may still
      be settling. */
  lemma ReleasedLine(slot: Slot, edge: nat, times: seq<nat>, high: bool, rate: nat)
    requires 0 < rate <= 1000 && slot.pressed && !IsPressed(slot.config, high)
    requires (slot.generation + 1) % MODULUS != slot.handled
    requires Punctual(Edge(slot, edge % MODULUS), edge, times, high, rate)
    ensures Run(slot, [EdgeAt(edge % MODULUS)] + Passes(times, high), rate).1
         == ReleaseMarks(slot.reported, edge, Last(edge, times), Debounce(slot, rate))
  {
    hide Process, SlotWait, Ticks, Passes;
    var inputs := [EdgeAt(edge % MODULUS)] + Passes(times, high);
    assert inputs[1..] == Passes(times, high);
    ReleaseSettles(Edge(slot, edge % MODULUS), edge, edge, times, high, rate);
  }

  // ----- a bouncing contact

  /** What happens to a button while its contact bounces: edges, and passes that read any level. */
  datatype Moment = Touch(at: nat) | Look(at: nat, high: bool)

  function Inputs(moments: seq<Moment>): seq<Input>
    decreases |moments|
  {
    if moments == [] then []
    else
      var first := match moments[0]
        case Touch(at) => EdgeAt(at % MODULUS)
        case Look(at, high) => PassAt(at % MODULUS, high);
      [first] + Inputs(moments[1..])
  }

  /** Every pass comes inside the debounce time of the edge before it. */
  predicate Bouncing(edge: nat, moments: seq<Moment>, debounce: nat)
    decreases |moments|
  {
    moments == []
    || match moments[0]
       case Touch(at) => Bouncing(at, moments[1..], debounce)
       case Look(at, high) => edge <= at < edge + debounce && Bouncing(edge, moments[1..], debounce)
  }

  function LastEdge(edge: nat, moments: seq<Moment>): nat
    decreases |moments|
  {
    if moments == [] then edge
    else LastEdge(if moments[0].Touch? then moments[0].at else edge, moments[1..])
  }

  function Touches(moments: seq<Moment>): nat
    decreases |moments|
  {
    if moments == [] then 0 else (if moments[0].Touch? then 1 else 0) + Touches(moments[1..])
  }

  /** The number of edges not taken into account yet. */
  function Behind(slot: Slot): nat {
    Elapsed(slot.generation, slot.handled)
  }

  /** A pass that reads the line as pressed when the long-press time of the slot's press is over. */
  predicate ReadsOverdue(slot: Slot, m: Moment, rate: nat)
    requires 0 < rate <= 1000
  {
    m.Look? && IsPressed(slot.config, m.high) && Elapsed(m.at % MODULUS, slot.pressTick) >= Long(slot, rate)
  }

  predicate Overdue(slot: Slot, moments: seq<Moment>, rate: nat)
    requires 0 < rate <= 1000
  {
    slot.LongPending() && exists i :: 0 <= i < |moments| && ReadsOverdue(slot, moments[i], rate)
  }

  /** The slot after a burst: only its edges have moved, and a long press may have been reported. */
  function AfterBurst(slot: Slot, edge: nat, moments: seq<Moment>, rate: nat): Slot
    requires 0 < rate <= 1000
  {
    slot.(lastEdge := LastEdge(edge, moments) % MODULUS, generation := (slot.generation + Touches(moments)) % MODULUS,
          reported := slot.reported || Overdue(slot, moments, rate))
  }

  lemma BouncePass(slot: Slot, edge: nat, now: nat, high: bool, rate: nat)
    requires 0 < rate <= 1000 && slot.Unsettled() && slot.lastEdge == edge % MODULUS
    requires edge <= now < edge + Debounce(slot, rate)
    ensures var due := slot.LongPending() && ReadsOverdue(slot, Look(now, high), rate);
      && Process(slot, now % MODULUS, high, rate)
         == Outcome(slot.(reported := slot.reported || due), if due then Some(LongPress) else None)
      && Marks(slot, Process(slot, now % MODULUS, high, rate)) == if due then [Event(LongPress)] else []
  {
    hide Ticks;
    ElapsedIsTime(edge, now);
  }

  lemma OverdueFirst(slot: Slot, slot': Slot, moments: seq<Moment>, rate: nat)
    requires 0 < rate <= 1000 && moments != []
    requires slot'.config == slot.config && slot'.pressTick == slot.pressTick && slot'.pressed == slot.pressed
    requires slot'.reported == (slot.reported || (slot.LongPending() && ReadsOverdue(slot, moments[0], rate)))
    ensures Overdue(slot, moments, rate) <==>
      (slot.LongPending() && ReadsOverdue(slot, moments[0], rate)) || Overdue(slot', moments[1..], rate)
    ensures slot.LongPending() && ReadsOverdue(slot, moments[0], rate) ==> !Overdue(slot', moments[1..], rate)
  {
    hide Ticks;
    var rest := moments[1..];
    assert forall i :: 0 <= i < |rest| ==>
      ReadsOverdue(slot', rest[i], rate) == ReadsOverdue(slot, moments[i + 1], rate);
    if Overdue(slot, moments, rate) && !ReadsOverdue(slot, moments[0], rate) {
      var i :| 0 <= i < |moments| && ReadsOverdue(slot, moments[i], rate);
      assert ReadsOverdue(slot', rest[i - 1], rate);
    }
    if slot'.LongPending() && Overdue(slot', rest, rate) {
      var i :| 0 <= i < |rest| && ReadsOverdue(slot', rest[i], rate);
      assert ReadsOverdue(slot, moments[i + 1], rate);
    }
  }

  /** Running through the first moment of a burst, then through the others. */
  lemma OneMoment(slot: Slot, moments: seq<Moment>, rate: nat)
    requires 0 < rate <= 1000 && moments != []
    ensures var m, rest := moments[0], Inputs(moments[1..]);
      if m.Touch? then Run(slot, Inputs(moments), rate) == Run(Edge(slot, m.at % MODULUS), rest, rate)
      else
        var outcome := Process(slot, m.at % MODULUS, m.high, rate);
        var (last, marks) := Run(outcome.slot, rest, rate);
        Run(slot, Inputs(moments), rate) == (last, Marks(slot, outcome) + marks)
  {
    hide Process;
    assert Inputs(moments)[1..] == Inputs(moments[1..]);
  }

  /** A burst leaves nothing behind but its edges, and the long press that it may report. */
  predicate SettlesNothing(slot: Slot, edge: nat, moments: seq<Moment>, rate: nat)
    requires 0 < rate <= 1000
  {
    Run(slot, Inputs(moments), rate)
    == (AfterBurst(slot, edge, moments, rate), if Overdue(slot, moments, rate) then [Event(LongPress)] else [])
  }

  /** Debouncing: however often a contact bounces and whatever levels are read, nothing is taken over before
      the line has been quiet for the debounce time. The one thing that can come of it is the long press of a
      press accepted before, exactly when a pass reads the line as pressed after the long-press time. */
  lemma {:induction false} BurstSettlesNothing(slot: Slot, edge: nat, moments: seq<Moment>, rate: nat)
    requires 0 < rate <= 1000 && slot.Unsettled() && slot.lastEdge == edge % MODULUS
    requires Behind(slot) + Touches(moments) < MODULUS && Bouncing(edge, moments, Debounce(slot, rate))
    ensures SettlesNothing(slot, edge, moments, rate) && AfterBurst(slot, edge, moments, rate).Unsettled()
    decreases |moments|
  {
    hide Ticks, Process, SettlesNothing, Overdue, Behind, Slot.Unsettled, AfterBurst;
    StillUnsettled(slot, edge, moments, rate);
    if moments == [] {
      NoMoment(slot, edge, rate);
    } else {
      match moments[0]
      case Touch(at) =>
        OneMoreBehind(slot, at, Touches(moments[1..]));
        BurstSettlesNothing(Edge(slot, at % MODULUS), at, moments[1..], rate);
        FirstTouch(slot, edge, moments, rate);
      case Look(now, high) =>
        LookKeepsEdges(slot, edge, now, high, rate);
        BurstSettlesNothing(Process(slot, now % MODULUS, high, rate).slot, edge, moments[1..], rate);
        FirstLook(slot, edge, moments, rate);
    }
  }

  lemma LookKeepsEdges(slot: Slot, edge: nat, now: nat, high: bool, rate: nat)
    requires 0 < rate <= 1000 && slot.Unsettled() && slot.lastEdge == edge % MODULUS
    requires edge <= now < edge + Debounce(slot, rate)
    ensures var slot' := Process(slot, now % MODULUS, high, rate).slot;
      && slot'.Unsettled() && slot'.lastEdge == slot.lastEdge && Behind(slot') == Behind(slot)
      && Debounce(slot', rate) == Debounce(slot, rate)
  {
    hide Process, Ticks;
    BouncePass(slot, edge, now, high, rate);
  }

  lemma OneMoreBehind(slot: Slot, at: nat, more: nat)
    requires slot.Unsettled() && Behind(slot) + 1 + more < MODULUS
    ensures Edge(slot, at % MODULUS).Unsettled() && Behind(Edge(slot, at % MODULUS)) + more < MODULUS
  {
  }

  lemma StillUnsettled(slot: Slot, edge: nat, moments: seq<Moment>, rate: nat)
    requires 0 < rate <= 1000 && slot.Unsettled() && Behind(slot) + Touches(moments) < MODULUS
    ensures AfterBurst(slot, edge, moments, rate).Unsettled()
  {
    hide Overdue, Touches, LastEdge;
  }

  lemma FirstTouch(slot: Slot, edge: nat, moments: seq<Moment>, rate: nat)
    requires 0 < rate <= 1000 && moments != [] && moments[0].Touch?
    requires var at := moments[0].at; SettlesNothing(Edge(slot, at % MODULUS), at, moments[1..], rate)
    ensures SettlesNothing(slot, edge, moments, rate)
  {
    hide Ticks, Run, Inputs, ReadsOverdue;
    OneMoment(slot, moments, rate);
    TouchIsNotOverdue(slot, moments[0], rate);
    OverdueFirst(slot, Edge(slot, moments[0].at % MODULUS), moments, rate);
  }

  lemma FirstLook(slot: Slot, edge: nat, moments: seq<Moment>, rate: nat)
    requires 0 < rate <= 1000 && moments != [] && moments[0].Look? && slot.Unsettled()
    requires slot.lastEdge == edge % MODULUS && edge <= moments[0].at < edge + Debounce(slot, rate)
    requires var slot' := Process(slot, moments[0].at % MODULUS, moments[0].high, rate).slot;
      SettlesNothing(slot', edge, moments[1..], rate)
    ensures SettlesNothing(slot, edge, moments, rate)
  {
    hide Ticks, Run, Inputs, ReadsOverdue, Process, AfterBurst, Marks, Overdue;
    var now, high := moments[0].at, moments[0].high;
    BouncePass(slot, edge, now, high, rate);
    OneMoment(slot, moments, rate);
    var slot' := Process(slot, now % MODULUS, high, rate).slot;
    OverdueFirst(slot, slot', moments, rate);
    AfterLook(slot, slot', edge, moments, rate);
    MarksOfLook(slot.LongPending() && ReadsOverdue(slot, moments[0], rate), Run(slot', Inputs(moments[1..]), rate).1);
  }

  lemma MarksOfLook(due: bool, rest: seq<Mark>)
    ensures !due ==> (if due then [Event(LongPress)] else []) + rest == rest
    ensures due && rest == [] ==> (if due then [Event(LongPress)] else []) + rest == [Event(LongPress)]
  {
  }

  lemma NoMoment(slot: Slot, edge: nat, rate: nat)
    requires 0 < rate <= 1000 && slot.lastEdge == edge % MODULUS
    ensures SettlesNothing(slot, edge, [], rate)
  {
  }

  lemma TouchIsNotOverdue(slot: Slot, m: Moment, rate: nat)
    requires 0 < rate <= 1000 && m.Touch?
    ensures !ReadsOverdue(slot, m, rate)
  {
  }

  lemma AfterLook(slot: Slot, slot': Slot, edge: nat, moments: seq<Moment>, rate: nat)
    requires 0 < rate <= 1000 && moments != [] && moments[0].Look? && slot' == slot.(reported := slot'.reported)
    requires slot'.reported == (slot.reported || (slot.LongPending() && ReadsOverdue(slot, moments[0], rate)))
    ensures AfterBurst(slot', edge, moments[1..], rate) == AfterBurst(slot, edge, moments, rate)
  {
    hide Ticks, ReadsOverdue;
    OverdueFirst(slot, slot', moments, rate);
  }

  lemma {:induction false} RunSplit(slot: Slot, a: seq<Input>, b: seq<Input>, rate: nat)
    requires 0 < rate <= 1000
    ensures var (mid, first) := Run(slot, a, rate);
      Run(slot, a + b, rate) == (Run(mid, b, rate).0, first + Run(mid, b, rate).1)
    decreases |a|
  {
    hide Process, Marks;
    if a == [] {
      assert a + b == b && [] + Run(slot, b, rate).1 == Run(slot, b, rate).1;
    } else {
      assert (a + b)[1..] == a[1..] + b;
      match a[0]
      case EdgeAt(now) => RunSplit(Edge(slot, now), a[1..], b, rate);
      case PassAt(now, high) =>
        var outcome := Process(slot, now, high, rate);
        RunSplit(outcome.slot, a[1..], b, rate);
        var (mid, first) := Run(outcome.slot, a[1..], rate);
        Associate(Marks(slot, outcome), first, Run(mid, b, rate).1);
    }
  }

  /** A burst that starts with an edge, and the quiet line after it. */
  function Bounced(edge: nat, moments: seq<Moment>, times: seq<nat>, high: bool): seq<Input> {
    [EdgeAt(edge % MODULUS)] + Inputs(moments) + Passes(times, high)
  }

  function BurstSlot(slot: Slot, edge: nat, moments: seq<Moment>, rate: nat): Slot
    requires 0 < rate <= 1000
  {
    AfterBurst(Edge(slot, edge % MODULUS), edge, moments, rate)
  }

  /** The slot when the line has come to rest, and the marks until then. */
  lemma BurstThenQuiet(slot: Slot, edge: nat, moments: seq<Moment>, times: seq<nat>, high: bool, rate: nat)
    requires 0 < rate <= 1000 && Behind(slot) + 1 + Touches(moments) < MODULUS
    requires Bouncing(edge, moments, Debounce(slot, rate))
    ensures BurstSlot(slot, edge, moments, rate).Unsettled()
    ensures Run(slot, Bounced(edge, moments, times, high), rate).1
         == (if Overdue(slot, moments, rate) then [Event(LongPress)] else [])
            + Run(BurstSlot(slot, edge, moments, rate), Passes(times, high), rate).1
  {
    hide Ticks, Process, ReadsOverdue, AfterBurst, Passes, Inputs;
    var slot' := Edge(slot, edge % MODULUS);
    var inputs := Bounced(edge, moments, times, high);
    assert inputs[0] == EdgeAt(edge % MODULUS) && inputs[1..] == Inputs(moments) + Passes(times, high);
    BurstSettlesNothing(slot', edge, moments, rate);
    SameOverdue(slot, slot', moments, rate);
    RunSplit(slot', Inputs(moments), Passes(times, high), rate);
  }

  lemma SameOverdue(slot: Slot, slot': Slot, moments: seq<Moment>, rate: nat)
    requires 0 < rate <= 1000 && slot' == slot.(lastEdge := slot'.lastEdge, generation := slot'.generation)
    ensures Overdue(slot', moments, rate) == Overdue(slot, moments, rate)
  {
    hide Ticks;
    assert forall m: Moment :: ReadsOverdue(slot', m, rate) == ReadsOverdue(slot, m, rate);
  }

  /** A bouncing press: one press, accepted one debounce time after the last edge of the burst, and its long
      press when that is due. */
  lemma BouncingPress(slot: Slot, edge: nat, moments: seq<Moment>, times: seq<nat>, high: bool, rate: nat)
    requires 0 < rate <= 1000 && !slot.pressed && IsPressed(slot.config, high)
    requires Behind(slot) + 1 + Touches(moments) < MODULUS && Bouncing(edge, moments, Debounce(slot, rate))
    requires Punctual(BurstSlot(slot, edge, moments, rate), LastEdge(edge, moments), times, high, rate)
    ensures var last := LastEdge(edge, moments);
      Run(slot, Bounced(edge, moments, times, high), rate).1
      == PressMarks(last, Last(last, times), Debounce(slot, rate), Long(slot, rate))
  {
    hide Process, SlotWait, Ticks, Passes, Run, PressMarks, Punctual, Bounced;
    BurstThenQuiet(slot, edge, moments, times, high, rate);
    var last, slot' := LastEdge(edge, moments), BurstSlot(slot, edge, moments, rate);
    PressSettles(slot', last, last, times, high, rate);
    var marks := Run(slot', Passes(times, high), rate).1;
    assert [] + marks == marks;
  }

  /** A bouncing release: one debounce time after the last edge. A click turns into a long press exactly when
      the press was not reported yet and a pass reads the bouncing line as pressed when that is overdue. */
  lemma BouncingRelease(slot: Slot, edge: nat, moments: seq<Moment>, times: seq<nat>, high: bool, rate: nat)
    requires 0 < rate <= 1000 && slot.pressed && !IsPressed(slot.config, high)
    requires Behind(slot) + 1 + Touches(moments) < MODULUS && Bouncing(edge, moments, Debounce(slot, rate))
    requires Punctual(BurstSlot(slot, edge, moments, rate), LastEdge(edge, moments), times, high, rate)
    ensures var last, overdue := LastEdge(edge, moments), Overdue(slot, moments, rate);
      Run(slot, Bounced(edge, moments, times, high), rate).1
      == (if overdue then [Event(LongPress)] else [])
         + ReleaseMarks(slot.reported || overdue, last, Last(last, times), Debounce(slot, rate))
  {
    hide Process, SlotWait, Ticks, Passes, Run, ReleaseMarks, Punctual, Bounced, ReadsOverdue;
    BurstThenQuiet(slot, edge, moments, times, high, rate);
    SameOverdue(slot, Edge(slot, edge % MODULUS), moments, rate);
    var last := LastEdge(edge, moments);
    ReleaseSettles(BurstSlot(slot, edge, moments, rate), last, last, times, high, rate);
  }

  /** A burst after which the line stands as before comes to nothing, however late the passes. */
  lemma BounceIgnored(slot: Slot, edge: nat, moments: seq<Moment>, times: seq<nat>, high: bool, rate: nat)
    requires 0 < rate <= 1000 && !slot.pressed && !IsPressed(slot.config, high)
    requires Behind(slot) + 1 + Touches(moments) < MODULUS && Bouncing(edge, moments, Debounce(slot, rate))
    ensures Run(slot, Bounced(edge, moments, times, high), rate).1 == []
  {
    hide Process, Ticks, Passes, Run, Bounced;
    BurstThenQuiet(slot, edge, moments, times, high, rate);
    ReleasedStays(BurstSlot(slot, edge, moments, rate), times, high, rate);
  }

  lemma {:induction false} ReleasedStays(slot: Slot, times: seq<nat>, high: bool, rate: nat)
    requires 0 < rate <= 1000 && !slot.pressed && !IsPressed(slot.config, high)
    ensures Run(slot, Passes(times, high), rate).1 == []
    decreases |times|
  {
    hide Ticks;
    if times == [] {
    } else {
      OnePassMore(slot, times, high, rate);
      var outcome := Process(slot, times[0] % MODULUS, high, rate);
      assert Marks(slot, outcome) == [] && !outcome.slot.pressed && outcome.slot.config == slot.config;
      ReleasedStays(outcome.slot, times[1..], high, rate);
    }
  }

  /** An input for the long press that should have been a click: let go one tick before the deadline, and
      read as pressed at it. */
  lemma LetGoInTime()
    ensures var slot := Slot(Config(0, true, 20, 800), 0, 1, 1, 20, true, false);
      Run(slot, Bounced(819, [Look(820, false)], [839], true), 1000).1 == [Event(LongPress), Release]
  {
    var slot := Slot(Config(0, true, 20, 800), 0, 1, 1, 20, true, false);
    var moments := [Look(820, false)];
    assert Ticks(20, 1000) == 20 && Ticks(800, 1000) == 800;
    assert ReadsOverdue(slot, moments[0], 1000);
    assert Touches(moments) == 0 && Bouncing(819, moments, 20) && LastEdge(819, moments) == 819;
    BouncingRelease(slot, 819, moments, [839], true, 1000);
  }
}

/** The GPIO button worker: debouncing, clicks, long presses, and how long to sleep. */
module Buttons {
  import opened Bytes
  import opened Wrappers

  /** The tick counter and the edge counter are 32 bits wide and wrap around. */
  const MODULUS := 0x1_0000_0000
  const MAX_DELAY: u32 := 0xFFFF_FFFF
  const MAX_BUTTONS := 16

  datatype EventType = Click | LongPress
  datatype ButtonEvent = ButtonEvent(gpio: nat, kind: EventType, timestampMs: u32)
  datatype Config = Config(gpio: nat, activeLow: bool, debounceMs: u16, longPressMs: u16)

  datatype Slot = Slot(
    config: Config, lastEdge: u32, generation: u32, handled: u32, pressTick: u32, pressed: bool, reported: bool)
  {
    predicate Unsettled() {
      generation != handled
    }

    predicate LongPending() {
      pressed && !reported
    }
  }

  /** At least one tick; the tick rate is at most 1000 per second. */
  function Ticks(ms: u16, rate: nat): (t: nat)
    requires 0 < rate <= 1000
    ensures 1 <= t <= 0xFFFF
  {
    var t := ms * rate / 1000;
    TicksBound(ms, rate);
    if t < 1 then 1 else t
  }

  /** The time in whole ticks, but at least one. */
  lemma TicksMeaning(ms: u16, rate: nat)
    requires 0 < rate <= 1000
    ensures var t := Ticks(ms, rate);
      1000 * t <= ms * rate < 1000 * (t + 1) || (ms * rate < 1000 && t == 1)
  {
  }

  lemma TicksBound(ms: u16, rate: nat)
    requires 0 < rate <= 1000
    ensures 0 <= ms * rate / 1000 <= ms
  {
    assert ms * rate <= ms * 1000;
  }

  function Elapsed(now: u32, since: u32): u32 {
    (now - since) % MODULUS
  }

  function Min(a: u32, b: u32): u32 {
    if a < b then a else b
  }

  predicate IsPressed(config: Config, high: bool) {
    if config.activeLow then !high else high
  }

  // ----- the interrupt

  function Edge(slot: Slot, now: u32): Slot {
    slot.(lastEdge := now, generation := (slot.generation + 1) % MODULUS)
  }

  // ----- one pass over one button

  /** Takes the level over once it has been quiet for the debounce time. */
  function Settle(slot: Slot, now: u32, pressed: bool, debounce: nat): (Slot, Option<EventType>) {
    if !slot.Unsettled() || Elapsed(now, slot.lastEdge) < debounce then (slot, None)
    else
      var settled := slot.(handled := slot.generation);
      if pressed == slot.pressed then (settled, None)
      else if pressed then (settled.(pressed := true, pressTick := now, reported := false), None)
      else (settled.(pressed := false), if slot.reported then None else Some(Click))
  }

  /** A long press is reported unless a release may be settling. */
  function Report(slot: Slot, now: u32, pressed: bool, long: nat): (Slot, Option<EventType>) {
    if slot.LongPending() && Elapsed(now, slot.pressTick) >= long && (!slot.Unsettled() || pressed)
    then (slot.(reported := true), Some(LongPress))
    else (slot, None)
  }

  datatype Outcome = Outcome(slot: Slot, event: Option<EventType>)

  function Process(slot: Slot, now: u32, high: bool, rate: nat): Outcome
    requires 0 < rate <= 1000
  {
    var pressed := IsPressed(slot.config, high);
    var (settled, click) := Settle(slot, now, pressed, Ticks(slot.config.debounceMs, rate));
    var (slot', long) := Report(settled, now, pressed, Ticks(slot.config.longPressMs, rate));
    Outcome(slot', if click.Some? then click else long)
  }

  // ----- when to look again

  /** Ticks until an edge has settled; nothing to wait for if none is unsettled. */
  function DebounceWait(slot: Slot, now: u32, rate: nat): u32
    requires 0 < rate <= 1000
  {
    var debounce := Ticks(slot.config.debounceMs, rate);
    if slot.Unsettled() && Elapsed(now, slot.lastEdge) < debounce then debounce - Elapsed(now, slot.lastEdge)
        else MAX_DELAY
  }

  function LongWait(slot: Slot, now: u32, rate: nat): u32
    requires 0 < rate <= 1000
  {
    var long := Ticks(slot.config.longPressMs, rate);
    if slot.LongPending() && Elapsed(now, slot.pressTick) < long then long - Elapsed(now, slot.pressTick) else MAX_DELAY
  }

  function SlotWait(slot: Slot, now: u32, rate: nat): u32
    requires 0 < rate <= 1000
  {
    Min(DebounceWait(slot, now, rate), LongWait(slot, now, rate))
  }

  function NextWait(slots: seq<Slot>, now: u32, rate: nat): u32
    requires 0 < rate <= 1000
    decreases |slots|
  {
    if slots == [] then MAX_DELAY
    else Min(NextWait(slots[..|slots| - 1], now, rate), SlotWait(slots[|slots| - 1], now, rate))
  }

  /** A pass settles what has been quiet long enough: afterwards every unsettled edge is still inside
      its debounce time, and a long press that is due but unreported waits for such an edge. */
  lemma ProcessLeavesNothingDue(slot: Slot, now: u32, high: bool, rate: nat)
    requires 0 < rate <= 1000
    ensures var slot' := Process(slot, now, high, rate).slot;
      && (slot'.Unsettled() ==> Elapsed(now, slot'.lastEdge) < Ticks(slot.config.debounceMs, rate))
      && (slot'.LongPending() && Elapsed(now, slot'.pressTick) >= Ticks(slot.config.longPressMs, rate) ==>
            slot'.Unsettled() && !IsPressed(slot.config, high))
      && slot'.config == slot.config && slot'.generation == slot.generation && slot'.lastEdge == slot.lastEdge
  {
    hide Ticks;
  }

  /** Nothing comes early: a level is only taken over after the line has been quiet for the debounce
      time, and a long press is only reported once the button has been held for the long-press time
      since its press was accepted; a click means that this report had not been made. */
  lemma NothingEarly(slot: Slot, now: u32, high: bool, rate: nat)
    requires 0 < rate <= 1000
    ensures var o := Process(slot, now, high, rate);
      && (o.slot.pressed != slot.pressed ==>
            slot.Unsettled() && Elapsed(now, slot.lastEdge) >= Ticks(slot.config.debounceMs, rate)
            && o.slot.pressed == IsPressed(slot.config, high))
      && (o.event == Some(LongPress) <==>
            slot.LongPending() && o.slot.pressed && o.slot.reported)
      && (o.event == Some(LongPress) ==> Elapsed(now, slot.pressTick) >= Ticks(slot.config.longPressMs, rate))
      && (o.event == Some(Click) <==> slot.LongPending() && !o.slot.pressed)
  {
    hide Ticks;
  }

  /** In real time: a pass takes an edge into account exactly when the debounce time is over, or when the edge
      was stamped after the pass had read the clock. (Edges up to a turn of the clock away.) */
  lemma SettledExactly(slot: Slot, edge: nat, now: nat, high: bool, rate: nat)
    requires 0 < rate <= 1000 && slot.Unsettled() && slot.lastEdge == edge % MODULUS
    requires now < edge + MODULUS && edge <= now + MODULUS - Ticks(slot.config.debounceMs, rate)
    ensures var slot' := Process(slot, now % MODULUS, high, rate).slot;
      && (!slot'.Unsettled() <==> now >= edge + Ticks(slot.config.debounceMs, rate) || now < edge)
      && slot'.pressed == if slot'.Unsettled() then slot.pressed else IsPressed(slot.config, high)
  {
    hide Ticks;
    if edge <= now {
      ElapsedIsTime(edge, now);
    } else {
      StampedLater(edge, now);
    }
  }

  lemma StampedLater(edge: nat, now: nat)
    requires now < edge <= now + MODULUS
    ensures Elapsed(now % MODULUS, edge % MODULUS) == if edge == now + MODULUS then 0 else MODULUS - (edge - now)
  {
  }

  /** An input for the second case: an interrupt between reading the clock and looking at the button makes
      the first contact of a bounce a press. */
  lemma TakenAtOnce()
    ensures Run(Slot(Config(0, true, 20, 800), 0, 0, 0, 0, false, false), [EdgeAt(101), PassAt(100, false)], 1000).1
         == [Press]
  {
    var slot := Slot(Config(0, true, 20, 800), 0, 0, 0, 0, false, false);
    var inputs := [EdgeAt(101), PassAt(100, false)];
    assert Ticks(20, 1000) == 20;
    SettledExactly(Edge(slot, 101), 101, 100, false, 1000);
    assert inputs[1..][0] == PassAt(100, false) && inputs[1..][1..] == [];
  }

  predicate Pending(slot: Slot) {
    slot.Unsettled() || slot.LongPending()
  }

  /** The deadlines ahead of a slot: `remaining` ticks from now something is due. */
  predicate Due(slot: Slot, now: u32, rate: nat, remaining: u32)
    requires 0 < rate <= 1000
  {
    || (slot.Unsettled() && Elapsed(now, slot.lastEdge) + remaining == Ticks(slot.config.debounceMs, rate))
    || (slot.LongPending() && Elapsed(now, slot.pressTick) + remaining == Ticks(slot.config.longPressMs, rate))
  }

  lemma SlotWaitIsFirst(slot: Slot, now: u32, rate: nat)
    requires 0 < rate <= 1000
    requires slot.Unsettled() ==> Elapsed(now, slot.lastEdge) < Ticks(slot.config.debounceMs, rate)
    requires slot.LongPending() && Elapsed(now, slot.pressTick) >= Ticks(slot.config.longPressMs, rate)
        ==> slot.Unsettled()
    ensures var wait := SlotWait(slot, now, rate);
      && wait >= 1 && (wait == MAX_DELAY <==> !Pending(slot))
      && (wait != MAX_DELAY ==> Due(slot, now, rate, wait))
      && forall remaining: u32 :: 0 < remaining && Due(slot, now, rate, remaining) ==> wait <= remaining
  {
    hide Ticks;
  }

  // ----- waking up on time

  /** The wrapping subtraction measures time as long as less than a full turn has passed. */
  lemma ElapsedIsTime(start: nat, now: nat)
    requires start <= now < start + MODULUS
    ensures Elapsed(now % MODULUS, start % MODULUS) == now - start
  {
  }

  lemma ElapsedAfter(now: u32, since: u32, wait: nat)
    requires Elapsed(now, since) + wait < MODULUS
    ensures Elapsed((now + wait) % MODULUS, since) == Elapsed(now, since) + wait
  {
  }

  /** A sleep that no edge interrupts ends exactly when something is due: the next pass settles an
      edge, or reports a long press, or finds that press being released. */
  lemma WokenForReason(slot: Slot, now: u32, high: bool, rate: nat, wait: u32)
    requires 0 < rate <= 1000 && 0 < wait && Due(slot, now, rate, wait)
    ensures var later := (now + wait) % MODULUS;
      var slot' := Process(slot, later, high, rate).slot;
      || (slot.Unsettled() && !slot'.Unsettled())
      || (slot.LongPending() && slot'.reported)
      || (slot.LongPending() && slot'.Unsettled() && !IsPressed(slot.config, high))
  {
    var debounce, long := Ticks(slot.config.debounceMs, rate), Ticks(slot.config.longPressMs, rate);
    hide Ticks;
    if slot.Unsettled() && Elapsed(now, slot.lastEdge) + wait == debounce {
      ElapsedAfter(now, slot.lastEdge, wait);
    } else {
      ElapsedAfter(now, slot.pressTick, wait);
    }
  }

  // ----- what the application sees of one button

  datatype Mark = Press | Release | Event(kind: EventType)
  datatype Input = EdgeAt(now: u32) | PassAt(now: u32, high: bool)

  /** Accepted presses and releases, and the events published, of one pass. */
  function Marks(slot: Slot, outcome: Outcome): seq<Mark> {
    (if outcome.event.Some? then [Event(outcome.event.value)] else [])
    + (if slot.pressed == outcome.slot.pressed then [] else if slot.pressed then [Release] else [Press])
  }

  function Run(slot: Slot, inputs: seq<Input>, rate: nat): (Slot, seq<Mark>)
    requires 0 < rate <= 1000
    decreases |inputs|
  {
    if inputs == [] then (slot, [])
    else
      match inputs[0]
      case EdgeAt(now) => Run(Edge(slot, now), inputs[1..], rate)
      case PassAt(now, high) =>
        var outcome := Process(slot, now, high, rate);
        var (last, marks) := Run(outcome.slot, inputs[1..], rate);
        (last, Marks(slot, outcome) + marks)
  }

  /** How far the current press has got. */
  datatype Phase = Idle | Held | Reported | Clicked

  function PhaseOf(slot: Slot): Phase {
    if !slot.pressed then Idle else if slot.reported then Reported else Held
  }

  function Advance(phase: Phase, mark: Mark): Option<Phase> {
    match (phase, mark)
    case (Idle, Press) => Some(Held)
    case (Held, Event(LongPress)) => Some(Reported)
    case (Held, Event(Click)) => Some(Clicked)
    case (Clicked, Release) => Some(Idle)
    case (Reported, Release) => Some(Idle)
    case _ => None
  }

  function AdvanceAll(phase: Phase, marks: seq<Mark>): Option<Phase>
    decreases |marks|
  {
    if marks == [] then Some(phase)
    else
      var next := Advance(phase, marks[0]);
      if next.None? then None else AdvanceAll(next.value, marks[1..])
  }

  lemma {:induction false} AdvanceSplit(phase: Phase, a: seq<Mark>, b: seq<Mark>)
    ensures AdvanceAll(phase, a + b) ==
      if AdvanceAll(phase, a).None? then None else AdvanceAll(AdvanceAll(phase, a).value, b)
    decreases |a|
  {
    if a == [] {
      assert a + b == b;
    } else {
      assert (a + b)[1..] == a[1..] + b;
      if Advance(phase, a[0]).Some? {
        AdvanceSplit(Advance(phase, a[0]).value, a[1..], b);
      }
    }
  }

  lemma OnePass(slot: Slot, now: u32, high: bool, rate: nat)
    requires 0 < rate <= 1000
    ensures var outcome := Process(slot, now, high, rate);
      AdvanceAll(PhaseOf(slot), Marks(slot, outcome)) == Some(PhaseOf(outcome.slot))
  {
    hide Ticks;
    var outcome := Process(slot, now, high, rate);
    var marks := Marks(slot, outcome);
    if |marks| == 2 {
      AdvanceSplit(PhaseOf(slot), [marks[0]], [marks[1]]);
      assert marks == [marks[0]] + [marks[1]];
    }
    assert |marks| <= 1 ==> marks == [] || marks == [marks[0]];
  }

  /** In every run of edges and passes, presses, events and releases alternate strictly: each accepted
      press yields one event, a long press or a click, before its release, and nothing else does. */
  lemma {:induction false} OneEventPerPress(slot: Slot, inputs: seq<Input>, rate: nat)
    requires 0 < rate <= 1000
    ensures var (last, marks) := Run(slot, inputs, rate);
      AdvanceAll(PhaseOf(slot), marks) == Some(PhaseOf(last))
    decreases |inputs|
  {
    if inputs == [] {
    } else {
      hide Process, Marks, Advance;
      match inputs[0]
      case EdgeAt(now) => OneEventPerPress(Edge(slot, now), inputs[1..], rate);
      case PassAt(now, high) =>
        var outcome := Process(slot, now, high, rate);
        OnePass(slot, now, high, rate);
        OneEventPerPress(outcome.slot, inputs[1..], rate);
        AdvanceSplit(PhaseOf(slot), Marks(slot, outcome), Run(outcome.slot, inputs[1..], rate).1);
    }
  }

  function Count(marks: seq<Mark>, release: bool): nat
    decreases |marks|
  {
    if marks == [] then 0
    else (if (if release then marks[0].Release? else marks[0].Event?) then 1 else 0) + Count(marks[1..], release)
  }

  function Owed(phase: Phase): nat {
    if phase.Reported? || phase.Clicked? then 1 else 0
  }

  /** Counted: at any point of a run, as many events as accepted releases, and one more when the
      current press has been reported. */
  lemma {:induction false} EventsMatchReleases(phase: Phase, marks: seq<Mark>)
    requires AdvanceAll(phase, marks).Some?
    ensures Count(marks, false) + Owed(phase) == Count(marks, true) + Owed(AdvanceAll(phase, marks).value)
    decreases |marks|
  {
    if marks == [] {
    } else {
      EventsMatchReleases(Advance(phase, marks[0]).value, marks[1..]);
    }
  }

  // ----- the whole service

  /** One pass over all buttons, each with its level. */
  function Swept(slots: seq<Slot>, now: u32, highs: seq<bool>, rate: nat): (r: seq<Slot>)
    requires 0 < rate <= 1000 && |highs| == |slots|
    ensures |r| == |slots|
  {
    seq(|slots|, i requires 0 <= i < |slots| => Process(slots[i], now, highs[i], rate).slot)
  }

  function EventOf(slot: Slot, now: u32, high: bool, rate: nat): seq<ButtonEvent>
    requires 0 < rate <= 1000
  {
    var event := Process(slot, now, high, rate).event;
    if event.Some? then [ButtonEvent(slot.config.gpio, event.value, Milliseconds(now, rate))] else []
  }

  function Milliseconds(ticks: u32, rate: nat): u32
    requires 0 < rate <= 1000
  {
    ticks * (1000 / rate) % MODULUS
  }

  function Published(slots: seq<Slot>, now: u32, highs: seq<bool>, rate: nat): seq<ButtonEvent>
    requires 0 < rate <= 1000 && |highs| == |slots|
    decreases |slots|
  {
    if slots == [] then []
    else
      var n := |slots| - 1;
      Published(slots[..n], now, highs[..n], rate) + EventOf(slots[n], now, highs[n], rate)
  }

  /** The first deadline of any button: at least one tick away, and never reached only if nothing is
      pending. */
  ghost predicate FirstDeadline(slots: seq<Slot>, now: u32, rate: nat, wait: u32)
    requires 0 < rate <= 1000
  {
    && wait >= 1
    && (wait == MAX_DELAY <==> forall i :: 0 <= i < |slots| ==> !Pending(slots[i]))
    && (wait != MAX_DELAY ==> exists i :: 0 <= i < |slots| && Due(slots[i], now, rate, wait))
    && forall i, remaining: u32 :: 0 <= i < |slots| && 0 < remaining && Due(slots[i], now, rate, remaining) ==>
         wait <= remaining
  }

  lemma FirstOfOne(slot: Slot, now: u32, high: bool, rate: nat)
    requires 0 < rate <= 1000
    ensures var slot' := Process(slot, now, high, rate).slot;
      FirstDeadline([slot'], now, rate, SlotWait(slot', now, rate))
  {
    hide Process, SlotWait, Due, Ticks;
    ProcessLeavesNothingDue(slot, now, high, rate);
    var slot' := Process(slot, now, high, rate).slot;
    SlotWaitIsFirst(slot', now, rate);
    assert [slot'][0] == slot';
  }

  lemma FirstOfMore(slots: seq<Slot>, slot: Slot, now: u32, rate: nat, a: u32, b: u32)
    requires 0 < rate <= 1000 && FirstDeadline(slots, now, rate, a) && FirstDeadline([slot], now, rate, b)
    ensures FirstDeadline(slots + [slot], now, rate, Min(a, b))
  {
    hide Due, Pending;
    var all := slots + [slot];
    assert all[|slots|] == [slot][0] && forall i :: 0 <= i < |slots| ==> all[i] == slots[i];
  }

  /** The sleep after a pass is the first deadline of any button. */
  lemma {:induction false} WaitIsFirst(slots: seq<Slot>, now: u32, highs: seq<bool>, rate: nat)
    requires 0 < rate <= 1000 && |highs| == |slots|
    ensures var swept := Swept(slots, now, highs, rate);
      FirstDeadline(swept, now, rate, NextWait(swept, now, rate))
    decreases |slots|
  {
    hide Process, SlotWait;
    if slots == [] {
    } else {
      var n := |slots| - 1;
      var swept, rest := Swept(slots, now, highs, rate), Swept(slots[..n], now, highs[..n], rate);
      WaitIsFirst(slots[..n], now, highs[..n], rate);
      FirstOfOne(slots[n], now, highs[n], rate);
      FirstOfMore(rest, swept[n], now, rate, NextWait(rest, now, rate), SlotWait(swept[n], now, rate));
      hide FirstDeadline;
      assert swept[..n] == rest && swept == rest + [swept[n]];
    }
  }

  /** How many events a queue takes before it is full. */
  function Taken(queued: nat, events: nat, capacity: nat): nat {
    if queued + events <= capacity then events else if queued <= capacity then capacity - queued else 0
  }

  /** Events are queued while there is room; the rest are counted. */
  function Queued(queue: seq<ButtonEvent>, dropped: nat, events: seq<ButtonEvent>, capacity: nat)
    : (seq<ButtonEvent>, nat)
  {
    var taken := Taken(|queue|, |events|, capacity);
    (queue + events[..taken], dropped + |events| - taken)
  }

  lemma QueueMore(queue: seq<ButtonEvent>, dropped: nat, a: seq<ButtonEvent>, b: seq<ButtonEvent>, capacity: nat)
    ensures var (q, d) := Queued(queue, dropped, a, capacity);
      Queued(q, d, b, capacity) == Queued(queue, dropped, a + b, capacity)
  {
    var n := Taken(|queue|, |a|, capacity);
    if n == |a| {
      var k := Taken(|queue + a|, |b|, capacity);
      assert a[..n] == a && (a + b)[..|a| + k] == a + b[..k];
      assert (queue + a) + b[..k] == queue + (a + b[..k]);
    } else {
      assert (a + b)[..n] == a[..n];
      assert Taken(|queue + a[..n]|, |b|, capacity) == 0 && queue + a[..n] + b[..0] == queue + a[..n];
    }
  }

  lemma QueueFew(queue: seq<ButtonEvent>, dropped: nat, event: ButtonEvent, capacity: nat)
    ensures Queued(queue, dropped, [], capacity) == (queue, dropped)
    ensures Queued(queue, dropped, [event], capacity) ==
      if |queue| < capacity then (queue + [event], dropped) else (queue, dropped + 1)
  {
    assert queue + [] == queue && [event][..0] == [] && [event][..1] == [event];
  }

  lemma ProcessKeepsConfig(slot: Slot, now: u32, high: bool, rate: nat)
    requires 0 < rate <= 1000
    ensures Process(slot, now, high, rate).slot.config == slot.config
  {
  }

  lemma SweepMore(slots: seq<Slot>, now: u32, highs: seq<bool>, i: nat, rate: nat)
    requires 0 < rate <= 1000 && |highs| == |slots| && i < |slots|
    ensures var slot := Process(slots[i], now, highs[i], rate).slot;
      var before := Swept(slots[..i], now, highs[..i], rate);
      && Swept(slots[..i + 1], now, highs[..i + 1], rate) == before + [slot]
      && NextWait(before + [slot], now, rate) == Min(NextWait(before, now, rate), SlotWait(slot, now, rate))
      && Published(slots[..i + 1], now, highs[..i + 1], rate)
         == Published(slots[..i], now, highs[..i], rate) + EventOf(slots[i], now, highs[i], rate)
  {
    hide Process, SlotWait, EventOf;
    assert slots[..i + 1][..i] == slots[..i] && highs[..i + 1][..i] == highs[..i];
    var before := Swept(slots[..i], now, highs[..i], rate);
    assert (before + [Process(slots[i], now, highs[i], rate).slot])[..i] == before;
  }

  predicate Acceptable(config: Config, gpioCount: nat) {
    config.gpio < gpioCount && config.debounceMs != 0 && config.longPressMs > config.debounceMs
  }

  class ButtonService {
    const rate: nat
    const capacity: nat
    const gpioCount: nat
    const buttons: array<Slot>
    var count: nat
    var started: bool
    var queue: seq<ButtonEvent>
    var dropped: nat

    ghost predicate Valid()
      reads this, buttons
    {
      && 0 < rate <= 1000 && buttons.Length == MAX_BUTTONS && count <= MAX_BUTTONS && |queue| <= capacity
      && (forall i :: 0 <= i < count ==> Acceptable(buttons[i].config, gpioCount))
      && (forall i, j :: 0 <= i < j < count ==> buttons[i].config.gpio != buttons[j].config.gpio)
    }

    constructor (rate: nat, capacity: nat, gpioCount: nat)
      requires 0 < rate <= 1000
      ensures Valid() && fresh(buttons) && count == 0 && !started && queue == [] && dropped == 0
      ensures this.rate == rate && this.capacity == capacity && this.gpioCount == gpioCount
    {
      this.rate, this.capacity, this.gpioCount := rate, capacity, gpioCount;
      buttons := new Slot[MAX_BUTTONS](_ => Slot(Config(0, true, 20, 800), 0, 0, 0, 0, false, false));
      count, started, queue, dropped := 0, false, [], 0;
    }

    method AddButton(config: Config) returns (ok: bool)
      requires Valid()
      modifies this`count, buttons
      ensures Valid()
      ensures ok <==>
        && !started && old(count) < 16
        && config.gpio < gpioCount && config.debounceMs != 0 && config.longPressMs > config.debounceMs
        && forall i :: 0 <= i < old(count) ==> old(buttons[i].config.gpio) != config.gpio
      ensures buttons[..count] == old(buttons[..count]) + if ok then [Slot(config, 0, 0, 0, 0, false, false)] else []
    {
      if started || count >= MAX_BUTTONS || !Acceptable(config, gpioCount) {
        return false;
      }
      for i := 0 to count
        invariant forall j :: 0 <= j < i ==> buttons[j].config.gpio != config.gpio
      {
        if buttons[i].config.gpio == config.gpio {
          return false;
        }
      }
      buttons[count] := Slot(config, 0, 0, 0, 0, false, false);
      count := count + 1;
      return true;
    }

    /** A level change of one button. */
    method GpioIsr(i: nat, now: u32)
      requires Valid() && i < count
      modifies buttons
      ensures Valid() && buttons[..count] == old(buttons[..count])[i := Edge(old(buttons[i]), now)]
    {
      buttons[i] := buttons[i].(lastEdge := now, generation := (buttons[i].generation + 1) % MODULUS);
    }

    method Publish(slot: Slot, kind: EventType, now: u32)
      requires Valid()
      modifies this`queue, this`dropped
      ensures Valid()
      ensures (queue, dropped) ==
        Queued(old(queue), old(dropped), [ButtonEvent(slot.config.gpio, kind, Milliseconds(now, rate))], capacity)
    {
      QueueFew(queue, dropped, ButtonEvent(slot.config.gpio, kind, Milliseconds(now, rate)), capacity);
      hide Queued, Milliseconds;
      if |queue| < capacity {
        queue := queue + [ButtonEvent(slot.config.gpio, kind, Milliseconds(now, rate))];
      } else {
        dropped := dropped + 1;
      }
    }

    method TryPop() returns (event: Option<ButtonEvent>)
      requires Valid()
      modifies this`queue
      ensures Valid()
      ensures if old(queue) == [] then event == None && queue == []
          else event == Some(old(queue)[0]) && queue == old(queue)[1..]
    {
      if queue == [] {
        return None;
      }
      event := Some(queue[0]);
      queue := queue[1..];
    }

    /** One pass over one button: its new state, its event if any, and the sleep so far. */
    method Examine(button: Slot, now: u32, high: bool, soFar: u32)
        returns (slot: Slot, event: Option<EventType>, wait: u32)
      requires 0 < rate <= 1000
      ensures Outcome(slot, event) == Process(button, now, high, rate)
      ensures wait == Min(soFar, SlotWait(slot, now, rate))
    {
      hide Ticks;
      slot, event, wait := button, None, soFar;
      var generation := slot.generation;
      if generation != slot.handled {
        var debounce := Ticks(slot.config.debounceMs, rate);
        var elapsed := Elapsed(now, slot.lastEdge);
        if elapsed >= debounce {
          slot := slot.(handled := generation);
          var pressed := IsPressed(slot.config, high);
          if pressed != slot.pressed {
            if pressed {
              slot := slot.(pressTick := now, reported := false);
            } else if !slot.reported {
              event := Some(Click);
            }
            slot := slot.(pressed := pressed);
          }
        } else {
          wait := Min(wait, debounce - elapsed);
        }
      }
      if slot.pressed && !slot.reported {
        var long := Ticks(slot.config.longPressMs, rate);
        var elapsed := Elapsed(now, slot.pressTick);
        if elapsed >= long {
          if generation == slot.handled || IsPressed(slot.config, high) {
            slot := slot.(reported := true);
            event := Some(LongPress);
          }
        } else {
          wait := Min(wait, long - elapsed);
        }
      }
    }

    /** One pass over all buttons, returning how long to sleep. */
    method ProcessButtons(now: u32, highs: seq<bool>) returns (wait: u32)
      requires Valid() && |highs| == count
      modifies buttons, this`queue, this`dropped
      ensures Valid() && buttons[..count] == Swept(old(buttons[..count]), now, highs, rate)
      ensures wait == NextWait(buttons[..count], now, rate)
      ensures var events := Published(old(buttons[..count]), now, highs, rate);
        (queue, dropped) == Queued(old(queue), old(dropped), events, capacity)
    {
      hide Process, SlotWait, Acceptable, Milliseconds, Queued, Swept, NextWait, Published;
      wait := MAX_DELAY;
      ghost var was := buttons[..count];
      Nothing(now, rate, queue, dropped, capacity);
      for i := 0 to count
        invariant Valid() && forall j :: i <= j < count ==> buttons[j] == was[j]
        invariant buttons[..i] == Swept(was[..i], now, highs[..i], rate)
        invariant wait == NextWait(buttons[..i], now, rate)
        invariant (queue, dropped) ==
          Queued(old(queue), old(dropped), Published(was[..i], now, highs[..i], rate), capacity)
      {
        var slot, event;
        slot, event, wait := Examine(buttons[i], now, highs[i], wait);
        QueueMore(old(queue), old(dropped), Published(was[..i], now, highs[..i], rate),
            EventOf(was[i], now, highs[i], rate),
                  capacity);
        ProcessKeepsConfig(was[i], now, highs[i], rate);
        SweepMore(was, now, highs, i, rate);
        Nothing(now, rate, queue, dropped, capacity);
        if event.Some? {
          Publish(slot, event.value, now);
        }
        ghost var swept := buttons[..i];
        buttons[i] := slot;
        assert buttons[..i + 1] == swept + [slot];
      }
      assert was[..count] == was && highs[..count] == highs;
    }
  }

  lemma Nothing(now: u32, rate: nat, queue: seq<ButtonEvent>, dropped: nat, capacity: nat)
    requires 0 < rate <= 1000
    ensures NextWait([], now, rate) == MAX_DELAY && Swept([], now, [], rate) == [] && Published([], now, [], rate) == []
    ensures Queued(queue, dropped, [], capacity) == (queue, dropped)
  {
    QueueFew(queue, dropped, ButtonEvent(0, Click, 0), capacity);
  }
}

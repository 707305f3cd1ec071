/** What the application is told about each button, over whole runs of the service: edges of any button,
    passes of the worker over all of them, and events taken out of the queue. */
module ButtonEvents {
  import opened Bytes
  import opened Wrappers
  import opened Buttons

  // ----- one button, with the ticks of its marks

  function Stamped(now: u32, marks: seq<Mark>): (r: seq<(u32, Mark)>)
    ensures |r| == |marks|
  {
    seq(|marks|, i requires 0 <= i < |marks| => (now, marks[i]))
  }

  function TimedRun(slot: Slot, inputs: seq<Input>, rate: nat): seq<(u32, Mark)>
    requires 0 < rate <= 1000
    decreases |inputs|
  {
    if inputs == [] then []
    else
      match inputs[0]
      case EdgeAt(now) => TimedRun(Edge(slot, now), inputs[1..], rate)
      case PassAt(now, high) =>
        var outcome := Process(slot, now, high, rate);
        Stamped(now, Marks(slot, outcome)) + TimedRun(outcome.slot, inputs[1..], rate)
  }

  function Untimed(timed: seq<(u32, Mark)>): (r: seq<Mark>)
    ensures |r| == |timed|
  {
    seq(|timed|, i requires 0 <= i < |timed| => timed[i].1)
  }

  lemma {:induction false} TimedIsRun(slot: Slot, inputs: seq<Input>, rate: nat)
    requires 0 < rate <= 1000
    ensures Untimed(TimedRun(slot, inputs, rate)) == Run(slot, inputs, rate).1
    decreases |inputs|
  {
    hide Process, Marks;
    if inputs == [] {
    } else {
      match inputs[0]
      case EdgeAt(now) => TimedIsRun(Edge(slot, now), inputs[1..], rate);
      case PassAt(now, high) =>
        var outcome := Process(slot, now, high, rate);
        TimedIsRun(outcome.slot, inputs[1..], rate);
        assert Untimed(Stamped(now, Marks(slot, outcome))) == Marks(slot, outcome);
    }
  }

  /** The events of a button among its marks, as messages: its pin, the kind, and the time in milliseconds. */
  function Reports(gpio: nat, timed: seq<(u32, Mark)>, rate: nat): seq<ButtonEvent>
    requires 0 < rate <= 1000
    decreases |timed|
  {
    if timed == [] then []
    else
      (match timed[0].1
       case Event(kind) => [ButtonEvent(gpio, kind, timed[0].0 * (1000 / rate) % MODULUS)]
       case _ => [])
      + Reports(gpio, timed[1..], rate)
  }

  lemma {:induction false} ReportsSplit(gpio: nat, a: seq<(u32, Mark)>, b: seq<(u32, Mark)>, rate: nat)
    requires 0 < rate <= 1000
    ensures Reports(gpio, a + b, rate) == Reports(gpio, a, rate) + Reports(gpio, b, rate)
    decreases |a|
  {
    if a == [] {
      assert a + b == b;
    } else {
      assert (a + b)[1..] == a[1..] + b;
      ReportsSplit(gpio, a[1..], b, rate);
    }
  }

  lemma ReportsOfOne(gpio: nat, now: u32, mark: Mark, rate: nat)
    requires 0 < rate <= 1000
    ensures Reports(gpio, Stamped(now, [mark]), rate)
         == if mark.Event? then [ButtonEvent(gpio, mark.kind, now * (1000 / rate) % MODULUS)] else []
    ensures Reports(gpio, Stamped(now, []), rate) == []
  {
    assert Stamped(now, [mark])[1..] == [];
  }

  lemma PassReports(slot: Slot, now: u32, high: bool, rate: nat)
    requires 0 < rate <= 1000
    ensures var outcome := Process(slot, now, high, rate);
      Reports(slot.config.gpio, Stamped(now, Marks(slot, outcome)), rate) == EventOf(slot, now, high, rate)
  {
    hide Process, Reports;
    var outcome := Process(slot, now, high, rate);
    var told: seq<Mark> := if outcome.event.Some? then [Event(outcome.event.value)] else [];
    var rest: seq<Mark> :=
      if slot.pressed == outcome.slot.pressed then [] else if slot.pressed then [Release] else [Press];
    assert Stamped(now, Marks(slot, outcome)) == Stamped(now, told) + Stamped(now, rest);
    ReportsSplit(slot.config.gpio, Stamped(now, told), Stamped(now, rest), rate);
    ReportsOfOne(slot.config.gpio, now, if told == [] then Press else told[0], rate);
    ReportsOfOne(slot.config.gpio, now, if rest == [] then Press else rest[0], rate);
  }

  // ----- the service

  datatype ServiceInput = EdgeOf(i: nat, now: u32) | PassAll(now: u32, highs: seq<bool>) | Take

  /** `told` is what the application has taken out of the queue. */
  datatype Service = Service(slots: seq<Slot>, queue: seq<ButtonEvent>, dropped: nat, told: seq<ButtonEvent>)

  predicate Fits(input: ServiceInput, n: nat) {
    (input.EdgeOf? ==> input.i < n) && (input.PassAll? ==> |input.highs| == n)
  }

  function Serve(s: Service, input: ServiceInput, rate: nat, capacity: nat): (r: Service)
    requires 0 < rate <= 1000 && Fits(input, |s.slots|)
    ensures |r.slots| == |s.slots|
  {
    match input
    case EdgeOf(i, now) => s.(slots := s.slots[i := Edge(s.slots[i], now)])
    case PassAll(now, highs) =>
      var (queue, dropped) := Queued(s.queue, s.dropped, Published(s.slots, now, highs, rate), capacity);
      Service(Swept(s.slots, now, highs, rate), queue, dropped, s.told)
    case Take => if s.queue == [] then s else s.(queue := s.queue[1..], told := s.told + [s.queue[0]])
  }

  predicate AllFit(inputs: seq<ServiceInput>, n: nat) {
    forall k :: 0 <= k < |inputs| ==> Fits(inputs[k], n)
  }

  function ServeAll(s: Service, inputs: seq<ServiceInput>, rate: nat, capacity: nat): (r: Service)
    requires 0 < rate <= 1000 && AllFit(inputs, |s.slots|)
    decreases |inputs|
  {
    if inputs == [] then s else ServeAll(Serve(s, inputs[0], rate, capacity), inputs[1..], rate, capacity)
  }

  /** What one button sees of the run. */
  function OwnInputs(inputs: seq<ServiceInput>, i: nat, n: nat): seq<Input>
    requires i < n && AllFit(inputs, n)
    decreases |inputs|
  {
    if inputs == [] then []
    else
      assert Fits(inputs[0], n);
      (match inputs[0]
       case EdgeOf(j, now) => if j == i then [EdgeAt(now)] else []
       case PassAll(now, highs) => [PassAt(now, highs[i])]
       case Take => [])
      + OwnInputs(inputs[1..], i, n)
  }

  // ----- the events of one pin

  function OfPin(events: seq<ButtonEvent>, gpio: nat): seq<ButtonEvent>
    decreases |events|
  {
    if events == [] then []
    else (if events[0].gpio == gpio then [events[0]] else []) + OfPin(events[1..], gpio)
  }

  lemma {:induction false} OfPinSplit(a: seq<ButtonEvent>, b: seq<ButtonEvent>, gpio: nat)
    ensures OfPin(a + b, gpio) == OfPin(a, gpio) + OfPin(b, gpio)
    decreases |a|
  {
    if a == [] {
      assert a + b == b;
    } else {
      assert (a + b)[1..] == a[1..] + b;
      OfPinSplit(a[1..], b, gpio);
      Associate(if a[0].gpio == gpio then [a[0]] else [], OfPin(a[1..], gpio), OfPin(b, gpio));
    }
  }

  /** As the service accepts buttons: no pin twice. */
  predicate DistinctPins(slots: seq<Slot>) {
    forall i, j :: 0 <= i < j < |slots| ==> slots[i].config.gpio != slots[j].config.gpio
  }

  lemma OfPinOne(slot: Slot, now: u32, high: bool, rate: nat, gpio: nat)
    requires 0 < rate <= 1000
    ensures OfPin(EventOf(slot, now, high, rate), gpio)
         == if slot.config.gpio == gpio then EventOf(slot, now, high, rate) else []
  {
    hide Process;
  }

  /** Of all that one pass publishes, a pin's part is the event of its own button. */
  lemma {:induction false} PublishedOfPin(slots: seq<Slot>, now: u32, highs: seq<bool>, rate: nat, gpio: nat)
    requires 0 < rate <= 1000 && |highs| == |slots| && DistinctPins(slots)
    ensures forall i :: 0 <= i < |slots| && slots[i].config.gpio == gpio ==>
      OfPin(Published(slots, now, highs, rate), gpio) == EventOf(slots[i], now, highs[i], rate)
    ensures (forall i :: 0 <= i < |slots| ==> slots[i].config.gpio != gpio) ==>
      OfPin(Published(slots, now, highs, rate), gpio) == []
    decreases |slots|
  {
    hide EventOf;
    if slots == [] {
    } else {
      var n := |slots| - 1;
      PublishedOfPin(slots[..n], now, highs[..n], rate, gpio);
      OfPinSplit(Published(slots[..n], now, highs[..n], rate), EventOf(slots[n], now, highs[n], rate), gpio);
      OfPinOne(slots[n], now, highs[n], rate, gpio);
      assert forall i :: 0 <= i < n ==> slots[..n][i] == slots[i] && highs[..n][i] == highs[i];
    }
  }

  // ----- every event, once, in order

  lemma QueuedAll(queue: seq<ButtonEvent>, dropped: nat, events: seq<ButtonEvent>, capacity: nat)
    ensures var (queue', dropped') := Queued(queue, dropped, events, capacity);
      dropped' >= dropped && (dropped' == dropped ==> queue' == queue + events)
  {
    assert events[..|events|] == events;
  }

  lemma TakeMoves(told: seq<ButtonEvent>, queue: seq<ButtonEvent>)
    requires queue != []
    ensures (told + [queue[0]]) + queue[1..] == told + queue
  {
  }

  lemma KeepsPins(s: Service, input: ServiceInput, rate: nat, capacity: nat)
    requires 0 < rate <= 1000 && Fits(input, |s.slots|) && DistinctPins(s.slots)
    ensures var s' := Serve(s, input, rate, capacity);
      DistinctPins(s'.slots) && forall i :: 0 <= i < |s.slots| ==> s'.slots[i].config == s.slots[i].config
  {
    hide Process, Published, Queued;
    if input.PassAll? {
      forall i | 0 <= i < |s.slots|
        ensures Process(s.slots[i], input.now, input.highs[i], rate).slot.config == s.slots[i].config
      {
        ProcessKeepsConfig(s.slots[i], input.now, input.highs[i], rate);
      }
    }
  }

  /** One input of the service, seen from one button. */
  lemma ServeOne(s: Service, input: ServiceInput, rate: nat, capacity: nat, i: nat)
    requires 0 < rate <= 1000 && Fits(input, |s.slots|) && DistinctPins(s.slots) && i < |s.slots|
    ensures var s', slot := Serve(s, input, rate, capacity), s.slots[i];
      && s'.dropped >= s.dropped
      && s'.slots[i] == (match input
                         case EdgeOf(j, now) => if j == i then Edge(slot, now) else slot
                         case PassAll(now, highs) => Process(slot, now, highs[i], rate).slot
                         case Take => slot)
      && (s'.dropped == s.dropped ==>
            OfPin(s'.told + s'.queue, slot.config.gpio)
            == OfPin(s.told + s.queue, slot.config.gpio)
               + if input.PassAll? then EventOf(slot, input.now, input.highs[i], rate) else [])
  {
    hide Process, Published, Queued, EventOf, OfPin;
    match input
    case EdgeOf(j, now) => assert OfPin(s.told + s.queue, s.slots[i].config.gpio) + []
                                  == OfPin(s.told + s.queue, s.slots[i].config.gpio);
    case Take =>
      if s.queue != [] {
        TakeMoves(s.told, s.queue);
      }
    case PassAll(now, highs) =>
      var events := Published(s.slots, now, highs, rate);
      QueuedAll(s.queue, s.dropped, events, capacity);
      PublishedOfPin(s.slots, now, highs, rate, s.slots[i].config.gpio);
      OfPinSplit(s.told + s.queue, events, s.slots[i].config.gpio);
      Associate(s.told, s.queue, events);
  }

  lemma OwnReports(slot: Slot, inputs: seq<ServiceInput>, i: nat, n: nat, rate: nat)
    requires 0 < rate <= 1000 && i < n && AllFit(inputs, n) && inputs != []
    ensures Fits(inputs[0], n) && AllFit(inputs[1..], n)
    ensures var rest, gpio := OwnInputs(inputs[1..], i, n), slot.config.gpio;
      Reports(gpio, TimedRun(slot, OwnInputs(inputs, i, n), rate), rate) ==
      match inputs[0]
      case EdgeOf(j, now) => Reports(gpio, TimedRun(if j == i then Edge(slot, now) else slot, rest, rate), rate)
      case PassAll(now, highs) =>
        EventOf(slot, now, highs[i], rate)
        + Reports(gpio, TimedRun(Process(slot, now, highs[i], rate).slot, rest, rate), rate)
      case Take => Reports(gpio, TimedRun(slot, rest, rate), rate)
  {
    hide Process, Reports, EventOf;
    assert Fits(inputs[0], n);
    var own, rest := OwnInputs(inputs, i, n), OwnInputs(inputs[1..], i, n);
    assert own != rest ==> own[1..] == rest;
    match inputs[0]
    case PassAll(now, highs) =>
      var outcome := Process(slot, now, highs[i], rate);
      PassReports(slot, now, highs[i], rate);
      ReportsSplit(slot.config.gpio, Stamped(now, Marks(slot, outcome)), TimedRun(outcome.slot, rest, rate), rate);
    case EdgeOf(j, now) => assert j != i ==> own == rest;
    case Take => assert own == rest;
  }

  /** What the application is told: as long as no event is dropped, what has been taken out of the queue and
      what still waits there are, for each button and in order, exactly the events of that button's own
      run, with its pin, their kinds, and the times of the passes. */
  lemma {:induction false} ToldExactly(s: Service, inputs: seq<ServiceInput>, rate: nat, capacity: nat, i: nat)
    requires 0 < rate <= 1000 && AllFit(inputs, |s.slots|) && DistinctPins(s.slots) && i < |s.slots|
    ensures var s', gpio := ServeAll(s, inputs, rate, capacity), s.slots[i].config.gpio;
      && s'.dropped >= s.dropped
      && (s'.dropped == s.dropped ==>
            OfPin(s'.told + s'.queue, gpio)
            == OfPin(s.told + s.queue, gpio)
               + Reports(gpio, TimedRun(s.slots[i], OwnInputs(inputs, i, |s.slots|), rate), rate))
    decreases |inputs|
  {
    hide Process, Serve, EventOf, OfPin, Reports, TimedRun, OwnInputs, Edge;
    var gpio := s.slots[i].config.gpio;
    if inputs == [] {
      NothingTold(s.slots[i], i, |s.slots|, rate);
      assert OfPin(s.told + s.queue, gpio) + [] == OfPin(s.told + s.queue, gpio);
    } else {
      OwnReports(s.slots[i], inputs, i, |s.slots|, rate);
      KeepsPins(s, inputs[0], rate, capacity);
      ServeOne(s, inputs[0], rate, capacity, i);
      var s' := Serve(s, inputs[0], rate, capacity);
      ToldExactly(s', inputs[1..], rate, capacity, i);
      var before, later := OfPin(s.told + s.queue, gpio),
          Reports(gpio, TimedRun(s'.slots[i], OwnInputs(inputs[1..], i, |s.slots|), rate), rate);
      assert before + [] == before;
      if inputs[0].PassAll? {
        Associate(before, EventOf(s.slots[i], inputs[0].now, inputs[0].highs[i], rate), later);
      }
    }
  }

  lemma NothingTold(slot: Slot, i: nat, n: nat, rate: nat)
    requires 0 < rate <= 1000 && i < n
    ensures Reports(slot.config.gpio, TimedRun(slot, OwnInputs([], i, n), rate), rate) == []
  {
  }

  // ----- with the laws of one button

  function Kinds(marks: seq<Mark>): seq<EventType>
    decreases |marks|
  {
    if marks == [] then [] else (match marks[0] case Event(kind) => [kind] case _ => []) + Kinds(marks[1..])
  }

  function KindsOf(events: seq<ButtonEvent>): (r: seq<EventType>)
    ensures |r| == |events|
  {
    seq(|events|, k requires 0 <= k < |events| => events[k].kind)
  }

  lemma {:induction false} ReportsHaveKinds(gpio: nat, timed: seq<(u32, Mark)>, rate: nat)
    requires 0 < rate <= 1000
    ensures KindsOf(Reports(gpio, timed, rate)) == Kinds(Untimed(timed))
    decreases |timed|
  {
    if timed == [] {
    } else {
      ReportsHaveKinds(gpio, timed[1..], rate);
      assert Untimed(timed)[1..] == Untimed(timed[1..]);
      var (now, mark) := timed[0];
      KindsJoin(if mark.Event? then [ButtonEvent(gpio, mark.kind, now * (1000 / rate) % MODULUS)] else [],
                Reports(gpio, timed[1..], rate));
    }
  }

  lemma KindsJoin(a: seq<ButtonEvent>, b: seq<ButtonEvent>)
    ensures KindsOf(a + b) == KindsOf(a) + KindsOf(b)
  {
  }

  /** From a fresh service: the application is told of each button the kinds of event in the marks of its own
      run, and there is one of these for each accepted press that has been reported or released. */
  lemma OneMessagePerPress(slots: seq<Slot>, inputs: seq<ServiceInput>, rate: nat, capacity: nat, i: nat)
    requires 0 < rate <= 1000 && AllFit(inputs, |slots|) && DistinctPins(slots) && i < |slots| && !slots[i].pressed
    ensures var s', (last, marks) := ServeAll(Service(slots, [], 0, []), inputs, rate, capacity),
                                     Run(slots[i], OwnInputs(inputs, i, |slots|), rate);
      s'.dropped == 0 ==>
        var messages := OfPin(s'.told + s'.queue, slots[i].config.gpio);
        && KindsOf(messages) == Kinds(marks)
        && |messages| == Count(marks, true) + if last.pressed && last.reported then 1 else 0
  {
    hide Process, Reports, TimedRun, Run, OwnInputs, ServeAll, OfPin, Kinds;
    var s, own := Service(slots, [], 0, []), OwnInputs(inputs, i, |slots|);
    ToldExactly(s, inputs, rate, capacity, i);
    assert s.told + s.queue == [];
    EmptyPin(slots[i].config.gpio);
    var timed := TimedRun(slots[i], own, rate);
    ReportsHaveKinds(slots[i].config.gpio, timed, rate);
    TimedIsRun(slots[i], own, rate);
    OneEventPerPress(slots[i], own, rate);
    var (last, marks) := Run(slots[i], own, rate);
    EventsMatchReleases(PhaseOf(slots[i]), marks);
    KindsCount(marks);
    var reports: seq<ButtonEvent> := Reports(slots[i].config.gpio, timed, rate);
    assert [] + reports == reports;
  }

  lemma EmptyPin(gpio: nat)
    ensures OfPin([], gpio) == []
  {
  }

  lemma {:induction false} KindsCount(marks: seq<Mark>)
    ensures |Kinds(marks)| == Count(marks, false)
    decreases |marks|
  {
    if marks == [] {
    } else {
      KindsCount(marks[1..]);
    }
  }
}

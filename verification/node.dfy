/** The CANopen node: the NMT state that decides which service may act on a frame, and the safety of
    the whole slave, SDO server and PDO manager over one dictionary, in every run. */
module Node {
  import opened Bytes
  import opened Wrappers
  import opened ObjectDictionary
  import S = SdoServer
  import R = SdoRuns
  import P = Pdo
  import Safety = PdoSafety
  import H = Heartbeat
  import Can

  datatype NmtState = Stopped | Operational | PreOperational

  /** A started node. `observed` is what an observer has seen of the download in progress. */
  datatype Slave = Slave(
    nodeId: u8, nmt: NmtState, sdo: S.Sdo, pdo: P.Manager, nextHeartbeat: nat, attempts: nat, observed: seq<byte>)

  ghost predicate Inv(n: Slave) {
    P.Inv(n.pdo) && R.Inv(n.sdo, n.observed)
  }

  /** The producer heartbeat time lives in the dictionary, in milliseconds. */
  function PeriodUs(od: Od): nat
    requires od.Valid()
  {
    var e := Find(od.entries, OdKey(0x1017, 0));
    if e.Some? && e.value.size == 2 then GetSize(od.Value(e.value)) * 1000 else 0
  }

  /** The entry that shows the clock: the low 32 bits of its microseconds. */
  function Stamped(od: Od, now: nat): (r: Od)
    requires od.Valid()
    ensures r.entries == od.entries
  {
    var e := Find(od.entries, OdKey(0x1013, 0));
    if e.Some? && e.value.size == 4 then od.With(e.value, PutSize32(now % 0x1_0000_0000)) else od
  }

  lemma StampKeepsPeriod(od: Od, now: nat)
    requires od.Valid()
    ensures Stamped(od, now).Valid() && PeriodUs(Stamped(od, now)) == PeriodUs(od)
  {
  }

  lemma StampKeepsField(od: Od, now: nat, key: OdKey)
    requires P.Configured(od) && P.IsConfig(key)
    ensures P.Configured(Stamped(od, now)) && P.Field(Stamped(od, now), key) == P.Field(od, key)
  {
    P.FoundIsStored(od, key);
  }

  /** The clock is no part of the configuration. */
  lemma StampKeepsInv(p: P.Manager, now: nat)
    requires P.Inv(p)
    ensures p.od.Valid() && P.Configured(Stamped(p.od, now)) && P.Inv(p.(od := Stamped(p.od, now)))
  {
    assert P.IsConfig(P.MapKey(P.Rx, 0, 0));
    forall key | P.IsConfig(key)
      ensures P.Configured(Stamped(p.od, now)) && P.Field(Stamped(p.od, now), key) == P.Field(p.od, key)
    {
      StampKeepsField(p.od, now, key);
    }
    Safety.InvOfSameConfig(p, p.(od := Stamped(p.od, now)));
  }

  // ----- services

  /** The dictionary's hooks answer for the manager's own entries during an SDO request, too. */
  function SdoHooks(n: Slave, hooks: Hooks): Hooks
    requires P.Configured(n.pdo.od)
  {
    P.ManagerHooks(n.pdo.od, n.pdo.fd, hooks)
  }

  /** An SDO request; when it completes a write that the manager's hook accepts, the revision of the
      configuration moves on. */
  function SdoFrame(n: Slave, m: S.Message, now: nat, hooks: Hooks): Slave
    requires P.Configured(n.pdo.od) && n.sdo.Sound()
  {
    var input := R.In(m, now, SdoHooks(n, hooks));
    var r := S.Request(n.sdo, n.pdo.od, m, now, input.hooks);
    var w := R.Commit(n.sdo, n.observed, input);
    var accepted := w.Some? && P.Hooked(w.value.0) && Write(n.pdo.od, w.value.0, w.value.1, input.hooks).0 == NoAbort;
    n.(sdo := r.sdo, observed := R.Track(n.observed, n.sdo, input, r.sdo),
       pdo := n.pdo.(od := r.od, revision := n.pdo.revision + if accepted then 1 else 0))
  }

  /** Entering a state restarts the heartbeat grid, and is announced. */
  function EnterState(n: Slave, nmt: NmtState, now: nat, announce: bool): Slave
    requires n.pdo.od.Valid()
  {
    n.(nmt := nmt, nextHeartbeat := H.Scheduled(now, PeriodUs(n.pdo.od)),
       attempts := n.attempts + if announce then 1 else 0)
  }

  /** Resetting aborts the transfer, restores the communication parameters and boots again. */
  function ResetCommunication(n: Slave, now: nat): Slave
    requires P.Inv(n.pdo)
  {
    Safety.ResetKeepsInv(n.pdo);
    var booted := n.(sdo := n.sdo.Reset(), observed := [], pdo := P.ResetCommunication(n.pdo),
        attempts := n.attempts + 1);
    EnterState(booted, PreOperational, now, false)
  }

  function HandleNmt(n: Slave, command: byte, target: byte, now: nat): Slave
    requires P.Inv(n.pdo)
  {
    if target != 0 && target as int != n.nodeId then n
    else if command == 0x01 then EnterState(n, Operational, now, true)
    else if command == 0x02 then EnterState(n, Stopped, now, true)
    else if command == 0x80 then EnterState(n, PreOperational, now, true)
    else if command == 0x81 || command == 0x82 then ResetCommunication(n, now)
    else n
  }

  // ----- frames and time

  predicate IsNmt(frame: Can.Frame) {
    !frame.extended && !frame.remote && frame.id == 0 && !frame.fd && frame.size == 2
  }

  predicate IsSdo(n: Slave, frame: Can.Frame) {
    !frame.extended && !frame.remote && !frame.fd && frame.id == 0x600 + n.nodeId && frame.size == 8
  }

  predicate IsSync(frame: Can.Frame) {
    !frame.extended && !frame.remote && frame.id == 0x80 && !frame.fd && frame.size <= 1
  }

  /** NMT first, then SDO unless stopped, then SYNC, then receive PDOs. */
  function Handle(n: Slave, frame: Can.Frame, now: nat, sendOk: nat -> bool, hooks: Hooks): Slave
    requires Inv(n)
  {
    if frame.extended || frame.remote then n
    else if IsNmt(frame) then HandleNmt(n, frame.data[0], frame.data[1], now)
    else if n.nmt != Stopped && IsSdo(n, frame) then SdoFrame(n, frame.data[..8], now, hooks)
    else if IsSync(frame) then n.(pdo := P.OnSync(n.pdo, 0, now, n.nmt == Operational, sendOk, hooks).0)
    else n.(pdo := P.HandleFrame(n.pdo, frame, n.nmt == Operational, hooks).0)
  }

  /** Whether a frame was for this node. */
  function Consumed(n: Slave, frame: Can.Frame, hooks: Hooks): bool
    requires Inv(n)
  {
    && !frame.extended && !frame.remote
    && (|| IsNmt(frame) || (n.nmt != Stopped && IsSdo(n, frame)) || IsSync(frame)
        || P.HandleFrame(n.pdo, frame, n.nmt == Operational, hooks).1)
  }

  /** The periodic call: the clock entry, SDO timeout, transmit timers, heartbeat. */
  function Tick(n: Slave, now: nat, sendOk: nat -> bool, hooks: Hooks): Slave
    requires Inv(n)
  {
    var sdo := S.Process(n.sdo, now).0;
    StampKeepsInv(n.pdo, now);
    var stamped := n.pdo.(od := Stamped(n.pdo.od, now));
    var pdo := P.Process(stamped, 0, now, n.nmt == Operational, sendOk, hooks).0;
    var (next, published) := H.Beat(n.nextHeartbeat, now, PeriodUs(pdo.od));
    n.(sdo := sdo, observed := R.Track(n.observed, n.sdo, R.Tick(now), sdo), pdo := pdo,
       nextHeartbeat := next, attempts := n.attempts + if published then 1 else 0)
  }

  // ----- safety over every run

  /** An SDO request acts on the manager like the write it completes, or not at all. */
  lemma SdoFrameIsWrite(n: Slave, m: S.Message, now: nat, hooks: Hooks)
    requires Inv(n)
    ensures var w := R.Commit(n.sdo, n.observed, R.In(m, now, SdoHooks(n, hooks)));
      SdoFrame(n, m, now, hooks).pdo == match w
        case None => n.pdo
        case Some(w) => P.OdWrite(n.pdo, w.0, w.1, hooks).1
    ensures Inv(SdoFrame(n, m, now, hooks))
  {
    hide R.Commit, R.Inv, R.Track, S.Request, P.Inv, P.Hooked, Write, P.ManagerHooks;
    SdoParts(n);
    var input := R.In(m, now, SdoHooks(n, hooks));
    R.StepIsAtomic(n.sdo, n.observed, n.pdo.od, input);
    var w := R.Commit(n.sdo, n.observed, input);
    if w.Some? {
      Safety.OdWriteKeepsInv(n.pdo, w.value.0, w.value.1, hooks);
    }
  }

  lemma SdoParts(n: Slave)
    requires Inv(n)
    ensures P.Configured(n.pdo.od) && n.sdo.Sound() && n.pdo.od.Valid()
  {
  }

  datatype Input =
    | FrameInput(frame: Can.Frame, now: nat, sendOk: nat -> bool, hooks: Hooks)
    | TickInput(now: nat, sendOk: nat -> bool, hooks: Hooks)

  function Apply(n: Slave, input: Input): Slave
    requires Inv(n)
  {
    match input
    case FrameInput(frame, now, sendOk, hooks) => Handle(n, frame, now, sendOk, hooks)
    case TickInput(now, sendOk, hooks) => Tick(n, now, sendOk, hooks)
  }

  lemma ResetKeepsInv(n: Slave, now: nat)
    requires Inv(n)
    ensures Inv(ResetCommunication(n, now))
  {
    Safety.ResetKeepsInv(n.pdo);
    hide P.Inv;
  }

  /** Whatever arrives, the mappings in force stay safe, the cached ones coherent, and a transfer in
      progress consistent with what has been received of it. */
  lemma ApplyKeepsInv(n: Slave, input: Input)
    requires Inv(n)
    ensures Inv(Apply(n, input))
  {
    hide P.Inv, R.Inv, Handle, Tick;
    match input
    case TickInput(now, sendOk, hooks) => TickKeepsInv(n, now, sendOk, hooks);
    case FrameInput(frame, now, sendOk, hooks) => HandleKeepsInv(n, frame, now, sendOk, hooks);
  }

  lemma TickKeepsInv(n: Slave, now: nat, sendOk: nat -> bool, hooks: Hooks)
    requires Inv(n)
    ensures Inv(Tick(n, now, sendOk, hooks))
  {
    StampKeepsInv(n.pdo, now);
    R.StepIsAtomic(n.sdo, n.observed, n.pdo.od, R.Tick(now));
    hide P.Inv, R.Inv, R.Track, S.Process, P.Process, Stamped;
  }

  lemma HandleKeepsInv(n: Slave, frame: Can.Frame, now: nat, sendOk: nat -> bool, hooks: Hooks)
    requires Inv(n)
    ensures Inv(Handle(n, frame, now, sendOk, hooks))
  {
    hide P.Inv, R.Inv, SdoFrame, P.HandleFrame, P.OnSync, ResetCommunication;
    if IsNmt(frame) {
      ResetKeepsInv(n, now);
    } else if n.nmt != Stopped && IsSdo(n, frame) {
      SdoFrameIsWrite(n, frame.data[..8], now, hooks);
    } else if !IsSync(frame) {
      Safety.HandleCacheTransparent(n.pdo, frame, n.nmt == Operational, hooks);
    }
  }

  /** Every run of a slave. */
  function Run(n: Slave, inputs: seq<Input>): (r: Slave)
    requires Inv(n)
    ensures Inv(r)
    decreases |inputs|
  {
    if |inputs| == 0 then n
    else
      ApplyKeepsInv(n, inputs[0]);
      Run(Apply(n, inputs[0]), inputs[1..])
  }

  // ----- what the NMT state permits

  /** Outside NMT commands, a stopped node's dictionary does not change; before the operational state
      only SDO requests change it; and receive PDOs never change the configuration. */
  lemma NmtGates(n: Slave, frame: Can.Frame, now: nat, sendOk: nat -> bool, hooks: Hooks)
    requires Inv(n) && !IsNmt(frame)
    ensures var n' := Handle(n, frame, now, sendOk, hooks);
      && n'.nmt == n.nmt
      && (n.nmt == Stopped ==> n'.pdo.od == n.pdo.od && n'.sdo == n.sdo)
      && (n.nmt == PreOperational && !IsSdo(n, frame) ==> n'.pdo.od == n.pdo.od && n'.sdo == n.sdo)
      && (!IsSdo(n, frame) ==>
            P.Configured(n'.pdo.od) && Safety.SameConfig(n.pdo.od, n'.pdo.od) && n'.pdo.revision == n.pdo.revision)
  {
    Safety.HandleCacheTransparent(n.pdo, frame, n.nmt == Operational, hooks);
    Safety.NothingChanged(n.pdo);
    hide P.Inv, P.HandleFrame, P.OnSync, P.Configured, Safety.SameConfig, SdoFrame;
    if n.nmt != Operational {
      NotOperational(n.pdo, frame, hooks);
    }
  }

  /** A frame that is left to others changes nothing. */
  lemma UnconsumedIsIgnored(n: Slave, frame: Can.Frame, now: nat, sendOk: nat -> bool, hooks: Hooks)
    requires Inv(n) && !Consumed(n, frame, hooks)
    ensures Handle(n, frame, now, sendOk, hooks) == n
  {
    LeftAlone(n.pdo, frame, n.nmt == Operational, hooks);
    hide P.Inv, P.HandleFrame;
  }

  lemma LeftAlone(p: P.Manager, frame: Can.Frame, operational: bool, hooks: Hooks)
    requires P.Inv(p) && !P.HandleFrame(p, frame, operational, hooks).1
    ensures P.HandleFrame(p, frame, operational, hooks).0 == p
  {
    hide P.Inv, P.Refreshed, P.Scatter;
  }

  lemma NotOperational(p: P.Manager, frame: Can.Frame, hooks: Hooks)
    requires P.Inv(p)
    ensures P.HandleFrame(p, frame, false, hooks) == (p, false)
  {
  }

  // ----- the heartbeat of a running node

  /** Only an NMT command for this node enters a state and starts a new grid. */
  predicate Restarts(n: Slave, input: Input) {
    && input.FrameInput? && IsNmt(input.frame)
    && (input.frame.data[1] == 0 || input.frame.data[1] as int == n.nodeId)
    && input.frame.data[0] in {0x01 as byte, 0x02, 0x80, 0x81, 0x82}
  }

  /** A run in which nothing restarts the heartbeats and nobody writes a new period. */
  ghost predicate Steady(n: Slave, inputs: seq<Input>, period: nat)
    requires Inv(n)
    decreases |inputs|
  {
    |inputs| == 0
    || (&& !Restarts(n, inputs[0]) && PeriodUs(n.pdo.od) == period
        && Inv(Apply(n, inputs[0])) && Steady(Apply(n, inputs[0]), inputs[1..], period))
  }

  /** The times of the periodic calls in a run. */
  function TickTimes(inputs: seq<Input>): seq<nat>
    decreases |inputs|
  {
    if |inputs| == 0 then []
    else (if inputs[0].TickInput? then [inputs[0].now] else []) + TickTimes(inputs[1..])
  }

  lemma OneFrame(n: Slave, frame: Can.Frame, now: nat, sendOk: nat -> bool, hooks: Hooks)
    requires Inv(n) && !Restarts(n, FrameInput(frame, now, sendOk, hooks))
    ensures var n' := Handle(n, frame, now, sendOk, hooks);
      n'.nextHeartbeat == n.nextHeartbeat && n'.attempts == n.attempts
  {
    hide P.Inv, PeriodUs, P.OnSync, P.HandleFrame, R.Track, R.Commit, S.Request, Write;
  }

  lemma OneTick(n: Slave, now: nat, sendOk: nat -> bool, hooks: Hooks)
    requires Inv(n)
    ensures n.pdo.od.Valid()
    ensures var n' := Tick(n, now, sendOk, hooks);
      var (next, published) := H.Beat(n.nextHeartbeat, now, PeriodUs(n.pdo.od));
      n'.nextHeartbeat == next && n'.attempts == n.attempts + if published then 1 else 0
  {
    SdoParts(n);
    StampKeepsInv(n.pdo, now);
    StampKeepsPeriod(n.pdo.od, now);
    hide P.Inv, R.Inv, H.Beat, PeriodUs, Stamped, P.Process, S.Process, R.Track;
  }

  lemma {:induction false} RunBeats(n: Slave, inputs: seq<Input>, period: nat)
    requires Inv(n) && Steady(n, inputs, period)
    ensures var n' := Run(n, inputs);
      (n'.nextHeartbeat, n'.attempts - n.attempts) == H.Beats(n.nextHeartbeat, TickTimes(inputs), period)
    decreases |inputs|
  {
    hide Inv, Restarts, PeriodUs, H.Beat, Handle, Tick;
    if |inputs| == 0 {
    } else {
      RunBeats(Apply(n, inputs[0]), inputs[1..], period);
      match inputs[0]
      case FrameInput(frame, now, sendOk, hooks) =>
        OneFrame(n, frame, now, sendOk, hooks);
        assert TickTimes(inputs) == TickTimes(inputs[1..]);
      case TickInput(now, sendOk, hooks) =>
        OneTick(n, now, sendOk, hooks);
        assert TickTimes(inputs)[1..] == TickTimes(inputs[1..]);
    }
  }

  /** The heartbeat of a node, whatever frames arrive between the periodic calls: from the moment it
      enters a state the deadline stays on the grid of that moment, and when the calls come at least
      once per period, one heartbeat is attempted for every period that has passed. A period of zero
      switches heartbeats off. */
  lemma NodeHeartbeatGrid(n: Slave, state: NmtState, start: nat, announce: bool, inputs: seq<Input>)
    requires Inv(n)
    ensures n.pdo.od.Valid() && Inv(EnterState(n, state, start, announce))
    ensures var m, period, times := EnterState(n, state, start, announce), PeriodUs(n.pdo.od), TickTimes(inputs);
      Steady(m, inputs, period) && H.Nondecreasing(start, times) ==>
        var n', now := Run(m, inputs), H.Last(start, times);
        if period == 0 then
          n'.attempts == m.attempts
        else
          && start <= now && n'.nextHeartbeat == H.GridPoint(start, now, period)
          && now < n'.nextHeartbeat <= now + period
          && m.attempts <= n'.attempts <= m.attempts + |times|
          && (H.GapsWithin(start, times, period) ==> n'.attempts == m.attempts + (now - start) / period)
  {
    hide R.Inv, Apply, PeriodUs, H.GridPoint;
    var m, period, times := EnterState(n, state, start, announce), PeriodUs(n.pdo.od), TickTimes(inputs);
    if Steady(m, inputs, period) && H.Nondecreasing(start, times) {
      RunBeats(m, inputs, period);
      if period == 0 {
        H.NoBeats(m.nextHeartbeat, times);
      } else {
        H.GridStarts(start, period);
        H.HeartbeatGrid(start, start, times, period);
      }
    }
  }
}

/** The CAN-FD transport of the ESP32: transmit slots that go around between a queue of free slots,
    the senders, and the controller that completes frames from an interrupt. */
module TwaiTransport {
  import opened Bytes
  import Can

  const MAX_TX_SLOTS := 64

  // ----- frames as the controller sends them

  /** The data lengths a CAN-FD frame can have, from eight bytes up. */
  function CanonicalFdLength(size: nat): nat {
    if size <= 8 then 8 else if size <= 12 then 12 else if size <= 16 then 16 else if size <= 20 then 20
    else if size <= 24 then 24 else if size <= 32 then 32 else if size <= 48 then 48 else 64
  }

  /** The least length on the list that holds the payload, for every payload a frame can have. */
  lemma CanonicalIsLeast(size: nat, length: nat)
    requires size <= 64 && length in {8, 12, 16, 20, 24, 32, 48, 64} && size <= length
    ensures size <= CanonicalFdLength(size) <= length
    ensures CanonicalFdLength(size) in {8, 12, 16, 20, 24, 32, 48, 64}
  {
  }

  /** A frame in a slot: an FD frame is padded with zeros to the next possible length. */
  function OnWire(f: Can.Frame): Can.Frame
    requires f.Valid()
  {
    f.Cleaned().(size := if f.fd then CanonicalFdLength(f.size) else f.size)
  }

  /** What goes out is what was passed: identifier, flags, payload, and nothing but zeros behind it. */
  lemma WireCarries(f: Can.Frame, length: nat)
    requires f.Valid()
    ensures var w := OnWire(f);
      && w.id == f.id && w.extended == f.extended && w.remote == f.remote && w.fd == f.fd
      && w.bitrateSwitch == f.bitrateSwitch && w.data[..f.size] == f.data[..f.size]
      && (forall i :: f.size <= i < 64 ==> w.data[i] == 0)
      && (!f.fd ==> w.size == f.size)
      && (f.fd ==> f.size <= w.size && w.size in {8, 12, 16, 20, 24, 32, 48, 64})
      && (f.fd && f.size <= length && length in {8, 12, 16, 20, 24, 32, 48, 64} ==> w.size <= length)
  {
    if f.fd && f.size <= length && length in {8, 12, 16, 20, 24, 32, 48, 64} {
      CanonicalIsLeast(f.size, length);
    }
  }

  // ----- the slot protocol

  /** Where a sending task is. */
  datatype Sender =
    | Waiting(frame: Can.Frame)
    | Holding(frame: Can.Frame, slot: nat)
    | Filled(frame: Can.Frame, slot: nat)
    | Refused(slot: nat)
  {
    predicate Owns(k: nat) {
      !Waiting? && slot == k
    }
  }

  type Task = nat
  type Slots = s: seq<Can.Frame> | |s| == MAX_TX_SLOTS
    witness seq(MAX_TX_SLOTS, _ => Can.Frame(0, 0, false, false, false, false, Zeros(64)))

  /** The queue, the slots, the callers inside `send`, and the frames the controller holds, each by the
      number it was accepted under. `log` lists the accepted frames as passed to `send`, `sent` what
      the controller found in the slot when it completed them. `refusals` and `strays` count frames the
      controller refused and completions of frames that are in no slot. */
  datatype State = State(
    depth: nat, free: seq<nat>, slots: Slots, senders: map<Task, Sender>, inFlight: map<nat, nat>,
    log: seq<Can.Frame>, sent: map<nat, Can.Frame>, refusals: nat, strays: nat, txFrames: nat, txFailed: nat)

  datatype Step =
    | Begin(task: Task, frame: Can.Frame)
    | Acquire(task: Task)
    | Fill(task: Task)
    | Submit(task: Task, accepted: bool)
    | GiveBack(task: Task)
    | Done(slot: nat, success: bool)
    | Stray

  /** A queue send without waiting: it fails, and the item is lost, when the queue is full. */
  function QueueSend(queue: seq<nat>, item: nat, depth: nat): seq<nat> {
    if |queue| < depth then queue + [item] else queue
  }

  function Init(depth: nat, slots: Slots): State {
    State(depth, seq(depth, i => i), slots, map[], map[], [], map[], 0, 0, 0, 0)
  }

  /** The controller takes a filled slot over. */
  function Accepted(s: State, task: Task, frame: Can.Frame, slot: nat): State {
    s.(inFlight := s.inFlight[slot := |s.log|], log := s.log + [frame], senders := s.senders - {task})
  }

  /** The completion interrupt, which is told the slot and whether the frame went out. */
  function Completed(s: State, slot: nat, success: bool): State
    requires slot in s.inFlight && slot < MAX_TX_SLOTS
  {
    s.(free := QueueSend(s.free, slot, s.depth), inFlight := s.inFlight - {slot},
       sent := s.sent[s.inFlight[slot] := s.slots[slot]],
       txFrames := s.txFrames + if success then 1 else 0,
       txFailed := s.txFailed + if success then 0 else 1)
  }

  /** What the interrupt does when the driver completes a frame that is not in flight. */
  function CompletedAgain(s: State, slot: nat, success: bool): State {
    s.(free := QueueSend(s.free, slot, s.depth),
       txFrames := s.txFrames + if success then 1 else 0,
       txFailed := s.txFailed + if success then 0 else 1)
  }

  /** One atomic step; a step whose actor is not at the right place changes nothing. */
  function Next(s: State, step: Step): State
    requires Indexed(s)
  {
    match step
    case Begin(task, frame) =>
      if task in s.senders || !frame.Valid() then s else s.(senders := s.senders[task := Waiting(frame)])
    case Acquire(task) =>
      if task !in s.senders || !s.senders[task].Waiting? then s
      else if s.free == [] then s.(senders := s.senders - {task})
      else s.(free := s.free[1..], senders := s.senders[task := Holding(s.senders[task].frame, s.free[0])])
    case Fill(task) =>
      if task !in s.senders || !s.senders[task].Holding? then s
      else
        var h := s.senders[task];
        s.(slots := s.slots[h.slot := OnWire(h.frame)], senders := s.senders[task := Filled(h.frame, h.slot)])
    case Submit(task, accepted) =>
      if task !in s.senders || !s.senders[task].Filled? then s
      else
        var h := s.senders[task];
        if accepted then Accepted(s, task, h.frame, h.slot)
        else s.(senders := s.senders[task := Refused(h.slot)])
    case GiveBack(task) =>
      if task !in s.senders || !s.senders[task].Refused? then s
      else
        s.(free := QueueSend(s.free, s.senders[task].slot, s.depth), senders := s.senders - {task},
           refusals := s.refusals + 1, txFailed := s.txFailed + 1)
    case Done(slot, success) =>
      if slot !in s.inFlight then s else Completed(s, slot, success)
    case Stray => s.(strays := s.strays + 1, txFailed := s.txFailed + 1)
  }

  // ----- the invariant

  /** Every slot number anywhere is a slot, and every frame being sent is valid. */
  ghost predicate Indexed(s: State) {
    && 0 < s.depth <= MAX_TX_SLOTS
    && (forall i :: 0 <= i < |s.free| ==> s.free[i] < s.depth)
    && (forall t :: t in s.senders && !s.senders[t].Waiting? ==> s.senders[t].slot < s.depth)
    && (forall t :: t in s.senders && !s.senders[t].Refused? ==> s.senders[t].frame.Valid())
    && (forall k :: k in s.inFlight ==> k < s.depth)
  }

  ghost predicate Held(s: State, k: nat) {
    exists t :: t in s.senders && s.senders[t].Owns(k)
  }

  /** Each slot is in exactly one place. */
  ghost predicate Partitioned(s: State) {
    && (forall i, j :: 0 <= i < j < |s.free| ==> s.free[i] != s.free[j])
    && (forall k :: k in s.inFlight ==> k !in s.free)
    && (forall t :: t in s.senders && !s.senders[t].Waiting? ==>
          s.senders[t].slot !in s.free && s.senders[t].slot !in s.inFlight)
    && (forall t, u ::
          t in s.senders && u in s.senders && t != u && !s.senders[t].Waiting? && !s.senders[u].Waiting? ==>
          s.senders[t].slot != s.senders[u].slot)
    && (forall k: nat :: k < s.depth ==> k in s.free || k in s.inFlight || Held(s, k))
  }

  /** A filled slot holds its task's frame, a slot in flight the frame it was accepted with; every
      accepted frame is in flight or has been sent, never both, and as it was accepted. */
  ghost predicate Faithful(s: State) {
    && (forall i :: 0 <= i < |s.log| ==> s.log[i].Valid())
    && (forall t :: t in s.senders && s.senders[t].Filled? ==>
          s.senders[t].slot < MAX_TX_SLOTS && s.senders[t].frame.Valid()
          && s.slots[s.senders[t].slot] == OnWire(s.senders[t].frame))
    && (forall k :: k in s.inFlight ==>
          k < MAX_TX_SLOTS && s.inFlight[k] < |s.log| && s.slots[k] == OnWire(s.log[s.inFlight[k]]))
    && (forall j, k :: j in s.inFlight && k in s.inFlight && j != k ==> s.inFlight[j] != s.inFlight[k])
    && (forall n :: n in s.sent ==> n < |s.log| && s.sent[n] == OnWire(s.log[n]))
    && (forall k :: k in s.inFlight ==> s.inFlight[k] !in s.sent)
  }

  /** Accepted frames, completions and the statistics agree. */
  ghost predicate Counted(s: State) {
    && |s.log| == |s.inFlight.Keys| + |s.sent.Keys|
    && s.txFrames + s.txFailed == |s.sent.Keys| + s.refusals + s.strays
  }

  ghost predicate Inv(s: State) {
    Indexed(s) && Partitioned(s) && Faithful(s) && Counted(s)
  }

  lemma InitInv(depth: nat, slots: Slots)
    requires 0 < depth <= MAX_TX_SLOTS
    ensures Inv(Init(depth, slots))
  {
    var s := Init(depth, slots);
    forall k: nat | k < depth ensures k in s.free {
      assert s.free[k] == k;
    }
  }

  // ----- giving a slot back never fails

  lemma {:induction false} Pigeonhole(s: seq<nat>, n: nat)
    requires forall i :: 0 <= i < |s| ==> s[i] < n
    requires forall i, j :: 0 <= i < j < |s| ==> s[i] != s[j]
    ensures |s| <= n
    decreases n
  {
    if s == [] {
    } else {
      assert s[0] < n;
      if i :| 0 <= i < |s| && s[i] == n - 1 {
        Pigeonhole(s[..i] + s[i + 1..], n - 1);
      } else {
        Pigeonhole(s, n - 1);
      }
    }
  }

  /** A slot that is not in the queue always finds room there. */
  lemma RoomForSlot(s: State, slot: nat)
    requires Indexed(s) && Partitioned(s) && slot < s.depth && slot !in s.free
    ensures |s.free| < s.depth && QueueSend(s.free, slot, s.depth) == s.free + [slot]
  {
    Pigeonhole(s.free + [slot], s.depth);
  }

  /** The queue sends whose results are ignored cannot fail. */
  lemma GiveBackSucceeds(s: State, step: Step)
    requires Inv(s)
    ensures step.GiveBack? && step.task in s.senders && s.senders[step.task].Refused? ==>
      Next(s, step).free == s.free + [s.senders[step.task].slot]
    ensures step.Done? && step.slot in s.inFlight ==> Next(s, step).free == s.free + [step.slot]
  {
    if step.GiveBack? && step.task in s.senders && s.senders[step.task].Refused? {
      RoomForSlot(s, s.senders[step.task].slot);
    } else if step.Done? && step.slot in s.inFlight {
      RoomForSlot(s, step.slot);
    }
  }

  // ----- every step keeps the invariant

  lemma HeldElsewhere(s: State, s': State, task: Task, k: nat)
    requires Held(s, k) && forall t :: t in s.senders && t != task ==> t in s'.senders && s'.senders[t] == s.senders[t]
    ensures Held(s', k) || (task in s.senders && s.senders[task].Owns(k))
  {
    var t :| t in s.senders && s.senders[t].Owns(k);
    if t != task {
      assert s'.senders[t].Owns(k);
    }
  }

  lemma AcquireKeepsPartition(s: State, task: Task)
    requires Indexed(s) && Partitioned(s)
    ensures Partitioned(Next(s, Acquire(task)))
  {
    hide OnWire;
    var s' := Next(s, Acquire(task));
    forall k: nat | k < s.depth ensures k in s'.free || k in s'.inFlight || Held(s', k) {
      if Held(s, k) {
        HeldElsewhere(s, s', task, k);
      } else if k !in s'.free && k !in s'.inFlight {
        assert k == s.free[0] && s'.senders[task].Owns(k);
      }
    }
  }

  lemma FillKeepsPartition(s: State, task: Task)
    requires Indexed(s) && Partitioned(s)
    ensures Partitioned(Next(s, Fill(task)))
  {
    hide OnWire;
    var s' := Next(s, Fill(task));
    forall k: nat | k < s.depth ensures k in s'.free || k in s'.inFlight || Held(s', k) {
      if Held(s, k) {
        HeldElsewhere(s, s', task, k);
        assert task in s.senders && s.senders[task].Owns(k) ==> s'.senders[task].Owns(k);
      }
    }
  }

  lemma SubmitKeepsPartition(s: State, task: Task, accepted: bool)
    requires Indexed(s) && Partitioned(s)
    ensures Partitioned(Next(s, Submit(task, accepted)))
  {
    hide OnWire;
    var s' := Next(s, Submit(task, accepted));
    forall k: nat | k < s.depth ensures k in s'.free || k in s'.inFlight || Held(s', k) {
      if Held(s, k) {
        HeldElsewhere(s, s', task, k);
        assert task in s'.senders && task in s.senders && s.senders[task].Owns(k) ==> s'.senders[task].Owns(k);
      }
    }
  }

  lemma GiveBackKeepsPartition(s: State, task: Task)
    requires Indexed(s) && Partitioned(s)
    ensures Partitioned(Next(s, GiveBack(task)))
  {
    hide OnWire;
    var s' := Next(s, GiveBack(task));
    if task in s.senders && s.senders[task].Refused? {
      RoomForSlot(s, s.senders[task].slot);
      forall k: nat | k < s.depth ensures k in s'.free || k in s'.inFlight || Held(s', k) {
        if Held(s, k) {
          HeldElsewhere(s, s', task, k);
        }
      }
    }
  }

  lemma DoneKeepsPartition(s: State, slot: nat, success: bool)
    requires Indexed(s) && Partitioned(s)
    ensures Partitioned(Next(s, Done(slot, success)))
  {
    hide OnWire;
    var s' := Next(s, Done(slot, success));
    if slot in s.inFlight {
      RoomForSlot(s, slot);
      forall k: nat | k < s.depth ensures k in s'.free || k in s'.inFlight || Held(s', k) {
        if Held(s, k) {
          var t :| t in s.senders && s.senders[t].Owns(k);
          assert s'.senders[t].Owns(k);
        }
      }
    }
  }

  lemma SendersUntouched(s: State, s': State)
    requires Partitioned(s) && s'.depth == s.depth && s'.free == s.free
    requires s'.senders == s.senders && s'.inFlight == s.inFlight
    ensures Partitioned(s')
  {
    assert forall k: nat :: Held(s, k) ==> Held(s', k);
  }

  lemma NextKeepsPartition(s: State, step: Step)
    requires Indexed(s) && Partitioned(s)
    ensures Partitioned(Next(s, step))
  {
    match step
    case Begin(task, frame) =>
      var s' := Next(s, step);
      forall k: nat | k < s.depth ensures k in s'.free || k in s'.inFlight || Held(s', k) {
        if Held(s, k) {
          HeldElsewhere(s, s', task, k);
        }
      }
    case Acquire(task) => AcquireKeepsPartition(s, task);
    case Fill(task) => FillKeepsPartition(s, task);
    case Submit(task, accepted) => SubmitKeepsPartition(s, task, accepted);
    case GiveBack(task) => GiveBackKeepsPartition(s, task);
    case Done(slot, success) => DoneKeepsPartition(s, slot, success);
    case Stray => SendersUntouched(s, Next(s, step));
  }

  lemma NextKeepsIndexed(s: State, step: Step)
    requires Indexed(s)
    ensures Indexed(Next(s, step))
  {
    hide OnWire;
  }

  /** Filling writes only a slot its task owns, so nothing in flight or filled by another changes. */
  lemma FillKeepsFaithful(s: State, task: Task)
    requires Indexed(s) && Partitioned(s) && Faithful(s)
    ensures Faithful(Next(s, Fill(task)))
  {
    hide Held, OnWire;
  }

  lemma SubmitKeepsFaithful(s: State, task: Task, accepted: bool)
    requires Indexed(s) && Partitioned(s) && Faithful(s)
    ensures Faithful(Next(s, Submit(task, accepted)))
  {
    hide Held, OnWire;
  }

  lemma DoneKeepsFaithful(s: State, slot: nat, success: bool)
    requires Indexed(s) && Faithful(s)
    ensures Faithful(Next(s, Done(slot, success)))
  {
    hide OnWire, QueueSend;
  }

  /** Steps that move no frame: what is filled, in flight or sent stays, filled slots may only be
      given up. */
  lemma FaithfulStays(s: State, s': State)
    requires Faithful(s) && s'.log == s.log && s'.slots == s.slots && s'.inFlight == s.inFlight && s'.sent == s.sent
    requires forall t :: t in s'.senders && s'.senders[t].Filled? ==> t in s.senders && s.senders[t] == s'.senders[t]
    ensures Faithful(s')
  {
    hide OnWire;
  }

  lemma BeginKeepsFaithful(s: State, task: Task, frame: Can.Frame)
    requires Indexed(s) && Faithful(s)
    ensures Faithful(Next(s, Begin(task, frame)))
  {
    hide Indexed, Faithful, QueueSend;
    FaithfulStays(s, Next(s, Begin(task, frame)));
  }

  lemma AcquireKeepsFaithful(s: State, task: Task)
    requires Indexed(s) && Faithful(s)
    ensures Faithful(Next(s, Acquire(task)))
  {
    hide Indexed, Faithful, QueueSend;
    FaithfulStays(s, Next(s, Acquire(task)));
  }

  lemma GiveBackKeepsFaithful(s: State, task: Task)
    requires Indexed(s) && Faithful(s)
    ensures Faithful(Next(s, GiveBack(task)))
  {
    hide Indexed, Faithful, QueueSend;
    FaithfulStays(s, Next(s, GiveBack(task)));
  }

  lemma StrayKeepsFaithful(s: State)
    requires Indexed(s) && Faithful(s)
    ensures Faithful(Next(s, Stray))
  {
    hide Indexed, Faithful;
    FaithfulStays(s, Next(s, Stray));
  }

  lemma NextKeepsFaithful(s: State, step: Step)
    requires Indexed(s) && Partitioned(s) && Faithful(s)
    ensures Faithful(Next(s, step))
  {
    hide Indexed, Partitioned, Faithful, Next;
    match step
    case Begin(task, frame) => BeginKeepsFaithful(s, task, frame);
    case Acquire(task) => AcquireKeepsFaithful(s, task);
    case Fill(task) => FillKeepsFaithful(s, task);
    case Submit(task, accepted) => SubmitKeepsFaithful(s, task, accepted);
    case GiveBack(task) => GiveBackKeepsFaithful(s, task);
    case Done(slot, success) => DoneKeepsFaithful(s, slot, success);
    case Stray => StrayKeepsFaithful(s);
  }

  lemma OneMoreKey<V>(m: map<nat, V>, k: nat, v: V)
    requires k !in m
    ensures |m[k := v].Keys| == |m.Keys| + 1
  {
    assert m[k := v].Keys == m.Keys + {k};
  }

  lemma OneLessKey<V>(m: map<nat, V>, k: nat)
    requires k in m
    ensures |(m - {k}).Keys| == |m.Keys| - 1
  {
    assert (m - {k}).Keys == m.Keys - {k};
  }

  lemma AcceptedKeepsCounted(s: State, task: Task, frame: Can.Frame, slot: nat)
    requires Counted(s) && slot !in s.inFlight
    ensures Counted(Accepted(s, task, frame, slot))
  {
    OneMoreKey(s.inFlight, slot, |s.log|);
  }

  lemma CompletedKeepsCounted(s: State, slot: nat, success: bool)
    requires Counted(s) && slot in s.inFlight && slot < MAX_TX_SLOTS && s.inFlight[slot] !in s.sent
    ensures Counted(Completed(s, slot, success))
  {
    hide QueueSend;
    OneLessKey(s.inFlight, slot);
    OneMoreKey(s.sent, s.inFlight[slot], s.slots[slot]);
  }

  lemma NextKeepsCounted(s: State, step: Step)
    requires Inv(s)
    ensures Counted(Next(s, step))
  {
    hide OnWire, QueueSend, Held, Counted, Accepted, Completed;
    match step
    case Submit(task, true) =>
      if task in s.senders && s.senders[task].Filled? {
        AcceptedKeepsCounted(s, task, s.senders[task].frame, s.senders[task].slot);
      }
    case Done(slot, success) =>
      if slot in s.inFlight {
        CompletedKeepsCounted(s, slot, success);
      }
    case _ => OthersKeepCounted(s, step);
  }

  lemma OthersKeepCounted(s: State, step: Step)
    requires Indexed(s) && Counted(s) && !step.Done? && !(step.Submit? && step.accepted)
    ensures Counted(Next(s, step))
  {
    hide Indexed, OnWire, QueueSend;
  }

  lemma LogGrows(s: State, step: Step)
    requires Indexed(s)
    ensures s.log <= Next(s, step).log
  {
    hide Indexed, OnWire, QueueSend;
  }

  lemma NextKeepsInv(s: State, step: Step)
    requires Inv(s)
    ensures Inv(Next(s, step)) && s.log <= Next(s, step).log
  {
    hide Indexed, Partitioned, Faithful, Counted, Next;
    NextKeepsIndexed(s, step);
    NextKeepsPartition(s, step);
    NextKeepsFaithful(s, step);
    NextKeepsCounted(s, step);
    LogGrows(s, step);
  }

  /** Every interleaving of sending tasks and completion interrupts. */
  function Run(s: State, steps: seq<Step>): (r: State)
    requires Inv(s)
    ensures Inv(r) && s.log <= r.log
    decreases |steps|
  {
    hide Indexed, Partitioned, Faithful, Counted, Next;
    if |steps| == 0 then s
    else
      NextKeepsInv(s, steps[0]);
      Run(Next(s, steps[0]), steps[1..])
  }

  // ----- what holds in every reachable state

  ghost function HeldSlots(s: State): set<nat> {
    set t | t in s.senders && !s.senders[t].Waiting? :: s.senders[t].slot
  }

  ghost function Elements(s: seq<nat>): set<nat> {
    set k | k in s
  }

  ghost function Below(n: nat): (r: set<nat>)
    ensures |r| == n && forall k: nat :: k in r <==> k < n
  {
    if n == 0 then {} else Below(n - 1) + {n - 1}
  }

  /** Free, held and in-flight slots partition the slots in use. */
  lemma SlotsPartition(s: State)
    requires Inv(s)
    ensures var free, held, flying := Elements(s.free), HeldSlots(s), s.inFlight.Keys;
      && free !! held && free !! flying && held !! flying
      && free + held + flying == Below(s.depth)
      && |s.free| + |held| + |flying| == s.depth
  {
    var free, held, flying := Elements(s.free), HeldSlots(s), s.inFlight.Keys;
    SlotsCover(s);
    CountOfDistinct(s.free);
    hide Held, Indexed, Faithful, Counted, HeldSlots, Elements, Partitioned;
    assert |free + held + flying| == |free + held| + |flying| == |free| + |held| + |flying|;
  }

  lemma SlotsCover(s: State)
    requires Indexed(s) && Partitioned(s)
    ensures var free, held, flying := Elements(s.free), HeldSlots(s), s.inFlight.Keys;
      && free !! held && free !! flying && held !! flying && free + held + flying == Below(s.depth)
  {
    var free, held, flying := Elements(s.free), HeldSlots(s), s.inFlight.Keys;
    forall k: nat | k < s.depth ensures k in free || k in held || k in flying {
      if Held(s, k) {
        var t :| t in s.senders && s.senders[t].Owns(k);
      }
    }
    forall k: nat | k in free || k in held || k in flying ensures k < s.depth {
    }
  }

  lemma {:induction false} CountOfDistinct(s: seq<nat>)
    requires forall i, j :: 0 <= i < j < |s| ==> s[i] != s[j]
    ensures |Elements(s)| == |s|
    decreases |s|
  {
    if s == [] {
    } else {
      var rest := s[..|s| - 1];
      CountOfDistinct(rest);
      assert Elements(s) == Elements(rest) + {s[|s| - 1]};
    }
  }

  /** A task is turned away exactly when every slot is held or in flight. */
  lemma AcquireFailsExactly(s: State, task: Task)
    requires Inv(s) && task in s.senders && s.senders[task].Waiting?
    ensures task !in Next(s, Acquire(task)).senders <==> |HeldSlots(s)| + |s.inFlight.Keys| == s.depth
  {
    SlotsPartition(s);
  }

  /** Until its completion, a slot in flight keeps its frame whatever the senders and the other
      completions do. */
  lemma InFlightUntouched(s: State, step: Step, slot: nat)
    requires Inv(s) && slot in s.inFlight && step != Done(slot, true) && step != Done(slot, false)
    ensures var s' := Next(s, step);
      && Inv(s') && slot in s'.inFlight && s'.inFlight[slot] == s.inFlight[slot] && s'.slots[slot] == s.slots[slot]
      && s'.slots[slot] == OnWire(s'.log[s'.inFlight[slot]])
  {
    NextKeepsInv(s, step);
    InFlightStays(s, step, slot);
    hide Next, Partitioned, Counted, OnWire;
  }

  lemma InFlightStays(s: State, step: Step, slot: nat)
    requires Inv(s) && slot in s.inFlight && step != Done(slot, true) && step != Done(slot, false)
    ensures var s' := Next(s, step);
      slot in s'.inFlight && s'.inFlight[slot] == s.inFlight[slot] && s'.slots[slot] == s.slots[slot]
  {
    hide Faithful, Counted, OnWire, QueueSend, Held;
  }

  /** The driver must complete each accepted frame once: a completion of any other slot breaks the
      accounts, and unless the queue is full it puts the slot in two places. */
  lemma CompletedAgainBreaks(s: State, slot: nat, success: bool)
    requires Inv(s) && slot < s.depth && slot !in s.inFlight
    ensures !Inv(CompletedAgain(s, slot, success))
    ensures |s.free| < s.depth ==> !Partitioned(CompletedAgain(s, slot, success))
  {
    var s' := CompletedAgain(s, slot, success);
    if |s.free| < s.depth {
      assert s'.free[|s.free|] == slot;
      if Held(s, slot) {
        var t :| t in s.senders && s.senders[t].Owns(slot);
        assert s'.senders[t].slot in s'.free;
      } else {
        var i :| 0 <= i < |s.free| && s.free[i] == slot;
        assert s'.free[i] == s'.free[|s.free|];
      }
    }
  }

  /** The completions of frames in flight in a run, by success. */
  function Completions(s: State, steps: seq<Step>, success: bool): nat
    requires Inv(s)
    decreases |steps|
  {
    if steps == [] then 0
    else
      NextKeepsInv(s, steps[0]);
      (if steps[0].Done? && steps[0].slot in s.inFlight && steps[0].success == success then 1 else 0)
      + Completions(Next(s, steps[0]), steps[1..], success)
  }

  lemma OneStepCounts(s: State, step: Step)
    requires Inv(s)
    ensures var s', done := Next(s, step), step.Done? && step.slot in s.inFlight;
      && s'.txFrames == s.txFrames + (if done && step.success then 1 else 0)
      && s'.txFailed == s.txFailed + (if done && !step.success then 1 else 0)
                        + (s'.refusals - s.refusals) + (s'.strays - s.strays)
  {
    hide Partitioned, Faithful, Counted, OnWire, QueueSend;
  }

  /** Frames are counted as sent exactly when their completion reports success, and as failed exactly when it
      does not, when the controller has refused them, or when no slot knows them. */
  lemma {:induction false} StatisticsExactly(s: State, steps: seq<Step>)
    requires Inv(s)
    ensures var s' := Run(s, steps);
      && s'.txFrames == s.txFrames + Completions(s, steps, true)
      && s'.txFailed == s.txFailed + Completions(s, steps, false) + (s'.refusals - s.refusals) + (s'.strays - s.strays)
    decreases |steps|
  {
    hide Indexed, Partitioned, Faithful, Counted, OnWire, QueueSend, Next;
    if steps == [] {
    } else {
      NextKeepsInv(s, steps[0]);
      OneStepCounts(s, steps[0]);
      StatisticsExactly(Next(s, steps[0]), steps[1..]);
    }
  }

  /** In every run the controller sends exactly frames that `send` accepted, each at most once and as
      it was passed, padded; when nothing is in flight, all of them have been sent. */
  lemma SendsWhatWasAccepted(depth: nat, slots: Slots, steps: seq<Step>)
    requires 0 < depth <= 64
    ensures Inv(Init(depth, slots))
    ensures var s := Run(Init(depth, slots), steps);
      && (forall n :: n in s.sent ==> n < |s.log| && s.log[n].Valid() && s.sent[n] == OnWire(s.log[n]))
      && |s.log| == |s.inFlight.Keys| + |s.sent.Keys|
      && s.txFrames + s.txFailed == |s.sent.Keys| + s.refusals + s.strays
      && (s.inFlight == map[] ==> s.sent.Keys == Below(|s.log|))
  {
    InitInv(depth, slots);
    var s := Run(Init(depth, slots), steps);
    hide Run, Partitioned, OnWire;
    if s.inFlight == map[] {
      AllOfEqualSize(s.sent.Keys, Below(|s.log|));
    }
  }

  lemma AllOfEqualSize(a: set<nat>, b: set<nat>)
    requires a <= b && |a| == |b|
    ensures a == b
  {
    assert b == a + (b - a);
    assert |b| == |a| + |b - a|;
  }

  // ----- the transport in place

  datatype SendResult = Ok | InvalidFrame | NotReady | QueueFull | Timeout | IoError

  /** What the driver answers when it is handed a frame. */
  datatype Driver = Accepts | TimesOut | NotRunning | Fails

  /** A call of `send` that nothing interrupts. */
  function SendAlone(s: State, task: Task, frame: Can.Frame, accepted: bool): (r: State)
    requires Inv(s)
    ensures Inv(r)
  {
    Run(s, [Begin(task, frame), Acquire(task), Fill(task), Submit(task, accepted), GiveBack(task)])
  }

  /** Its effect: the frame is queued, or only the queue's order, a free slot's content and the
      counters change. */
  function SendEffect(s: State, frame: Can.Frame, accepted: bool): State
    requires Inv(s)
  {
    hide Indexed, Partitioned, Faithful, Counted, OnWire;
    if !frame.Valid() || s.free == [] then s
    else
      FreeSlot(s);
      var slot := s.free[0];
      var filled := s.(free := s.free[1..], slots := s.slots[slot := OnWire(frame)]);
      if accepted then filled.(inFlight := s.inFlight[slot := |s.log|], log := s.log + [frame])
      else filled.(free := s.free[1..] + [slot], refusals := s.refusals + 1, txFailed := s.txFailed + 1)
  }

  lemma RunFirst(s: State, step: Step, rest: seq<Step>)
    requires Inv(s)
    ensures Inv(Next(s, step)) && Run(s, [step] + rest) == Run(Next(s, step), rest)
  {
    hide Indexed, Partitioned, Faithful, Counted, Next;
    NextKeepsInv(s, step);
    assert ([step] + rest)[1..] == rest;
  }

  lemma SendAloneIs(s: State, task: Task, frame: Can.Frame, accepted: bool)
    requires Inv(s) && task !in s.senders
    ensures SendAlone(s, task, frame, accepted) == SendEffect(s, frame, accepted)
  {
    hide Indexed, Partitioned, Faithful, Counted, OnWire, QueueSend, Run, SendAlone;
    SendAloneLast(s, task, frame, accepted);
    BeginAcquire(s, task, frame);
    var s2 := Next(Next(s, Begin(task, frame)), Acquire(task));
    if frame.Valid() && s.free != [] {
      FillIs(s2, task);
      SubmitGiveBack(Next(s2, Fill(task)), task, accepted);
      assert s.senders[task := Filled(frame, s.free[0])] - {task} == s.senders;
    } else {
      SubmitNothing(s, task, accepted);
    }
  }

  lemma SendAloneLast(s: State, task: Task, frame: Can.Frame, accepted: bool)
    requires Inv(s)
    ensures Inv(Next(s, Begin(task, frame))) && Inv(Next(Next(s, Begin(task, frame)), Acquire(task)))
    ensures var s3 := Next(Next(Next(s, Begin(task, frame)), Acquire(task)), Fill(task));
      Inv(s3) && SendAlone(s, task, frame, accepted) == Run(s3, [Submit(task, accepted), GiveBack(task)])
  {
    hide Indexed, Partitioned, Faithful, Counted, OnWire, QueueSend, Next;
    var submit := [Submit(task, accepted), GiveBack(task)];
    assert [Begin(task, frame), Acquire(task), Fill(task), Submit(task, accepted), GiveBack(task)]
      == [Begin(task, frame)] + ([Acquire(task)] + ([Fill(task)] + submit));
    RunFirst(s, Begin(task, frame), [Acquire(task)] + ([Fill(task)] + submit));
    var s1 := Next(s, Begin(task, frame));
    RunFirst(s1, Acquire(task), [Fill(task)] + submit);
    RunFirst(Next(s1, Acquire(task)), Fill(task), submit);
  }

  lemma BeginAcquire(s: State, task: Task, frame: Can.Frame)
    requires Inv(s) && task !in s.senders
    ensures Inv(Next(s, Begin(task, frame)))
    ensures Next(Next(s, Begin(task, frame)), Acquire(task)) ==
      if !frame.Valid() || s.free == [] then s
      else s.(free := s.free[1..], senders := s.senders[task := Holding(frame, s.free[0])])
  {
    hide Indexed, Partitioned, Faithful, Counted, OnWire, QueueSend;
    NextKeepsInv(s, Begin(task, frame));
    assert s.senders[task := Waiting(frame)] - {task} == s.senders;
  }

  lemma SubmitNothing(s: State, task: Task, accepted: bool)
    requires Inv(s) && task !in s.senders
    ensures Inv(Next(s, Fill(task))) && Run(Next(s, Fill(task)), [Submit(task, accepted), GiveBack(task)]) == s
  {
    hide Indexed, Partitioned, Faithful, Counted, OnWire, QueueSend;
    NextKeepsInv(s, Fill(task));
    NextKeepsInv(s, Submit(task, accepted));
    assert [Submit(task, accepted), GiveBack(task)] == [Submit(task, accepted)] + ([GiveBack(task)] + []);
    RunFirst(s, Submit(task, accepted), [GiveBack(task)] + []);
    RunFirst(s, GiveBack(task), []);
  }

  lemma FillIs(s: State, task: Task)
    requires Inv(s) && task in s.senders && s.senders[task].Holding?
    ensures var h := s.senders[task];
      && h.slot < MAX_TX_SLOTS && h.frame.Valid()
      && Next(s, Fill(task)) == s.(slots := s.slots[h.slot := OnWire(h.frame)],
          senders := s.senders[task := Filled(h.frame, h.slot)])
  {
    hide Partitioned, Faithful, Counted, OnWire;
  }

  /** The last two steps of a call. */
  lemma SubmitGiveBack(s: State, task: Task, accepted: bool)
    requires Inv(s) && task in s.senders && s.senders[task].Filled?
    ensures var h := s.senders[task];
      Run(s, [Submit(task, accepted), GiveBack(task)]) ==
      if accepted then Accepted(s, task, h.frame, h.slot)
      else
        s.(free := s.free + [h.slot], senders := s.senders - {task}, refusals := s.refusals + 1,
           txFailed := s.txFailed + 1)
  {
    hide Indexed, Partitioned, Faithful, Counted, OnWire, QueueSend, Run, Next, Accepted;
    LastSteps(s, task, accepted);
    SubmitIs(s, task, accepted);
    GiveBackIs(Next(s, Submit(task, accepted)), task);
    assert s.senders[task := Refused(s.senders[task].slot)] - {task} == s.senders - {task};
  }

  lemma SubmitIs(s: State, task: Task, accepted: bool)
    requires Inv(s) && task in s.senders && s.senders[task].Filled?
    ensures var h := s.senders[task];
      && Next(s, Submit(task, accepted))
         == (if accepted then Accepted(s, task, h.frame, h.slot) else s.(senders := s.senders[task := Refused(h.slot)]))
      && (accepted ==> task !in Accepted(s, task, h.frame, h.slot).senders)
  {
    hide Partitioned, Faithful, Counted, OnWire, QueueSend;
  }

  lemma GiveBackIs(s: State, task: Task)
    requires Inv(s)
    ensures task !in s.senders ==> Next(s, GiveBack(task)) == s
    ensures task in s.senders && s.senders[task].Refused? ==>
      Next(s, GiveBack(task))
      == s.(free := s.free + [s.senders[task].slot], senders := s.senders - {task}, refusals := s.refusals + 1,
            txFailed := s.txFailed + 1)
  {
    hide Partitioned, Faithful, Counted, OnWire, QueueSend;
    GiveBackSucceeds(s, GiveBack(task));
  }

  lemma LastSteps(s: State, task: Task, accepted: bool)
    requires Inv(s)
    ensures Inv(Next(s, Submit(task, accepted)))
    ensures Run(s, [Submit(task, accepted), GiveBack(task)]) == Next(Next(s, Submit(task, accepted)), GiveBack(task))
  {
    hide Indexed, Partitioned, Faithful, Counted, Next;
    assert [Submit(task, accepted), GiveBack(task)] == [Submit(task, accepted)] + ([GiveBack(task)] + []);
    RunFirst(s, Submit(task, accepted), [GiveBack(task)] + []);
    RunFirst(Next(s, Submit(task, accepted)), GiveBack(task), []);
  }

  /** The first position of a value, or -1. */
  function FirstIndex(s: seq<nat>, value: nat): (r: int)
    ensures r == -1 || 0 <= r < |s|
    ensures if r == -1 then value !in s else s[r] == value && value !in s[..r]
    decreases |s|
  {
    if s == [] then -1
    else if s[0] == value then 0
    else
      var r := FirstIndex(s[1..], value);
      assert s == [s[0]] + s[1..];
      if r == -1 then -1 else assert s[..r + 1] == [s[0]] + s[1..][..r]; r + 1
  }

  lemma FreeSlot(s: State)
    requires Inv(s) && s.free != []
    ensures s.free[0] < s.depth <= MAX_TX_SLOTS && |s.free| <= s.depth
  {
    Pigeonhole(s.free, s.depth);
  }

  class Transport {
    const addresses: seq<nat>
    const depth: nat
    const slots: array<Can.Frame>
    var free: seq<nat>
    var started: bool
    var txFrames: nat
    var txFailed: nat
    ghost var inFlight: map<nat, nat>
    ghost var log: seq<Can.Frame>
    ghost var sent: map<nat, Can.Frame>
    ghost var refusals: nat
    ghost var strays: nat

    /** Every slot has an address of its own. */
    ghost predicate Shaped() {
      && slots.Length == |addresses| == MAX_TX_SLOTS && 0 < depth <= MAX_TX_SLOTS
      && (forall i, j :: 0 <= i < j < MAX_TX_SLOTS ==> addresses[i] != addresses[j])
    }

    ghost function Model(): State
      requires Shaped()
      reads this, slots
    {
      State(depth, free, slots[..], map[], inFlight, log, sent, refusals, strays, txFrames, txFailed)
    }

    ghost predicate Valid()
      reads this, slots
    {
      Shaped() && Inv(Model())
    }

    /** Queues every slot as free. */
    method Initialize()
      requires Shaped()
      modifies this
      ensures Valid() && !started && Model() == Init(depth, slots[..])
    {
      hide Indexed, Partitioned, Faithful, Counted;
      free := [];
      for slot := 0 to depth
        invariant free == seq(slot, i => i)
      {
        free := free + [slot];
      }
      started, txFrames, txFailed := false, 0, 0;
      inFlight, log, sent, refusals, strays := map[], [], map[], 0, 0;
      InitInv(depth, slots[..]);
    }

    /** The slot whose frame has this address, or -1. */
    method SlotIndex(address: nat) returns (index: int)
      requires Shaped()
      ensures index == FirstIndex(addresses[..depth], address)
    {
      for k := 0 to depth
        invariant address !in addresses[..k]
      {
        if addresses[k] == address {
          return k;
        }
      }
      return -1;
    }

    /** Takes the first free slot, fills it and hands it to the driver; a refused frame's slot goes
        back to the queue. */
    method UseSlot(frame: Can.Frame, driver: Driver) returns (result: SendResult)
      requires Valid() && frame.Valid() && free != []
      modifies this, slots
      ensures Shaped() && started == old(started)
      ensures Model() == SendEffect(old(Model()), frame, driver == Accepts)
      ensures result == match driver case Accepts => Ok case TimesOut => Timeout case NotRunning => NotReady
          case Fails => IoError
    {
      hide Indexed, Partitioned, Faithful, Counted, OnWire;
      FreeSlot(Model());
      var slot := free[0];
      free := free[1..];
      slots[slot] := OnWire(frame);
      if driver != Accepts {
        if |free| < depth {
          free := free + [slot];
        }
        txFailed, refusals := txFailed + 1, refusals + 1;
        result := match driver case TimesOut => Timeout case NotRunning => NotReady case _ => IoError;
      } else {
        inFlight, log := inFlight[slot := |log|], log + [frame];
        result := Ok;
      }
    }

    method Send(frame: Can.Frame, wait: bool, driver: Driver) returns (result: SendResult)
      requires Valid()
      modifies this, slots
      ensures Valid() && started == old(started)
      ensures result ==
        if !frame.Valid() then InvalidFrame
        else if !started then NotReady
        else if old(free) == [] then (if wait then Timeout else QueueFull)
        else match driver case Accepts => Ok case TimesOut => Timeout case NotRunning => NotReady case Fails => IoError
      ensures Model() == if started then SendAlone(old(Model()), 0, frame, driver == Accepts) else old(Model())
    {
      hide SendAlone, Indexed, Partitioned, Faithful, Counted, OnWire;
      SendAloneIs(Model(), 0, frame, driver == Accepts);
      if !frame.Valid() {
        result := InvalidFrame;
      } else if !started {
        result := NotReady;
      } else if free == [] {
        result := if wait then Timeout else QueueFull;
      } else {
        result := UseSlot(frame, driver);
      }
    }

    /** What a completion event means. */
    ghost function EventStep(address: nat, success: bool): Step
      requires Shaped()
      reads this
    {
      var slot := FirstIndex(addresses[..depth], address);
      if slot < 0 then Stray else Done(slot, success)
    }

    /** The completion interrupt. It takes the driver's word that the frame was in flight: for a slot
        that is not, it queues that slot a second time. */
    method OnTxDone(address: nat, success: bool)
      requires Valid()
      modifies this
      ensures Shaped() && started == old(started)
      ensures var step := EventStep(address, success);
        if step.Stray? || step.slot in old(inFlight) then Valid() && Model() == Next(old(Model()), step)
        else Model() == CompletedAgain(old(Model()), step.slot, success)
    {
      hide Indexed, Partitioned, Faithful, Counted, FirstIndex, QueueSend;
      NextKeepsInv(Model(), EventStep(address, success));
      var index := SlotIndex(address);
      if index < 0 {
        txFailed, strays := txFailed + 1, strays + 1;
      } else {
        Complete(index, success);
      }
    }

    method Complete(slot: nat, success: bool)
      requires Shaped() && slot < depth
      modifies this
      ensures Shaped() && started == old(started)
      ensures Model() ==
        if slot in old(inFlight) then Completed(old(Model()), slot, success)
        else CompletedAgain(old(Model()), slot, success)
    {
      if success {
        txFrames := txFrames + 1;
      } else {
        txFailed := txFailed + 1;
      }
      if slot in inFlight {
        sent := sent[inFlight[slot] := slots[slot]];
        inFlight := inFlight - {slot};
      }
      if |free| < depth {
        free := free + [slot];
      }
    }
  }
}

/** Atomicity of the SDO server over every run: any messages in any order, timeouts, resets, and any
    answers of the hooks. */
module SdoRuns {
  import opened Bytes
  import opened Wrappers
  import opened ObjectDictionary
  import opened SdoServer

  datatype Input = In(m: Message, now: nat, hooks: Hooks) | Tick(now: nat) | ResetInput

  function Apply(s: Sdo, od: Od, input: Input): (r: (Sdo, Od))
    requires od.Valid() && s.Sound()
    ensures r.0.Sound() && r.1.Valid()
  {
    match input
    case In(m, now, hooks) => (var r := Request(s, od, m, now, hooks); (r.sdo, r.od))
    case Tick(now) => (Process(s, now).0, od)
    case ResetInput => (s.Reset(), od)
  }

  function Run(s: Sdo, od: Od, inputs: seq<Input>): (Sdo, Od)
    requires od.Valid() && s.Sound()
    decreases |inputs|
  {
    if |inputs| == 0 then (s, od)
    else
      var (s', od') := Apply(s, od, inputs[0]);
      Run(s', od', inputs[1..])
  }

  // ----- what a download has received, kept by an observer of the messages

  /** The concatenated data of the segments accepted since the transfer was initiated. */
  function Track(received: seq<byte>, s: Sdo, input: Input, s': Sdo): seq<byte> {
    if s.state != Download || s'.state != Download then []
    else if input.In? then received + SegmentData(input.m)
    else received
  }

  /** The workspace holds exactly the received data, the offset advances in sevens, and the toggle
      bit is its parity. */
  ghost predicate Inv(s: Sdo, received: seq<byte>) {
    && s.Sound()
    && (s.state != Idle ==> s.offset % 7 == 0 && s.toggle == ((s.offset / 7) % 2 == 1))
    && (s.state == Upload ==> s.offset < s.size)
    && (s.state == Download ==> |received| == s.offset && s.transfer[..s.offset] == received)
  }

  /** The write, if any, that an input completes: an expedited download, or a last segment with the
      expected toggle bit that makes the received data as long as announced. */
  function Commit(s: Sdo, received: seq<byte>, input: Input): Option<(OdKey, seq<byte>)> {
    if !input.In? then None
    else
      var m := input.m;
      if s.state == Idle && Specifier(m) == 1 && Bit(m[0], 2) then Some((RequestKey(m), ExpeditedData(m)))
      else if s.state == Download && Specifier(m) == 0 && Bit(m[0], 0x10) == s.toggle && Bit(m[0], 1)
              && |received + SegmentData(m)| == s.size
      then Some((s.key, received + SegmentData(m)))
      else None
  }

  /** In one step the dictionary is touched by the commit and by nothing else, and a transfer in
      progress keeps its invariant. */
  ghost predicate AtomicStep(s: Sdo, received: seq<byte>, od: Od, input: Input)
    requires od.Valid() && s.Sound()
  {
    var (s', od') := Apply(s, od, input);
    && od' == (match Commit(s, received, input)
               case None => od
               case Some(w) => Write(od, w.0, w.1, input.hooks).1)
    && Inv(s', Track(received, s, input, s'))
  }

  lemma StepIsAtomic(s: Sdo, received: seq<byte>, od: Od, input: Input)
    requires od.Valid() && Inv(s, received)
    ensures AtomicStep(s, received, od, input)
  {
    hide Write, Specifier, Bit, AbortMessage, Answer, SegmentMessage;
    if input.In? {
      match s.state
      case Download => SegmentStep(s, received, od, input);
      case Upload => UploadStep(s, received, od, input);
      case Idle => InitiateStep(s, received, od, input);
    }
  }

  lemma InitiateStep(s: Sdo, received: seq<byte>, od: Od, input: Input)
    requires od.Valid() && Inv(s, received) && input.In? && s.state == Idle
    ensures AtomicStep(s, received, od, input)
  {
    hide Write, Read, Specifier, Bit, SegmentData, ExpeditedData, RequestKey, AbortMessage, Answer;
  }

  lemma UploadStep(s: Sdo, received: seq<byte>, od: Od, input: Input)
    requires od.Valid() && Inv(s, received) && input.In? && s.state == Upload
    ensures AtomicStep(s, received, od, input)
  {
    hide Write, Specifier, Bit, SegmentData, AbortMessage, SegmentMessage;
    Toggles(s.offset);
  }

  lemma SegmentStep(s: Sdo, received: seq<byte>, od: Od, input: Input)
    requires od.Valid() && Inv(s, received) && input.In? && s.state == Download
    ensures AtomicStep(s, received, od, input)
  {
    hide Write, Specifier, Bit, AbortMessage;
    var data := SegmentData(input.m);
    if s.offset + |data| <= s.size {
      var filled := Overwrite(s.transfer, s.offset, data);
      assert filled[..s.offset + |data|] == filled[..s.offset] + filled[s.offset..s.offset + |data|] == received + data;
      Toggles(s.offset);
    }
  }

  lemma Toggles(offset: nat)
    requires offset % 7 == 0
    ensures (offset + 7) % 7 == 0 && (((offset + 7) / 7) % 2 == 1) == !((offset / 7) % 2 == 1)
  {
    assert (offset + 7) / 7 == offset / 7 + 1;
  }

  /** The commits of a whole run, in order. */
  function Commits(s: Sdo, received: seq<byte>, od: Od, inputs: seq<Input>): seq<(OdKey, seq<byte>, Hooks)>
    requires od.Valid() && s.Sound()
    decreases |inputs|
  {
    if |inputs| == 0 then []
    else
      var (s', od') := Apply(s, od, inputs[0]);
      var rest := Commits(s', Track(received, s, inputs[0], s'), od', inputs[1..]);
      match Commit(s, received, inputs[0])
      case None => rest
      case Some(w) => [(w.0, w.1, inputs[0].hooks)] + rest
  }

  function WriteAll(od: Od, writes: seq<(OdKey, seq<byte>, Hooks)>): Od
    requires od.Valid()
    decreases |writes|
  {
    if |writes| == 0 then od
    else WriteAll(Write(od, writes[0].0, writes[0].1, writes[0].2).1, writes[1..])
  }

  /** Atomicity: whatever the run, the final dictionary is the initial one with the completed
      downloads written to it in order. No partial data ever reaches it. */
  lemma {:induction false} RunIsAtomic(s: Sdo, received: seq<byte>, od: Od, inputs: seq<Input>)
    requires od.Valid() && Inv(s, received)
    ensures Run(s, od, inputs).1 == WriteAll(od, Commits(s, received, od, inputs))
    decreases |inputs|
  {
    hide Apply, Commit, Write;
    if |inputs| == 0 {
    } else {
      StepIsAtomic(s, received, od, inputs[0]);
      var (s', od') := Apply(s, od, inputs[0]);
      RunIsAtomic(s', Track(received, s, inputs[0], s'), od', inputs[1..]);
    }
  }

  /** The server is in the middle of the same kind of transfer before every input of the run. */
  ghost predicate Busy(s: Sdo, od: Od, inputs: seq<Input>)
    requires od.Valid() && s.Sound()
    decreases |inputs|
  {
    s.state != Idle && (|inputs| == 0 ||
      var (s', od') := Apply(s, od, inputs[0]);
      s'.state == s.state && Busy(s', od', inputs[1..]))
  }

  function Messages(inputs: seq<Input>): nat {
    if |inputs| == 0 then 0 else (if inputs[0].In? then 1 else 0) + Messages(inputs[1..])
  }

  /** Termination: while a transfer is under way every message moves it on by seven bytes, so at most
      size / 7 messages can leave it unfinished, however many timeouts are checked in between. */
  lemma {:induction false} TransferTerminates(s: Sdo, received: seq<byte>, od: Od, inputs: seq<Input>)
    requires od.Valid() && Inv(s, received) && Busy(s, od, inputs)
    ensures s.offset + 7 * Messages(inputs) <= s.size
    decreases |inputs|
  {
    if |inputs| == 0 {
    } else {
      var (s', od') := Apply(s, od, inputs[0]);
      StepIsAtomic(s, received, od, inputs[0]);
      StepAdvances(s, received, od, inputs[0]);
      TransferTerminates(s', Track(received, s, inputs[0], s'), od', inputs[1..]);
    }
  }

  lemma StepAdvances(s: Sdo, received: seq<byte>, od: Od, input: Input)
    requires od.Valid() && Inv(s, received) && s.state != Idle && Apply(s, od, input).0.state == s.state
    ensures var s' := Apply(s, od, input).0;
      s'.size == s.size && s'.offset == s.offset + (if input.In? then 7 else 0)
  {
    hide Write, Specifier, SegmentData, Bit, AbortMessage, Answer, SegmentMessage, Overwrite;
    if s.state == Download && input.In? {
      SegmentAdvances(s, od, input.m);
    }
  }

  lemma SegmentAdvances(s: Sdo, od: Od, m: Message)
    ensures !Bit(m[0], 1) ==> |SegmentData(m)| == 7
  {
  }

  // ----- the timeout

  /** The time of the last message that an open transfer has accepted: what initiated it, or its last segment. */
  function Accepted(s: Sdo, od: Od, last: nat, inputs: seq<Input>): nat
    requires od.Valid() && s.Sound()
    decreases |inputs|
  {
    if |inputs| == 0 then last
    else
      var (s', od') := Apply(s, od, inputs[0]);
      Accepted(s', od', if inputs[0].In? && s'.state != Idle then inputs[0].now else last, inputs[1..])
  }

  predicate Timed(s: Sdo, last: nat) {
    s.state != Idle ==> s.deadline == last + TRANSFER_TIMEOUT_US
  }

  lemma StepIsTimed(s: Sdo, od: Od, last: nat, input: Input)
    requires od.Valid() && s.Sound() && Timed(s, last)
    ensures var s' := Apply(s, od, input).0;
      Timed(s', if input.In? && s'.state != Idle then input.now else last)
  {
    hide Write, Read, Specifier, Bit, SegmentData, ExpeditedData, RequestKey, AbortMessage, Answer, SegmentMessage,
         SegmentAck, Overwrite, Find;
  }

  lemma {:induction false} RunIsTimed(s: Sdo, od: Od, last: nat, inputs: seq<Input>)
    requires od.Valid() && s.Sound() && Timed(s, last)
    ensures Run(s, od, inputs).0.Sound() && Timed(Run(s, od, inputs).0, Accepted(s, od, last, inputs))
    decreases |inputs|
  {
    hide Apply, Timed;
    if |inputs| == 0 {
    } else {
      StepIsTimed(s, od, last, inputs[0]);
      var (s', od') := Apply(s, od, inputs[0]);
      RunIsTimed(s', od', if inputs[0].In? && s'.state != Idle then inputs[0].now else last, inputs[1..]);
    }
  }

  /** Periodic calls while the client is silent: the aborts that are sent, with their times. */
  function Aborts(s: Sdo, times: seq<nat>): (Sdo, seq<(nat, Message)>)
    decreases |times|
  {
    if times == [] then (s, [])
    else
      var (s', reply) := Process(s, times[0]);
      var (last, rest) := Aborts(s', times[1..]);
      (last, if reply.Some? then [(times[0], reply.value)] + rest else rest)
  }

  /** The first of these times that has reached the deadline. */
  function FirstLate(deadline: nat, times: seq<nat>): Option<nat>
    decreases |times|
  {
    if times == [] then None
    else if times[0] >= deadline then Some(times[0])
    else FirstLate(deadline, times[1..])
  }

  /** The first late time is one of them, and none before it is late. */
  lemma {:induction false} FirstLateIsFirst(deadline: nat, times: seq<nat>)
    ensures match FirstLate(deadline, times)
      case None => forall i :: 0 <= i < |times| ==> times[i] < deadline
      case Some(t) =>
        exists i :: 0 <= i < |times| && times[i] == t >= deadline && forall j :: 0 <= j < i ==> times[j] < deadline
    decreases |times|
  {
    if times == [] {
    } else if times[0] < deadline {
      var rest := times[1..];
      FirstLateIsFirst(deadline, rest);
      if FirstLate(deadline, rest).Some? {
        var i :| 0 <= i < |rest| && rest[i] == FirstLate(deadline, rest).value
          && forall j :: 0 <= j < i ==> rest[j] < deadline;
        assert forall j :: 0 < j < i + 1 ==> times[j] == rest[j - 1];
        assert times[i + 1] == rest[i];
      } else {
        assert forall j :: 0 < j < |times| ==> times[j] == rest[j - 1];
      }
    }
  }

  lemma {:induction false} IdleSendsNothing(s: Sdo, times: seq<nat>)
    requires s.state == Idle
    ensures Aborts(s, times) == (s, [])
    decreases |times|
  {
    if times == [] {
    } else {
      IdleSendsNothing(s, times[1..]);
    }
  }

  lemma {:induction false} SilenceAborts(s: Sdo, times: seq<nat>)
    requires s.state != Idle
    ensures Aborts(s, times) == match FirstLate(s.deadline, times)
      case None => (s, [])
      case Some(t) => (s.Reset(), [(t, AbortMessage(s.key, ProtocolTimeout))])
    decreases |times|
  {
    hide AbortMessage;
    if times == [] {
    } else if times[0] >= s.deadline {
      IdleSendsNothing(s.Reset(), times[1..]);
      var abort := [(times[0], AbortMessage(s.key, ProtocolTimeout))];
      assert abort + [] == abort;
    } else {
      SilenceAborts(s, times[1..]);
    }
  }

  /** The timeout over whole runs: after any run from idle, a client that falls silent in the middle of a
      transfer gets exactly one abort, from the first periodic call at least one second after the last
      message the transfer has accepted, and until then the transfer stays open. */
  lemma TimeoutInEveryRun(s: Sdo, od: Od, inputs: seq<Input>, times: seq<nat>)
    requires od.Valid() && s.Sound() && s.state == Idle
    ensures var open := Run(s, od, inputs).0;
      Aborts(open, times) ==
      if open.state == Idle then (open, [])
      else match FirstLate(Accepted(s, od, 0, inputs) + 1_000_000, times)
        case None => (open, [])
        case Some(t) => (open.Reset(), [(t, AbortMessage(open.key, ProtocolTimeout))])
  {
    hide Apply, AbortMessage, FirstLate, Aborts;
    RunIsTimed(s, od, 0, inputs);
    var open := Run(s, od, inputs).0;
    if open.state == Idle {
      IdleSendsNothing(open, times);
    } else {
      SilenceAborts(open, times);
    }
  }
}

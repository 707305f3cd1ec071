/** The lock-free ring of one producer and one consumer, split at every atomic load and store: for
    any interleaving it is a queue. */
module SpscRing {
  import opened Arith

  /** A push in progress: what it has loaded so far. `seen` counts the pops there had been when the
      tail was loaded. */
  datatype Producer<T> =
    | NoPush
    | PushHead(item: T, head: nat)
    | PushTail(item: T, head: nat, tail: nat, seen: nat)
    | PushWritten(item: T, head: nat)

  /** A pop in progress; `seen` counts the pushes there had been when the head was loaded. */
  datatype Consumer<T> =
    | NoPop
    | PopTail(tail: nat)
    | PopHead(tail: nat, head: nat, seen: nat)
    | PopRead(tail: nat, item: T)

  /** The shared memory, both threads, and the values that have gone in and come out so far. */
  datatype State<T> = State(
    buffer: seq<T>, head: nat, tail: nat, producer: Producer<T>, consumer: Consumer<T>, pushed: seq<T>, popped: seq<T>)
  {
    function Capacity(): nat {
      |buffer|
    }
  }

  /** The scheduler's choice: let a thread start an operation or take its next atomic step. */
  datatype Choice<T> = StartPush(item: T) | StepPush | StartPop | StepPop

  /** All indices, shared or loaded, lie in the buffer. */
  predicate InBounds<T>(s: State<T>) {
    && s.Capacity() >= 2 && s.head < s.Capacity() && s.tail < s.Capacity()
    && (s.producer.NoPush? || s.producer.head < s.Capacity())
    && (s.consumer.NoPop? || s.consumer.tail < s.Capacity())
  }

  function Init<T>(buffer: seq<T>): State<T> {
    State(buffer, 0, 0, NoPush, NoPop, [], [])
  }

  // ----- the atomic steps of push and pop

  function StepProducer<T>(s: State<T>): State<T>
    requires InBounds(s)
  {
    match s.producer
    case NoPush => s
    case PushHead(item, head) => s.(producer := PushTail(item, head, s.tail, |s.popped|))
    case PushTail(item, head, tail, _) =>
      if (head + 1) % s.Capacity() == tail then s.(producer := NoPush)
      else s.(buffer := s.buffer[head := item], producer := PushWritten(item, head))
    case PushWritten(item, head) =>
      s.(head := (head + 1) % s.Capacity(), producer := NoPush, pushed := s.pushed + [item])
  }

  function StepConsumer<T>(s: State<T>): State<T>
    requires InBounds(s)
  {
    match s.consumer
    case NoPop => s
    case PopTail(tail) => s.(consumer := PopHead(tail, s.head, |s.pushed|))
    case PopHead(tail, head, _) =>
      if tail == head then s.(consumer := NoPop)
      else s.(consumer := PopRead(tail, s.buffer[tail]))
    case PopRead(tail, item) =>
      s.(tail := (tail + 1) % s.Capacity(), consumer := NoPop, popped := s.popped + [item])
  }

  function Next<T>(s: State<T>, choice: Choice<T>): (s': State<T>)
    requires InBounds(s)
    ensures InBounds(s') && s'.Capacity() == s.Capacity()
  {
    match choice
    case StartPush(item) => if s.producer.NoPush? then s.(producer := PushHead(item, s.head)) else s
    case StepPush => StepProducer(s)
    case StartPop => if s.consumer.NoPop? then s.(consumer := PopTail(s.tail)) else s
    case StepPop => StepConsumer(s)
  }

  function Run<T>(s: State<T>, choices: seq<Choice<T>>): State<T>
    requires InBounds(s)
    decreases |choices|
  {
    if |choices| == 0 then s else Run(Next(s, choices[0]), choices[1..])
  }

  // ----- the invariant

  ghost predicate Queue<T>(s: State<T>) {
    var n, m, c := |s.pushed|, |s.popped|, s.Capacity();
    && c >= 2 && s.head == n % c && s.tail == m % c
    && m <= n <= m + c - 1
    && s.popped == s.pushed[..m]
    && forall i :: m <= i < n ==> s.buffer[i % c] == s.pushed[i]
  }

  ghost predicate ProducerOk<T>(s: State<T>) {
    var n, m, c := |s.pushed|, |s.popped|, s.Capacity();
    c >= 2 &&
    match s.producer
    case NoPush => true
    case PushHead(_, head) => head == s.head
    case PushTail(_, head, tail, seen) => head == s.head && seen <= m && n <= seen + c - 1 && tail == seen % c
    case PushWritten(item, head) => head == s.head && n + 1 <= m + c - 1 && s.buffer[n % c] == item
  }

  ghost predicate ConsumerOk<T>(s: State<T>) {
    var n, m, c := |s.pushed|, |s.popped|, s.Capacity();
    c >= 2 &&
    match s.consumer
    case NoPop => true
    case PopTail(tail) => tail == s.tail
    case PopHead(tail, head, seen) => tail == s.tail && m <= seen <= n && head == seen % c
    case PopRead(tail, item) => tail == s.tail && m < n && item == s.pushed[m]
  }

  ghost predicate Inv<T>(s: State<T>) {
    InBounds(s) && Queue(s) && ProducerOk(s) && ConsumerOk(s)
  }

  lemma InitInv<T>(buffer: seq<T>)
    requires |buffer| >= 2
    ensures Inv(Init(buffer))
  {
  }

  /** A push that goes ahead has room: the slot it writes holds no unread value. */
  lemma RoomToPush<T>(s: State<T>)
    requires Inv(s) && s.producer.PushTail?
    requires (s.producer.head + 1) % s.Capacity() != s.producer.tail
    ensures |s.pushed| + 1 <= |s.popped| + s.Capacity() - 1
    ensures forall i :: |s.popped| <= i < |s.pushed| ==> i % s.Capacity() != |s.pushed| % s.Capacity()
  {
    var n, c, seen := |s.pushed|, s.Capacity(), s.producer.seen;
    SuccessorRemainder(n, c);
    if n + 1 == seen + c {
      AddPeriod(seen, c);
    }
    forall i | |s.popped| <= i < n ensures i % c != n % c {
      DistinctRemainders(i, n, c);
    }
  }

  /** A pop that goes ahead has something to read. */
  lemma SomethingToPop<T>(s: State<T>)
    requires Inv(s) && s.consumer.PopHead? && s.consumer.tail != s.consumer.head
    ensures |s.popped| < |s.pushed|
  {
  }

  lemma ProducerKeepsInv<T>(s: State<T>)
    requires Inv(s)
    ensures Inv(StepProducer(s))
  {
    var n, c := |s.pushed|, s.Capacity();
    var s' := StepProducer(s);
    match s.producer
    case NoPush =>
    case PushHead(_, _) =>
    case PushTail(item, head, tail, _) =>
      if (head + 1) % c != tail {
        RoomToPush(s);
      }
    case PushWritten(item, head) =>
      SuccessorRemainder(n, c);
      assert s'.pushed[..|s.popped|] == s.pushed[..|s.popped|];
  }

  lemma ConsumerKeepsInv<T>(s: State<T>)
    requires Inv(s)
    ensures Inv(StepConsumer(s))
  {
    if s.consumer.PopRead? {
      PopReadKeepsInv(s);
    } else if s.consumer.PopHead? && s.consumer.tail != s.consumer.head {
      SomethingToPop(s);
    }
  }

  lemma PopReadKeepsInv<T>(s: State<T>)
    requires Inv(s) && s.consumer.PopRead?
    ensures Inv(StepConsumer(s))
  {
    var m, c := |s.popped|, s.Capacity();
    var s' := StepConsumer(s);
    assert s'.tail == (m + 1) % c by { SuccessorRemainder(m, c); }
    assert s.pushed[..m + 1] == s.pushed[..m] + [s.pushed[m]];
    assert Queue(s');
    assert ProducerOk(s') by { hide Queue; }
  }

  lemma NextKeepsInv<T>(s: State<T>, choice: Choice<T>)
    requires Inv(s)
    ensures Inv(Next(s, choice))
  {
    match choice
    case StepPush => ProducerKeepsInv(s);
    case StepPop => ConsumerKeepsInv(s);
    case _ =>
  }

  /** First in, first out, in every interleaving from an empty ring: what has been popped is a prefix
      of what has been pushed, and at most capacity - 1 values are between. */
  lemma {:induction false} Fifo<T>(s: State<T>, choices: seq<Choice<T>>)
    requires Inv(s)
    ensures var s' := Run(s, choices);
      Inv(s') && s'.popped <= s'.pushed && |s'.pushed| - |s'.popped| <= s'.Capacity() - 1
    decreases |choices|
  {
    if |choices| == 0 {
    } else {
      NextKeepsInv(s, choices[0]);
      Fifo(Next(s, choices[0]), choices[1..]);
    }
  }

  /** The slot about to be written is never the slot about to be read. */
  lemma SlotsDisjoint<T>(s: State<T>)
    requires Inv(s) && s.producer.PushTail? && s.consumer.PopHead?
    requires (s.producer.head + 1) % s.Capacity() != s.producer.tail && s.consumer.tail != s.consumer.head
    ensures s.producer.head != s.consumer.tail
  {
    SomethingToPop(s);
    RoomToPush(s);
  }

  /** A push is refused exactly when the ring was full at the moment it looked at the tail, a pop
      exactly when the ring was empty at the moment it looked at the head. */
  lemma RefusedExactly<T>(s: State<T>)
    requires Inv(s)
    ensures s.producer.PushTail? ==>
      (StepProducer(s).producer.NoPush? <==> |s.pushed| - s.producer.seen == s.Capacity() - 1)
    ensures s.consumer.PopHead? ==>
      (StepConsumer(s).consumer.NoPop? <==> s.consumer.seen == |s.popped|)
  {
    var n, m, c := |s.pushed|, |s.popped|, s.Capacity();
    if s.producer.PushTail? {
      var seen := s.producer.seen;
      SuccessorRemainder(n, c);
      if n + 1 == seen + c {
        AddPeriod(seen, c);
      } else {
        DistinctRemainders(seen, n + 1, c);
      }
    }
    if s.consumer.PopHead? && s.consumer.seen != m {
      DistinctRemainders(m, s.consumer.seen, c);
    }
  }

  /** `size` loads the head and later the tail. */
  function SizeOf(head: nat, tail: nat, capacity: nat): int {
    if head >= tail then head - tail else capacity - tail + head
  }

  /** Whatever happened between the two loads, the result is below the capacity. When the pops did
      not overtake the loaded head it is the number of values between the two, and only then. */
  lemma SizeBetween<T>(s: State<T>, s': State<T>)
    requires Inv(s) && Inv(s') && s'.Capacity() == s.Capacity() && s.pushed <= s'.pushed && s.popped <= s'.popped
    ensures var size := SizeOf(s.head, s'.tail, s.Capacity());
      0 <= size <= s.Capacity() - 1 && (size == |s.pushed| - |s'.popped| <==> |s'.popped| <= |s.pushed|)
  {
    var n, m, c := |s.pushed|, |s'.popped|, s.Capacity();
    SizeInRange(s.head, s'.tail, c);
    if m <= n {
      RemainderGap(m, n, c);
    }
  }

  lemma SizeInRange(head: nat, tail: nat, c: nat)
    requires head < c && tail < c
    ensures 0 <= SizeOf(head, tail, c) <= c - 1
  {
  }

  // ----- the ring in place

  function PushAlone<T>(s: State<T>, item: T): State<T>
    requires InBounds(s)
  {
    Next(Next(Next(Next(s, StartPush(item)), StepPush), StepPush), StepPush)
  }

  function PopAlone<T>(s: State<T>): State<T>
    requires InBounds(s)
  {
    Next(Next(Next(Next(s, StartPop), StepPop), StepPop), StepPop)
  }

  /** A push that nothing interrupts adds the value unless capacity - 1 values are waiting. */
  lemma PushAloneAppends<T>(s: State<T>, item: T)
    requires Inv(s) && s.producer.NoPush?
    ensures var s' := PushAlone(s, item);
      && Inv(s') && s'.producer.NoPush? && s'.consumer == s.consumer && s'.popped == s.popped
      && s'.pushed == if |s.pushed| - |s.popped| < s.Capacity() - 1 then s.pushed + [item] else s.pushed
  {
    var s1 := Next(s, StartPush(item));
    var s2 := Next(s1, StepPush);
    var s3 := Next(s2, StepPush);
    NextKeepsInv(s, StartPush(item));
    NextKeepsInv(s1, StepPush);
    RefusedExactly(s2);
    NextKeepsInv(s2, StepPush);
    NextKeepsInv(s3, StepPush);
  }

  lemma PushAloneIs<T>(s: State<T>, item: T)
    requires InBounds(s) && s.producer.NoPush?
    ensures var next := (s.head + 1) % s.Capacity();
      PushAlone(s, item) ==
      if next == s.tail then s else s.(buffer := s.buffer[s.head := item], head := next, pushed := s.pushed + [item])
  {
  }

  /** A pop that nothing interrupts takes the oldest waiting value. */
  lemma PopAloneTakesOldest<T>(s: State<T>)
    requires Inv(s) && s.consumer.NoPop?
    ensures var s' := PopAlone(s);
      && Inv(s') && s'.consumer.NoPop? && s'.producer == s.producer && s'.pushed == s.pushed
      && s'.popped == if |s.popped| < |s.pushed| then s.popped + [s.pushed[|s.popped|]] else s.popped
  {
    var s1 := Next(s, StartPop);
    var s2 := Next(s1, StepPop);
    var s3 := Next(s2, StepPop);
    NextKeepsInv(s, StartPop);
    NextKeepsInv(s1, StepPop);
    RefusedExactly(s2);
    NextKeepsInv(s2, StepPop);
    NextKeepsInv(s3, StepPop);
  }

  class AtomicArray<T(0)> {
    const buffer: array<T>
    var head: nat
    var tail: nat
    ghost var pushed: seq<T>
    ghost var popped: seq<T>

    ghost function Model(): State<T>
      reads this, buffer
    {
      State(buffer[..], head, tail, NoPush, NoPop, pushed, popped)
    }

    ghost predicate Valid()
      reads this, buffer
    {
      Inv(Model())
    }

    constructor (capacity: nat)
      requires capacity >= 2
      ensures Valid() && fresh(buffer) && Model() == Init(buffer[..]) && buffer.Length == capacity
    {
      buffer := new T[capacity];
      head, tail, pushed, popped := 0, 0, [], [];
    }

    method Push(item: T) returns (ok: bool)
      requires Valid()
      modifies this, buffer
      ensures Valid() && Model() == PushAlone(old(Model()), item)
      ensures ok == (|old(pushed)| - |old(popped)| < buffer.Length - 1)
      ensures popped == old(popped) && pushed == if ok then old(pushed) + [item] else old(pushed)
    {
      PushAloneAppends(Model(), item);
      PushAloneIs(Model(), item);
      hide PushAlone, Queue, ProducerOk, ConsumerOk;
      ghost var before := Model();
      var next := (head + 1) % buffer.Length;
      if next == tail {
        return false;
      }
      buffer[head] := item;
      pushed := pushed + [item];
      head := next;
      assert buffer[..] == before.buffer[before.head := item];
      return true;
    }

    method Pop() returns (ok: bool, item: T)
      requires Valid()
      modifies this
      ensures Valid() && Model() == PopAlone(old(Model()))
      ensures ok == (|old(popped)| < |pushed|) && pushed == old(pushed) && buffer[..] == old(buffer[..])
      ensures popped == if ok then old(popped) + [item] else old(popped)
    {
      PopAloneTakesOldest(Model());
      hide Queue, ProducerOk, ConsumerOk;
      item := buffer[tail];
      if tail == head {
        return false, item;
      }
      popped := popped + [item];
      tail := (tail + 1) % buffer.Length;
      return true, item;
    }
  }
}

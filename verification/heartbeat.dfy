/** The heartbeat producer of a CANopen node (CiA 301, section 7.2.8): deadlines on a grid that
    starts when a state is entered. */
module Heartbeat {
  import opened Arith

  // ----- the heartbeat schedule

  /** The next deadline after entering a state; zero while heartbeats are off. */
  function Scheduled(now: nat, period: nat): nat {
    if period == 0 then 0 else now + period
  }

  /** The first of next + period, next + 2 * period, ... that lies after `now`. */
  function CatchUp(next: nat, now: nat, period: nat): nat
    requires period > 0
    decreases if next <= now then now - next + 1 else 0
  {
    if next + period <= now then CatchUp(next + period, now, period) else next + period
  }

  /** One periodic call: the new deadline, and whether a heartbeat is attempted. */
  function Beat(next: nat, now: nat, period: nat): (nat, bool) {
    if period == 0 then (0, false)
    else if next == 0 then (now + period, false)
    else if now >= next then (CatchUp(next, now, period), true)
    else (next, false)
  }

  /** The loop of `process`. */
  method ProcessHeartbeat(next: nat, now: nat, period: nat) returns (next': nat, published: bool)
    ensures (next', published) == Beat(next, now, period)
  {
    if period == 0 {
      return 0, false;
    }
    next', published := next, false;
    if next' == 0 {
      next' := now + period;
    } else if now >= next' {
      published := true;
      next' := next' + period;
      while next' <= now
        invariant next' > period && CatchUp(next' - period, now, period) == CatchUp(next, now, period)
        decreases now - next'
      {
        next' := next' + period;
      }
    }
  }

  /** A run of periodic calls: the final deadline and the number of heartbeats attempted. */
  function Beats(next: nat, times: seq<nat>, period: nat): (nat, nat)
    decreases |times|
  {
    if times == [] then (next, 0)
    else
      var (next', published) := Beat(next, times[0], period);
      var (last, n) := Beats(next', times[1..], period);
      (last, n + if published then 1 else 0)
  }

  predicate Nondecreasing(from: nat, times: seq<nat>)
    decreases |times|
  {
    times == [] || (from <= times[0] && Nondecreasing(times[0], times[1..]))
  }

  predicate GapsWithin(from: nat, times: seq<nat>, period: nat)
    decreases |times|
  {
    times == [] || (times[0] <= from + period && GapsWithin(times[0], times[1..], period))
  }

  function Last(from: nat, times: seq<nat>): nat {
    if times == [] then from else times[|times| - 1]
  }

  /** The deadline of a node that entered its state at `start` and has last been called at `now`: the
      first grid point after `now`. */
  function GridPoint(start: nat, now: nat, period: nat): nat
    requires period > 0 && start <= now
  {
    start + ((now - start) / period + 1) * period
  }

  lemma GridPointAfter(start: nat, now: nat, period: nat)
    requires period > 0 && start <= now
    ensures now < GridPoint(start, now, period) <= now + period
  {
    var q := (now - start) / period;
    assert q * period <= now - start < (q + 1) * period;
  }

  /** Entering a state puts the deadline on the first point of its grid. */
  lemma GridStarts(start: nat, period: nat)
    requires period > 0
    ensures Scheduled(start, period) == GridPoint(start, start, period)
  {
    assert (start - start) / period == 0;
  }

  lemma {:induction false} CatchUpReachesGrid(start: nat, next: nat, now: nat, period: nat, m: nat)
    requires period > 0 && next == start + m * period && next <= now
    ensures CatchUp(next, now, period) == GridPoint(start, now, period)
    decreases now - next
  {
    assert next + period == start + (m + 1) * period;
    if next + period <= now {
      CatchUpReachesGrid(start, next + period, now, period, m + 1);
    } else {
      Quotient(now - start, period, m);
    }
  }

  /** One call moves the deadline from the grid point after the previous call to the one after this. */
  lemma BeatOnGrid(start: nat, before: nat, now: nat, period: nat)
    requires period > 0 && start <= before <= now
    ensures var (next', published) := Beat(GridPoint(start, before, period), now, period);
      && next' == GridPoint(start, now, period)
      && published == (now >= GridPoint(start, before, period))
  {
    var m := (before - start) / period + 1;
    var next := GridPoint(start, before, period);
    GridPointAfter(start, before, period);
    if now >= next {
      CatchUpReachesGrid(start, next, now, period, m);
    } else {
      assert (m - 1) * period <= before - start;
      Quotient(now - start, period, m - 1);
    }
  }

  /** The heartbeat grid: whatever the times of the calls, the deadline is always the first grid point
      after the last call, so it never drifts, and at most one heartbeat is attempted per call; when
      calls come at least once per period, none is missed. */
  lemma {:induction false} HeartbeatGrid(start: nat, before: nat, times: seq<nat>, period: nat)
    requires period > 0 && start <= before && Nondecreasing(before, times)
    ensures var now := Last(before, times);
      var (next, n) := Beats(GridPoint(start, before, period), times, period);
      && before <= now && next == GridPoint(start, now, period) && now < next <= now + period && n <= |times|
      && (GapsWithin(before, times, period) ==> n == (now - start) / period - (before - start) / period)
    decreases |times|
  {
    if times == [] {
      GridPointAfter(start, before, period);
    } else {
      var now := times[0];
      if GapsWithin(before, times, period) {
        OneStep(start, before, now, period);
      }
      BeatOnGrid(start, before, now, period);
      hide GridPoint, Beat;
      HeartbeatGrid(start, now, times[1..], period);
    }
  }

  lemma {:induction false} NoBeats(next: nat, times: seq<nat>)
    ensures Beats(next, times, 0).1 == 0
    decreases |times|
  {
    if times == [] {
    } else {
      NoBeats(0, times[1..]);
    }
  }

  /** A gap of at most one period passes at most one grid point. */
  lemma OneStep(start: nat, before: nat, now: nat, period: nat)
    requires period > 0 && start <= before <= now <= before + period
    ensures (now - start) / period
         == (before - start) / period + if now >= GridPoint(start, before, period) then 1 else 0
  {
    OneStepAt(before - start, now - start, period, (before - start) / period);
  }

  lemma OneStepAt(x: nat, y: nat, period: nat, q: nat)
    requires period > 0 && x <= y <= x + period && q == x / period
    ensures y / period == q + if y >= (q + 1) * period then 1 else 0
  {
    assert q * period <= x < (q + 1) * period;
    assert (q + 1) * period == q * period + period && (q + 2) * period == q * period + 2 * period;
    Quotient(y, period, if y >= (q + 1) * period then q + 1 else q);
  }
}

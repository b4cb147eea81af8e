/**
  Rate limiting of a callback: `throttle` runs it at most once per delay, `debounce`
  runs it once, with the last arguments, after calls stop for a delay. The clock is a
  parameter (the time of each call, in milliseconds), and so is the passing of time
  for the debounce timer; a run of the callback is recorded with its arguments.
 */
module Timing {
  import opened Json

  const DefaultDelay := 300

  /** A run of the wrapped callback. */
  datatype Run = Run(time: int, args: seq<Value>)

  /** Consecutive runs at least `delay` apart, the first at least `delay` after time 0. */
  predicate Spaced(ts: seq<int>, delay: int) {
    && (ts != [] ==> ts[0] >= delay)
    && (forall i :: 0 < i < |ts| ==> ts[i] - ts[i - 1] >= delay)
  }

  /** Runs `j - i` places apart are at least `j - i` delays apart. */
  lemma {:induction false} SpacedRate(ts: seq<int>, delay: int, i: nat, j: nat)
    requires Spaced(ts, delay)
    requires i <= j < |ts|
    ensures ts[j] - ts[i] >= (j - i) * delay
    decreases j - i
  {
    if i < j {
      SpacedRate(ts, delay, i, j - 1);
      assert (j - i) * delay == (j - 1 - i) * delay + delay;
    }
  }

  /** With a positive delay, a window of `w` milliseconds holds fewer than `k` runs
      whenever `k` delays exceed it: at most `w / delay + 1` runs. */
  lemma SpacedWindow(ts: seq<int>, delay: int, i: nat, j: nat, w: int, k: nat)
    requires Spaced(ts, delay) && delay > 0
    requires i <= j < |ts| && ts[j] - ts[i] <= w
    requires k * delay > w
    ensures j - i < k
  {
    SpacedRate(ts, delay, i, j);
    MulCancel(j - i, k, delay);
  }

  lemma {:induction false} MulCancel(a: nat, b: nat, d: int)
    requires d > 0 && a * d < b * d
    ensures a < b
  {
    if a > 0 && b > 0 {
      assert (a - 1) * d == a * d - d;
      assert (b - 1) * d == b * d - d;
      MulCancel(a - 1, b - 1, d);
    }
  }

  /** A run of the throttled callback, and whether `fn` threw. */
  datatype Attempt = Attempt(time: int, args: seq<Value>, threw: bool)

  /** The times of the runs that returned normally, in order. */
  function CompletedTimes(xs: seq<Attempt>): (ts: seq<int>)
    ensures |ts| <= |xs|
  {
    if xs == [] then []
    else
      var last := xs[|xs| - 1];
      CompletedTimes(xs[..|xs| - 1]) + (if last.threw then [] else [last.time])
  }

  /** The time of the last run that returned normally, or 0 before there is one. */
  function LastCompleted(xs: seq<Attempt>): int {
    var ts := CompletedTimes(xs);
    if ts == [] then 0 else ts[|ts| - 1]
  }

  /** throttle(fn, delay): the closure's `lastTime`, and the runs of `fn`. */
  class Throttle {
    const delay: int
    var lastTime: int
    var runs: seq<Attempt>

    ghost predicate Valid()
      reads this
    {
      && Spaced(CompletedTimes(runs), delay)
      && lastTime == LastCompleted(runs)
    }

    /** `delay` defaults to 300 when it is not given. */
    constructor(delay: Option<int>)
      ensures Valid()
      ensures this.delay == delay.GetOr(DefaultDelay)
      ensures lastTime == 0 && runs == []
    {
      this.delay := delay.GetOr(DefaultDelay);
      lastTime := 0;
      runs := [];
    }

    /** A call at time `now` runs `fn` exactly when at least `delay` has passed since the
        last run that returned normally (or since time 0 before the first). `lastTime`
        is set after `fn` returns, so a run that throws leaves it alone and the
        exception reaches the caller. */
    method Call(now: int, args: seq<Value>, threw: bool) returns (ran: bool)
      requires Valid()
      modifies this
      ensures Valid()
      ensures ran <==> now - old(lastTime) >= delay
      ensures ran ==> runs == old(runs) + [Attempt(now, args, threw)]
      ensures ran && !threw ==> lastTime == now
      ensures ran && threw ==> lastTime == old(lastTime)
      ensures !ran ==> runs == old(runs) && lastTime == old(lastTime)
    {
      ran := now - lastTime >= delay;
      if ran {
        runs := runs + [Attempt(now, args, threw)];
        assert runs[..|runs| - 1] == old(runs);
        if !threw {
          lastTime := now;
          assert CompletedTimes(runs) == CompletedTimes(old(runs)) + [now];
        }
      }
    }
  }

  /** A run that throws does not hold off the next call: a call `delay` after the last
      normal run runs `fn` again, however soon after the throwing run it comes. */
  lemma ThrowDoesNotThrottle(xs: seq<Attempt>, now: int, args: seq<Value>)
    ensures CompletedTimes(xs + [Attempt(now, args, true)]) == CompletedTimes(xs)
    ensures LastCompleted(xs + [Attempt(now, args, true)]) == LastCompleted(xs)
  {
    assert (xs + [Attempt(now, args, true)])[..|xs|] == xs;
  }

  const TwoTo31 := 0x8000_0000
  const TwoTo32 := 0x1_0000_0000

  /** ToInt32 of an integer: wrap-around modulo 2^32 into [-2^31, 2^31). */
  function ToInt32(x: int): (r: int)
    ensures -TwoTo31 <= r < TwoTo31
    ensures (x - r) % TwoTo32 == 0
    ensures -TwoTo31 <= x < TwoTo31 ==> r == x
  {
    var m := x % TwoTo32;
    if m >= TwoTo31 then m - TwoTo32 else m
  }

  /** The wait setTimeout applies to `delay`: the delay is converted to a 32-bit signed
      integer (a WebIDL `long`) and a negative result waits 0 ms. */
  function Wait(delay: int): (w: nat)
    ensures w < TwoTo31
    ensures 0 <= delay < TwoTo31 ==> w == delay
    ensures delay < 0 && -TwoTo31 <= delay ==> w == 0
    ensures TwoTo31 <= delay < TwoTo32 ==> w == 0
    ensures w == 0 || (delay - w) % TwoTo32 == 0
  {
    var d := ToInt32(delay);
    if d > 0 then d else 0
  }

  /** A delay of 2^31 ms or more wraps: 2^31 fires at once, 2^32 + 5 after 5 ms. */
  lemma LongDelayWraps(s: DebounceState, now: int, args: seq<Value>)
    ensures AfterInvoke(s, TwoTo31, now, args).timer.value.due == now
    ensures AfterInvoke(s, TwoTo32 + 5, now, args).timer.value.due == now + 5
  {
    assert ToInt32(TwoTo32 + 5) == 5;
  }

  datatype Scheduled = Scheduled(due: int, args: seq<Value>)

  /** The debounced closure's state: its pending timer and the runs of `fn`. */
  datatype DebounceState = DebounceState(timer: Option<Scheduled>, runs: seq<Run>)

  /** Things that happen to a debounced function: a call, or the clock reaching a time. */
  datatype Event = Invoke(now: int, args: seq<Value>) | Clock(now: int)

  /** A call clears the pending timer and schedules a new one for `fn` with its arguments. */
  function AfterInvoke(s: DebounceState, delay: int, now: int, args: seq<Value>): (r: DebounceState)
    ensures r.runs == s.runs
    ensures r.timer.Some? && r.timer.value.args == args && r.timer.value.due >= now
  {
    DebounceState(Some(Scheduled(now + Wait(delay), args)), s.runs)
  }

  /** A timer that is due runs `fn` and clears itself. */
  function AfterClock(s: DebounceState, now: int): (r: DebounceState)
    ensures s.timer.Some? && s.timer.value.due <= now ==>
      r.timer.None? && r.runs == s.runs + [Run(s.timer.value.due, s.timer.value.args)]
    ensures !(s.timer.Some? && s.timer.value.due <= now) ==> r == s
  {
    match s.timer
    case Some(t) => if t.due <= now then DebounceState(None, s.runs + [Run(t.due, t.args)]) else s
    case None => s
  }

  function Replay(s: DebounceState, delay: int, events: seq<Event>): DebounceState
    decreases |events|
  {
    if events == [] then s
    else
      var e := events[0];
      var s' := match e
        case Invoke(now, args) => AfterInvoke(s, delay, now, args)
        case Clock(now) => AfterClock(s, now);
      Replay(s', delay, events[1..])
  }

  /** Calls in a burst (with no time passing the pending timer's due time in between)
      run nothing; once the clock passes the last call's delay, `fn` runs once, with the
      last call's arguments. */
  lemma {:induction false} BurstRunsOnce(s: DebounceState, delay: int, calls: seq<Event>, t: int)
    requires calls != [] && forall i :: 0 <= i < |calls| ==> calls[i].Invoke?
    requires t >= calls[|calls| - 1].now + Wait(delay)
    ensures
      var last := calls[|calls| - 1];
      Replay(s, delay, calls + [Clock(t)]) ==
        DebounceState(None, s.runs + [Run(last.now + Wait(delay), last.args)])
    decreases |calls|
  {
    var e := calls[0];
    var s' := AfterInvoke(s, delay, e.now, e.args);
    assert (calls + [Clock(t)])[0] == e;
    assert (calls + [Clock(t)])[1..] == calls[1..] + [Clock(t)];
    if |calls| == 1 {
      assert calls[1..] == [];
      assert Replay(s', delay, [Clock(t)]) == Replay(AfterClock(s', t), delay, []);
    } else {
      BurstRunsOnce(s', delay, calls[1..], t);
    }
  }

  /** The debounce(fn, delay) closure: its `timer` and the runs of `fn`. */
  class Debounce {
    const delay: int
    var timer: Option<Scheduled>
    var runs: seq<Run>

    function State(): DebounceState
      reads this
    {
      DebounceState(timer, runs)
    }

    /** `delay` defaults to 300 when it is not given. */
    constructor(delay: Option<int>)
      ensures this.delay == delay.GetOr(DefaultDelay)
      ensures timer.None? && runs == []
    {
      this.delay := delay.GetOr(DefaultDelay);
      timer := None;
      runs := [];
    }

    /** A call: the pending timer, if any, is cleared and a new one is set. */
    method Call(now: int, args: seq<Value>)
      modifies this
      ensures State() == AfterInvoke(old(State()), delay, now, args)
    {
      timer := Some(Scheduled(now + Wait(delay), args));
    }

    /** The clock reaches `now`: a timer that is due runs `fn` and sets `timer` back to null. */
    method Tick(now: int)
      modifies this
      ensures State() == AfterClock(old(State()), now)
    {
      if timer.Some? && timer.value.due <= now {
        runs := runs + [Run(timer.value.due, timer.value.args)];
        timer := None;
      }
    }
  }
}

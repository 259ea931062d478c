/**
 The clock of the client's retries (`_send`, `_http` and `_backoff`): however attempts fail and whatever the
 jitter, a read gives up in time, and anything else is sent once. Times are in seconds; time passes only
 while an attempt waits for its answer and while the client sleeps.
 */
module Retry {
  import opened Prelude

  const BASE := 0.5
  const CAP := 4.0
  const FLOOR := 3.0

  /** `retry` tells a failure that a read may try again. */
  datatype Outcome = Answered | Failed(retry: bool)

  /**
   How the network would treat an attempt: it would end after `lasts` with `outcome`, unless the timeout ends
   it first; `jitter` is a share of the step's half.
   */
  datatype Attempt = Attempt(lasts: real, outcome: Outcome, jitter: real)

  /** What the network does to the attempts, the first one at index 0. */
  type World = w: nat -> Attempt | forall i :: w(i).lasts >= 0.0 && 0.0 <= w(i).jitter <= 1.0
    witness (i: nat) => Attempt(0.0, Answered, 0.0)

  function Least(a: real, b: real): real {
    if a < b then a else b
  }

  function Most(a: real, b: real): real {
    if a < b then b else a
  }

  function Pow2(n: nat): (r: real)
    ensures r >= 1.0
  {
    if n == 0 then 1.0 else 2.0 * Pow2(n - 1)
  }

  /** The step of an attempt, the first one counted as 1. */
  function StepOf(attempt: nat): (s: real)
    ensures BASE <= s <= CAP
  {
    var n := attempt as int - 1;
    Least(CAP, BASE * (if n <= 0 then 1.0 else Pow2(if n < 64 then n else 64)))
  }

  lemma {:induction false} Pow2Grows(n: nat)
    requires n >= 3
    ensures Pow2(n) >= 8.0
    decreases n
  {
    if n > 3 { Pow2Grows(n - 1); } else { assert Pow2(3) == 2.0 * Pow2(2) == 4.0 * Pow2(1) == 8.0 * Pow2(0); }
  }

  /** The steps are half a second, one, two, and four from then on. */
  lemma StepIs(attempt: nat)
    ensures StepOf(attempt) == if attempt <= 1 then 0.5 else if attempt == 2 then 1.0 else if attempt == 3 then 2.0 else 4.0
  {
    if attempt >= 4 {
      Pow2Grows(if attempt < 65 then attempt - 1 else 64);
    } else {
      assert Pow2(1) == 2.0 * Pow2(0) && Pow2(2) == 2.0 * Pow2(1);
    }
  }

  /** How many waits of a quarter second use up what is left. */
  function Waits(left: real): (n: nat)
    decreases if left <= 0.0 then 0 else (4.0 * left).Floor + 1
  {
    if left <= 0.0 then 0 else 1 + Waits(left - 0.25)
  }

  lemma {:induction false} WaitsMonotone(a: real, b: real)
    requires a <= b
    ensures Waits(a) <= Waits(b)
    decreases Waits(b)
  {
    if a > 0.0 { WaitsMonotone(a - 0.25, b - 0.25); }
  }

  lemma WaitsShrink(left: real, delay: real)
    requires left > 0.0 && delay >= Least(left, 0.25)
    ensures Waits(left - delay) < Waits(left)
  {
    WaitsMonotone(left - delay, if left < 0.25 then 0.0 else left - 0.25);
  }

  lemma ShareIsLess(jitter: real, half: real)
    requires 0.0 <= jitter <= 1.0 && half >= 0.0
    ensures 0.0 <= jitter * half <= half
  {}

  /** The pause is what is left, or between half the step and the step; not less than a quarter second of what is left. */
  lemma PauseIs(left: real, step: real, jitter: real)
    requires left > 0.0 && step >= BASE && 0.0 <= jitter <= 1.0
    ensures var pause := Least(left, step / 2.0 + jitter * (step / 2.0));
            && 0.0 < pause <= left && pause <= step && (pause < left ==> pause >= step / 2.0)
            && Waits(left - pause) < Waits(left)
  {
    var half := step / 2.0;
    ShareIsLess(jitter, half);
    var pause := Least(left, half + jitter * half);
    WaitsShrink(left, pause);
    assert pause == Least(left, step / 2.0 + jitter * (step / 2.0));
  }

  // ----- what happened ---------------------------------------------------------------------

  /** An attempt that was made: when it began, how long it was given, and how it ended. */
  datatype Try = Try(start: real, allowed: real, outcome: Outcome)

  /** When an attempt ended. */
  function End(t: Try, a: Attempt): real {
    t.start + if a.lasts > t.allowed then t.allowed else a.lasts
  }

  /** An attempt ends as the network has it, or in a timeout, which may be retried. */
  predicate Happens(t: Try, a: Attempt) {
    t.outcome == if a.lasts > t.allowed then Failed(true) else a.outcome
  }

  /** The wait after attempt `n`: between half a step and a step, or what is left to the deadline. */
  predicate Waited(from: real, until: real, n: nat, deadline: real) {
    && from < deadline && until <= deadline
    && if until == deadline then until <= from + StepOf(n) else from + StepOf(n) / 2.0 <= until <= from + StepOf(n)
  }

  /** What attempt `i` is given: the whole timeout, or, for a retry, what is left of the window, or three seconds. */
  function Allowed(i: nat, start: real, timeout: real, deadline: real, whole: bool): real {
    if whole || i == 0 then timeout else Least(timeout, Most(deadline - start, 3.0))
  }

  /** Every attempt is given its time; all but the last fail for a reason that a read may retry, and are followed by a wait. */
  ghost predicate Retried(tries: seq<Try>, world: World, timeout: real, deadline: real, whole: bool) {
    && (forall i :: 0 <= i < |tries| ==>
          Happens(tries[i], world(i)) && tries[i].allowed == Allowed(i, tries[i].start, timeout, deadline, whole))
    && forall i :: 0 <= i < |tries| - 1 ==>
         tries[i].outcome == Failed(true) && Waited(End(tries[i], world(i)), tries[i + 1].start, i + 1, deadline)
  }

  /** And the next attempt may begin. */
  ghost predicate Ready(tries: seq<Try>, world: World, now: real, timeout: real, deadline: real, whole: bool) {
    && Retried(tries, world, timeout, deadline, whole)
    && (tries != [] ==>
          var n := |tries| - 1;
          tries[n].outcome == Failed(true) && Waited(End(tries[n], world(n)), now, n + 1, deadline))
  }

  lemma RetriedNext(tries: seq<Try>, world: World, timeout: real, deadline: real, whole: bool, t: Try)
    requires Ready(tries, world, t.start, timeout, deadline, whole) && Happens(t, world(|tries|))
    requires t.allowed == Allowed(|tries|, t.start, timeout, deadline, whole)
    ensures Retried(tries + [t], world, timeout, deadline, whole)
    ensures (tries + [t])[0] == (if tries == [] then t else tries[0]) && (tries + [t])[|tries|] == t
  {
    var more := tries + [t];
    assert forall i :: 0 <= i < |tries| ==> more[i] == tries[i];
  }

  /** A retry begins within the window, so that the attempts end in time. */
  lemma EndsInTime(tries: seq<Try>, world: World, timeout: real, deadline: real, whole: bool)
    requires timeout >= 0.0 && tries != [] && Retried(tries, world, timeout, deadline, whole)
    ensures var n := |tries| - 1;
            && End(tries[n], world(n)) <= tries[n].start + tries[n].allowed
            && (n == 0 ==> tries[n].allowed == timeout)
            && (n > 0 ==> tries[n].start <= deadline && tries[n].allowed <= timeout)
            && (n > 0 && !whole ==> tries[n].start + tries[n].allowed <= deadline + 3.0)
  {
    var n := |tries| - 1;
    assert Happens(tries[n], world(n));
    if n > 0 {
      assert Waited(End(tries[n - 1], world(n - 1)), tries[n].start, n, deadline);
    }
  }

  /** Every wait but one cut short by the deadline is a quarter second at least, so there are not many. */
  lemma {:induction false} NotMany(tries: seq<Try>, world: World, timeout: real, deadline: real, whole: bool, i: nat)
    requires timeout >= 0.0 && Retried(tries, world, timeout, deadline, whole) && 0 < i < |tries|
    ensures i + Waits(deadline - tries[i].start) <= Waits(deadline - End(tries[0], world(0)))
  {
    var from := End(tries[i - 1], world(i - 1));
    assert tries[i - 1].outcome == Failed(true) && Waited(from, tries[i].start, i, deadline);
    assert Happens(tries[i - 1], world(i - 1));
    WaitsShrink(deadline - from, tries[i].start - from);
    if i > 1 {
      NotMany(tries, world, timeout, deadline, whole, i - 1);
      WaitsMonotone(deadline - from, deadline - tries[i - 1].start);
    }
  }

  /** However the attempts fail, they end within the deadline and the last of them, and there are not many. */
  lemma InTime(tries: seq<Try>, world: World, timeout: real, deadline: real, whole: bool, window: real)
    requires timeout >= 0.0 && tries != [] && Retried(tries, world, timeout, deadline, whole)
    requires deadline - End(tries[0], world(0)) <= window
    ensures End(tries[|tries| - 1], world(|tries| - 1)) <=
            if |tries| == 1 then tries[0].start + timeout else deadline + if whole then timeout else 3.0
    ensures |tries| <= Waits(window) + 1
  {
    EndsInTime(tries, world, timeout, deadline, whole);
    if |tries| > 1 {
      NotMany(tries, world, timeout, deadline, whole, |tries| - 1);
      WaitsMonotone(deadline - End(tries[0], world(0)), window);
    }
  }

  class Client {
    var now: real

    constructor (start: real)
      ensures now == start
    {
      now := start;
    }

    /** `_backoff`: sleeps when the budget is not spent; never past the deadline, and a quarter second at least. */
    method Backoff(attempt: nat, deadline: real, jitter: real) returns (again: bool)
      requires attempt > 0 && 0.0 <= jitter <= 1.0
      modifies this
      ensures again == (old(now) < deadline)
      ensures !again ==> now == old(now)
      ensures again ==> Waited(old(now), now, attempt, deadline)
      ensures again ==> old(now) < now <= deadline && Waits(deadline - now) < Waits(deadline - old(now))
    {
      var left := deadline - now;
      if left <= 0.0 {
        return false;
      }
      var step := StepOf(attempt);
      PauseIs(left, step, jitter);
      now := now + Least(left, step / 2.0 + jitter * (step / 2.0));
      again := true;
    }

    /** One request lasts as long as the network wants, within its timeout. */
    method Request(a: Attempt, timeout: real) returns (t: Try)
      requires a.lasts >= 0.0 && timeout >= 0.0
      modifies this
      ensures t.start == old(now) && t.allowed == timeout && Happens(t, a) && now == End(t, a)
    {
      t := Try(now, timeout, if a.lasts > timeout then Failed(true) else a.outcome);
      now := now + Least(a.lasts, timeout);
    }

    /** One more attempt, with the time that is due to it. */
    method Make(tries: seq<Try>, wait: real, world: World, ghost timeout: real, ghost deadline: real, ghost whole: bool)
      returns (more: seq<Try>)
      requires Ready(tries, world, now, timeout, deadline, whole)
      requires wait == Allowed(|tries|, now, timeout, deadline, whole) && wait >= 0.0
      modifies this
      ensures |more| == |tries| + 1 && (if tries == [] then more[0].start == old(now) else more[0] == tries[0])
      ensures old(now) <= now == End(more[|tries|], world(|tries|))
      ensures Retried(more, world, timeout, deadline, whole)
      ensures tries == [] ==> forall d :: Retried(more, world, timeout, d, whole)
    {
      var t := Request(world(|tries|), wait);
      RetriedNext(tries, world, timeout, deadline, whole, t);
      more := tries + [t];
    }

    /** The last attempt failed for a reason to retry: whether there is a next one, after a pause. */
    method Again(tries: seq<Try>, world: World, deadline: real, ghost timeout: real, ghost whole: bool) returns (again: bool)
      requires tries != [] && Retried(tries, world, timeout, deadline, whole)
      requires tries[|tries| - 1].outcome == Failed(true) && now == End(tries[|tries| - 1], world(|tries| - 1))
      modifies this
      ensures if again then old(now) < now <= deadline && Waits(deadline - now) < Waits(deadline - old(now))
              else now == old(now) >= deadline
      ensures again ==> Ready(tries, world, now, timeout, deadline, whole)
    {
      again := Backoff(|tries|, deadline, world(|tries| - 1).jitter);
    }

    /**
     The loop of `_send`. The first attempt has the whole timeout, a retry what is left of the window within
     it, or three seconds. A read goes on until it is answered, fails for no reason to retry, or its window is
     over; anything else is sent once.
     */
    method SendTries(read: bool, timeout: real, window: real, world: World) returns (answered: bool, tries: seq<Try>)
      requires timeout > 0.0 && window >= 0.0
      modifies this
      ensures tries != [] && tries[0].start == old(now) && now == End(tries[|tries| - 1], world(|tries| - 1))
      ensures Retried(tries, world, timeout, old(now) + window, false)
      ensures answered <==> tries[|tries| - 1].outcome == Answered
      ensures !answered && read && tries[|tries| - 1].outcome.retry ==> now >= old(now) + window
      ensures old(now) <= now && (!read ==> |tries| == 1)
    {
      var deadline := now + if read then window else 0.0;
      ghost var until := now + window;
      tries := [];
      while true
        invariant tries == [] ==> now == old(now)
        invariant tries != [] ==> read && old(now) <= now <= deadline == until && tries[0].start == old(now)
        invariant Ready(tries, world, now, timeout, until, false)
        decreases Waits(deadline - now), tries == []
      {
        var wait := if tries == [] then timeout else Least(timeout, Most(deadline - now, FLOOR));
        assert wait == Allowed(|tries|, now, timeout, until, false);
        ghost var began := now;
        tries := Make(tries, wait, world, timeout, until, false);
        WaitsMonotone(deadline - now, deadline - began);
        var outcome := tries[|tries| - 1].outcome;
        answered := outcome == Answered;
        if answered || !read || !outcome.retry {
          return;
        }
        var again := Again(tries, world, deadline, timeout, false);
        if !again {
          return;
        }
      }
    }

    /** `_send`: it gives up within the longer of the timeout and the window and its last retry. */
    method Send(read: bool, timeout: real, window: real, world: World) returns (answered: bool, tries: seq<Try>)
      requires timeout > 0.0 && window >= 0.0
      modifies this
      ensures tries != [] && tries[0].start == old(now) && now == End(tries[|tries| - 1], world(|tries| - 1))
      ensures Retried(tries, world, timeout, old(now) + window, false)
      ensures answered <==> tries[|tries| - 1].outcome == Answered
      ensures !answered && read && tries[|tries| - 1].outcome.retry ==> now >= old(now) + window
      ensures !read ==> |tries| == 1 && now <= old(now) + timeout
      ensures old(now) <= now <= old(now) + Most(timeout, window + 3.0)
      ensures |tries| <= Waits(window) + 1
    {
      answered, tries := SendTries(read, timeout, window, world);
      InTime(tries, world, timeout, old(now) + window, false, window);
    }

    /**
     The loop of `_http`. The window counts from the first failure, and every attempt has the whole timeout.
     `deadline or …` takes a deadline of zero for none, which a clock after zero never reaches.
     */
    method HttpTries(get: bool, timeout: real, retry: real, world: World) returns (answered: bool, tries: seq<Try>)
      requires timeout > 0.0 && retry >= 0.0 && now > 0.0
      modifies this
      ensures tries != [] && tries[0].start == old(now) && now == End(tries[|tries| - 1], world(|tries| - 1))
      ensures Retried(tries, world, timeout, End(tries[0], world(0)) + retry, true)
      ensures answered <==> tries[|tries| - 1].outcome == Answered
      ensures !answered && get && tries[|tries| - 1].outcome.retry ==> now >= End(tries[0], world(0)) + retry
      ensures old(now) <= now && (!get ==> |tries| == 1)
    {
      var window := if get then retry else 0.0;
      var deadline: Option<real> := None;
      ghost var until := now;
      tries := [];
      while true
        invariant old(now) <= now && Ready(tries, world, now, timeout, until, true)
        invariant tries == [] ==> deadline == None && now == old(now)
        invariant tries != [] ==> get && deadline == Some(until) && now <= until
        invariant tries != [] ==> tries[0].start == old(now) && until == End(tries[0], world(0)) + retry
        decreases tries == [], Waits(until - now)
      {
        ghost var began := now;
        tries := Make(tries, timeout, world, timeout, until, true);
        var outcome := tries[|tries| - 1].outcome;
        answered := outcome == Answered;
        if deadline == None {
          until := now + retry;
        }
        if answered {
          return;
        }
        if deadline == None || deadline == Some(0.0) {
          deadline := Some(now + window);
        }
        if !outcome.retry {
          return;
        }
        WaitsMonotone(until - now, until - began);
        var again := Again(tries, world, deadline.value, timeout, true);
        if !again {
          return;
        }
      }
    }

    /** `_http`: a GET gives up within two timeouts and the window; anything else is sent once. */
    method Http(get: bool, timeout: real, retry: real, world: World) returns (answered: bool, tries: seq<Try>)
      requires timeout > 0.0 && retry >= 0.0 && now > 0.0
      modifies this
      ensures tries != [] && tries[0].start == old(now) && now == End(tries[|tries| - 1], world(|tries| - 1))
      ensures Retried(tries, world, timeout, End(tries[0], world(0)) + retry, true)
      ensures answered <==> tries[|tries| - 1].outcome == Answered
      ensures !answered && get && tries[|tries| - 1].outcome.retry ==> now >= End(tries[0], world(0)) + retry
      ensures !get ==> |tries| == 1 && now <= old(now) + timeout
      ensures old(now) <= now <= old(now) + 2.0 * timeout + retry
      ensures |tries| <= Waits(retry) + 1
    {
      answered, tries := HttpTries(get, timeout, retry, world);
      EndsInTime(tries[..1], world, timeout, 0.0, true);
      InTime(tries, world, timeout, End(tries[0], world(0)) + retry, true, retry);
    }
  }
}

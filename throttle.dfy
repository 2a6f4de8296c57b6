/** The leading-edge `throttle(func, limit)` helper of both content scripts.

    The closure's `inThrottle` flag is set when `func` runs and cleared by a
    timer `limit` milliseconds later. The clock is a parameter: a call at
    time `now` finds the gate open when the flag is clear or the timer set
    at the last firing has run out by then. Calls made while the gate is
    closed are dropped, never queued. */
module Throttling {

  /** The closure's state: the flag and the time `func` last ran. */
  datatype Gate = Gate(inThrottle: bool, lastFire: int)

  /** A fresh throttle: `let inThrottle;` starts out undefined, i.e. falsy. */
  const Idle := Gate(false, 0)

  predicate Open(limit: nat, g: Gate, now: int)
  {
    !g.inThrottle || now >= g.lastFire + limit
  }

  /** One call at time `now`: whether `func` runs, and the gate afterwards. */
  function Step(limit: nat, g: Gate, now: int): (r: (bool, Gate))
    ensures r.0 <==> Open(limit, g, now)
    ensures r.0 ==> r.1 == Gate(true, now) && (limit > 0 ==> !Open(limit, r.1, now))
    ensures !r.0 ==> r.1 == g
  {
    if Open(limit, g, now) then (true, Gate(true, now)) else (false, g)
  }

  /** A sequence of calls at the given times: which of them ran `func`, and the final gate. */
  function Run(limit: nat, g: Gate, times: seq<int>): (r: (seq<bool>, Gate))
    ensures |r.0| == |times|
  {
    if times == [] then ([], g)
    else
      var prev := Run(limit, g, times[..|times| - 1]);
      var step := Step(limit, prev.1, times[|times| - 1]);
      (prev.0 + [step.0], step.1)
  }

  predicate NonDecreasing(times: seq<int>)
  {
    forall i, j :: 0 <= i < j < |times| ==> times[i] <= times[j]
  }

  /** How many calls ran `func`. */
  function Fired(fires: seq<bool>): nat
  {
    if fires == [] then 0 else Fired(fires[..|fires| - 1]) + (if fires[|fires| - 1] then 1 else 0)
  }

  /** Whether a call runs `func` depends only on the calls before it. */
  lemma {:induction false} RunPrefix(limit: nat, g: Gate, times: seq<int>, n: nat)
    requires n <= |times|
    ensures Run(limit, g, times[..n]).0 == Run(limit, g, times).0[..n]
    decreases |times|
  {
    if n < |times| {
      assert times[..|times| - 1][..n] == times[..n];
      RunPrefix(limit, g, times[..|times| - 1], n);
    } else {
      assert times[..n] == times;
    }
  }

  /** While the gate has fired, it remembers the latest firing time. */
  lemma {:induction false} RunRemembers(limit: nat, times: seq<int>)
    requires NonDecreasing(times)
    ensures var r := Run(limit, Idle, times);
            forall i :: 0 <= i < |times| && r.0[i] ==> r.1.inThrottle && times[i] <= r.1.lastFire
    ensures var r := Run(limit, Idle, times);
            r.1.inThrottle ==> exists i :: 0 <= i < |times| && r.0[i] && r.1.lastFire == times[i]
  {
    if times != [] {
      var n := |times| - 1;
      var init := times[..n];
      assert NonDecreasing(init);
      RunRemembers(limit, init);
    }
  }

  /** Two calls that both ran `func` are at least `limit` apart: at most one
      invocation per window of `limit` milliseconds. */
  lemma {:induction false} FiresSpaced(limit: nat, times: seq<int>)
    requires NonDecreasing(times)
    ensures var fires := Run(limit, Idle, times).0;
            forall i, j :: 0 <= i < j < |times| && fires[i] && fires[j] ==> times[j] >= times[i] + limit
  {
    if times != [] {
      var n := |times| - 1;
      var init := times[..n];
      assert NonDecreasing(init);
      FiresSpaced(limit, init);
      RunRemembers(limit, init);
    }
  }

  /** From a fresh throttle, the calls of a burst shorter than `limit` run
      `func` exactly once, on the first call; the others are dropped. */
  lemma {:induction false} BurstFiresOnce(limit: nat, times: seq<int>)
    requires |times| >= 1 && NonDecreasing(times)
    requires times[|times| - 1] < times[0] + limit
    ensures var fires := Run(limit, Idle, times).0;
            fires[0] && forall i :: 1 <= i < |times| ==> !fires[i]
    ensures Fired(Run(limit, Idle, times).0) == 1
    ensures Run(limit, Idle, times).1 == Gate(true, times[0])
  {
    var n := |times| - 1;
    if n == 0 {
      assert Run(limit, Idle, times[..0]) == ([], Idle);
    } else {
      var init := times[..n];
      assert NonDecreasing(init);
      assert init[n - 1] <= times[n];
      BurstFiresOnce(limit, init);
      var prev := Run(limit, Idle, init);
      assert !Open(limit, prev.1, times[n]);
      var r := Run(limit, Idle, times);
      assert r == (prev.0 + [false], prev.1);
      assert r.0[..n] == prev.0;
      forall i | 1 <= i < |times|
        ensures !r.0[i]
      {
        if i < n {
          assert r.0[i] == prev.0[i];
        }
      }
    }
  }

  /** Over calls spanning `times[0]` to the last time, `func` runs at most
      once plus once per full `limit` in between. */
  lemma {:induction false} FiredBound(limit: nat, times: seq<int>)
    requires |times| >= 1 && NonDecreasing(times)
    ensures (Fired(Run(limit, Idle, times).0) - 1) * limit <= times[|times| - 1] - times[0]
  {
    FiredSpan(limit, times);
  }

  /** The span between the first and the latest firing covers `limit` per extra firing. */
  lemma {:induction false} FiredSpan(limit: nat, times: seq<int>)
    requires |times| >= 1 && NonDecreasing(times)
    ensures var r := Run(limit, Idle, times);
            && Fired(r.0) >= 1 && r.0[0]
            && r.1.inThrottle && times[0] <= r.1.lastFire <= times[|times| - 1]
            && (Fired(r.0) - 1) * limit <= r.1.lastFire - times[0]
  {
    var n := |times| - 1;
    if n == 0 {
      assert Run(limit, Idle, times[..0]) == ([], Idle);
    } else {
      var init := times[..n];
      assert NonDecreasing(init);
      FiredSpan(limit, init);
      var prev := Run(limit, Idle, init);
      var r := Run(limit, Idle, times);
      assert r.0[..n] == prev.0;
      var k := Fired(prev.0);
      assert Fired(r.0) == k + (if r.0[n] then 1 else 0);
      if r.0[n] {
        assert r.1.lastFire == times[n] >= prev.1.lastFire + limit;
        assert (k + 1 - 1) * limit == (k - 1) * limit + limit;
      }
    }
  }

  /** The closure of one `throttle(func, limit)` call. */
  class Throttle {
    const limit: nat
    var inThrottle: bool
    var lastFire: int

    function State(): Gate
      reads this
    {
      Gate(inThrottle, lastFire)
    }

    constructor(limit: nat)
      ensures this.limit == limit && State() == Idle
    {
      this.limit := limit;
      inThrottle := false;
      lastFire := 0;
    }

    /** One call of the throttled function at time `now`; `fire` says whether
        the caller runs `func`. */
    method Call(now: int) returns (fire: bool)
      modifies this
      ensures (fire, State()) == Step(limit, old(State()), now)
    {
      fire := !inThrottle || now >= lastFire + limit;
      if fire {
        inThrottle := true;
        lastFire := now;
      }
    }
  }
}

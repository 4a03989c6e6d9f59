// Exponential backoff with jitter (internal/gql/backoff.go), over the reals.
module Backoff {

  function Pow(base: real, n: nat): real {
    if n == 0 then 1.0 else base * Pow(base, n - 1)
  }

  datatype Settings = Settings(base: real, varianceMin: real, varianceMax: real, shift: real, maximum: real)

  const DEFAULTS := Settings(2.0, 0.9, 1.1, 0.0, 300.0)

  // A random draw lies in [0, 1).
  predicate IsDraw(u: real) { 0.0 <= u < 1.0 }

  function Value(s: Settings, steps: nat, u: real): real {
    Pow(s.base, steps) * (s.varianceMin + u * (s.varianceMax - s.varianceMin)) + s.shift
  }

  // The delay and the step counter after one call.
  function Next(s: Settings, steps: nat, u: real): (real, nat) {
    var val := Value(s, steps, u);
    if val > s.maximum then (s.maximum, steps) else (val, steps + 1)
  }

  class ExponentialBackoff {
    const settings: Settings
    var steps: nat

    constructor (settings: Settings)
      ensures this.settings == settings && steps == 0
    {
      this.settings := settings;
      steps := 0;
    }

    method NextDelay(u: real) returns (delay: real)
      requires IsDraw(u)
      modifies this
      ensures (delay, steps) == Next(settings, old(steps), u)
    {
      var r := settings.varianceMin + u * (settings.varianceMax - settings.varianceMin);
      var val := Pow(settings.base, steps) * r + settings.shift;
      assert val == Value(settings, steps, u);
      if val > settings.maximum {
        return settings.maximum;
      }
      steps := steps + 1;
      return val;
    }

    method Reset()
      modifies this
      ensures steps == 0
    {
      steps := 0;
    }
  }

  datatype Call = NextCall(u: real) | ResetCall

  // The counter after a sequence of calls, and the delays handed out.
  function Calls(s: Settings, steps: nat, calls: seq<Call>): (nat, seq<real>)
    decreases |calls|
  {
    if calls == [] then (steps, [])
    else
      match calls[0]
      case NextCall(u) =>
        var (d, k) := Next(s, steps, u);
        var (last, ds) := Calls(s, k, calls[1..]);
        (last, [d] + ds)
      case ResetCall => Calls(s, 0, calls[1..])
  }

  predicate Drawn(calls: seq<Call>) {
    forall c :: c in calls && c.NextCall? ==> IsDraw(c.u)
  }

  predicate Jitter(s: Settings) {
    s.base >= 0.0 && 0.0 <= s.varianceMin <= s.varianceMax
  }

  lemma PowNonNegative(base: real, n: nat)
    requires base >= 0.0
    ensures Pow(base, n) >= 0.0
  {
  }

  // The value of a step lies between its two jitter extremes.
  lemma ValueRange(s: Settings, steps: nat, u: real)
    requires Jitter(s) && IsDraw(u)
    ensures Pow(s.base, steps) * s.varianceMin + s.shift <= Value(s, steps, u)
    ensures Value(s, steps, u) <= Pow(s.base, steps) * s.varianceMax + s.shift
  {
    PowNonNegative(s.base, steps);
    var p, w := Pow(s.base, steps), s.varianceMax - s.varianceMin;
    MulMonotone(w, 0.0, u);
    MulMonotone(w, u, 1.0);
    MulMonotone(p, s.varianceMin, s.varianceMin + u * w);
    MulMonotone(p, s.varianceMin + u * w, s.varianceMax);
  }

  // The value runs evenly from its smallest to its largest as the draw goes from 0 to 1.
  lemma ValueExact(s: Settings, steps: nat, u: real)
    ensures Value(s, steps, 0.0) == Pow(s.base, steps) * s.varianceMin + s.shift
    ensures Value(s, steps, 1.0) == Pow(s.base, steps) * s.varianceMax + s.shift
    ensures Value(s, steps, u) - Value(s, steps, 0.0) == u * (Value(s, steps, 1.0) - Value(s, steps, 0.0))
  {
    var p, lo, w := Pow(s.base, steps), s.varianceMin, s.varianceMax - s.varianceMin;
    assert p * (lo + u * w) == p * lo + u * (p * w) by {
      Distribute(p, lo, u * w);
      Swap(p, u, w);
    }
    assert p * (lo + 1.0 * w) == p * lo + p * w by {
      Distribute(p, lo, w);
    }
  }

  lemma Distribute(p: real, a: real, b: real)
    ensures p * (a + b) == p * a + p * b
  {
  }

  lemma Swap(p: real, u: real, w: real)
    ensures p * (u * w) == u * (p * w)
  {
  }

  // A delay is the value where that does not exceed the maximum, and then the next
  // call is a step further; otherwise it is the maximum, and the counter stays.
  lemma NextExact(s: Settings, steps: nat, u: real)
    ensures var (delay, k) := Next(s, steps, u);
            && (Value(s, steps, u) <= s.maximum ==> delay == Value(s, steps, u) && k == steps + 1)
            && (Value(s, steps, u) > s.maximum ==> delay == s.maximum && k == steps)
  {
  }

  lemma MulMonotone(p: real, a: real, b: real)
    requires p >= 0.0 && a <= b
    ensures p * a <= p * b && a * p <= b * p
  {
  }

  // Whatever the settings and the draws, no delay exceeds the maximum.
  lemma {:induction false} DelaysCapped(s: Settings, steps: nat, calls: seq<Call>)
    ensures forall i :: 0 <= i < |Calls(s, steps, calls).1| ==> Calls(s, steps, calls).1[i] <= s.maximum
    decreases |calls|
  {
    if calls != [] {
      match calls[0]
      case NextCall(u) => DelaysCapped(s, Next(s, steps, u).1, calls[1..]);
      case ResetCall => DelaysCapped(s, 0, calls[1..]);
    }
  }

  // The smallest value of this step is over the maximum.
  predicate TooLarge(s: Settings, k: nat) {
    Pow(s.base, k) * s.varianceMin + s.shift > s.maximum
  }

  // A step whose smallest value is over the maximum is never left: the counter
  // stays at or below any such k.
  lemma {:induction false} StepsBounded(s: Settings, steps: nat, calls: seq<Call>, k: nat)
    requires Jitter(s) && Drawn(calls)
    requires TooLarge(s, k) && steps <= k
    ensures Calls(s, steps, calls).0 <= k
    decreases |calls|
  {
    if calls != [] {
      match calls[0]
      case NextCall(u) =>
        assert calls[0] in calls;
        ValueRange(s, k, u);
        StepsBounded(s, Next(s, steps, u).1, calls[1..], k);
      case ResetCall =>
        StepsBounded(s, 0, calls[1..], k);
    }
  }

  // While the smallest value of every step fits, n smallest draws advance n steps.
  lemma {:induction false} SmallestDraws(s: Settings, steps: nat, n: nat) returns (calls: seq<Call>)
    requires forall k: nat :: !TooLarge(s, k)
    ensures Drawn(calls) && Calls(s, steps, calls).0 == steps + n
    decreases n
  {
    if n == 0 {
      calls := [];
    } else {
      var rest := SmallestDraws(s, steps + 1, n - 1);
      calls := [NextCall(0.0)] + rest;
      assert calls[1..] == rest;
      assert !TooLarge(s, steps);
      assert Value(s, steps, 0.0) == Pow(s.base, steps) * s.varianceMin + s.shift;
    }
  }

  ghost predicate StepsAtMost(s: Settings, b: nat) {
    forall calls: seq<Call> :: Drawn(calls) ==> Calls(s, 0, calls).0 <= b
  }

  // The counter has a bound exactly when some step's smallest value is over the maximum.
  lemma StepsBoundedExactly(s: Settings)
    requires Jitter(s)
    ensures (exists b: nat :: StepsAtMost(s, b)) <==> exists k: nat :: TooLarge(s, k)
  {
    if k: nat :| TooLarge(s, k) {
      forall calls: seq<Call> | Drawn(calls)
        ensures Calls(s, 0, calls).0 <= k
      {
        StepsBounded(s, 0, calls, k);
      }
      assert StepsAtMost(s, k);
    } else {
      forall b: nat
        ensures !StepsAtMost(s, b)
      {
        var calls := SmallestDraws(s, 0, b + 1);
      }
    }
  }

  lemma {:induction false} PowersOfTwo()
    ensures Pow(2.0, 0) == 1.0 && Pow(2.0, 1) == 2.0 && Pow(2.0, 2) == 4.0 && Pow(2.0, 3) == 8.0
    ensures Pow(2.0, 4) == 16.0 && Pow(2.0, 5) == 32.0 && Pow(2.0, 6) == 64.0 && Pow(2.0, 7) == 128.0
    ensures Pow(2.0, 8) == 256.0 && Pow(2.0, 9) == 512.0
  {
    var p3, p6 := Pow(2.0, 3), Pow(2.0, 6);
    assert Pow(2.0, 2) == 2.0 * Pow(2.0, 1);
    assert p3 == 2.0 * Pow(2.0, 2);
    assert Pow(2.0, 4) == 2.0 * p3;
    assert Pow(2.0, 5) == 2.0 * Pow(2.0, 4);
    assert p6 == 2.0 * Pow(2.0, 5);
    assert Pow(2.0, 7) == 2.0 * p6;
    assert Pow(2.0, 8) == 2.0 * Pow(2.0, 7);
    assert Pow(2.0, 9) == 2.0 * Pow(2.0, 8);
  }

  // With the defaults the first nine calls always advance, to a delay below 300 s.
  lemma DefaultStep(steps: nat, u: real)
    requires IsDraw(u)
    ensures steps < 9 ==> Next(DEFAULTS, steps, u) == (Value(DEFAULTS, steps, u), steps + 1)
    ensures steps < 9 ==> Pow(2.0, steps) * 0.9 <= Value(DEFAULTS, steps, u) <= Pow(2.0, steps) * 1.1 < 300.0
    ensures steps == 9 ==> Next(DEFAULTS, steps, u) == (300.0, 9)
  {
    ValueRange(DEFAULTS, steps, u);
    PowersOfTwo();
  }

  // With the defaults: nine strictly increasing delays below 300 s, then exactly
  // 300 s for ever, with the counter stuck at 9.
  lemma {:induction false} DefaultSchedule(steps: nat, us: seq<real>)
    requires steps <= 9 && forall u :: u in us ==> IsDraw(u)
    ensures var (last, ds) := Calls(DEFAULTS, steps, seq(|us|, i requires 0 <= i < |us| => NextCall(us[i])));
            && |ds| == |us|
            && last == (if steps + |us| <= 9 then steps + |us| else 9)
            && (forall i :: 0 <= i < |ds| ==> (ds[i] == 300.0 <==> steps + i >= 9))
            && (forall i :: 0 <= i < |ds| && steps + i < 9 ==> Pow(2.0, steps + i) * 0.9 <= ds[i] < 300.0)
            && (forall i :: 0 <= i < |ds| - 1 && steps + i < 9 ==> ds[i] < ds[i + 1])
    decreases |us|
  {
    var calls := seq(|us|, i requires 0 <= i < |us| => NextCall(us[i]));
    if us != [] {
      var rest := us[1..];
      var u := us[0];
      assert u in us;
      DefaultStep(steps, u);
      var k := Next(DEFAULTS, steps, u).1;
      DefaultSchedule(k, rest);
      assert calls[1..] == seq(|rest|, i requires 0 <= i < |rest| => NextCall(rest[i]));
      var (last, ds) := Calls(DEFAULTS, k, calls[1..]);
      var all := Calls(DEFAULTS, steps, calls).1;
      assert all == [Next(DEFAULTS, steps, u).0] + ds;
      if |ds| > 0 && steps < 9 {
        if steps < 8 {
          assert Pow(2.0, steps + 1) == 2.0 * Pow(2.0, steps);
          PowPositive(steps);
          assert Pow(2.0, k + 0) * 0.9 <= ds[0];
        }
      }
    }
  }

  lemma {:induction false} PowPositive(n: nat)
    ensures Pow(2.0, n) > 0.0
  {
    if n > 0 {
      PowPositive(n - 1);
    }
  }
}

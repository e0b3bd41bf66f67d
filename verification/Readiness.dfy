/** internal/container/readiness.go: the bounded, backing-off readiness probe. */
module Readiness {

  /** Durations and times are in nanoseconds. */
  datatype Policy = Policy(initial: int, multiplier: real, max: int, deadline: int)

  const DEFAULT := Policy(200_000_000, 1.5, 2_000_000_000, 60_000_000_000)

  /** What one turn of the loop meets: the context before the ping, the clock, the ping's answer, and the
      context after it. */
  datatype Turn = Turn(doneBefore: bool, now: int, pingOk: bool, doneAfter: bool)

  /** Running stands for a probe that has not returned within the given turns. */
  datatype Outcome = Running | Ready | TimedOut | Cancelled

  /** time.Duration of a float: truncation toward zero. */
  function Truncate(x: real): int {
    if x >= 0.0 then x.Floor else -((-x).Floor)
  }

  function Grown(p: Policy, interval: int): int {
    var next := Truncate(interval as real * p.multiplier);
    if next > p.max then p.max else next
  }

  /** The next interval is the whole part of the product, toward zero, and at most the maximum. */
  lemma {:induction false} GrownTruncates(p: Policy, interval: int, n: int)
    requires var y := interval as real * p.multiplier;
      if y >= 0.0 then n as real <= y < n as real + 1.0 else n as real - 1.0 < y <= n as real
    ensures Grown(p, interval) == if n > p.max then p.max else n
  {
    var y := interval as real * p.multiplier;
    if y >= 0.0 {
      assert y.Floor == n;
    } else {
      assert (-y).Floor == -n;
    }
  }

  /** The length of sleep number `k`. */
  function Interval(p: Policy, k: nat): int {
    if k == 0 then p.initial else Grown(p, Interval(p, k - 1))
  }

  /** The time slept before ping number `k`, counting from 0. */
  function Slept(p: Policy, k: nat): int {
    if k == 0 then 0 else Slept(p, k - 1) + Interval(p, k - 1)
  }

  method WaitReady(turns: seq<Turn>, p: Policy, start: int)
    returns (r: Outcome, attempts: nat, pings: seq<bool>, sleeps: seq<int>)
    ensures attempts == |pings| <= |turns| && |sleeps| <= attempts
    ensures forall k :: 0 <= k < attempts ==> pings[k] == turns[k].pingOk && turns[k].now <= start + p.deadline
    ensures forall k :: 0 <= k < attempts - 1 ==> !pings[k]
    ensures attempts > 0 ==> (r == Ready <==> pings[attempts - 1])
    ensures forall k :: 0 <= k < |sleeps| ==> sleeps[k] == Interval(p, k)
    ensures r == Running <==> |sleeps| == |turns|
    ensures r == TimedOut ==> attempts < |turns| && turns[attempts].now > start + p.deadline
    ensures attempts == 0 ==> r != Ready
    ensures forall k :: 0 <= k < attempts ==> !turns[k].doneBefore
    ensures forall k :: 0 <= k < |sleeps| ==> !turns[k].doneAfter
    ensures r == TimedOut ==> !turns[attempts].doneBefore
    ensures r == Cancelled ==>
      if |sleeps| == attempts then attempts < |turns| && turns[attempts].doneBefore
      else |sleeps| == attempts - 1 && turns[attempts - 1].doneAfter && !pings[attempts - 1]
  {
    hide Grown, Interval;
    var deadline := start + p.deadline;
    var interval := p.initial;
    FirstInterval(p);
    attempts, pings, sleeps := 0, [], [];
    for i := 0 to |turns|
      invariant attempts == |pings| == |sleeps| == i && interval == Interval(p, i)
      invariant forall k :: 0 <= k < i ==> pings[k] == turns[k].pingOk && !pings[k] && turns[k].now <= deadline
      invariant forall k :: 0 <= k < i ==> sleeps[k] == Interval(p, k) && !turns[k].doneBefore && !turns[k].doneAfter
    {
      var t := turns[i];
      if t.doneBefore {
        return Cancelled, attempts, pings, sleeps;
      }
      if t.now > deadline {
        return TimedOut, attempts, pings, sleeps;
      }
      attempts := attempts + 1;
      pings := pings + [t.pingOk];
      if t.pingOk {
        return Ready, attempts, pings, sleeps;
      }
      if t.doneAfter {
        return Cancelled, attempts, pings, sleeps;
      }
      sleeps := sleeps + [interval];
      interval := Grown(p, interval);
      NextInterval(p, i);
    }
    r := Running;
  }

  lemma {:induction false} FirstInterval(p: Policy)
    ensures Interval(p, 0) == p.initial
  {
  }

  lemma {:induction false} NextInterval(p: Policy, k: nat)
    ensures Interval(p, k + 1) == Grown(p, Interval(p, k))
  {
  }

  /** A policy that backs off: positive, and never shrinking. */
  ghost predicate BacksOff(p: Policy) {
    0 < p.initial <= p.max && p.multiplier >= 1.0
  }

  /** The intervals never shrink and never exceed the maximum. */
  lemma {:induction false} IntervalsGrow(p: Policy, k: nat)
    requires BacksOff(p)
    ensures p.initial <= Interval(p, k) <= Interval(p, k + 1) <= p.max
    decreases k
  {
    hide Grown;
    if k > 0 {
      IntervalsGrow(p, k - 1);
    }
    GrownBetween(p, Interval(p, k));
  }

  lemma {:induction false} GrownBetween(p: Policy, i: int)
    requires BacksOff(p) && 0 < i <= p.max
    ensures i <= Grown(p, i) <= p.max
  {
    var y := i as real * p.multiplier;
    TimesAtLeastOne(i as real, p.multiplier, y);
    assert y.Floor >= i;
  }

  lemma {:induction false} TimesAtLeastOne(x: real, m: real, y: real)
    requires x >= 0.0 && m >= 1.0 && y == x * m
    ensures y >= x
  {
    var rest := x * (m - 1.0);
    assert rest >= 0.0;
    assert y == x + rest;
  }

  /** Between two turns the clock advances by at least the sleep. */
  ghost predicate ClockAdvances(turns: seq<Turn>, p: Policy, start: int) {
    (|turns| > 0 ==> turns[0].now >= start) &&
    forall k :: 0 <= k < |turns| - 1 ==> turns[k + 1].now >= turns[k].now + Interval(p, k)
  }

  lemma {:induction false} ClockAfterSleeps(turns: seq<Turn>, p: Policy, start: int, k: nat)
    requires ClockAdvances(turns, p, start) && k < |turns|
    ensures turns[k].now >= start + Slept(p, k)
    decreases k
  {
    hide Interval;
    if k > 0 {
      ClockAfterSleeps(turns, p, start, k - 1);
      assert turns[k - 1 + 1].now >= turns[k - 1].now + Interval(p, k - 1);
    }
  }

  lemma {:induction false} SleptAtLeast(p: Policy, k: nat)
    requires BacksOff(p)
    ensures Slept(p, k) >= k * p.initial
    decreases k
  {
    hide Interval;
    if k > 0 {
      SleptAtLeast(p, k - 1);
      IntervalsGrow(p, k - 1);
    }
  }

  /** The number of turns that can ping before the deadline. */
  lemma {:induction false} TurnsBounded(turns: seq<Turn>, p: Policy, start: int, k: nat)
    requires BacksOff(p) && ClockAdvances(turns, p, start) && p.deadline >= 0
    requires k < |turns| && turns[k].now <= start + p.deadline
    ensures k + 1 <= p.deadline / p.initial + 1
  {
    hide Interval, Slept;
    ClockAfterSleeps(turns, p, start, k);
    SleptAtLeast(p, k);
    DivideBound(k, p.initial, p.deadline);
  }

  lemma {:induction false} DivideBound(k: nat, a: int, b: int)
    requires a > 0 && k * a <= b
    ensures k <= b / a
  {
    FactorsBounded(k, b / a, a, b);
  }

  lemma {:induction false} FactorsBounded(k: int, q: int, a: int, b: int)
    requires a > 0 && k * a <= b < q * a + a
    ensures k <= q
  {
    assert k >= q + 1 ==> (k - q - 1) * a >= 0;
  }

  // ----- The default policy -----

  lemma {:induction false} DefaultIntervals()
    ensures Interval(DEFAULT, 1) == 300_000_000 && Interval(DEFAULT, 2) == 450_000_000
    ensures Interval(DEFAULT, 3) == 675_000_000 && Interval(DEFAULT, 4) == 1_012_500_000
    ensures Interval(DEFAULT, 5) == 1_518_750_000 && Interval(DEFAULT, 6) == 2_000_000_000
  {
    assert Interval(DEFAULT, 0) == 200_000_000;
    assert Interval(DEFAULT, 1) == Grown(DEFAULT, 200_000_000) == 300_000_000;
    assert Interval(DEFAULT, 2) == Grown(DEFAULT, 300_000_000) == 450_000_000;
    assert Interval(DEFAULT, 3) == Grown(DEFAULT, 450_000_000) == 675_000_000;
    assert Interval(DEFAULT, 4) == Grown(DEFAULT, 675_000_000) == 1_012_500_000;
    assert Interval(DEFAULT, 5) == Grown(DEFAULT, 1_012_500_000) == 1_518_750_000;
    assert Interval(DEFAULT, 6) == Grown(DEFAULT, 1_518_750_000) == 2_000_000_000;
  }

  /** From the seventh sleep on, every sleep has the maximal length. */
  lemma {:induction false} DefaultSlept(k: nat)
    requires k >= 6
    ensures Interval(DEFAULT, k) == 2_000_000_000
    ensures Slept(DEFAULT, k) == 4_156_250_000 + (k - 6) * 2_000_000_000
    decreases k
  {
    DefaultIntervals();
    if k == 6 {
      assert Slept(DEFAULT, 3) == 950_000_000;
      assert Slept(DEFAULT, 5) == 2_637_500_000;
    } else {
      DefaultSlept(k - 1);
      assert Grown(DEFAULT, 2_000_000_000) == 2_000_000_000;
    }
  }

  /** Under the default policy a ping that is made before the deadline is at most the 34th, whatever the
      pings answer and however the clock runs beyond the sleeps. */
  lemma {:induction false} DefaultPingsBounded(turns: seq<Turn>, start: int, k: nat)
    requires ClockAdvances(turns, DEFAULT, start) && k < |turns| && turns[k].now <= start + DEFAULT.deadline
    ensures k + 1 <= 34
  {
    hide Interval, Slept;
    ClockAfterSleeps(turns, DEFAULT, start, k);
    if k >= 6 {
      DefaultSlept(k);
    }
  }

  /** The bound is reached: a clock that runs only while the probe sleeps lets the 34th ping through. */
  lemma {:induction false} DefaultBoundIsTight()
    ensures Slept(DEFAULT, 33) <= DEFAULT.deadline == 60_000_000_000 < Slept(DEFAULT, 34)
  {
    DefaultSlept(33);
    DefaultSlept(34);
  }

  /** The whole probe makes at most Deadline / InitialInterval + 1 pings, and returns within one more turn;
      under the default policy it makes at most 34. */
  method ProbeBounded(turns: seq<Turn>, p: Policy, start: int) returns (r: Outcome, attempts: nat)
    requires BacksOff(p) && ClockAdvances(turns, p, start) && p.deadline >= 0
    ensures attempts <= p.deadline / p.initial + 1
    ensures |turns| > p.deadline / p.initial + 1 ==> r != Running
    ensures p == DEFAULT ==> attempts <= 34
    ensures p == DEFAULT && |turns| > 34 ==> r != Running
  {
    hide Interval;
    var pings, sleeps;
    r, attempts, pings, sleeps := WaitReady(turns, p, start);
    if attempts > 0 {
      TurnsBounded(turns, p, start, attempts - 1);
      if p == DEFAULT {
        DefaultPingsBounded(turns, start, attempts - 1);
      }
    }
  }
}

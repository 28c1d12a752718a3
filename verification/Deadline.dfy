/**
  The per-call deadline, shared between the timeout and the guest sampler.

  A call is given its timeout in slices, one per sampling interval. The slices add up to the timeout
  exactly, whatever the interval, so sampling never moves the tick a call is interrupted at.
  */
module Deadlines {
  import opened Wrappers

  const U64_MAX := 0xFFFF_FFFF_FFFF_FFFF
  const TICK_NANOS := 1_000_000

  function Min(a: nat, b: nat): nat {
    if a <= b then a else b
  }

  function CeilDiv(a: nat, b: nat): nat
    requires 0 < b
  {
    (a + b - 1) / b
  }

  /** Whole ticks, rounded up, and never none. */
  function EpochTicks(nanos: nat): (ticks: nat)
    ensures 1 <= ticks <= 0xFFFF_FFFF_FFFF_FFFF
    ensures ticks < 0xFFFF_FFFF_FFFF_FFFF ==> nanos <= ticks * 1_000_000
    ensures 1 < ticks ==> (ticks - 1) * 1_000_000 < nanos
  {
    var ticks := Min(CeilDiv(nanos, TICK_NANOS), U64_MAX);
    if ticks < 1 then 1 else ticks
  }

  /** The budget of a call and the sampling interval, in ticks, and what has not been handed out yet. */
  datatype State = State(budget: Option<nat>, sample: Option<nat>, remaining: nat) {

    predicate IsArmed() {
      budget.Some? || sample.Some?
    }

    predicate Spent() {
      !IsArmed() || remaining == 0
    }

    function Step(): (step: nat)
      ensures step <= remaining
    {
      match sample
      case None => remaining
      case Some(s) => Min(s, remaining)
    }

    function Next(): (State, Option<nat>) {
      if Spent() then (this, None)
      else
        (if budget.Some? then this.(remaining := remaining - Step()) else this,
         Some(if Step() < 1 then 1 else Step()))
    }

    function Rearmed(): State {
      this.(remaining := match budget case Some(b) => b case None => U64_MAX)
    }
  }

  class Deadline {
    const budget: Option<nat>
    const sample: Option<nat>
    var remaining: nat

    constructor (budget: Option<nat>, sample: Option<nat>)
      ensures St() == State(budget, sample, 0)
    {
      this.budget, this.sample, remaining := budget, sample, 0;
    }

    function St(): State
      reads this
    {
      State(budget, sample, remaining)
    }

    /** The next slice, or none once the timeout is spent. */
    method Next() returns (slice: Option<nat>)
      modifies this
      ensures (St(), slice) == old(St()).Next()
    {
      if !(budget.Some? || sample.Some?) || remaining == 0 {
        return None;
      }
      var step := match sample case None => remaining case Some(s) => Min(s, remaining);
      if budget.Some? {
        remaining := remaining - step;
      }
      slice := Some(if step < 1 then 1 else step);
    }

    /** A new call: the first slice. */
    method Rearm() returns (slice: Option<nat>)
      modifies this
      ensures (St(), slice) == old(St()).Rearmed().Next()
    {
      remaining := match budget case Some(b) => b case None => U64_MAX;
      slice := Next();
    }
  }

  // ---------------------------------------------------------------------------------------------
  // All the slices of a call
  // ---------------------------------------------------------------------------------------------

  /** The first `n` answers, from here on. */
  function Slices(d: State, n: nat): (slices: seq<Option<nat>>)
    ensures |slices| == n
    decreases n
  {
    if n == 0 then []
    else
      var (next, slice) := d.Next();
      [slice] + Slices(next, n - 1)
  }

  function Sum(slices: seq<Option<nat>>): nat {
    if slices == [] then 0
    else (match slices[0] case Some(s) => s case None => 0) + Sum(slices[1..])
  }

  predicate AllNone(slices: seq<Option<nat>>, from: nat) {
    forall i | from <= i < |slices| :: slices[i] == None
  }

  lemma {:induction false} SpentStaysSpent(d: State, n: nat)
    requires d.Spent()
    ensures AllNone(Slices(d, n), 0) && Sum(Slices(d, n)) == 0
    decreases n
  {
    if n > 0 {
      SpentStaysSpent(d, n - 1);
      var rest := Slices(d, n - 1);
      assert Slices(d, n)[1..] == rest;
      forall i | 0 <= i < n ensures Slices(d, n)[i] == None {
        assert i > 0 ==> Slices(d, n)[i] == rest[i - 1];
      }
    }
  }

  lemma {:induction false} CeilStep(a: nat, b: nat)
    requires 0 < b && 0 < a
    ensures a <= b ==> CeilDiv(a, b) == 1
    ensures b < a ==> CeilDiv(a, b) == CeilDiv(a - b, b) + 1
  {
    if a <= b {
      assert (a + b - 1) / b == 1 by {
        DivideOne(a + b - 1, b);
      }
    } else {
      assert a + b - 1 == (a - b + b - 1) + b;
      DivideMore(a - b + b - 1, b);
    }
  }

  lemma {:induction false} DivideOne(n: nat, b: nat)
    requires 0 < b <= n < 2 * b
    ensures n / b == 1
  {
  }

  lemma {:induction false} DivideMore(n: nat, b: nat)
    requires 0 < b
    ensures (n + b) / b == n / b + 1
  {
    var q, p := n / b, (n + b) / b;
    assert q * b <= n < q * b + b && p * b <= n + b < p * b + b;
    Between(p, q + 1, b);
    Between(q + 1, p, b);
  }

  lemma {:induction false} Between(p: int, q: int, b: nat)
    requires 0 < b && p * b < q * b + b
    ensures p <= q
  {
    Scaled(q + 1, p, b);
  }

  lemma {:induction false} Scaled(p: int, q: int, b: nat)
    ensures p <= q ==> p * b <= q * b
  {
  }

  /** From `remaining` ticks on: full slices, then the rest, then nothing, for as long as anyone asks. */
  lemma {:induction false} SlicesSum(d: State, n: nat)
    requires d.budget.Some? && d.sample.Some? && 1 <= d.sample.value
    requires CeilDiv(d.remaining, d.sample.value) <= n
    ensures var s, k := d.sample.value, CeilDiv(d.remaining, d.sample.value);
            var slices := Slices(d, n);
            && Sum(slices) == d.remaining
            && (forall i | 0 <= i < k :: slices[i].Some? && 1 <= slices[i].value <= s)
            && (forall i | 0 <= i < k - 1 :: slices[i] == Some(s))
            && AllNone(slices, k)
    decreases d.remaining
  {
    var s := d.sample.value;
    if d.remaining == 0 {
      SpentStaysSpent(d, n);
      DivideNone(s);
    } else {
      CeilStep(d.remaining, s);
      var (next, slice) := d.Next();
      if d.remaining <= s {
        DivideNone(s);
      }
      SlicesSum(next, n - 1);
      var slices, rest := Slices(d, n), Slices(next, n - 1);
      assert slices[0] == slice && slices[1..] == rest;
      assert forall i | 1 <= i < n :: slices[i] == rest[i - 1];
    }
  }

  lemma {:induction false} DivideNone(b: nat)
    requires 0 < b
    ensures CeilDiv(0, b) == 0
  {
    assert (b - 1) / b == 0;
  }

  /**
    A call with a timeout of `budget` ticks, sampled every `interval`: the deadline hands out exactly
    ceil(budget / interval) slices, none longer than the interval, adding up to the budget, and then
    stops. Without sampling there is one slice, the whole budget.
    */
  lemma {:induction false} SamplingDoesNotMoveTheInterrupt(budget: nat, interval: Option<nat>, left: nat, n: nat)
    requires 1 <= budget && (interval.Some? ==> 1 <= interval.value)
    requires (if interval.Some? then CeilDiv(budget, interval.value) else 1) <= n
    ensures var slices := Slices(State(Some(budget), interval, left).Rearmed(), n);
            var k := if interval.Some? then CeilDiv(budget, interval.value) else 1;
            && Sum(slices) == budget
            && (forall i | 0 <= i < k :: slices[i].Some? && (interval.Some? ==> slices[i].value <= interval.value))
            && AllNone(slices, k)
  {
    var d := State(Some(budget), interval, left).Rearmed();
    if interval.Some? {
      SlicesSum(d, n);
    } else {
      var (next, slice) := d.Next();
      SpentStaysSpent(next, n - 1);
      var slices, rest := Slices(d, n), Slices(next, n - 1);
      assert slices[0] == slice == Some(budget) && slices[1..] == rest;
      assert forall i | 1 <= i < n :: slices[i] == rest[i - 1];
    }
  }

  /** A manifest's interval in ticks. */
  function IntervalTicks(nanos: Option<nat>): (ticks: Option<nat>)
    ensures ticks.Some? <==> nanos.Some?
    ensures ticks.Some? ==> 1 <= ticks.value
  {
    match nanos
    case Some(nanos) => Some(EpochTicks(nanos))
    case None => None
  }

  /** The intervals and timeouts a manifest can ask for are of at least one tick, so that always holds. */
  lemma {:induction false} ManifestTimeouts(timeoutNanos: nat, intervalNanos: Option<nat>, left: nat, n: nat)
    requires EpochTicks(timeoutNanos) <= n
    ensures var budget, interval := EpochTicks(timeoutNanos), IntervalTicks(intervalNanos);
            var slices := Slices(State(Some(budget), interval, left).Rearmed(), n);
            var k := if interval.Some? then CeilDiv(budget, interval.value) else 1;
            && k <= budget && Sum(slices) == budget
            && (forall i | 0 <= i < k :: slices[i].Some? && (interval.Some? ==> slices[i].value <= interval.value))
            && AllNone(slices, k)
    ensures EpochTicks(timeoutNanos) < U64_MAX ==>
              var nanos := EpochTicks(timeoutNanos) * TICK_NANOS;
              timeoutNanos <= nanos && (TICK_NANOS < nanos ==> nanos < timeoutNanos + TICK_NANOS)
  {
    var interval := IntervalTicks(intervalNanos);
    if interval.Some? {
      FewerThanTicks(EpochTicks(timeoutNanos), interval.value);
    }
    SamplingDoesNotMoveTheInterrupt(EpochTicks(timeoutNanos), interval, left, n);
  }

  lemma {:induction false} FewerThanTicks(a: nat, b: nat)
    requires 0 < b
    ensures CeilDiv(a, b) <= a
  {
    if a == 0 {
      DivideNone(b);
    } else {
      CeilStep(a, b);
      if b < a {
        FewerThanTicks(a - b, b);
      }
    }
  }

  /** Without a timeout sampling goes on for ever, an interval at a time. */
  lemma {:induction false} NoTimeoutNeverStops(interval: nat, left: nat, n: nat)
    requires 1 <= interval <= U64_MAX
    ensures var slices := Slices(State(None, Some(interval), left).Rearmed(), n);
            forall i | 0 <= i < n :: slices[i] == Some(interval)
  {
    Forever(State(None, Some(interval), left).Rearmed(), Some(interval), n);
  }

  lemma {:induction false} Forever(d: State, slice: Option<nat>, n: nat)
    requires d.Next() == (d, slice)
    ensures forall i | 0 <= i < n :: Slices(d, n)[i] == slice
  {
    if n > 0 {
      Forever(d, slice, n - 1);
      var slices, rest := Slices(d, n), Slices(d, n - 1);
      assert slices[0] == slice && slices[1..] == rest;
      assert forall i | 1 <= i < n :: slices[i] == rest[i - 1];
    }
  }

  /** The one tick matters: an interval of none would draw nothing down, and no timeout would ever come. */
  lemma {:induction false} NoIntervalNeverStops(budget: nat, left: nat, n: nat)
    requires 1 <= budget
    ensures var slices := Slices(State(Some(budget), Some(0), left).Rearmed(), n);
            forall i | 0 <= i < n :: slices[i] == Some(1)
  {
    Forever(State(Some(budget), Some(0), left).Rearmed(), Some(1), n);
  }
}

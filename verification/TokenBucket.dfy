/** The rate limiter, in exact arithmetic: tokens are reals, time is a nanosecond count. */
module TokenBucket {
  import opened Prelude

  const NANOS: nat := 1_000_000_000

  datatype Bucket = Bucket(rate: nat, capacity: real, tokens: real, last: Option<nat>)

  function NewBucket(rate: nat, burst: nat): Bucket
  {
    var capacity := (if burst > rate then burst else rate) as real;
    Bucket(rate, capacity, capacity, None)
  }

  ghost predicate Ok(b: Bucket)
  {
    b.rate > 0 && 0.0 <= b.tokens <= b.capacity
  }

  /** What accrues in `dt` nanoseconds. */
  function Gain(rate: nat, dt: nat): real
  {
    (dt as real / NANOS as real) * rate as real
  }

  function Min(a: real, b: real): real
  {
    if a <= b then a else b
  }

  /** Time running backwards accrues nothing. */
  function Elapsed(prev: nat, now: nat): nat
  {
    if now > prev then now - prev else 0
  }

  function Refilled(b: Bucket, now: nat): real
  {
    match b.last
    case None => b.capacity
    case Some(prev) => Min(b.tokens + Gain(b.rate, Elapsed(prev, now)), b.capacity)
  }

  /** Whether a cost is granted; one beyond the capacity is refused without touching the bucket. */
  function Grants(b: Bucket, now: nat, cost: nat): bool
  {
    b.rate == 0 || (cost as real <= b.capacity && Refilled(b, now) >= cost as real)
  }

  function After(b: Bucket, now: nat, cost: nat): Bucket
  {
    if b.rate == 0 || cost as real > b.capacity then b
    else
      var tokens := Refilled(b, now);
      b.(last := Some(now), tokens := if tokens >= cost as real then tokens - cost as real else tokens)
  }

  function Ceil(x: real): int
  {
    -((-x).Floor)
  }

  /** Whole seconds until a cost is payable, at least 1 when it is not payable now. */
  function RetryAfter(b: Bucket, now: nat, cost: nat): nat
  {
    var deficit := cost as real - Refilled(b, now);
    if b.rate == 0 || deficit <= 0.0 then 0
    else
      var secs := Ceil(deficit / b.rate as real);
      if secs > 1 then secs else 1
  }

  const U32_MAX: nat := 0xFFFF_FFFF

  /** Whole tokens left; an unlimited bucket reports the largest count. */
  function Remaining(b: Bucket, now: nat): int
  {
    if b.rate == 0 then U32_MAX else Refilled(b, now).Floor
  }

  class TokenBucket {
    const rate: nat
    const capacity: real
    var tokens: real
    var last: Option<nat>

    ghost function View(): Bucket
      reads this
    {
      Bucket(rate, capacity, tokens, last)
    }

    constructor (ratePerSecond: nat, burst: nat)
      ensures View() == NewBucket(ratePerSecond, burst)
      ensures rate == ratePerSecond && tokens == capacity && last.None?
      ensures capacity >= burst as real && capacity >= ratePerSecond as real
      ensures capacity == burst as real || capacity == ratePerSecond as real
    {
      rate := ratePerSecond;
      capacity := (if burst > ratePerSecond then burst else ratePerSecond) as real;
      tokens := (if burst > ratePerSecond then burst else ratePerSecond) as real;
      last := None;
    }

    method Take(now: nat, cost: nat) returns (granted: bool)
      modifies this
      ensures granted == Grants(old(View()), now, cost)
      ensures View() == After(old(View()), now, cost)
      ensures rate == 0 ==> granted
      ensures rate > 0 && cost as real > capacity ==> !granted
      ensures rate == 0 || cost as real > capacity ==> View() == old(View())
      ensures rate > 0 && cost as real <= capacity ==>
                var level := Refilled(old(View()), now);
                && (granted <==> level >= cost as real)
                && last == Some(now) && tokens == (if granted then level - cost as real else level)
    {
      if rate == 0 {
        return true;
      }
      if cost as real > capacity {
        return false;
      }
      var full := Refilled(Bucket(rate, capacity, tokens, last), now);
      last := Some(now);
      if full >= cost as real {
        tokens := full - cost as real;
        granted := true;
      } else {
        tokens := full;
        granted := false;
      }
    }
  }

  // ---------- the window bound ----------

  datatype Call = Call(now: nat, cost: nat)

  ghost function Run(b: Bucket, calls: seq<Call>): Bucket
  {
    if calls == [] then b
    else
      var c := calls[|calls| - 1];
      After(Run(b, calls[..|calls| - 1]), c.now, c.cost)
  }

  /** The total cost granted by a run of calls. */
  ghost function Granted(b: Bucket, calls: seq<Call>): nat
  {
    if calls == [] then 0
    else
      var init, c := calls[..|calls| - 1], calls[|calls| - 1];
      Granted(b, init) + (if Grants(Run(b, init), c.now, c.cost) then c.cost else 0)
  }

  /** Only a call whose cost is within capacity moves the bucket. */
  predicate Within(capacity: real, c: Call)
  {
    c.cost as real <= capacity
  }

  /** The timestamp of the first call within capacity. */
  ghost function Earliest(capacity: real, calls: seq<Call>): Option<nat>
  {
    if calls == [] then None
    else
      var init, c := calls[..|calls| - 1], calls[|calls| - 1];
      if Earliest(capacity, init).Some? then Earliest(capacity, init)
      else if Within(capacity, c) then Some(c.now) else None
  }

  /** The timestamp of the last call within capacity. */
  ghost function Latest(capacity: real, calls: seq<Call>): Option<nat>
  {
    if calls == [] then None
    else
      var init, c := calls[..|calls| - 1], calls[|calls| - 1];
      if Within(capacity, c) then Some(c.now) else Latest(capacity, init)
  }

  /** The forward steps of the clock from each call within capacity to the next; steps back count nothing. */
  ghost function Ticks(capacity: real, calls: seq<Call>): nat
  {
    if calls == [] then 0
    else
      var init, c := calls[..|calls| - 1], calls[|calls| - 1];
      Ticks(capacity, init) +
      (if Within(capacity, c) && Latest(capacity, init).Some? then Elapsed(Latest(capacity, init).value, c.now) else 0)
  }

  lemma GainAdd(rate: nat, x: nat, y: nat)
    ensures Gain(rate, x + y) == Gain(rate, x) + Gain(rate, y)
    ensures Gain(rate, x) >= 0.0
  {
    var n, r := NANOS as real, rate as real;
    assert (x + y) as real / n == x as real / n + y as real / n;
    GainScale(x as real / n, y as real / n, r);
  }

  lemma GainScale(p: real, q: real, r: real)
    requires p >= 0.0 && r >= 0.0
    ensures (p + q) * r == p * r + q * r && p * r >= 0.0
  {
  }

  lemma AfterOk(b: Bucket, now: nat, cost: nat)
    requires Ok(b)
    ensures Ok(After(b, now, cost)) && After(b, now, cost).capacity == b.capacity && After(b, now, cost).rate == b.rate
    ensures 0.0 <= Refilled(b, now) <= b.capacity
  {
    if b.last.Some? {
      GainAdd(b.rate, Elapsed(b.last.value, now), 0);
    }
  }

  lemma GainZero(rate: nat)
    ensures Gain(rate, 0) == 0.0
  {
  }

  /** A call within capacity takes what it grants out of the refilled level. */
  lemma TakeLevel(b: Bucket, c: Call)
    requires Ok(b) && Within(b.capacity, c)
    ensures var next := After(b, c.now, c.cost);
            && next.last == Some(c.now)
            && next.tokens + (if Grants(b, c.now, c.cost) then c.cost as real else 0.0) == Refilled(b, c.now)
  {
  }

  /**
   For any timestamps, forward or back: the level left plus the cost granted is at most the
   level at the first call within capacity plus what accrues over the clock's forward steps.
   */
  lemma {:induction false} AnyClockLevel(b: Bucket, calls: seq<Call>)
    requires Ok(b)
    ensures var r := Run(b, calls);
            && Ok(r) && r.rate == b.rate && r.capacity == b.capacity
            && (Earliest(b.capacity, calls).Some? <==> Latest(b.capacity, calls).Some?)
            && (Latest(b.capacity, calls).None? ==> r == b && Granted(b, calls) == 0)
            && (Latest(b.capacity, calls).Some? ==>
                  && r.last == Latest(b.capacity, calls)
                  && r.tokens + Granted(b, calls) as real
                     <= Refilled(b, Earliest(b.capacity, calls).value) + Gain(b.rate, Ticks(b.capacity, calls)))
  {
    if calls != [] {
      var init, c := calls[..|calls| - 1], calls[|calls| - 1];
      AnyClockLevel(b, init);
      var mid := Run(b, init);
      AfterOk(mid, c.now, c.cost);
      if Within(b.capacity, c) {
        TakeLevel(mid, c);
        if mid.last.Some? && Latest(b.capacity, init).Some? {
          GainAdd(b.rate, Ticks(b.capacity, init), Elapsed(mid.last.value, c.now));
        } else {
          GainZero(b.rate);
        }
      }
    }
  }

  /** After any history, the cost granted by any calls is at most the capacity plus what their forward steps accrue. */
  lemma AnyClockBound(b: Bucket, before: seq<Call>, calls: seq<Call>)
    requires Ok(b)
    ensures Granted(Run(b, before), calls) as real <= b.capacity + Gain(b.rate, Ticks(b.capacity, calls))
  {
    AnyClockLevel(b, before);
    var mid := Run(b, before);
    AnyClockLevel(mid, calls);
    GainAdd(b.rate, Ticks(b.capacity, calls), 0);
    if Earliest(b.capacity, calls).Some? {
      AfterOk(mid, Earliest(b.capacity, calls).value, 0);
    }
  }

  ghost predicate Ascending(calls: seq<Call>)
  {
    forall i, j :: 0 <= i <= j < |calls| ==> calls[i].now <= calls[j].now
  }

  /** With timestamps that never go back, the forward steps fit between the first call and the last. */
  lemma {:induction false} TicksAscending(capacity: real, calls: seq<Call>)
    requires Ascending(calls) && calls != []
    ensures var last := Latest(capacity, calls);
            && (last.Some? ==> calls[0].now <= last.value <= calls[|calls| - 1].now
                               && Ticks(capacity, calls) <= last.value - calls[0].now)
            && (last.None? ==> Ticks(capacity, calls) == 0)
  {
    var init, c := calls[..|calls| - 1], calls[|calls| - 1];
    if init != [] {
      TicksAscending(capacity, init);
      assert init[|init| - 1].now <= c.now;
    }
  }

  lemma TicksFit(capacity: real, calls: seq<Call>)
    requires Ascending(calls) && calls != []
    ensures Ticks(capacity, calls) <= Elapsed(calls[0].now, calls[|calls| - 1].now)
  {
    TicksAscending(capacity, calls);
  }

  lemma GainMonotone(rate: nat, x: nat, y: nat)
    requires x <= y
    ensures Gain(rate, x) <= Gain(rate, y)
  {
    GainAdd(rate, x, y - x);
    GainAdd(rate, y - x, 0);
  }

  /**
   The window bound: after any history, the cost granted by the calls of a window whose
   timestamps never go back is at most the capacity plus what accrues between its first and last call.
   */
  lemma WindowBound(b: Bucket, before: seq<Call>, window: seq<Call>)
    requires Ok(b) && Ascending(window) && window != []
    ensures Granted(Run(b, before), window) as real
            <= b.capacity + Gain(b.rate, Elapsed(window[0].now, window[|window| - 1].now))
  {
    AnyClockBound(b, before, window);
    TicksFit(b.capacity, window);
    GainMonotone(b.rate, Ticks(b.capacity, window), Elapsed(window[0].now, window[|window| - 1].now));
  }

  // ---------- the reported wait ----------

  lemma CeilBounds(x: real)
    ensures Ceil(x) as real >= x && (Ceil(x) - 1) as real < x
  {
  }

  lemma WholeSeconds(rate: nat, secs: nat)
    ensures Gain(rate, secs * NANOS) == secs as real * rate as real
  {
    assert (secs * NANOS) as real / NANOS as real == secs as real;
  }

  lemma DivBack(d: real, r: real, k: real)
    requires r > 0.0
    ensures k >= d / r <==> k * r >= d
  {
    assert d == (d / r) * r;
    if k >= d / r {
      assert (k - d / r) * r >= 0.0;
      assert k * r - (d / r) * r >= 0.0;
    } else {
      assert (d / r - k) * r > 0.0;
    }
  }

  /** Whole seconds after the last call, a cost short of tokens is payable exactly once they cover the shortfall. */
  lemma PayableAfter(b: Bucket, now: nat, cost: nat, secs: nat)
    requires Ok(b) && b.last == Some(now) && b.tokens < cost as real <= b.capacity
    ensures Grants(b, now + secs * NANOS, cost) <==> secs as real >= (cost as real - b.tokens) / b.rate as real
  {
    WholeSeconds(b.rate, secs);
    DivBack(cost as real - b.tokens, b.rate as real, secs as real);
    assert Elapsed(now, now + secs * NANOS) == secs * NANOS;
  }

  /** A refusal within capacity leaves a bucket stamped now and short of the cost. */
  lemma Refused(b: Bucket, now: nat, cost: nat)
    requires Ok(b) && cost as real <= b.capacity && !Grants(b, now, cost)
    ensures var r := After(b, now, cost);
            && Ok(r) && r.last == Some(now) && r.tokens < cost as real <= r.capacity
            && Refilled(r, now) == r.tokens && r.rate == b.rate
  {
    AfterOk(b, now, cost);
    GainZero(b.rate);
  }

  /**
   After a refusal of a cost within capacity, waiting the reported seconds makes
   it payable; waiting one second less does not, whenever the report is 2 or more.
   */
  lemma RetryExact(b: Bucket, now: nat, cost: nat)
    requires Ok(b) && cost as real <= b.capacity && !Grants(b, now, cost)
    ensures var r := After(b, now, cost);
            var wait := RetryAfter(r, now, cost);
            && wait >= 1
            && Grants(r, now + wait * NANOS, cost)
            && (wait >= 2 ==> !Grants(r, now + (wait - 1) * NANOS, cost))
  {
    Refused(b, now, cost);
    var r := After(b, now, cost);
    var wait := RetryAfter(r, now, cost);
    CeilBounds((cost as real - r.tokens) / r.rate as real);
    PayableAfter(r, now, cost, wait);
    PayableAfter(r, now, cost, wait - 1);
  }

  /** A new bucket is full at the larger of burst and rate, and grants any first cost up to that. */
  lemma NewBucketGrants(rate: nat, burst: nat, now: nat, cost: nat)
    requires rate > 0
    ensures Grants(NewBucket(rate, burst), now, cost) <==> cost <= burst || cost <= rate
    ensures RetryAfter(NewBucket(rate, burst), now, cost) == 0 <==> cost <= burst || cost <= rate
  {
    var b := NewBucket(rate, burst);
    if cost as real > b.capacity {
      CeilBounds((cost as real - b.capacity) / rate as real);
    }
  }

  /** The level is what was left plus rate per second since, never more than the capacity and never less for waiting. */
  lemma RefilledExact(b: Bucket, prev: nat, now: nat)
    requires Ok(b) && b.last == Some(prev)
    ensures now <= prev ==> Refilled(b, now) == b.tokens
    ensures now > prev ==>
              var accrued := (now - prev) as real * b.rate as real / NANOS as real;
              Refilled(b, now) == if b.tokens + accrued <= b.capacity then b.tokens + accrued else b.capacity
  {
    GainZero(b.rate);
    if now > prev {
      GainIs(b.rate, now - prev);
    }
  }

  lemma GainIs(rate: nat, dt: nat)
    ensures Gain(rate, dt) == dt as real * rate as real / NANOS as real
  {
    ScaleBack(dt as real, rate as real, NANOS as real);
  }

  lemma ScaleBack(x: real, r: real, n: real)
    requires n > 0.0
    ensures (x / n) * r == x * r / n
  {
    assert ((x / n) * r) * n == ((x / n) * n) * r;
  }

  /** The reported remainder is exact: a cost is granted if and only if it is at most that. */
  lemma RemainingExact(b: Bucket, now: nat, cost: nat)
    requires 0.0 <= b.tokens <= b.capacity && cost <= U32_MAX
    ensures Grants(b, now, cost) <==> cost <= Remaining(b, now)
    ensures b.rate > 0 ==> 0.0 <= Remaining(b, now) as real <= b.capacity
  {
    if b.rate > 0 {
      AfterOk(b, now, cost);
      FloorExact(Refilled(b, now), cost);
    }
  }

  lemma FloorExact(x: real, n: nat)
    ensures x >= n as real <==> n <= x.Floor
  {
  }

  /** Timestamps that go back break the bound: the same second is refilled twice. */
  lemma BackwardsClockRefills()
    ensures var b := NewBucket(1, 1);
            var calls := [Call(NANOS, 1), Call(0, 1), Call(NANOS, 1)];
            Granted(b, calls) == 2 && b.capacity + Gain(b.rate, calls[2].now - calls[0].now) == 1.0
  {
    var b := NewBucket(1, 1);
    var calls := [Call(NANOS, 1), Call(0, 1), Call(NANOS, 1)];
    var one, two := [Call(NANOS, 1)], [Call(NANOS, 1), Call(0, 1)];
    assert calls[..2] == two && two[..1] == one && one[..0] == [];
    WholeSeconds(1, 1);
    GainZero(1);
    assert Run(b, one) == Bucket(1, 1.0, 0.0, Some(NANOS)) && Granted(b, one) == 1;
    assert Run(b, two) == Bucket(1, 1.0, 0.0, Some(0)) && Granted(b, two) == 1;
  }
}

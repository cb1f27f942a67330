/** The request rate limiter: a token bucket several tasks draw from, one at a time under a lock. */
module TokenBuckets {

  const MIN_RATE := 0.1
  const MIN_WAIT := 0.001

  function Min(a: real, b: real): real { if a <= b then a else b }

  function Max(a: real, b: real): real { if a >= b then a else b }

  /** What a rate lets in between two times. */
  function Flow(t0: real, t1: real, rate: real): real { (t1 - t0) * rate }

  /** The bucket's two constants and its state at the last time anyone tried it. */
  datatype Bucket = Bucket(tokens: real, last: real, capacity: real, rate: real) {

    ghost predicate Valid() {
      0.0 <= tokens <= capacity && 1.0 <= capacity && 0.0 < rate
    }

    /** Tokens present at `now`; a clock that stands still or runs back adds none. */
    function Refilled(now: real): real {
      Min(tokens + Max(now - last, 0.0) * rate, capacity)
    }

    predicate Grants(now: real) { Refilled(now) >= 1.0 }

    function Tried(now: real): Bucket {
      Bucket(if Grants(now) then Refilled(now) - 1.0 else Refilled(now), now, capacity, rate)
    }

    /** What has flowed in by time `t` since the last try, capacity aside. */
    function Inflow(t: real): real { Flow(last, t, rate) }

    /** The most that may be handed out between two times. */
    function Allowance(t0: real, t1: real): real { capacity + Flow(t0, t1, rate) }

    /** How long a caller who got nothing sleeps. */
    function Wait(now: real): real
      requires 0.0 < rate
    {
      Max((1.0 - Refilled(now)) / rate, MIN_WAIT)
    }
  }

  function NewBucket(ratePerSec: real, now: real): (b: Bucket)
    ensures b.Valid() && b.tokens == b.capacity
  {
    var rate := Max(ratePerSec, MIN_RATE);
    Bucket(Max(rate, 1.0), now, Max(rate, 1.0), rate)
  }

  /** The bucket after callers, whoever they are, tried it at these times. */
  function After(b: Bucket, times: seq<real>): Bucket {
    if times == [] then b else After(b, times[..|times| - 1]).Tried(times[|times| - 1])
  }

  /** How many of those tries got a token. */
  function Granted(b: Bucket, times: seq<real>): nat {
    if times == [] then 0
    else Granted(b, times[..|times| - 1])
         + if After(b, times[..|times| - 1]).Grants(times[|times| - 1]) then 1 else 0
  }

  ghost predicate Monotone(times: seq<real>) {
    forall i, j | 0 <= i < j < |times| :: times[i] <= times[j]
  }

  lemma TriedValid(b: Bucket, now: real)
    requires b.Valid()
    ensures b.Tried(now).Valid()
    ensures b.Tried(now).rate == b.rate && b.Tried(now).capacity == b.capacity
    ensures b.last <= now ==> b.Tried(now).tokens + (if b.Grants(now) then 1.0 else 0.0)
                              <= b.tokens + b.Inflow(now)
  {
    assert Max(now - b.last, 0.0) * b.rate >= 0.0;
  }

  /** What flows in over two stretches of time is what flows in over both. */
  lemma FlowAdds(b: Bucket, mid: Bucket, t: real)
    requires mid.rate == b.rate
    ensures b.Inflow(mid.last) + mid.Inflow(t) == b.Inflow(t)
  {
  }

  lemma FlowGrows(a: real, b: real, rate: real)
    requires a <= b && 0.0 < rate
    ensures a * rate <= b * rate
  {
  }

  /** One try keeps the account: granted so far, plus left, within what was there plus inflow. */
  lemma TryWithin(b: Bucket, mid: Bucket, granted: nat, now: real)
    requires mid.Valid() && mid.rate == b.rate && mid.capacity == b.capacity && mid.last <= now
    requires granted as real + mid.tokens <= b.tokens + b.Inflow(mid.last)
    ensures var n := granted + if mid.Grants(now) then 1 else 0;
            n as real + mid.Tried(now).tokens <= b.tokens + b.Inflow(now)
  {
    TriedValid(mid, now);
    FlowAdds(b, mid, now);
  }

  /** Tokens handed out plus tokens left never exceed tokens at the start plus what flowed in. */
  lemma {:induction false} Budget(b: Bucket, times: seq<real>)
    requires b.Valid() && Monotone(times) && (times != [] ==> b.last <= times[0])
    ensures var a := After(b, times);
            && a.Valid() && a.rate == b.rate && a.capacity == b.capacity
            && a.last == (if times == [] then b.last else times[|times| - 1])
    ensures Granted(b, times) as real + After(b, times).tokens
            <= b.tokens + b.Inflow(After(b, times).last)
  {
    if times != [] {
      var before := times[..|times| - 1];
      Budget(b, before);
      var mid := After(b, before);
      TriedValid(mid, times[|times| - 1]);
      TryWithin(b, mid, Granted(b, before), times[|times| - 1]);
    }
  }

  lemma {:induction false} AfterAppend(b: Bucket, xs: seq<real>, ys: seq<real>)
    ensures After(b, xs + ys) == After(After(b, xs), ys)
    ensures Granted(b, xs + ys) == Granted(b, xs) + Granted(After(b, xs), ys)
  {
    if ys == [] {
      assert xs + ys == xs;
    } else {
      AfterAppend(b, xs, ys[..|ys| - 1]);
      assert (xs + ys)[..|xs + ys| - 1] == xs + ys[..|ys| - 1];
    }
  }

  lemma AllowanceCovers(full: Bucket, b: Bucket, t: real)
    requires full.tokens <= b.capacity && full.rate == b.rate
    ensures full.tokens + full.Inflow(t) <= b.Allowance(full.last, t)
  {
  }

  /** From a bucket tried at these times: at most the allowance of the interval they span. */
  lemma GrantedWithin(b: Bucket, times: seq<real>)
    requires b.Valid() && Monotone(times) && times != []
    ensures Granted(b, times) as real <= b.Allowance(times[0], times[|times| - 1])
  {
    var start, end := times[0], times[|times| - 1];
    var full := Bucket(b.Refilled(start), start, b.capacity, b.rate);
    RefillFirst(b, times);
    Budget(full, times);
    AllowanceCovers(full, b, end);
    assert full.Inflow(After(full, times).last) == full.Inflow(end);
  }

  /** Tries `i` to `j` are a run of their own from where the ones before left the bucket. */
  lemma Windowed(b: Bucket, times: seq<real>, i: nat, j: nat)
    requires i <= j < |times|
    ensures Granted(b, times[..j + 1]) == Granted(b, times[..i]) + Granted(After(b, times[..i]), times[i..j + 1])
  {
    assert times[..j + 1] == times[..i] + times[i..j + 1];
    AfterAppend(b, times[..i], times[i..j + 1]);
  }

  lemma WindowMonotone(times: seq<real>, i: nat, j: nat)
    requires Monotone(times) && i <= j < |times|
    ensures Monotone(times[..i]) && Monotone(times[i..j + 1])
  {
  }

  /** The rate bound: of any run of tries, those made from time `times[i]` to time `times[j]` get at
      most the capacity plus the rate times that interval. */
  lemma RateBound(b: Bucket, times: seq<real>, i: nat, j: nat)
    requires b.Valid() && Monotone(times) && (times != [] ==> b.last <= times[0]) && i <= j < |times|
    ensures 0.0 <= After(b, times[..i]).tokens <= b.capacity
    ensures (Granted(b, times[..j + 1]) - Granted(b, times[..i])) as real <= b.Allowance(times[i], times[j])
  {
    var window := times[i..j + 1];
    WindowMonotone(times, i, j);
    Budget(b, times[..i]);
    Windowed(b, times, i, j);
    WindowWithin(b, After(b, times[..i]), window, Granted(After(b, times[..i]), window));
    assert window[0] == times[i] && window[|window| - 1] == times[j];
  }

  /** That is the capacity plus the rate times the interval. */
  lemma AllowanceIs(b: Bucket, t0: real, t1: real)
    ensures b.Allowance(t0, t1) == b.capacity + (t1 - t0) * b.rate
  {
  }

  lemma WindowWithin(b: Bucket, here: Bucket, window: seq<real>, n: nat)
    requires here.Valid() && here.capacity == b.capacity && here.rate == b.rate
    requires Monotone(window) && window != [] && n == Granted(here, window)
    ensures n as real <= b.Allowance(window[0], window[|window| - 1])
  {
    GrantedWithin(here, window);
  }

  /** Refilling before the first try changes nothing. */
  lemma {:induction false} RefillFirst(b: Bucket, times: seq<real>)
    requires b.Valid() && times != []
    ensures var full := Bucket(b.Refilled(times[0]), times[0], b.capacity, b.rate);
            full.Valid() && After(full, times) == After(b, times) && Granted(full, times) == Granted(b, times)
  {
    var full := Bucket(b.Refilled(times[0]), times[0], b.capacity, b.rate);
    assert Max(times[0] - b.last, 0.0) * b.rate >= 0.0;
    assert full.Refilled(times[0]) == b.Refilled(times[0]);
    if |times| == 1 {
      assert times[..0] == [];
      assert After(full, times) == After(full, times[..0]).Tried(times[0]);
      assert After(b, times) == After(b, times[..0]).Tried(times[0]);
    } else {
      RefillFirst(b, times[..|times| - 1]);
    }
  }

  /** A caller nobody overtakes has a token on the first try after the sleep it was told to take,
      at any rate, below one a second included. */
  lemma SleeperSucceeds(b: Bucket, now: real, later: real)
    requires b.Valid() && !b.Grants(now) && now + b.Wait(now) <= later
    ensures b.Tried(now).Grants(later)
  {
    var missing := 1.0 - b.Refilled(now);
    TriedValid(b, now);
    MissingFlowsIn(missing, later - now, b.rate);
    assert Max(later - now, 0.0) == later - now;
  }

  /** And it was not told to sleep longer than that: before its sleep is over there is no token, unless it was told the least there is. */
  lemma SleepIsShort(b: Bucket, now: real, early: real)
    requires b.Valid() && !b.Grants(now) && now <= early < now + b.Wait(now)
    ensures b.Wait(now) >= 0.001
    ensures b.Wait(now) == 0.001 || !b.Tried(now).Grants(early)
  {
    var missing := 1.0 - b.Refilled(now);
    if b.Wait(now) != 0.001 {
      Quotient(missing, b.rate);
      FlowGrowsStrictly(early - now, missing / b.rate, b.rate);
      assert Max(early - now, 0.0) == early - now;
    }
  }

  lemma Quotient(a: real, rate: real)
    requires 0.0 < rate
    ensures (a / rate) * rate == a
  {
  }

  lemma FlowGrowsStrictly(a: real, b: real, rate: real)
    requires a < b && 0.0 < rate
    ensures a * rate < b * rate
  {
  }

  /** No try finds the bucket overflowing. */
  ghost predicate NeverFull(b: Bucket, times: seq<real>) {
    forall k | 0 <= k < |times| :: var mid := After(b, times[..k]); mid.tokens + mid.Inflow(times[k]) <= mid.capacity
  }

  lemma NeverFullFront(b: Bucket, times: seq<real>)
    requires times != [] && NeverFull(b, times)
    ensures NeverFull(b, times[..|times| - 1])
    ensures var mid := After(b, times[..|times| - 1]); mid.tokens + mid.Inflow(times[|times| - 1]) <= mid.capacity
  {
    var before := times[..|times| - 1];
    forall k | 0 <= k < |before| ensures before[..k] == times[..k] {}
  }

  /** One try of a bucket that does not overflow loses nothing. */
  lemma TryExactly(mid: Bucket, now: real)
    requires mid.Valid() && mid.last <= now && mid.tokens + mid.Inflow(now) <= mid.capacity
    ensures mid.Tried(now).tokens + (if mid.Grants(now) then 1.0 else 0.0) == mid.tokens + mid.Inflow(now)
  {
    assert Max(now - mid.last, 0.0) == now - mid.last;
  }

  /** Of a bucket that never overflows nothing is lost: what it granted and what is left is what there was and what flowed in. */
  lemma {:induction false} BudgetIsSpent(b: Bucket, times: seq<real>)
    requires b.Valid() && Monotone(times) && (times != [] ==> b.last <= times[0]) && NeverFull(b, times)
    ensures Granted(b, times) as real + After(b, times).tokens == b.tokens + b.Inflow(After(b, times).last)
  {
    if times != [] {
      var before := times[..|times| - 1];
      NeverFullFront(b, times);
      BudgetIsSpent(b, before);
      Budget(b, before);
      TryExactly(After(b, before), times[|times| - 1]);
      FlowAdds(b, After(b, before), times[|times| - 1]);
    }
  }

  /** A new bucket is full and holds a second's tokens, one at least; its rate is that asked for, a tenth at least. */
  lemma NewBucketIs(ratePerSec: real, now: real)
    ensures var b := NewBucket(ratePerSec, now);
            && b.rate == (if ratePerSec >= 0.1 then ratePerSec else 0.1)
            && b.tokens == b.capacity == (if ratePerSec >= 1.0 then ratePerSec else 1.0)
            && b.last == now
  {
  }

  lemma MissingFlowsIn(missing: real, sleep: real, rate: real)
    requires 0.0 < rate && missing / rate <= sleep
    ensures missing <= sleep * rate
  {
    FlowGrows(missing / rate, sleep, rate);
    assert (missing / rate) * rate == missing;
  }

  /** The limiter as the program keeps it: two fields behind a lock. */
  class TokenBucket {
    var tokens: real
    var last: real
    const capacity: real
    const refillPerSec: real

    ghost function State(): Bucket
      reads this
    {
      Bucket(tokens, last, capacity, refillPerSec)
    }

    constructor (ratePerSec: real, now: real)
      ensures State() == NewBucket(ratePerSec, now)
    {
      var rate := Max(ratePerSec, MIN_RATE);
      capacity, refillPerSec := Max(rate, 1.0), rate;
      tokens, last := Max(rate, 1.0), now;
    }

    /** One locked attempt. */
    method TryAcquire(now: real) returns (granted: bool, wait: real)
      requires State().Valid()
      modifies this
      ensures State() == old(State()).Tried(now) && granted == old(State()).Grants(now)
      ensures !granted ==> wait == old(State()).Wait(now)
      ensures State().Valid()
    {
      TriedValid(State(), now);
      tokens := Min(tokens + Max(now - last, 0.0) * refillPerSec, capacity);
      last := now;
      wait := 0.0;
      granted := tokens >= 1.0;
      if granted {
        tokens := tokens - 1.0;
      } else {
        wait := Max((1.0 - tokens) / refillPerSec, MIN_WAIT);
      }
    }

    /** Block until a token is available, with nobody else drawing and sleeps that overrun by the
        given amounts. It never sleeps more than once. */
    method AcquireAlone(start: real, overrun: real) returns (now: real, sleeps: nat)
      requires State().Valid() && 0.0 <= overrun
      modifies this
      ensures sleeps <= 1 && (sleeps == 0 <==> old(State()).Grants(start))
      ensures sleeps == 0 ==> State() == old(State()).Tried(start) && now == start
      ensures sleeps == 1 ==> now == start + old(State()).Wait(start) + overrun
                              && State() == old(State()).Tried(start).Tried(now)
    {
      now, sleeps := start, 0;
      var granted, wait := TryAcquire(now);
      while !granted
        invariant State().Valid() && sleeps <= 1
        invariant sleeps == 0 ==> now == start && State() == old(State()).Tried(start)
                                  && granted == old(State()).Grants(start)
                                  && (!granted ==> wait == old(State()).Wait(start))
        invariant sleeps == 1 ==> granted && !old(State()).Grants(start)
                                  && now == start + old(State()).Wait(start) + overrun
                                  && State() == old(State()).Tried(start).Tried(now)
        decreases 1 - sleeps
      {
        SleeperSucceeds(old(State()), start, start + wait + overrun);
        now, sleeps := now + wait + overrun, sleeps + 1;
        granted, wait := TryAcquire(now);
      }
    }
  }
}

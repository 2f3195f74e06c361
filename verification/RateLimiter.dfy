/**
 The two request limiters: skopaq/broker/rate_limiter.py. Time is exact; the clock's readings are
 the environment's, and a sleep lasts at least as long as asked.
*/
module RateLimiter {

  // ---------------------------------------------------------------- token bucket

  datatype Bucket = Bucket(maxCalls: real, period: real, tokens: real, lastRefill: real)

  function MinReal(x: real, y: real): real { if x <= y then x else y }

  function MaxReal(x: real, y: real): real { if x >= y then x else y }

  /** Tokens gained in `elapsed` seconds. */
  function Gained(b: Bucket, elapsed: real): real
    requires b.period > 0.0
  {
    elapsed * (b.maxCalls / b.period)
  }

  function Refilled(b: Bucket, now: real): Bucket
    requires b.period > 0.0
  {
    b.(tokens := MinReal(b.maxCalls, b.tokens + Gained(b, now - b.lastRefill)), lastRefill := now)
  }

  /** How long a caller finding less than one token sleeps. */
  function WaitFor(b: Bucket): real
    requires b.maxCalls > 0.0
  {
    (1.0 - b.tokens) * (b.period / b.maxCalls)
  }

  /** One `acquire`: the clock when it starts, and again after its sleep if it has to wait. */
  datatype Timing = Timing(now: real, woken: real)

  ghost predicate Usable(b: Bucket) {
    b.maxCalls > 0.0 && b.period > 0.0
  }

  /** The clock never goes back and a sleep is never cut short. */
  ghost predicate Timely(b: Bucket, a: Timing)
    requires Usable(b)
  {
    && a.now >= b.lastRefill
    && (Refilled(b, a.now).tokens < 1.0 ==> a.woken >= a.now + WaitFor(Refilled(b, a.now)))
  }

  function Acquired(b: Bucket, a: Timing): Bucket
    requires b.maxCalls > 0.0 && b.period > 0.0
  {
    var r := Refilled(b, a.now);
    var ready := if r.tokens < 1.0 then Refilled(r, a.woken) else r;
    ready.(tokens := ready.tokens - 1.0)
  }

  class TokenBucket {
    const maxCalls: real
    const period: real
    var tokens: real
    var lastRefill: real

    constructor (maxCalls: real, period: real, now: real)
      ensures State() == Bucket(maxCalls, period, maxCalls, now)
    {
      this.maxCalls := maxCalls;
      this.period := period;
      tokens := maxCalls;
      lastRefill := now;
    }

    function State(): Bucket
      reads this
    {
      Bucket(maxCalls, period, tokens, lastRefill)
    }

    method Refill(now: real)
      requires period > 0.0
      modifies this
      ensures State() == Refilled(old(State()), now)
    {
      var elapsed := now - lastRefill;
      tokens := MinReal(maxCalls, tokens + elapsed * (maxCalls / period));
      lastRefill := now;
    }

    method Acquire(now: real, woken: real) returns (slept: real)
      requires maxCalls > 0.0 && period > 0.0
      modifies this
      ensures State() == Acquired(old(State()), Timing(now, woken))
      ensures var r := Refilled(old(State()), now);
        slept == if r.tokens < 1.0 then WaitFor(r) else 0.0
    {
      Refill(now);
      slept := 0.0;
      if tokens < 1.0 {
        slept := (1.0 - tokens) * (period / maxCalls);
        Refill(woken);
      }
      tokens := tokens - 1.0;
    }
  }

  lemma GainedSplits(b: Bucket, x: real, y: real)
    requires b.period > 0.0
    ensures Gained(b, x) + Gained(b, y) == Gained(b, x + y)
  {}

  lemma GainedGrows(b: Bucket, x: real, y: real)
    requires Usable(b) && x <= y
    ensures Gained(b, x) <= Gained(b, y)
  {
    var rate := b.maxCalls / b.period;
    assert rate > 0.0;
    assert (y - x) * rate >= 0.0;
  }

  /** Sleeping as long as asked gains exactly the missing part of a token. */
  lemma WaitGainsOneToken(b: Bucket)
    requires Usable(b)
    ensures Gained(b, WaitFor(b)) == 1.0 - b.tokens
  {
    var missing := 1.0 - b.tokens;
    calc {
      Gained(b, WaitFor(b));
      missing * (b.period / b.maxCalls) * (b.maxCalls / b.period);
      missing * ((b.period / b.maxCalls) * (b.maxCalls / b.period));
      { assert (b.period / b.maxCalls) * (b.maxCalls / b.period) == 1.0; }
      missing;
    }
  }

  /** With room for a whole call, every acquire leaves between none and all but one of the tokens. */
  lemma TokensStayInRange(b: Bucket, a: Timing)
    requires Usable(b) && b.maxCalls >= 1.0 && 0.0 <= b.tokens <= b.maxCalls && Timely(b, a)
    ensures 0.0 <= Acquired(b, a).tokens <= b.maxCalls - 1.0
    ensures Acquired(b, a).lastRefill >= a.now
    ensures Acquired(b, a).tokens + 1.0 <= b.tokens + Gained(b, Acquired(b, a).lastRefill - b.lastRefill)
  {
    hide Gained, WaitFor;
    GainedGrows(b, 0.0, a.now - b.lastRefill);
    NothingGained(b);
    var r := Refilled(b, a.now);
    if r.tokens < 1.0 {
      NonNegativeWait(r);
      WaitGainsOneToken(r);
      GainedGrows(r, WaitFor(r), a.woken - a.now);
      GainedSplits(b, a.now - b.lastRefill, a.woken - a.now);
      SameRate(b, r, a.woken - a.now);
    }
  }

  lemma SameRate(b: Bucket, r: Bucket, x: real)
    requires b.period > 0.0 && r.period == b.period && r.maxCalls == b.maxCalls
    ensures Gained(b, x) == Gained(r, x)
  {}

  lemma NothingGained(b: Bucket)
    requires b.period > 0.0
    ensures Gained(b, 0.0) == 0.0
  {}

  lemma NonNegativeWait(b: Bucket)
    requires Usable(b) && b.tokens <= 1.0
    ensures WaitFor(b) >= 0.0
  {
    assert b.period / b.maxCalls > 0.0;
  }

  /**
   A bucket smaller than one call never fills to a whole token: the first acquire already leaves it
   in debt. It stays out of debt exactly when it holds at least one call.
  */
  lemma SmallBucketGoesNegative(b: Bucket, a: Timing)
    requires Usable(b) && b.tokens == b.maxCalls && Timely(b, a)
    ensures Acquired(b, a).tokens >= 0.0 <==> b.maxCalls >= 1.0
  {
    if b.maxCalls >= 1.0 {
      TokensStayInRange(b, a);
    } else {
      hide Gained, WaitFor;
    }
  }

  // ---------------------------------------------------------------- token bucket, any run

  ghost predicate Run(b: Bucket, calls: seq<Timing>)
    requires Usable(b)
    decreases |calls|
  {
    calls != [] ==>
      var n := |calls| - 1;
      && Run(b, calls[..n])
      && Timely(After(b, calls[..n]), calls[n])
  }

  function After(b: Bucket, calls: seq<Timing>): (r: Bucket)
    requires b.maxCalls > 0.0 && b.period > 0.0
    ensures r.maxCalls == b.maxCalls && r.period == b.period
    decreases |calls|
  {
    if calls == [] then b else Acquired(After(b, calls[..|calls| - 1]), calls[|calls| - 1])
  }

  /** When the last of these calls got its token. */
  function GrantedAt(b: Bucket, calls: seq<Timing>): real
    requires b.maxCalls > 0.0 && b.period > 0.0
  {
    After(b, calls).lastRefill
  }

  /** How many of the calls got their token within `[from, to]`. */
  function Granted(b: Bucket, calls: seq<Timing>, from: real, to: real): nat
    requires b.maxCalls > 0.0 && b.period > 0.0
    decreases |calls|
  {
    if calls == [] then 0
    else
      Granted(b, calls[..|calls| - 1], from, to)
      + (if from <= GrantedAt(b, calls) <= to then 1 else 0)
  }

  ghost predicate WithinBudget(b: Bucket, calls: seq<Timing>, from: real, to: real)
    requires Usable(b)
  {
    var end := After(b, calls);
    0.0 <= end.tokens <= b.maxCalls && Budget(b, Granted(b, calls, from, to), end, from, to)
  }

  lemma {:induction false} RunKeepsBudget(b: Bucket, calls: seq<Timing>, from: real, to: real)
    requires Usable(b) && b.maxCalls >= 1.0 && 0.0 <= b.tokens <= b.maxCalls && Run(b, calls)
    ensures WithinBudget(b, calls, from, to)
    decreases |calls|
  {
    if calls != [] {
      var before, a := calls[..|calls| - 1], calls[|calls| - 1];
      RunStep(b, calls);
      RunKeepsBudget(b, before, from, to);
      AfterStep(b, calls);
      GrantedStep(b, calls, from, to);
      hide Run, Granted, Gained, Acquired, Timely, Refilled, After, Budget;
      StepFacts(b, After(b, before), a, After(b, calls));
      BudgetArithmetic(b, Granted(b, before, from, to), After(b, before), After(b, calls), from, to);
    }
  }

  lemma RunStep(b: Bucket, calls: seq<Timing>)
    requires Usable(b) && Run(b, calls) && calls != []
    ensures Run(b, calls[..|calls| - 1])
    ensures Timely(After(b, calls[..|calls| - 1]), calls[|calls| - 1])
  {
    hide Timely, After;
  }

  lemma AfterStep(b: Bucket, calls: seq<Timing>)
    requires Usable(b) && calls != []
    ensures After(b, calls) == Acquired(After(b, calls[..|calls| - 1]), calls[|calls| - 1])
  {
    hide Acquired;
  }

  lemma GrantedStep(b: Bucket, calls: seq<Timing>, from: real, to: real)
    requires Usable(b) && calls != []
    ensures Granted(b, calls, from, to)
         == Granted(b, calls[..|calls| - 1], from, to)
            + (if from <= After(b, calls).lastRefill <= to then 1 else 0)
  {
    hide After;
  }

  lemma StepFacts(b: Bucket, s: Bucket, a: Timing, e: Bucket)
    requires Usable(b) && b.maxCalls >= 1.0 && s.maxCalls == b.maxCalls && s.period == b.period
    requires 0.0 <= s.tokens <= b.maxCalls && Timely(s, a) && e == Acquired(s, a)
    ensures s.lastRefill <= e.lastRefill && 0.0 <= e.tokens <= b.maxCalls - 1.0
    ensures e.tokens + 1.0 <= s.tokens + Gained(b, e.lastRefill - s.lastRefill)
  {
    TokensStayInRange(s, a);
    SameRate(b, s, e.lastRefill - s.lastRefill);
    hide Gained, Acquired;
  }

  ghost predicate Budget(b: Bucket, n: nat, end: Bucket, from: real, to: real)
    requires Usable(b)
  {
    n > 0 ==>
      && from <= end.lastRefill
      && n as real <= b.maxCalls + Gained(b, MinReal(end.lastRefill, to) - from)
      && (end.lastRefill <= to ==> n as real + end.tokens <= b.maxCalls + Gained(b, end.lastRefill - from))
  }

  lemma BudgetArithmetic(b: Bucket, n: nat, s: Bucket, e: Bucket, from: real, to: real)
    requires Usable(b) && Budget(b, n, s, from, to)
    requires s.lastRefill <= e.lastRefill && 0.0 <= e.tokens <= b.maxCalls - 1.0
    requires e.tokens + 1.0 <= s.tokens + Gained(b, e.lastRefill - s.lastRefill)
    ensures Budget(b, n + (if from <= e.lastRefill <= to then 1 else 0), e, from, to)
  {
    GainedSplits(b, s.lastRefill - from, e.lastRefill - s.lastRefill);
    NothingGained(b);
    if from <= e.lastRefill {
      GainedGrows(b, 0.0, e.lastRefill - from);
    }
    if s.lastRefill <= to < e.lastRefill {
      GainedGrows(b, s.lastRefill - from, to - from);
    }
    hide Gained;
  }

  /** Over any run, an interval of length T sees at most maxCalls + T * maxCalls / period calls. */
  lemma BucketBoundsEveryInterval(b: Bucket, calls: seq<Timing>, from: real, to: real)
    requires Usable(b) && b.maxCalls >= 1.0 && b.tokens == b.maxCalls && Run(b, calls) && from <= to
    ensures Granted(b, calls, from, to) as real <= b.maxCalls + Gained(b, to - from)
  {
    hide Gained, Run, After, Granted;
    RunKeepsBudget(b, calls, from, to);
    var e := After(b, calls);
    GainedGrows(b, 0.0, to - from);
    NothingGained(b);
    if Granted(b, calls, from, to) > 0 {
      GainedGrows(b, MinReal(e.lastRefill, to) - from, to - from);
    }
  }

  /** When the `k`-th call of a burst is made: a full bucket's worth at once, then one per refill. */
  function BurstTime(n: nat, period: real, k: nat): real
    requires n >= 1
  {
    if k <= n then 0.0 else (k - n) as real * (period / n as real)
  }

  function Burst(n: nat, period: real, k: nat): (r: seq<Timing>)
    requires n >= 1
    ensures |r| == k
  {
    if k == 0 then []
    else Burst(n, period, k - 1) + [Timing(BurstTime(n, period, k), BurstTime(n, period, k))]
  }

  lemma BurstSteps(n: nat, period: real, k: nat)
    requires n >= 1 && period > 0.0 && n < k <= 2 * n
    ensures BurstTime(n, period, k) - BurstTime(n, period, k - 1) == period / n as real > 0.0
    ensures 0.0 <= BurstTime(n, period, k) <= period
  {
    var step := period / n as real;
    assert step > 0.0 && n as real * step == period;
    assert (n as real - (k - n) as real) * step >= 0.0;
  }

  lemma StepIsOneToken(n: nat, period: real)
    requires n >= 1 && period > 0.0
    ensures Gained(Bucket(n as real, period, 0.0, 0.0), period / n as real) == 1.0
  {
    calc {
      period / n as real * (n as real / period);
      { assert period / n as real * n as real == period; }
      period / period;
      1.0;
    }
  }

  function BurstState(n: nat, period: real, k: nat): Bucket
    requires n >= 1
  {
    Bucket(n as real, period, if k <= n then (n - k) as real else 0.0, BurstTime(n, period, k))
  }

  lemma BurstStep(n: nat, period: real, k: nat)
    requires n >= 1 && period > 0.0 && 0 < k <= 2 * n
    ensures var s, t := BurstState(n, period, k - 1), BurstTime(n, period, k);
      && Timely(s, Timing(t, t)) && Acquired(s, Timing(t, t)) == BurstState(n, period, k)
      && 0.0 <= t <= period
  {
    var s := BurstState(n, period, k - 1);
    if k > n {
      BurstSteps(n, period, k);
      StepIsOneToken(n, period);
      SameRate(Bucket(n as real, period, 0.0, 0.0), s, period / n as real);
    } else {
      NothingGained(s);
    }
    hide Gained;
  }

  lemma {:induction false} BurstIsServed(n: nat, period: real, k: nat)
    requires n >= 1 && period > 0.0 && k <= 2 * n
    ensures var b, calls := Bucket(n as real, period, n as real, 0.0), Burst(n, period, k);
      Run(b, calls) && After(b, calls) == BurstState(n, period, k) && Granted(b, calls, 0.0, period) == k
  {
    hide Timely, Acquired, BurstTime;
    if k == 0 {
      assert BurstTime(n, period, 0) == 0.0 by { BurstStartsNow(n, period); }
    } else {
      BurstIsServed(n, period, k - 1);
      BurstStep(n, period, k);
      assert Burst(n, period, k)[..k - 1] == Burst(n, period, k - 1);
    }
  }

  lemma BurstStartsNow(n: nat, period: real)
    requires n >= 1
    ensures BurstTime(n, period, 0) == 0.0
  {}

  /**
   The bound is reached: a full bucket lets twice its size through within one period, which the
   sliding window below never does.
  */
  lemma BucketServesTwiceItsSize(n: nat, period: real)
    requires n >= 1 && period > 0.0
    ensures var b := Bucket(n as real, period, n as real, 0.0);
      exists calls :: Run(b, calls) && Granted(b, calls, 0.0, period) == 2 * n
  {
    BurstIsServed(n, period, 2 * n);
  }

  // ---------------------------------------------------------------- sliding window

  /** Entries at least a period old fall out of the front of the deque. */
  function Pruned(calls: seq<real>, now: real, period: real): seq<real> {
    if calls != [] && now - calls[0] >= period then Pruned(calls[1..], now, period) else calls
  }

  lemma {:induction false} PrunedShape(calls: seq<real>, now: real, period: real)
    ensures var r := Pruned(calls, now, period);
      && |r| <= |calls| && r == calls[|calls| - |r|..]
      && (r != [] ==> now - r[0] < period)
      && (forall i :: 0 <= i < |calls| - |r| ==> now - calls[i] >= period)
  {
    if calls != [] && now - calls[0] >= period {
      PrunedShape(calls[1..], now, period);
      var k := |calls| - |Pruned(calls, now, period)|;
      assert calls[1..][k - 1..] == calls[k..];
      forall i | 0 <= i < k ensures now - calls[i] >= period {
        if i > 0 { assert calls[1..][i - 1] == calls[i]; }
      }
    }
  }

  datatype Attempt = Admitted | Wait(seconds: real) | Broken

  class SlidingWindow {
    const maxCalls: int
    const period: real
    var calls: seq<real>

    constructor (maxCalls: int, period: real)
      ensures this.maxCalls == maxCalls && this.period == period && calls == []
    {
      this.maxCalls := maxCalls;
      this.period := period;
      calls := [];
    }

    /**
     One turn of `acquire`'s loop, which nothing interrupts: prune, then record the call or say how
     long to sleep. With no room and nothing to wait for (`maxCalls < 1`) the code reads an empty
     deque and raises.
    */
    method TryAcquire(now: real) returns (r: Attempt)
      modifies this
      ensures r == Decision(Pruned(old(calls), now, period), now, maxCalls, period)
      ensures calls == Pruned(old(calls), now, period) + (if r == Admitted then [now] else [])
    {
      ghost var before := calls;
      while calls != [] && now - calls[0] >= period
        invariant Pruned(calls, now, period) == Pruned(before, now, period)
        decreases |calls|
      {
        calls := calls[1..];
      }
      if |calls| < maxCalls {
        calls := calls + [now];
        return Admitted;
      }
      if calls == [] {
        return Broken;
      }
      return Wait(MaxReal(period - (now - calls[0]), 0.001));
    }
  }

  function Decision(kept: seq<real>, now: real, maxCalls: int, period: real): Attempt {
    if |kept| < maxCalls then Admitted
    else if kept == [] then Broken
    else Wait(MaxReal(period - (now - kept[0]), 0.001))
  }

  // ---------------------------------------------------------------- sliding window, any interleaving

  /** The deque and everything ever admitted, after callers tried at these clock readings. */
  datatype Window = Window(calls: seq<real>, history: seq<real>)

  function Tried(w: Window, now: real, maxCalls: int, period: real): Window {
    var kept := Pruned(w.calls, now, period);
    if Decision(kept, now, maxCalls, period) == Admitted then Window(kept + [now], w.history + [now])
    else Window(kept, w.history)
  }

  function AfterTries(times: seq<real>, maxCalls: int, period: real): Window {
    if times == [] then Window([], [])
    else Tried(AfterTries(times[..|times| - 1], maxCalls, period), times[|times| - 1], maxCalls, period)
  }

  ghost predicate Monotone(times: seq<real>) {
    forall i, j :: 0 <= i <= j < |times| ==> times[i] <= times[j]
  }

  /** Admissions in the last period, counted over the full history. */
  function RecentCount(history: seq<real>, now: real, period: real): nat {
    if history == [] then 0
    else RecentCount(history[..|history| - 1], now, period)
         + (if now - history[|history| - 1] < period then 1 else 0)
  }

  lemma {:induction false} CountSorted(history: seq<real>, k: nat, now: real, period: real)
    requires k <= |history|
    requires forall i :: 0 <= i < k ==> now - history[i] >= period
    requires forall i :: k <= i < |history| ==> now - history[i] < period
    ensures RecentCount(history, now, period) == |history| - k
    decreases |history|
  {
    if history != [] {
      CountSorted(history[..|history| - 1], if k < |history| then k else k - 1, now, period);
    }
  }

  /** Everything before the last `n` entries is at least a period old. */
  ghost predicate OldBefore(history: seq<real>, n: nat, now: real, period: real) {
    forall i :: 0 <= i < |history| - n ==> now - history[i] >= period
  }

  ghost predicate Spaced(history: seq<real>, maxCalls: int, period: real) {
    forall i, j :: 0 <= i && j == i + maxCalls && j < |history| && maxCalls >= 1 ==>
      history[j] - history[i] >= period
  }

  ghost predicate UpTo(history: seq<real>, last: real) {
    Monotone(history) && forall i :: 0 <= i < |history| ==> history[i] <= last
  }

  /** The deque is the tail of the history, and what was pruned is at least a period old. */
  ghost predicate Faithful(w: Window, last: real, maxCalls: int, period: real) {
    && |w.calls| <= |w.history| && w.calls == w.history[|w.history| - |w.calls|..]
    && OldBefore(w.history, |w.calls|, last, period) && UpTo(w.history, last)
    && (maxCalls >= 1 ==> |w.calls| <= maxCalls)
    && Spaced(w.history, maxCalls, period)
  }

  lemma PruneOfTail(h: seq<real>, n: nat, last: real, now: real, period: real)
    requires n <= |h| && OldBefore(h, n, last, period) && last <= now && UpTo(h, last)
    ensures var kept := Pruned(h[|h| - n..], now, period);
      && |kept| <= n && kept == h[|h| - |kept|..]
      && OldBefore(h, |kept|, now, period) && RecentCount(h, now, period) == |kept|
  {
    var tail := h[|h| - n..];
    PrunedShape(tail, now, period);
    var kept := Pruned(tail, now, period);
    var k := |h| - |kept|;
    assert tail[n - |kept|..] == h[k..];
    forall i | 0 <= i < k ensures now - h[i] >= period {
      if i >= |h| - n {
        assert tail[i - (|h| - n)] == h[i];
      }
    }
    forall i | k <= i < |h| ensures now - h[i] < period {
      assert kept[0] == h[k] && h[k] <= h[i];
    }
    CountSorted(h, k, now, period);
  }

  lemma PruneKeepsFaithful(w: Window, last: real, now: real, maxCalls: int, period: real)
    requires Faithful(w, last, maxCalls, period) && last <= now
    ensures Faithful(w.(calls := Pruned(w.calls, now, period)), now, maxCalls, period)
    ensures RecentCount(w.history, now, period) == |Pruned(w.calls, now, period)|
  {
    hide OldBefore, Monotone, Spaced, RecentCount, Pruned;
    PruneOfTail(w.history, |w.calls|, last, now, period);
  }

  lemma AdmitKeepsFaithful(w: Window, now: real, maxCalls: int, period: real)
    requires Faithful(w, now, maxCalls, period) && |w.calls| < maxCalls
    ensures Faithful(Window(w.calls + [now], w.history + [now]), now, maxCalls, period)
  {
    AdmitKeepsSpaced(w.history, |w.calls|, now, maxCalls, period);
    AdmitKeepsTail(w.history, |w.calls|, now, period);
    hide Spaced, OldBefore, UpTo;
  }

  lemma AdmitKeepsTail(history: seq<real>, n: nat, now: real, period: real)
    requires n <= |history| && OldBefore(history, n, now, period) && UpTo(history, now)
    ensures var h := history + [now];
      && history[|history| - n..] + [now] == h[|h| - (n + 1)..]
      && OldBefore(h, n + 1, now, period) && UpTo(h, now)
  {}

  lemma AdmitKeepsSpaced(history: seq<real>, n: nat, now: real, maxCalls: int, period: real)
    requires n < maxCalls && n <= |history| && OldBefore(history, n, now, period)
    requires Spaced(history, maxCalls, period)
    ensures Spaced(history + [now], maxCalls, period)
  {
    var h := history + [now];
    forall i, j | 0 <= i && j == i + maxCalls && j < |h| ensures h[j] - h[i] >= period {
      if j < |history| {
        assert history[j] - history[i] >= period;
      } else {
        assert i < |history| - n;
      }
    }
  }

  lemma TryKeepsFaithful(w: Window, last: real, now: real, maxCalls: int, period: real)
    requires Faithful(w, last, maxCalls, period) && last <= now
    ensures Faithful(Tried(w, now, maxCalls, period), now, maxCalls, period)
    ensures Tried(w, now, maxCalls, period).history
         == w.history + (if RecentCount(w.history, now, period) < maxCalls then [now] else [])
  {
    PruneKeepsFaithful(w, last, now, maxCalls, period);
    hide Faithful, RecentCount, Pruned;
    var kept := Pruned(w.calls, now, period);
    assert w.history + [] == w.history;
    if |kept| < maxCalls {
      AdmitKeepsFaithful(w.(calls := kept), now, maxCalls, period);
    }
  }

  lemma {:induction false} AlwaysFaithful(times: seq<real>, maxCalls: int, period: real)
    requires Monotone(times) && times != []
    ensures Faithful(AfterTries(times, maxCalls, period), times[|times| - 1], maxCalls, period)
    decreases |times|
  {
    var n := |times| - 1;
    if n == 0 {
      assert times[..0] == [];
      assert Faithful(Window([], []), times[0], maxCalls, period);
      TryKeepsFaithful(Window([], []), times[0], times[0], maxCalls, period);
    } else {
      AlwaysFaithful(times[..n], maxCalls, period);
      TryKeepsFaithful(AfterTries(times[..n], maxCalls, period), times[n - 1], times[n], maxCalls, period);
    }
  }

  /**
   Whoever tries, in whatever order: each attempt is admitted exactly when the full history shows
   fewer than `maxCalls` admissions in the last period, though the deque has forgotten most of it.
  */
  lemma DequeDecidesLikeHistory(times: seq<real>, maxCalls: int, period: real)
    requires Monotone(times) && times != []
    ensures var n := |times| - 1;
      var before := AfterTries(times[..n], maxCalls, period).history;
      AfterTries(times, maxCalls, period).history
      == before + (if RecentCount(before, times[n], period) < maxCalls then [times[n]] else [])
  {
    var n := |times| - 1;
    if n == 0 {
      assert Faithful(Window([], []), times[0], maxCalls, period);
      TryKeepsFaithful(Window([], []), times[0], times[0], maxCalls, period);
    } else {
      AlwaysFaithful(times[..n], maxCalls, period);
      TryKeepsFaithful(AfterTries(times[..n], maxCalls, period), times[n - 1], times[n], maxCalls, period);
    }
  }

  /** The admission `maxCalls` places later is at least a period later. */
  lemma AdmissionsAreSpaced(times: seq<real>, maxCalls: int, period: real, i: nat)
    requires Monotone(times) && maxCalls >= 1
    requires i + maxCalls < |AfterTries(times, maxCalls, period).history|
    ensures var h := AfterTries(times, maxCalls, period).history; h[i + maxCalls] - h[i] >= period
  {
    AlwaysFaithful(times, maxCalls, period);
  }

  function CountIn(history: seq<real>, from: real, period: real): (n: nat)
    ensures n <= |history|
  {
    if history == [] then 0
    else CountIn(history[..|history| - 1], from, period)
         + (if from <= history[|history| - 1] < from + period then 1 else 0)
  }

  lemma {:induction false} CountAtMost(history: seq<real>, from: real, period: real, n: int)
    requires n >= 1 && Monotone(history)
    requires Spaced(history, n, period)
    ensures CountIn(history, from, period) <= n
    decreases |history|
  {
    if history != [] {
      var k := |history| - 1;
      var before, t := history[..k], history[k];
      CountAtMost(before, from, period, n);
      var c := CountIn(before, from, period);
      if from <= t < from + period {
        if k >= n {
          assert history[k] - history[k - n] >= period;
        }
        if c == n {
          EarlierAreBefore(before, from, period, n, k - n);
        }
      } else if t < from {
        NoneBefore(before, from, period);
      }
    }
  }

  lemma {:induction false} NoneBefore(history: seq<real>, from: real, period: real)
    requires forall i :: 0 <= i < |history| ==> history[i] < from
    ensures CountIn(history, from, period) == 0
  {
    if history != [] { NoneBefore(history[..|history| - 1], from, period); }
  }

  /** If the newest `n` entries are all in the window, the oldest of them is not before it. */
  lemma {:induction false} EarlierAreBefore(history: seq<real>, from: real, period: real, n: int, i: int)
    requires Monotone(history) && 0 <= i < |history| && i == |history| - n
    requires CountIn(history, from, period) == n
    ensures history[i] >= from
    decreases |history|
  {
    if history[i] < from {
      FewerThan(history, from, period, i);
    }
  }

  lemma {:induction false} FewerThan(history: seq<real>, from: real, period: real, i: nat)
    requires Monotone(history) && i < |history| && history[i] < from
    ensures CountIn(history, from, period) <= |history| - i - 1
    decreases |history|
  {
    var k := |history| - 1;
    if i < k {
      FewerThan(history[..k], from, period, i);
    } else {
      forall j | 0 <= j < |history| ensures history[j] < from {
        assert history[j] <= history[i];
      }
      NoneBefore(history, from, period);
    }
  }

  /** No window a period long ever holds more than `maxCalls` admissions. */
  lemma WindowBound(times: seq<real>, maxCalls: int, period: real, from: real)
    requires Monotone(times) && maxCalls >= 1
    ensures CountIn(AfterTries(times, maxCalls, period).history, from, period) <= maxCalls
  {
    if times != [] {
      AlwaysFaithful(times, maxCalls, period);
      CountAtMost(AfterTries(times, maxCalls, period).history, from, period, maxCalls);
    }
  }

  /** How long attempt `m` is told to sleep, if it is refused. */
  function Told(times: seq<real>, m: nat, maxCalls: int, period: real): Attempt
    requires m < |times|
  {
    Decision(Pruned(AfterTries(times[..m], maxCalls, period).calls, times[m], period), times[m], maxCalls, period)
  }

  /** The window before attempt `m`, with the deque telling the truth about its history. */
  lemma FaithfulBefore(times: seq<real>, maxCalls: int, period: real, m: nat)
    requires Monotone(times) && m < |times|
    ensures Faithful(AfterTries(times[..m], maxCalls, period), if m == 0 then times[0] else times[m - 1],
                     maxCalls, period)
  {
    if m == 0 {
      assert times[..0] == [];
    } else {
      assert times[..m] != [] && times[..m][m - 1] == times[m - 1];
      AlwaysFaithful(times[..m], maxCalls, period);
    }
  }

  lemma {:induction false} HistoryGrows(times: seq<real>, maxCalls: int, period: real, m: nat, n: nat)
    requires m <= n <= |times|
    ensures AfterTries(times[..m], maxCalls, period).history <= AfterTries(times[..n], maxCalls, period).history
  {
    if m < n {
      HistoryGrows(times, maxCalls, period, m, n - 1);
      assert times[..n][..n - 1] == times[..n - 1];
    }
  }

  lemma {:induction false} CountGrowsByAdmissions(history: seq<real>, k: nat, now: real, period: real)
    requires k <= |history|
    ensures RecentCount(history, now, period) <= RecentCount(history[..k], now, period) + (|history| - k)
    decreases |history|
  {
    var n := |history| - 1;
    if k <= n {
      CountGrowsByAdmissions(history[..n], k, now, period);
      assert history[..n][..k] == history[..k];
    } else {
      assert history[..k] == history;
    }
  }

  /** Once it has slept as told, at least one of the calls that stood in the way is out of the window. */
  lemma SleepFreesASlot(w: Window, last: real, now: real, later: real, maxCalls: int, period: real)
    requires Faithful(w, last, maxCalls, period) && last <= now && maxCalls >= 1
    requires Decision(Pruned(w.calls, now, period), now, maxCalls, period).Wait?
    requires later >= now + Decision(Pruned(w.calls, now, period), now, maxCalls, period).seconds
    ensures Tried(w, now, maxCalls, period).history == w.history
    ensures RecentCount(w.history, later, period) < maxCalls
  {
    var kept := Pruned(w.calls, now, period);
    PruneKeepsFaithful(w, last, now, maxCalls, period);
    PruneKeepsFaithful(w.(calls := kept), now, later, maxCalls, period);
    hide Faithful, RecentCount;
    assert |kept| <= maxCalls && later - kept[0] >= period;
    LaterDropsTheFirst(kept, later, period);
  }

  /**
   A caller refused at attempt `m` that slept as told tries again at attempt `n`; any attempts of any
   callers may come in between, refused or not. Of the slots taken at `m` at least one is free again by
   then, and the caller is admitted whenever fewer calls were admitted in between than slots came free:
   always, if nobody was.
  */
  lemma WaiterGetsIn(times: seq<real>, maxCalls: int, period: real, m: nat, n: nat)
    requires Monotone(times) && maxCalls >= 1 && m < n < |times|
    requires Told(times, m, maxCalls, period).Wait?
    requires times[n] >= times[m] + Told(times, m, maxCalls, period).seconds
    ensures var refused := AfterTries(times[..m + 1], maxCalls, period).history;
      var before := AfterTries(times[..n], maxCalls, period).history;
      var free := maxCalls - RecentCount(refused, times[n], period);
      && free >= 1 && refused <= before
      && (|before| - |refused| < free ==>
            AfterTries(times[..n + 1], maxCalls, period).history == before + [times[n]])
  {
    hide Faithful, RecentCount, Pruned, Decision;
    var w := AfterTries(times[..m], maxCalls, period);
    FaithfulBefore(times, maxCalls, period, m);
    assert times[..m + 1][..m] == times[..m] && times[..n + 1][..n] == times[..n];
    SleepFreesASlot(w, if m == 0 then times[0] else times[m - 1], times[m], times[n], maxCalls, period);
    var refused, before := w.history, AfterTries(times[..n], maxCalls, period).history;
    HistoryGrows(times, maxCalls, period, m + 1, n);
    CountGrowsByAdmissions(before, |refused|, times[n], period);
    assert before[..|refused|] == refused;
    DequeDecidesLikeHistory(times[..n + 1], maxCalls, period);
  }

  lemma LaterDropsTheFirst(kept: seq<real>, later: real, period: real)
    requires kept != [] && later - kept[0] >= period
    ensures |Pruned(kept, later, period)| < |kept|
  {
    PrunedShape(kept[1..], later, period);
  }

  /** The wait is no longer than needed: until the oldest call in the deque leaves the window, no attempt of
      anybody is admitted; and it lasts exactly until then, or a millisecond. */
  lemma WaitIsNeeded(w: Window, last: real, now: real, later: real, maxCalls: int, period: real)
    requires Faithful(w, last, maxCalls, period) && last <= now <= later && maxCalls >= 1
    requires Decision(Pruned(w.calls, now, period), now, maxCalls, period).Wait?
    ensures var kept := Pruned(w.calls, now, period);
      && kept != []
      && (later < kept[0] + period ==>
            RecentCount(w.history, later, period) >= maxCalls &&
            Tried(Tried(w, now, maxCalls, period), later, maxCalls, period).history == w.history)
      && Decision(kept, now, maxCalls, period).seconds
         == (if kept[0] + period - now >= 0.001 then kept[0] + period - now else 0.001)
  {
    var kept := Pruned(w.calls, now, period);
    PruneKeepsFaithful(w, last, now, maxCalls, period);
    PruneKeepsFaithful(w.(calls := kept), now, later, maxCalls, period);
    if later < kept[0] + period {
      hide Faithful, RecentCount;
      assert Pruned(kept, later, period) == kept;
    }
  }

  /** What an attempt does: it is refused with a wait only by a full window, and breaks only without room
      for any call at all. */
  lemma DecisionMeans(kept: seq<real>, now: real, maxCalls: int, period: real)
    ensures Decision(kept, now, maxCalls, period) == Admitted <==> |kept| < maxCalls
    ensures Decision(kept, now, maxCalls, period) == Broken <==> kept == [] && maxCalls <= 0
  {}
}

/** The two Redis-backed rate limiters: the fixed-window script for configuration writes and
    the renew-on-every-call counter that guards logins. Times are in milliseconds, as Redis
    keeps expiries; windows are set in whole seconds. */
module RateLimit {
  import opened Options

  /** A Redis key: no value, or a counter that may carry an expiry instant. */
  datatype Key = Missing | Counter(count: nat, expiry: Option<int>)

  /** What a caller sees of its round trip to Redis. A lost reply means the script ran but its
      result did not arrive; both limiters let the call pass when they get no result. */
  datatype Reply = Answered | Unreached | Lost

  datatype Call = Call(time: int, reply: Reply)

  /** The value Redis sees at `now`: an expired key is gone. */
  function Seen(k: Key, now: int): Key {
    if k.Counter? && k.expiry.Some? && k.expiry.value <= now then Missing else k
  }

  function Count(k: Key): nat {
    if k.Missing? then 0 else k.count
  }

  /** INCR, then EXPIRE only when the key has no TTL. */
  function FixedStep(k: Key, now: int, window: nat): Key {
    match Seen(k, now)
    case Missing => Counter(1, Some(now + window))
    case Counter(n, None) => Counter(n + 1, Some(now + window))
    case Counter(n, Some(e)) => Counter(n + 1, Some(e))
  }

  /** INCR and EXPIRE in one transaction. */
  function RenewStep(k: Key, now: int, window: nat): Key {
    Counter(Count(Seen(k, now)) + 1, Some(now + window))
  }

  datatype Policy = Fixed | Renewing

  function Step(p: Policy, k: Key, now: int, window: nat): Key {
    if p.Fixed? then FixedStep(k, now, window) else RenewStep(k, now, window)
  }

  function After(p: Policy, k: Key, c: Call, window: nat): Key {
    if c.reply.Unreached? then k else Step(p, k, c.time, window)
  }

  /** The limiter answered, and its answer was to let the call through. */
  predicate Admits(p: Policy, k: Key, c: Call, limit: nat, window: nat) {
    c.reply.Answered? && Step(p, k, c.time, window).count <= limit
  }

  predicate Passes(p: Policy, k: Key, c: Call, limit: nat, window: nat) {
    !c.reply.Answered? || Admits(p, k, c, limit, window)
  }

  function Run(p: Policy, k: Key, calls: seq<Call>, window: nat): Key
    decreases calls
  {
    if calls == [] then k
    else Run(p, After(p, k, calls[0], window), calls[1..], window)
  }

  /** How many calls with a <= time < b the limiter itself admits. */
  function Admitted(p: Policy, k: Key, calls: seq<Call>, a: int, b: int, limit: nat, window: nat): nat
    decreases calls
  {
    if calls == [] then 0
    else
      var c := calls[0];
      (if a <= c.time < b && Admits(p, k, c, limit, window) then 1 else 0)
      + Admitted(p, After(p, k, c, window), calls[1..], a, b, limit, window)
  }

  ghost predicate Ordered(calls: seq<Call>) {
    forall i, j | 0 <= i <= j < |calls| :: calls[i].time <= calls[j].time
  }

  ghost predicate NotBefore(calls: seq<Call>, t: int) {
    forall i | 0 <= i < |calls| :: t <= calls[i].time
  }

  // ---------------------------------------------------------------------------
  // The shared key as an object
  // ---------------------------------------------------------------------------

  const SECOND: nat := 1000

  /** The TTL command: the remaining life rounded to whole seconds. */
  function RoundedTtl(ms: nat): (ttl: nat)
    ensures ms <= ttl * 1000 + 500 && ttl * 1000 <= ms + 500
  {
    (ms + 500) / SECOND
  }

  class RateLimiter {
    const policy: Policy
    const limit: nat
    const seconds: nat
    var key: Key

    constructor (policy: Policy, limit: nat, seconds: nat)
      ensures this.policy == policy && this.limit == limit && this.seconds == seconds
      ensures key == Missing
    {
      this.policy, this.limit, this.seconds := policy, limit, seconds;
      key := Missing;
    }

    /** check_write_rate_limit and check_rate_limit; `retryAfter` is the Retry-After header of a 429,
        in seconds. */
    method Check(c: Call) returns (passes: bool, retryAfter: nat)
      modifies this
      ensures key == After(policy, old(key), c, 1000 * seconds)
      ensures passes == Passes(policy, old(key), c, limit, 1000 * seconds)
      ensures !passes && policy.Renewing? ==> retryAfter == seconds
      ensures !passes && policy.Fixed? ==>
                && key.Counter? && key.expiry.Some? && key.expiry.value >= c.time
                && var ttl := RoundedTtl(key.expiry.value - c.time);
                   retryAfter == if ttl < 1 then 1 else ttl
    {
      passes, retryAfter := true, seconds;
      if c.reply.Unreached? {
        return;
      }
      var live := if key.Counter? && key.expiry.Some? && key.expiry.value <= c.time then Missing else key;
      var count := if live.Missing? then 1 else live.count + 1;
      if policy.Renewing? || live.Missing? || live.expiry.None? {
        key := Counter(count, Some(c.time + SECOND * seconds));
      } else {
        key := Counter(count, live.expiry);
        retryAfter := RoundedTtl(live.expiry.value - c.time);
      }
      if policy.Fixed? && retryAfter < 1 {
        retryAfter := 1;
      }
      if c.reply.Answered? {
        passes := count <= limit;
      }
    }
  }

  // ---------------------------------------------------------------------------
  // The fixed window
  // ---------------------------------------------------------------------------

  lemma {:induction false} LateCallsDoNotCount(p: Policy, k: Key, calls: seq<Call>, a: int, b: int, limit: nat, window: nat)
    requires NotBefore(calls, b)
    ensures Admitted(p, k, calls, a, b, limit, window) == 0
    decreases calls
  {
    if calls != [] {
      LateCallsDoNotCount(p, After(p, k, calls[0], window), calls[1..], a, b, limit, window);
    }
  }

  function Left(limit: nat, count: nat): nat {
    if count <= limit then limit - count else 0
  }

  /** Inside one counter window: never more admissions than the counter leaves. */
  lemma {:induction false} WithinWindow(count: nat, e: int, calls: seq<Call>, a: int, b: int, limit: nat, window: nat)
    requires Ordered(calls) && b <= e
    ensures Admitted(Fixed, Counter(count, Some(e)), calls, a, b, limit, window) <= Left(limit, count)
    decreases calls
  {
    if calls != [] {
      var c := calls[0];
      if c.time >= b {
        LateCallsDoNotCount(Fixed, Counter(count, Some(e)), calls, a, b, limit, window);
      } else {
        var n := if c.reply.Unreached? then count else count + 1;
        assert After(Fixed, Counter(count, Some(e)), c, window) == Counter(n, Some(e));
        WithinWindow(n, e, calls[1..], a, b, limit, window);
      }
    }
  }

  /** One live window followed by at most one more that starts inside [a, b). */
  lemma {:induction false} TwoWindows(count: nat, e: int, calls: seq<Call>, a: int, b: int, limit: nat, window: nat)
    requires Ordered(calls) && NotBefore(calls, a) && b <= a + window
    ensures Admitted(Fixed, Counter(count, Some(e)), calls, a, b, limit, window) <= Left(limit, count) + limit
    decreases calls
  {
    if calls != [] {
      var c := calls[0];
      var k := Counter(count, Some(e));
      assert NotBefore(calls[1..], a);
      if c.time >= b {
        LateCallsDoNotCount(Fixed, k, calls, a, b, limit, window);
      } else if c.reply.Unreached? {
        TwoWindows(count, e, calls[1..], a, b, limit, window);
      } else if c.time < e {
        assert After(Fixed, k, c, window) == Counter(count + 1, Some(e));
        TwoWindows(count + 1, e, calls[1..], a, b, limit, window);
      } else {
        assert After(Fixed, k, c, window) == Counter(1, Some(c.time + window));
        WithinWindow(1, c.time + window, calls[1..], a, b, limit, window);
      }
    }
  }

  /** The largest number of admissions in any interval one window long. */
  function Burst(limit: nat): nat {
    if limit == 0 then 0 else 2 * limit - 1
  }

  /** A counter as Redis ever holds it: INCR leaves it at 1 or more. */
  ghost predicate Plausible(k: Key) {
    k.Counter? ==> k.count >= 1
  }

  /** Over every call trace, from every key state (also one left without a TTL), and whatever
      replies are lost: any half-open interval one window long admits at most 2*limit - 1 calls. */
  lemma {:induction false} FixedWindowBound(k: Key, calls: seq<Call>, a: int, limit: nat, window: nat)
    requires Plausible(k) && Ordered(calls)
    ensures Admitted(Fixed, k, calls, a, a + window, limit, window) <= Burst(limit) <= 2 * limit
    decreases calls
  {
    if calls != [] {
      var c := calls[0];
      if c.time < a || c.reply.Unreached? {
        FixedWindowBound(After(Fixed, k, c, window), calls[1..], a, limit, window);
      } else {
        var seen := Seen(k, c.time);
        assert NotBefore(calls[1..], a);
        var next := FixedStep(k, c.time, window);
        if seen.Counter? && seen.expiry.Some? {
          TwoWindows(seen.count + 1, next.expiry.value, calls[1..], a, a + window, limit, window);
        } else {
          WithinWindow(next.count, next.expiry.value, calls[1..], a, a + window, limit, window);
        }
      }
    }
  }

  /** `n` answered calls at time `t`. */
  function Volley(t: int, n: nat): (r: seq<Call>)
    ensures |r| == n && forall i | 0 <= i < n :: r[i] == Call(t, Answered)
  {
    seq(n, i requires 0 <= i => Call(t, Answered))
  }

  lemma {:induction false} VolleyAdmitted(count: nat, e: int, t: int, n: nat, rest: seq<Call>, a: int, b: int, limit: nat, window: nat)
    requires a <= t < b && t < e && count + n <= limit
    ensures Admitted(Fixed, Counter(count, Some(e)), Volley(t, n) + rest, a, b, limit, window)
         == n + Admitted(Fixed, Counter(count + n, Some(e)), rest, a, b, limit, window)
    decreases n
  {
    var all := Volley(t, n) + rest;
    if n == 0 {
      assert all == rest;
    } else {
      assert all[0] == Call(t, Answered);
      assert all[1..] == Volley(t, n - 1) + rest;
      VolleyAdmitted(count + 1, e, t, n - 1, rest, a, b, limit, window);
    }
  }

  /** The bound is sharp: one call, then limit - 1 at the window's last tick, then limit more. */
  lemma {:induction false} FixedWindowBoundIsSharp(limit: nat, window: nat)
    requires limit >= 1 && window >= 2
    ensures var calls := [Call(0, Answered)] + Volley(window - 1, limit - 1) + Volley(window, limit);
            Ordered(calls) && Admitted(Fixed, Missing, calls, 1, 1 + window, limit, window) == Burst(limit)
  {
    var late := Volley(window, limit);
    var tail := Volley(window - 1, limit - 1) + late;
    var calls := [Call(0, Answered)] + Volley(window - 1, limit - 1) + late;
    assert calls == [Call(0, Answered)] + tail;
    assert calls[1..] == tail;
    VolleyAdmitted(1, window, window - 1, limit - 1, late, 1, 1 + window, limit, window);
    var second := Volley(window, limit - 1);
    assert late[1..] == second && second + [] == second;
    VolleyAdmitted(1, 2 * window, window, limit - 1, [], 1, 1 + window, limit, window);
  }

  /** No call, admitted or rejected, moves the reset of a live window; a counter without a TTL,
      or an expired or missing one, gets a full window from the next call that reaches Redis. */
  lemma {:induction false} ResetNeverPostponed(count: nat, e: int, calls: seq<Call>, window: nat)
    requires forall i | 0 <= i < |calls| :: calls[i].time < e
    ensures Run(Fixed, Counter(count, Some(e)), calls, window).Counter?
    ensures Run(Fixed, Counter(count, Some(e)), calls, window).expiry == Some(e)
    decreases calls
  {
    if calls != [] {
      var n := if calls[0].reply.Unreached? then count else count + 1;
      assert After(Fixed, Counter(count, Some(e)), calls[0], window) == Counter(n, Some(e));
      ResetNeverPostponed(n, e, calls[1..], window);
    }
  }

  lemma {:induction false} TtlRepaired(k: Key, c: Call, later: seq<Call>, window: nat)
    requires !c.reply.Unreached?
    requires Seen(k, c.time).Missing? || Seen(k, c.time).expiry.None?
    requires forall i | 0 <= i < |later| :: later[i].time < c.time + window
    ensures var final := Run(Fixed, k, [c] + later, window);
            final.Counter? && final.expiry == Some(c.time + window)
  {
    var next := FixedStep(k, c.time, window);
    assert ([c] + later)[1..] == later;
    ResetNeverPostponed(next.count, c.time + window, later, window);
  }

  /** With Redis answering, a window of n calls admits exactly the first min(n, limit) of them. */
  lemma {:induction false} WindowAdmitsExactlyLimit(count: nat, e: int, calls: seq<Call>, a: int, limit: nat, window: nat)
    requires forall c <- calls :: c.reply.Answered? && a <= c.time < e
    ensures Admitted(Fixed, Counter(count, Some(e)), calls, a, e, limit, window)
         == if |calls| <= Left(limit, count) then |calls| else Left(limit, count)
    decreases calls
  {
    if calls != [] {
      assert calls[0] in calls;
      WindowAdmitsExactlyLimit(count + 1, e, calls[1..], a, limit, window);
    }
  }

  // ---------------------------------------------------------------------------
  // The renewing counter
  // ---------------------------------------------------------------------------

  /** The renewing key is ahead of the fixed one: larger count, later expiry. */
  ghost predicate Ahead(fixed: Key, renewing: Key) {
    match (fixed, renewing)
    case (Missing, Missing) => true
    case (Missing, Counter(_, e)) => true
    case (Counter(n, Some(e)), Counter(m, Some(d))) => n <= m && e <= d
    case (Counter(n, None), Counter(m, None)) => n <= m
    case _ => false
  }

  ghost predicate StartsWithin(k: Key, calls: seq<Call>, window: nat) {
    calls != [] && k.Counter? && k.expiry.Some? ==> k.expiry.value <= calls[0].time + window
  }

  /** On the same trace, with the same limit and window: every call the renewing limiter lets
      through, the fixed-window limiter lets through as well, and its counter is never larger. */
  lemma {:induction false} FixedSimulatesRenewing(fixed: Key, renewing: Key, calls: seq<Call>, limit: nat, window: nat)
    requires Ahead(fixed, renewing) && Ordered(calls) && StartsWithin(fixed, calls, window)
    ensures Ahead(Run(Fixed, fixed, calls, window), Run(Renewing, renewing, calls, window))
    ensures forall i | 0 <= i < |calls| ::
              && Count(Seen(Run(Fixed, fixed, calls[..i], window), calls[i].time))
                 <= Count(Seen(Run(Renewing, renewing, calls[..i], window), calls[i].time))
              && (Passes(Renewing, Run(Renewing, renewing, calls[..i], window), calls[i], limit, window)
                  ==> Passes(Fixed, Run(Fixed, fixed, calls[..i], window), calls[i], limit, window))
    decreases calls
  {
    if calls != [] {
      var c, rest := calls[0], calls[1..];
      var f, r := After(Fixed, fixed, c, window), After(Renewing, renewing, c, window);
      FixedSimulatesRenewing(f, r, rest, limit, window);
      forall i | 0 <= i < |calls|
        ensures Count(Seen(Run(Fixed, fixed, calls[..i], window), calls[i].time))
                <= Count(Seen(Run(Renewing, renewing, calls[..i], window), calls[i].time))
        ensures Passes(Renewing, Run(Renewing, renewing, calls[..i], window), calls[i], limit, window)
                ==> Passes(Fixed, Run(Fixed, fixed, calls[..i], window), calls[i], limit, window)
      {
        if i > 0 {
          assert calls[..i][1..] == rest[..i - 1] && calls[i] == rest[i - 1];
        }
      }
    }
  }

  /** Once a renewing counter lives past the start of the interval, it lives to its end. */
  lemma {:induction false} RenewingWithin(count: nat, e: int, calls: seq<Call>, a: int, b: int, limit: nat, window: nat)
    requires Ordered(calls) && NotBefore(calls, a) && b <= a + window && b <= e
    ensures Admitted(Renewing, Counter(count, Some(e)), calls, a, b, limit, window) <= Left(limit, count)
    decreases calls
  {
    if calls != [] {
      var c := calls[0];
      var k := Counter(count, Some(e));
      assert NotBefore(calls[1..], a);
      if c.time >= b {
        LateCallsDoNotCount(Renewing, k, calls, a, b, limit, window);
      } else if c.reply.Unreached? {
        RenewingWithin(count, e, calls[1..], a, b, limit, window);
      } else {
        assert After(Renewing, k, c, window) == Counter(count + 1, Some(c.time + window));
        RenewingWithin(count + 1, c.time + window, calls[1..], a, b, limit, window);
      }
    }
  }

  /** The renewing limiter admits at most `limit` calls in any interval one window long. */
  lemma {:induction false} RenewingBound(k: Key, calls: seq<Call>, a: int, limit: nat, window: nat)
    requires Ordered(calls)
    ensures Admitted(Renewing, k, calls, a, a + window, limit, window) <= limit
    decreases calls
  {
    if calls != [] {
      var c := calls[0];
      if c.time < a || c.reply.Unreached? {
        RenewingBound(After(Renewing, k, c, window), calls[1..], a, limit, window);
      } else {
        assert NotBefore(calls[1..], a);
        var next := RenewStep(k, c.time, window);
        RenewingWithin(next.count, c.time + window, calls[1..], a, a + window, limit, window);
      }
    }
  }

  /** The calls whose command runs at Redis, whether or not the reply arrives. */
  function Reaching(calls: seq<Call>): (r: seq<Call>)
    ensures |r| <= |calls|
  {
    if calls == [] then []
    else
      var last := calls[|calls| - 1];
      Reaching(calls[..|calls| - 1]) + if last.reply.Unreached? then [] else [last]
  }

  /** The length of the unbroken run that ends the trace: consecutive gaps below `window`. A run that
      reaches back to the start goes on from the count the key then had. */
  function Streak(k: Key, calls: seq<Call>, window: nat): nat {
    if calls == [] then Count(k)
    else if |calls| == 1 then Count(Seen(k, calls[0].time)) + 1
    else if calls[|calls| - 1].time - calls[|calls| - 2].time < window
         then 1 + Streak(k, calls[..|calls| - 1], window)
         else 1
  }

  lemma {:induction false} RunAppend(p: Policy, k: Key, calls: seq<Call>, c: Call, window: nat)
    ensures Run(p, k, calls + [c], window) == After(p, Run(p, k, calls, window), c, window)
    decreases calls
  {
    if calls == [] {
      assert [] + [c] == [c] && [c][1..] == [];
    } else {
      assert (calls + [c])[1..] == calls[1..] + [c];
      RunAppend(p, After(p, k, calls[0], window), calls[1..], c, window);
    }
  }

  lemma {:induction false} ReachingSnoc(calls: seq<Call>, c: Call)
    ensures Reaching(calls + [c]) == Reaching(calls) + if c.reply.Unreached? then [] else [c]
  {
    assert (calls + [c])[..|calls|] == calls;
  }

  /** From every key and over every trace, whatever replies are lost and whatever calls do not reach
      Redis, the renewing counter is exactly the length of the current unbroken run. */
  lemma {:induction false} RenewingCountsStreak(k: Key, calls: seq<Call>, window: nat)
    ensures var reached := Reaching(calls);
            Run(Renewing, k, calls, window) ==
            if reached == [] then k
            else Counter(Streak(k, reached, window), Some(reached[|reached| - 1].time + window))
    decreases |calls|
  {
    if calls != [] {
      var init, last := calls[..|calls| - 1], calls[|calls| - 1];
      assert calls == init + [last];
      RunAppend(Renewing, k, init, last, window);
      RenewingCountsStreak(k, init, window);
      ReachingSnoc(init, last);
      if !last.reply.Unreached? {
        RenewAfterStreak(k, Reaching(init), last, window);
      } else {
        assert Reaching(init) + [] == Reaching(init);
      }
    }
  }

  lemma {:induction false} RenewAfterStreak(k: Key, reached: seq<Call>, c: Call, window: nat)
    ensures var now := if reached == [] then k
                       else Counter(Streak(k, reached, window), Some(reached[|reached| - 1].time + window));
            RenewStep(now, c.time, window).count == Streak(k, reached + [c], window)
  {
    assert (reached + [c])[..|reached|] == reached;
  }

  /** A call passes the renewing limiter if and only if its reply is lost or it is among the first
      `limit` calls of its unbroken run: once exceeded, it rejects until a call-free gap of at least
      `window`. */
  lemma {:induction false} RenewingAdmitsByStreak(k: Key, calls: seq<Call>, c: Call, limit: nat, window: nat)
    ensures Admits(Renewing, Run(Renewing, k, calls, window), c, limit, window)
            <==> c.reply.Answered? && Streak(k, Reaching(calls) + [c], window) <= limit
    ensures Passes(Renewing, Run(Renewing, k, calls, window), c, limit, window)
            <==> !c.reply.Answered? || Streak(k, Reaching(calls) + [c], window) <= limit
  {
    RenewingCountsStreak(k, calls, window);
    RenewAfterStreak(k, Reaching(calls), c, window);
  }

  /** `n + 1` answered calls, one every `gap` ticks. */
  function Steady(n: nat, gap: nat): (r: seq<Call>)
    ensures |r| == n + 1 && forall i | 0 <= i <= n :: r[i] == Call(i * gap, Answered)
  {
    seq(n + 1, i requires 0 <= i => Call(i * gap, Answered))
  }

  lemma {:induction false} SteadyStreak(n: nat, gap: nat, window: nat)
    requires gap < window
    ensures Streak(Missing, Steady(n, gap), window) == n + 1
    ensures Reaching(Steady(n, gap)) == Steady(n, gap)
    decreases n
  {
    var calls := Steady(n, gap);
    if n > 0 {
      assert calls[..n] == Steady(n - 1, gap);
      assert n * gap - (n - 1) * gap == gap;
      SteadyStreak(n - 1, gap, window);
    } else {
      assert calls[..0] == [];
    }
  }

  /** So the limiter is stricter than "more than `limit` calls within `window`": steady calls, one
      per window less a tick, are locked out although no window ever holds more than two. */
  lemma {:induction false} SteadyCallerLockedOut(limit: nat, window: nat)
    requires window >= 2
    ensures var calls := Steady(limit, window - 1);
            && !Admits(Renewing, Run(Renewing, Missing, calls[..limit], window), calls[limit], limit, window)
            && forall i | 0 <= i && i + 2 <= limit :: calls[i + 2].time - calls[i].time >= window
  {
    var calls := Steady(limit, window - 1);
    SteadyStreak(limit, window - 1, window);
    assert calls == calls[..limit] + [calls[limit]];
    if limit > 0 {
      SteadyStreak(limit - 1, window - 1, window);
      assert calls[..limit] == Steady(limit - 1, window - 1);
    }
    RenewingAdmitsByStreak(Missing, calls[..limit], calls[limit], limit, window);
    forall i | 0 <= i && i + 2 <= limit ensures calls[i + 2].time - calls[i].time >= window {
      assert (i + 2) * (window - 1) - i * (window - 1) == 2 * (window - 1);
    }
  }
}

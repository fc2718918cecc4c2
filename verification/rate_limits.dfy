/** The two window limiters and the single-order guard. */
module RateLimits {
  import opened Text
  import opened Words

  const SECOND_NS: nat := 1_000_000_000

  // ---- the rate limiter of the execution loop ----

  datatype Limiter = Limiter(maxPerSecond: nat, windowStart: nat, count: nat)

  function Acquired(l: Limiter, now: nat): (Limiter, bool) {
    if SaturatingSub(now, l.windowStart) >= SECOND_NS then (l.(windowStart := now, count := 1), true)
    else
      var total := (l.count + 1) % WORD;
      (l.(count := total), total <= l.maxPerSecond)
  }

  function Answers(l: Limiter, times: seq<nat>): (r: seq<bool>)
    ensures |r| == |times|
    decreases |times|
  {
    if times == [] then []
    else var (next, ok) := Acquired(l, times[0]); [ok] + Answers(next, times[1..])
  }

  class RateLimiter {
    const maxPerSecond: nat
    var windowStartNs: nat
    var countInWindow: nat

    function View(): Limiter
      reads this
    {
      Limiter(maxPerSecond, windowStartNs, countInWindow)
    }

    constructor (maxPerSecond: nat)
      ensures View() == Limiter(maxPerSecond, 0, 0)
    {
      this.maxPerSecond, windowStartNs, countInWindow := maxPerSecond, 0, 0;
    }

    method TryAcquire(nowNs: nat) returns (ok: bool)
      modifies this
      ensures (View(), ok) == Acquired(old(View()), nowNs)
    {
      if SaturatingSub(nowNs, windowStartNs) >= SECOND_NS {
        windowStartNs, countInWindow := nowNs, 1;
        return true;
      }
      countInWindow := (countInWindow + 1) % WORD;
      // an increment past the limit is not undone
      ok := countInWindow <= maxPerSecond;
    }
  }

  // ---- the throttle of quote commands ----

  datatype Throttle = Throttle(windowMs: nat, maxCommands: nat, started: Option<nat>, commands: nat)

  datatype Decision = Decision(allowed: bool, retryAtMs: Option<nat>)

  function Throttled(t: Throttle, now: nat): (Throttle, Decision) {
    var started := if t.started.Some? then t.started.value else now;
    var expired := SaturatingSub(now, started) >= t.windowMs;
    var start := if expired then now else started;
    var used := if expired then 0 else t.commands;
    if used >= t.maxCommands then
      (t.(started := Some(start), commands := used), Decision(false, Some(SaturatingAdd(start, t.windowMs))))
    else
      (t.(started := Some(start), commands := used + 1), Decision(true, None))
  }

  function Decisions(t: Throttle, times: seq<nat>): (r: seq<bool>)
    ensures |r| == |times|
    decreases |times|
  {
    if times == [] then []
    else var (next, d) := Throttled(t, times[0]); [d.allowed] + Decisions(next, times[1..])
  }

  class QuoteCommandThrottle {
    const windowMs: nat
    const maxCommands: nat
    var windowStartedMs: Option<nat>
    var commandsInWindow: nat

    function View(): Throttle
      reads this
    {
      Throttle(windowMs, maxCommands, windowStartedMs, commandsInWindow)
    }

    constructor (windowMs: nat, maxCommands: nat)
      ensures View() == Throttle(windowMs, maxCommands, None, 0)
    {
      this.windowMs, this.maxCommands := windowMs, maxCommands;
      windowStartedMs, commandsInWindow := None, 0;
    }

    method TryAcquire(nowMs: nat) returns (d: Decision)
      modifies this
      ensures (View(), d) == Throttled(old(View()), nowMs)
    {
      if windowStartedMs.None? { windowStartedMs := Some(nowMs); }
      if SaturatingSub(nowMs, windowStartedMs.value) >= windowMs {
        windowStartedMs := Some(nowMs);
        commandsInWindow := 0;
      }
      if commandsInWindow >= maxCommands {
        return Decision(false, Some(SaturatingAdd(windowStartedMs.value, windowMs)));
      }
      commandsInWindow := commandsInWindow + 1;
      d := Decision(true, None);
    }
  }

  // ---- both are fixed windows ----

  /** The common machine: a call after the window's end opens the next one and is admitted. */
  function Fixed(window: nat, limit: nat, start: int, used: nat, times: seq<nat>): (r: seq<bool>)
    ensures |r| == |times|
    decreases |times|
  {
    if times == [] then []
    else if times[0] - start >= window then [true] + Fixed(window, limit, times[0], 1, times[1..])
    else if used < limit then [true] + Fixed(window, limit, start, used + 1, times[1..])
    else [false] + Fixed(window, limit, start, used, times[1..])
  }

  ghost predicate Monotone(start: int, times: seq<nat>) {
    && (forall i | 0 <= i < |times| :: start <= times[i])
    && (forall i, j | 0 <= i < j < |times| :: times[i] <= times[j])
  }

  function Least(a: nat, b: nat): nat {
    if a <= b then a else b
  }

  lemma {:induction false} LimiterIsFixed(l: Limiter, times: seq<nat>)
    requires l.maxPerSecond >= 1 && Monotone(l.windowStart, times) && l.count + |times| < WORD
    ensures Answers(l, times) == Fixed(SECOND_NS, l.maxPerSecond, l.windowStart, Least(l.count, l.maxPerSecond), times)
    decreases |times|
  {
    if times != [] { LimiterIsFixed(Acquired(l, times[0]).0, times[1..]); }
  }

  lemma {:induction false} ThrottleIsFixed(t: Throttle, times: seq<nat>)
    requires t.maxCommands >= 1 && t.commands <= t.maxCommands
    requires t.started.Some? ==> Monotone(t.started.value, times)
    requires t.started.None? ==> t.commands == 0 && Monotone(0, times)
    ensures Decisions(t, times) ==
            if t.started.Some? then Fixed(t.windowMs, t.maxCommands, t.started.value, t.commands, times)
            else Fixed(t.windowMs, t.maxCommands, -(t.windowMs as int), 1, times)
    decreases |times|
  {
    if times != [] { ThrottleIsFixed(Throttled(t, times[0]).0, times[1..]); }
  }

  /** Calls answered yes in the half-open interval of one window's length from a. */
  function Admitted(times: seq<nat>, answers: seq<bool>, a: nat, window: nat): nat
    requires |times| == |answers|
  {
    if times == [] then 0
    else (if answers[0] && a <= times[0] < a + window then 1 else 0) + Admitted(times[1..], answers[1..], a, window)
  }

  lemma {:induction false} LateCallsDoNotCount(times: seq<nat>, answers: seq<bool>, a: nat, window: nat)
    requires |times| == |answers| && Monotone(a + window, times)
    ensures Admitted(times, answers, a, window) == 0
  {
    if times != [] { LateCallsDoNotCount(times[1..], answers[1..], a, window); }
  }

  /** The induction behind the bound: c calls of the interval were admitted so far, and `spare`
      is one when the window's first call is known to be counted in `used`. */
  lemma {:induction false} FixedBound(
    window: nat, limit: nat, start: int, used: nat, times: seq<nat>, a: nat, c: nat, spare: nat)
    requires limit >= 1 && spare <= 1 && spare <= used <= limit && Monotone(start, times)
    requires times != [] && times[0] < a ==> c == 0
    requires start < a ==> c == 0 || c + spare <= used
    requires a <= start ==> c + spare <= limit + used
    ensures c + Admitted(times, Fixed(window, limit, start, used, times), a, window) + spare <= 2 * limit
    decreases |times|
  {
    if times == [] {
    } else if times[0] >= a + window {
      LateCallsDoNotCount(times, Fixed(window, limit, start, used, times), a, window);
    } else {
      var inside := if a <= times[0] then 1 else 0;
      if times[0] - start >= window {
        FixedBound(window, limit, times[0], 1, times[1..], a, c + inside, spare);
      } else if used < limit {
        FixedBound(window, limit, start, used + 1, times[1..], a, c + inside, spare);
      } else {
        FixedBound(window, limit, start, used, times[1..], a, c, spare);
      }
    }
  }

  /** A limiter that has just been created admits, under a clock that never runs backwards, at
      most twice its limit in any second; at most one less once the clock is past the first
      second of the epoch. */
  lemma LimiterBound(max: nat, times: seq<nat>, a: nat)
    requires max >= 1 && Monotone(0, times) && |times| < WORD
    ensures Admitted(times, Answers(Limiter(max, 0, 0), times), a, SECOND_NS) <= 2 * max
    ensures times != [] && times[0] >= SECOND_NS ==>
              Admitted(times, Answers(Limiter(max, 0, 0), times), a, SECOND_NS) < 2 * max
  {
    LimiterIsFixed(Limiter(max, 0, 0), times);
    FixedBound(SECOND_NS, max, 0, 0, times, a, 0, 0);
    if times != [] && times[0] >= SECOND_NS {
      var inside := if a <= times[0] < a + SECOND_NS then 1 else 0;
      if times[0] >= a + SECOND_NS {
        LateCallsDoNotCount(times, Fixed(SECOND_NS, max, 0, 0, times), a, SECOND_NS);
      } else {
        FixedBound(SECOND_NS, max, times[0], 1, times[1..], a, inside, 1);
      }
    }
  }

  /** A limit of zero still lets one call through whenever a window opens. */
  lemma ZeroLimitAdmits(now: nat)
    requires now >= SECOND_NS
    ensures Admitted([now], Answers(Limiter(0, 0, 0), [now]), now, SECOND_NS) == 1
  {
    assert [now][1..] == [];
  }

  /** So the bound of twice the limit is met by every run exactly for limits of at least one. */
  lemma LimiterBoundExactly(max: nat)
    ensures max >= 1 <==>
            forall times: seq<nat>, a: nat | Monotone(0, times) && |times| < WORD ::
              Admitted(times, Answers(Limiter(max, 0, 0), times), a, SECOND_NS) <= 2 * max
  {
    if max >= 1 {
      forall times: seq<nat>, a: nat | Monotone(0, times) && |times| < WORD
        ensures Admitted(times, Answers(Limiter(max, 0, 0), times), a, SECOND_NS) <= 2 * max
      {
        LimiterBound(max, times, a);
      }
    } else {
      ZeroLimitAdmits(SECOND_NS);
      assert Monotone(0, [SECOND_NS]);
    }
  }

  /** The throttle: at most one less than twice its limit in any window, and nothing at all
      with a limit of zero. */
  lemma ThrottleBound(windowMs: nat, max: nat, times: seq<nat>, a: nat)
    requires Monotone(0, times)
    ensures var n := Admitted(times, Decisions(Throttle(windowMs, max, None, 0), times), a, windowMs);
            if max == 0 then n == 0 else n < 2 * max
  {
    if max == 0 {
      ZeroThrottle(Throttle(windowMs, 0, None, 0), times, a);
    } else {
      ThrottleIsFixed(Throttle(windowMs, max, None, 0), times);
      FixedBound(windowMs, max, -(windowMs as int), 1, times, a, 0, 1);
    }
  }

  lemma {:induction false} ZeroThrottle(t: Throttle, times: seq<nat>, a: nat)
    requires t.maxCommands == 0
    ensures Admitted(times, Decisions(t, times), a, t.windowMs) == 0
    decreases |times|
  {
    if times != [] { ZeroThrottle(Throttled(t, times[0]).0, times[1..], a); }
  }

  // ---- the bound is reached: these are not sliding windows ----

  /** A burst that fits the rest of a window is admitted whole. */
  lemma {:induction false} BurstAdmitted(
    window: nat, limit: nat, start: int, used: nat, t: nat, n: nat, rest: seq<nat>, a: nat)
    requires t - start < window && used + n <= limit && a <= t < a + window
    ensures var times := Repeat<nat>(t, n) + rest;
            Admitted(times, Fixed(window, limit, start, used, times), a, window) ==
            n + Admitted(rest, Fixed(window, limit, start, used + n, rest), a, window)
    decreases n
  {
    var times := Repeat<nat>(t, n) + rest;
    if n == 0 {
      assert times == rest;
    } else {
      assert times[1..] == Repeat<nat>(t, n - 1) + rest;
      BurstAdmitted(window, limit, start, used + 1, t, n - 1, rest, a);
    }
  }

  /** A first call, the rest of the limit at the last moment of its window, and a burst of k + 1
      at the first moment of the next. */
  function TwoBursts(window: nat, limit: nat, t: nat, k: nat): (r: seq<nat>)
    requires window >= 1 && limit >= 1
    ensures |r| == limit + k + 1
  {
    [t] + (Repeat<nat>(t + window - 1, limit - 1) + ([t + window] + Repeat<nat>(t + window, k)))
  }

  lemma TwoBurstsMonotone(window: nat, limit: nat, t: nat, k: nat, start: int)
    requires window >= 1 && limit >= 1 && start <= t
    ensures Monotone(start, TwoBursts(window, limit, t, k))
  {
  }

  /** All but the first call fall within one window's length, and all are admitted. */
  lemma TwoBurstsAdmitted(window: nat, limit: nat, start: int, used: nat, t: nat, k: nat)
    requires window >= 2 && limit >= 1 && t - start >= window && k < limit
    ensures var times := TwoBursts(window, limit, t, k);
            Admitted(times, Fixed(window, limit, start, used, times), t + window - 1, window) == limit + k
  {
    var last := Repeat<nat>(t + window, k);
    var tail := [t + window] + last;
    var first := Repeat<nat>(t + window - 1, limit - 1) + tail;
    assert TwoBursts(window, limit, t, k)[1..] == first && tail[1..] == last;
    BurstAdmitted(window, limit, t, 1, t + window - 1, limit - 1, tail, t + window - 1);
    assert last + [] == last;
    BurstAdmitted(window, limit, t + window, 1, t + window, k, [], t + window - 1);
  }

  lemma LimiterAdmitsBursts(max: nat, k: nat)
    requires k < max && max + k + 1 < WORD
    ensures var times := TwoBursts(SECOND_NS, max, SECOND_NS, k);
            Monotone(SECOND_NS, times) &&
            Admitted(times, Answers(Limiter(max, 0, 0), times), 2 * SECOND_NS - 1, SECOND_NS) == max + k
  {
    TwoBurstsMonotone(SECOND_NS, max, SECOND_NS, k, SECOND_NS);
    LimiterIsFixed(Limiter(max, 0, 0), TwoBursts(SECOND_NS, max, SECOND_NS, k));
    TwoBurstsAdmitted(SECOND_NS, max, 0, 0, SECOND_NS, k);
  }

  /** A burst at the end of one second and another at the start of the next: all but one of
      twice the limit within two nanoseconds. */
  lemma LimiterBoundIsReached(max: nat)
    requires 1 <= max && 2 * max < WORD
    ensures var times := TwoBursts(SECOND_NS, max, SECOND_NS, max - 1);
            Monotone(SECOND_NS, times) &&
            Admitted(times, Answers(Limiter(max, 0, 0), times), 2 * SECOND_NS - 1, SECOND_NS) == 2 * max - 1
  {
    LimiterAdmitsBursts(max, max - 1);
  }

  lemma ThrottleAdmitsBursts(windowMs: nat, max: nat)
    requires windowMs >= 2 && max >= 1
    ensures var times := TwoBursts(windowMs, max, 0, max - 1);
            Monotone(0, times) &&
            Admitted(times, Decisions(Throttle(windowMs, max, None, 0), times), windowMs - 1, windowMs) == 2 * max - 1
  {
    TwoBurstsMonotone(windowMs, max, 0, max - 1, 0);
    ThrottleIsFixed(Throttle(windowMs, max, None, 0), TwoBursts(windowMs, max, 0, max - 1));
    TwoBurstsAdmitted(windowMs, max, -(windowMs as int), 1, 0, max - 1);
  }

  // ---- when they do keep the bound of a sliding window ----

  lemma {:induction false} AdmittedAtMostAll(times: seq<nat>, answers: seq<bool>, a: nat, window: nat)
    requires |times| == |answers|
    ensures Admitted(times, answers, a, window) <= |times|
  {
    if times != [] { AdmittedAtMostAll(times[1..], answers[1..], a, window); }
  }

  /** An interval that begins no later than the current window contains only what is left of
      it. */
  lemma {:induction false} RestOfWindow(window: nat, limit: nat, start: int, used: nat, times: seq<nat>, a: nat)
    requires used <= limit && a <= start && Monotone(start, times)
    ensures Admitted(times, Fixed(window, limit, start, used, times), a, window) <= limit - used
    decreases |times|
  {
    if times == [] {
    } else if times[0] - start >= window {
      LateCallsDoNotCount(times, Fixed(window, limit, start, used, times), a, window);
    } else {
      RestOfWindow(window, limit, start, if used < limit then used + 1 else used, times[1..], a);
    }
  }

  /** A window of one tick is always a sliding window. */
  lemma {:induction false} OneTick(limit: nat, start: int, used: nat, times: seq<nat>, a: nat)
    requires limit >= 1 && used <= limit && Monotone(start, times)
    ensures Admitted(times, Fixed(1, limit, start, used, times), a, 1) <= limit
    decreases |times|
  {
    if times == [] {
    } else if times[0] > a {
      LateCallsDoNotCount(times, Fixed(1, limit, start, used, times), a, 1);
    } else if times[0] == a && start < a {
      RestOfWindow(1, limit, a, 1, times[1..], a);
    } else if times[0] == a {
      RestOfWindow(1, limit, start, used, times, a);
    } else if times[0] - start >= 1 {
      OneTick(limit, times[0], 1, times[1..], a);
    } else {
      OneTick(limit, start, if used < limit then used + 1 else used, times[1..], a);
    }
  }

  lemma {:induction false} NoWindow(times: seq<nat>, answers: seq<bool>, a: nat)
    requires |times| == |answers|
    ensures Admitted(times, answers, a, 0) == 0
  {
    if times != [] { NoWindow(times[1..], answers[1..], a); }
  }

  /** The documented promise: under a clock past the first second of its epoch, never more than
      the limit in any second. */
  ghost predicate LimiterSlides(max: nat) {
    forall times: seq<nat>, a: nat | Monotone(SECOND_NS, times) && |times| < WORD ::
      Admitted(times, Answers(Limiter(max, 0, 0), times), a, SECOND_NS) <= max
  }

  /** It is kept in every run exactly for a limit of one, and for limits that no run of fewer
      than 2^64 calls can exceed. */
  lemma LimiterSlidesExactly(max: nat)
    requires max < WORD
    ensures LimiterSlides(max) <==> max == 1 || max + 2 >= WORD
  {
    if max == 1 || max + 2 >= WORD {
      forall times: seq<nat>, a: nat | Monotone(SECOND_NS, times) && |times| < WORD
        ensures Admitted(times, Answers(Limiter(max, 0, 0), times), a, SECOND_NS) <= max
      {
        if max == 1 { LimiterBound(1, times, a); } else { HugeLimitSlides(max, times, a); }
      }
    } else if max == 0 {
      ZeroLimitAdmits(SECOND_NS);
      assert Monotone(SECOND_NS, [SECOND_NS]);
    } else {
      LimiterAdmitsBursts(max, 1);
    }
  }

  lemma HugeLimitSlides(max: nat, times: seq<nat>, a: nat)
    requires max >= 1 && Monotone(SECOND_NS, times) && |times| < WORD && max + 2 >= WORD
    ensures Admitted(times, Answers(Limiter(max, 0, 0), times), a, SECOND_NS) <= max
  {
    var answers := Answers(Limiter(max, 0, 0), times);
    AdmittedAtMostAll(times, answers, a, SECOND_NS);
    if times != [] {
      LimiterIsFixed(Limiter(max, 0, 0), times);
      if a <= times[0] {
        RestOfWindow(SECOND_NS, max, times[0], 1, times[1..], a);
      } else {
        AdmittedAtMostAll(times[1..], answers[1..], a, SECOND_NS);
      }
    }
  }

  /** The throttle keeps it exactly for limits of at most one and windows of at most one
      millisecond. */
  lemma ThrottleSlidesExactly(windowMs: nat, max: nat)
    ensures (forall times: seq<nat>, a: nat | Monotone(0, times) ::
               Admitted(times, Decisions(Throttle(windowMs, max, None, 0), times), a, windowMs) <= max)
            <==> max <= 1 || windowMs <= 1
  {
    if max <= 1 || windowMs <= 1 {
      forall times: seq<nat>, a: nat | Monotone(0, times)
        ensures Admitted(times, Decisions(Throttle(windowMs, max, None, 0), times), a, windowMs) <= max
      {
        if max <= 1 {
          ThrottleBound(windowMs, max, times, a);
        } else if windowMs == 0 {
          NoWindow(times, Decisions(Throttle(windowMs, max, None, 0), times), a);
        } else {
          ThrottleIsFixed(Throttle(1, max, None, 0), times);
          OneTick(max, -1, 1, times, a);
        }
      }
    } else {
      ThrottleAdmitsBursts(windowMs, max);
    }
  }

  // ---- what a denial promises ----

  /** A denied command is told the earliest later time at which it will be admitted: from now
      on the next call succeeds exactly from that time. */
  lemma DenialNamesTheTime(t: Throttle, now: nat, later: nat)
    requires t.windowMs > 0 && t.maxCommands > 0 && !Throttled(t, now).1.allowed
    requires t.started.Some? ==> t.started.value <= now && t.started.value + t.windowMs < WORD
    requires t.started.None? ==> t.commands == 0
    requires now <= later
    ensures var (next, d) := Throttled(t, now);
            && d.retryAtMs.Some? && d.retryAtMs.value > now
            && (Throttled(next, later).1.allowed <==> later >= d.retryAtMs.value)
  {
  }

  /** A fixed window denies a call only when the limit was used up within one window's length
      ending at it. */
  lemma {:induction false} FixedDenial(window: nat, limit: nat, start: int, used: nat, times: seq<nat>, i: nat)
    requires Monotone(start, times) && i < |times| && !Fixed(window, limit, start, used, times)[i]
    requires start >= 0 || times[0] - start >= window
    ensures var a := SaturatingSub(times[i] + 1, window);
            Admitted(times, Fixed(window, limit, start, used, times), a, window)
            + (if start >= a then used else 0) >= limit
    decreases |times|
  {
    if times[0] - start >= window {
      FixedDenial(window, limit, times[0], 1, times[1..], i - 1);
    } else if used < limit {
      FixedDenial(window, limit, start, used + 1, times[1..], i - 1);
    } else if i > 0 {
      FixedDenial(window, limit, start, used, times[1..], i - 1);
    }
  }

  /** The loop's limiter drops a trigger only when as many as its limit were admitted within the
      second ending at it ... */
  lemma LimiterDenialIsDeserved(max: nat, times: seq<nat>, i: nat)
    requires Monotone(0, times) && |times| < WORD && i < |times|
    ensures !Answers(Limiter(max, 0, 0), times)[i] ==>
              Admitted(times, Answers(Limiter(max, 0, 0), times), SaturatingSub(times[i] + 1, SECOND_NS), SECOND_NS)
              >= max
  {
    if max >= 1 && !Answers(Limiter(max, 0, 0), times)[i] {
      LimiterIsFixed(Limiter(max, 0, 0), times);
      FixedDenial(SECOND_NS, max, 0, 0, times, i);
    }
  }

  /** ... and so does the throttle within one of its windows. */
  lemma ThrottleDenialIsDeserved(windowMs: nat, max: nat, times: seq<nat>, i: nat)
    requires Monotone(0, times) && i < |times|
    ensures var decisions := Decisions(Throttle(windowMs, max, None, 0), times);
            !decisions[i] ==> Admitted(times, decisions, SaturatingSub(times[i] + 1, windowMs), windowMs) >= max
  {
    if max >= 1 && !Decisions(Throttle(windowMs, max, None, 0), times)[i] {
      ThrottleIsFixed(Throttle(windowMs, max, None, 0), times);
      FixedDenial(windowMs, max, -(windowMs as int), 1, times, i);
    }
  }

  // ---- one order at a time ----

  class OrderGuard {
    var inFlight: bool

    constructor ()
      ensures !inFlight
    {
      inFlight := false;
    }

    method TryAcquire() returns (ok: bool)
      modifies this
      ensures ok <==> !old(inFlight)
      ensures inFlight
    {
      ok := !inFlight;
      inFlight := true;
    }

    method Release()
      modifies this
      ensures !inFlight
    {
      inFlight := false;
    }
  }
}

/** What the execution loop lets through, when, and what stops it. */
module ExecutionRails {
  import opened Text
  import opened Words
  import CircuitBreaker
  import opened RateLimits
  import opened ExecutionLoop

  // ---- one turn ----

  /** The trigger passes the tripped breaker's check, the limiter and the guard. */
  predicate LetIn(s: Loop, e: Event) {
    s.running && e.Trigger? && !s.breaker.tripped && Acquired(s.limiter, e.nowNs).1 && !s.guardHeld
  }

  /** The breaker lets the order through as well. */
  predicate Passed(s: Loop, e: Event) {
    && LetIn(s, e) && !e.tripsMidway
    && CircuitBreaker.Passes(s.breaker.ordersFired + 1, s.breaker.maxOrders)
    && CircuitBreaker.Passes(s.breaker.usdCents + e.cents, s.breaker.maxUsdCents)
  }

  ghost predicate Words64(s: Loop, e: Event) {
    && s.breaker.ordersFired < WORD && s.breaker.maxOrders < WORD
    && s.breaker.usdCents < WORD && s.breaker.maxUsdCents < WORD
    && (e.Trigger? ==> e.cents < WORD)
  }

  /** A dry turn notes the order exactly when it is let in; a live turn dispatches exactly when
      it is passed, with the order's cents; nothing else is ever noted. */
  lemma TurnExactly(c: Setup, s: Loop, e: Event)
    requires Words64(s, e)
    ensures var t := Turn(c, s, e);
            && (c.dryRun && LetIn(s, e) ==> t.log == s.log + [WouldFire])
            && (!c.dryRun && Passed(s, e) ==>
                  |t.log| == |s.log| + 2 && t.log[..|s.log|] == s.log
                  && t.log[|s.log|] == Permitted(e.cents) && Dispatch(t.log[|s.log| + 1]))
            && (!(c.dryRun && LetIn(s, e)) && !(!c.dryRun && Passed(s, e)) ==> t.log == s.log)
  {
    hide Acquired, CircuitBreaker.Checked, Refilled;
    if !c.dryRun && LetIn(s, e) { CircuitBreaker.AcceptsExactly(AtCheck(s.breaker, e), e.cents); }
  }

  /** What is dispatched: a fresh signature, or the body at the pool's cursor if there is one. */
  lemma DispatchedExactly(c: Setup, s: Loop, e: Event)
    requires Words64(s, e) && !c.dryRun && Passed(s, e)
    ensures Turn(c, s, e).log[|s.log| + 1] ==
            if c.signs then Signed else if s.cursor < |c.bodies| then Posted(c.bodies[s.cursor]) else Exhausted
  {
    hide Acquired, CircuitBreaker.Checked, Refilled;
    CircuitBreaker.AcceptsExactly(AtCheck(s.breaker, e), e.cents);
  }

  /** What ends the loop: the shutdown flag, a closed channel, a trigger that finds the breaker
      tripped, dry run or not, one that the breaker refuses, or a dispatch that ran into a
      reconnect. An empty channel does not. */
  lemma StopsExactly(c: Setup, s: Loop, e: Event)
    requires Words64(s, e) && s.running
    ensures !Turn(c, s, e).running <==>
            || e.Shutdown? || e.Disconnected?
            || (e.Trigger? && s.breaker.tripped)
            || (!c.dryRun && LetIn(s, e) && !Passed(s, e))
            || (!c.dryRun && Passed(s, e) && e.outcome.RejectedOnReconnect? && (c.signs || s.cursor < |c.bodies|))
    ensures !c.dryRun && Passed(s, e) && e.outcome.RejectedOnReconnect? ==>
              (c.signs || s.cursor < |c.bodies| ==> Turn(c, s, e).breaker.tripped)
    ensures e.Empty? ==> Turn(c, s, e) == s
  {
    hide Acquired, CircuitBreaker.Checked, Refilled;
    if !c.dryRun && LetIn(s, e) { CircuitBreaker.AcceptsExactly(AtCheck(s.breaker, e), e.cents); }
  }

  // ---- stops are final ----

  lemma {:induction false} RunAppend(c: Setup, s: Loop, a: seq<Event>, b: seq<Event>)
    ensures Run(c, s, a + b) == Run(c, Run(c, s, a), b)
  {
    hide Turn;
    if b == [] {
      assert a + b == a;
    } else {
      var n := |b| - 1;
      RunAppend(c, s, a, b[..n]);
      assert (a + b)[..|a + b| - 1] == a + b[..n];
    }
  }

  /** Once a turn has ended the loop nothing is noted any more, whatever comes. */
  lemma NothingAfterTheEnd(c: Setup, s: Loop, a: seq<Event>, b: seq<Event>)
    requires !Run(c, s, a).running
    ensures Run(c, s, a + b).log == Run(c, s, a).log
  {
    RunAppend(c, s, a, b);
    Stopped(c, Run(c, s, a), b);
  }

  lemma {:induction false} Stopped(c: Setup, s: Loop, events: seq<Event>)
    requires !s.running
    ensures Run(c, s, events) == s
  {
    if events != [] { Stopped(c, s, events[..|events| - 1]); }
  }

  /** A breaker found tripped lets nothing more through, live or dry. */
  lemma {:induction false} NothingOnceTripped(c: Setup, s: Loop, events: seq<Event>)
    requires s.breaker.tripped
    ensures Run(c, s, events).log == s.log && Run(c, s, events).breaker.tripped
    ensures (exists e :: e in events && e.Trigger?) ==> !Run(c, s, events).running
  {
    hide Acquired, CircuitBreaker.Checked, Refilled;
    if events != [] {
      var n := |events| - 1;
      NothingOnceTripped(c, s, events[..n]);
      assert events == events[..n] + [events[n]];
    }
  }

  /** So a dispatch that ran into a reconnect is the last. */
  lemma ReconnectIsTheLast(c: Setup, s: Loop, e: Event, events: seq<Event>)
    requires Words64(s, e) && !c.dryRun && Passed(s, e) && e.outcome.RejectedOnReconnect?
    requires c.signs || s.cursor < |c.bodies|
    ensures var t := Turn(c, s, e); t.breaker.tripped && !t.running && Run(c, t, events).log == t.log
  {
    hide Turn;
    StopsExactly(c, s, e);
    Stopped(c, Turn(c, s, e), events);
  }

  // ---- how much is let in ----

  predicate Noted(e: Entry) {
    e.Permitted? || e.WouldFire?
  }

  function NotedCount(log: seq<Entry>): nat {
    if log == [] then 0 else NotedCount(log[..|log| - 1]) + if Noted(log[|log| - 1]) then 1 else 0
  }

  /** The times of the triggers that led to the noted orders of a run. */
  function NotedTimes(c: Setup, s: Loop, events: seq<Event>): seq<nat> {
    if events == [] then []
    else
      var before, e := events[..|events| - 1], events[|events| - 1];
      if e.Trigger? && NotedCount(Run(c, s, events).log) > NotedCount(Run(c, s, before).log)
      then NotedTimes(c, s, before) + [e.nowNs] else NotedTimes(c, s, before)
  }

  /** The times at which the limiter was asked. */
  function AskedTimes(c: Setup, s: Loop, events: seq<Event>): seq<nat> {
    if events == [] then []
    else
      var t, e := Run(c, s, events[..|events| - 1]), events[|events| - 1];
      if t.running && e.Trigger? && !t.breaker.tripped
      then AskedTimes(c, s, events[..|events| - 1]) + [e.nowNs]
      else AskedTimes(c, s, events[..|events| - 1])
  }

  /** Triggers come with a clock that never runs backwards. */
  ghost predicate Clocked(events: seq<Event>) {
    forall i, j | 0 <= i < j < |events| && events[i].Trigger? && events[j].Trigger? ::
      events[i].nowNs <= events[j].nowNs
  }

  lemma NotedGrows(log: seq<Entry>, cents: nat, entry: Entry)
    requires Dispatch(entry)
    ensures NotedCount(log + [Permitted(cents), entry]) == NotedCount(log) + 1
    ensures NotedCount(log + [WouldFire]) == NotedCount(log) + 1
  {
    var one, two := log + [Permitted(cents)], log + [Permitted(cents), entry];
    assert two[..|two| - 1] == one && one[..|one| - 1] == log;
    assert (log + [WouldFire])[..|log|] == log;
  }

  lemma TurnNotes(c: Setup, s: Loop, e: Event)
    ensures var t := Turn(c, s, e);
            && NotedCount(s.log) <= NotedCount(t.log) <= NotedCount(s.log) + 1
            && (NotedCount(t.log) > NotedCount(s.log) ==> e.Trigger? && LetIn(s, e))
            && t.limiter ==
               if s.running && e.Trigger? && !s.breaker.tripped then Acquired(s.limiter, e.nowNs).0 else s.limiter
  {
    hide Acquired, CircuitBreaker.Checked, Refilled, NotedCount;
    if e.Trigger? { NotedGrows(s.log, e.cents, FiredEntry(c, s)); }
  }

  /** There is a time for each noted order. */
  lemma {:induction false} OneTimeEach(c: Setup, s: Loop, events: seq<Event>)
    requires s.log == []
    ensures |NotedTimes(c, s, events)| == NotedCount(Run(c, s, events).log)
  {
    hide Turn, LetIn;
    if events != [] {
      OneTimeEach(c, s, events[..|events| - 1]);
      TurnNotes(c, Run(c, s, events[..|events| - 1]), events[|events| - 1]);
    }
  }

  /** How many of these times lie in one window from a. */
  function Within(times: seq<nat>, a: nat, window: nat): nat {
    if times == [] then 0
    else Within(times[..|times| - 1], a, window) + if a <= times[|times| - 1] < a + window then 1 else 0
  }

  function LimiterAfter(l: Limiter, times: seq<nat>): Limiter
    decreases |times|
  {
    if times == [] then l else LimiterAfter(Acquired(l, times[0]).0, times[1..])
  }

  lemma {:induction false} OneMoreAsked(l: Limiter, times: seq<nat>, t: nat)
    ensures LimiterAfter(l, times + [t]) == Acquired(LimiterAfter(l, times), t).0
    ensures Answers(l, times + [t]) == Answers(l, times) + [Acquired(LimiterAfter(l, times), t).1]
    decreases |times|
  {
    hide Acquired;
    if times == [] {
      assert [t][1..] == [] && [] + [t] == [t];
    } else {
      OneMoreAsked(Acquired(l, times[0]).0, times[1..], t);
      assert (times + [t])[1..] == times[1..] + [t];
    }
  }

  lemma {:induction false} OneMoreAdmitted(times: seq<nat>, answers: seq<bool>, t: nat, ok: bool, a: nat, window: nat)
    requires |times| == |answers|
    ensures Admitted(times + [t], answers + [ok], a, window) ==
            Admitted(times, answers, a, window) + if ok && a <= t < a + window then 1 else 0
  {
    if times == [] {
      assert times + [t] == [t] && answers + [ok] == [ok];
      assert [t][1..] == [] && [ok][1..] == [];
    } else {
      OneMoreAdmitted(times[1..], answers[1..], t, ok, a, window);
      assert (times + [t])[1..] == times[1..] + [t] && (answers + [ok])[1..] == answers[1..] + [ok];
    }
  }

  /** Whatever is noted was admitted by the limiter. */
  lemma {:induction false} NotedWereAdmitted(c: Setup, s: Loop, events: seq<Event>, a: nat, window: nat)
    ensures var asked := AskedTimes(c, s, events);
            && Run(c, s, events).limiter == LimiterAfter(s.limiter, asked)
            && Within(NotedTimes(c, s, events), a, window) <= Admitted(asked, Answers(s.limiter, asked), a, window)
            && |asked| <= |events|
  {
    hide Turn, Acquired, NotedCount;
    if events != [] {
      var before, e := events[..|events| - 1], events[|events| - 1];
      NotedWereAdmitted(c, s, before, a, window);
      var t, asked := Run(c, s, before), AskedTimes(c, s, before);
      TurnNotes(c, t, e);
      if e.Trigger? {
        OneMoreAsked(s.limiter, asked, e.nowNs);
        OneMoreAdmitted(asked, Answers(s.limiter, asked), e.nowNs, Acquired(t.limiter, e.nowNs).1, a, window);
        OneMoreWithin(NotedTimes(c, s, before), e.nowNs, a, window);
      }
    }
  }

  lemma OneMoreWithin(times: seq<nat>, t: nat, a: nat, window: nat)
    ensures Within(times + [t], a, window) == Within(times, a, window) + if a <= t < a + window then 1 else 0
  {
    assert (times + [t])[..|times|] == times;
  }

  lemma {:induction false} AskedAreTriggers(c: Setup, s: Loop, events: seq<Event>, k: nat)
    requires k < |AskedTimes(c, s, events)|
    ensures exists i :: 0 <= i < |events| && events[i].Trigger? && events[i].nowNs == AskedTimes(c, s, events)[k]
  {
    var n := |events| - 1;
    if k < |AskedTimes(c, s, events[..n])| {
      AskedAreTriggers(c, s, events[..n], k);
      var i :| 0 <= i < n && events[..n][i].Trigger? && events[..n][i].nowNs == AskedTimes(c, s, events[..n])[k];
      assert events[i].Trigger?;
    }
  }

  lemma {:induction false} AskedInOrder(c: Setup, s: Loop, events: seq<Event>)
    requires Clocked(events)
    ensures Monotone(0, AskedTimes(c, s, events))
  {
    hide Turn, Run;
    if events != [] {
      var n := |events| - 1;
      AskedInOrder(c, s, events[..n]);
      var before := AskedTimes(c, s, events[..n]);
      if events[n].Trigger? {
        forall k | 0 <= k < |before| ensures before[k] <= events[n].nowNs {
          AskedAreTriggers(c, s, events[..n], k);
          var i :| 0 <= i < n && events[..n][i].Trigger? && events[..n][i].nowNs == before[k];
          assert events[i].Trigger?;
        }
      }
    }
  }

  /** Over every run from a fresh limiter, live or dry, at most twice the limit of orders is
      noted in any second; at most one less once the clock is past the first second. */
  lemma RunsAreLimited(c: Setup, s: Loop, events: seq<Event>, a: nat)
    requires s.log == [] && s.limiter == Limiter(s.limiter.maxPerSecond, 0, 0) && s.limiter.maxPerSecond >= 1
    requires Clocked(events) && |events| < WORD
    ensures |NotedTimes(c, s, events)| == NotedCount(Run(c, s, events).log)
    ensures Within(NotedTimes(c, s, events), a, SECOND_NS) <= 2 * s.limiter.maxPerSecond
    ensures (forall e | e in events && e.Trigger? :: e.nowNs >= SECOND_NS) ==>
              Within(NotedTimes(c, s, events), a, SECOND_NS) < 2 * s.limiter.maxPerSecond
  {
    hide Turn, Run, NotedCount, Acquired;
    var asked := AskedTimes(c, s, events);
    OneTimeEach(c, s, events);
    NotedWereAdmitted(c, s, events, a, SECOND_NS);
    AskedInOrder(c, s, events);
    LimiterBound(s.limiter.maxPerSecond, asked, a);
    if (forall e | e in events && e.Trigger? :: e.nowNs >= SECOND_NS) {
      if asked == [] {
        assert Admitted(asked, Answers(s.limiter, asked), a, SECOND_NS) == 0;
      } else {
        AskedAreTriggers(c, s, events, 0);
        var i :| 0 <= i < |events| && events[i].Trigger? && events[i].nowNs == asked[0];
        assert events[i] in events;
      }
    }
  }
}

/** src/shared/resilience/circuit_breaker.py: the breaker every call of one resource goes through.
    Its lock makes each method atomic, so a run of any number of tasks is a sequence of events in
    clock order: admission requests, recorded successes and recorded failures, which may arrive
    arbitrarily late. */
module CircuitBreaker {
  import opened Common

  datatype Phase = Closed | Open | HalfOpen

  datatype Limits = Limits(failureThreshold: int, recoverySeconds: real, halfOpenMaxCalls: int) {

    ghost predicate Valid()
    {
      failureThreshold >= 1 && recoverySeconds >= 0.5 && halfOpenMaxCalls >= 1
    }
  }

  datatype Event = Allow(at: real) | Success(at: real) | Failure(at: real)

  datatype State = State(phase: Phase, failureCount: int, openedAt: real, halfOpenCalls: int) {

    /** What a request at `now` is answered, and with it which phase it leaves behind. */
    function Allows(limits: Limits, now: real): bool
    {
      match phase
      case Closed => true
      case Open => now - openedAt >= limits.recoverySeconds && 0 < limits.halfOpenMaxCalls
      case HalfOpen => halfOpenCalls < limits.halfOpenMaxCalls
    }

    function Step(limits: Limits, e: Event): State
    {
      match e
      case Allow(now) =>
        if phase.Open? && now - openedAt >= limits.recoverySeconds then
          this.(phase := HalfOpen, halfOpenCalls := if Allows(limits, now) then 1 else 0)
        else if phase.HalfOpen? && Allows(limits, now) then
          this.(halfOpenCalls := halfOpenCalls + 1)
        else
          this
      case Success(_) =>
        if phase.Closed? then this.(failureCount := 0)
        else this.(phase := Closed, failureCount := 0, halfOpenCalls := 0)
      case Failure(now) =>
        if phase.HalfOpen? then State(Open, 0, now, 0)
        else if failureCount + 1 >= limits.failureThreshold then
          this.(phase := Open, failureCount := 0, openedAt := now)
        else this.(failureCount := failureCount + 1)
    }
  }

  const INITIAL := State(Closed, 0, 0.0, 0)

  function Run(limits: Limits, s: State, events: seq<Event>): State
    decreases events
  {
    if events == [] then s else Run(limits, s.Step(limits, events[0]), events[1..])
  }

  ghost predicate InClockOrder(start: real, events: seq<Event>)
    decreases events
  {
    events == [] || (start <= events[0].at && InClockOrder(events[0].at, events[1..]))
  }

  /** How many requests made up to and including `until` were admitted. */
  function Admitted(limits: Limits, s: State, events: seq<Event>, until: real): nat
    decreases events
  {
    if events == [] then 0
    else
      (if events[0].Allow? && events[0].at <= until && s.Allows(limits, events[0].at) then 1 else 0)
      + Admitted(limits, s.Step(limits, events[0]), events[1..], until)
  }

  lemma {:induction false} RunSnoc(limits: Limits, s: State, events: seq<Event>, e: Event)
    ensures Run(limits, s, events + [e]) == Run(limits, s, events).Step(limits, e)
    decreases events
  {
    if events == [] {
      assert [] + [e] == [e];
      assert Run(limits, s, [e]) == Run(limits, s.Step(limits, e), []);
    } else {
      assert (events + [e])[1..] == events[1..] + [e];
      RunSnoc(limits, s.Step(limits, events[0]), events[1..], e);
    }
  }

  // ----- Counters stay in range -----

  ghost predicate InRange(limits: Limits, s: State)
  {
    && 0 <= s.failureCount < limits.failureThreshold
    && 0 <= s.halfOpenCalls <= limits.halfOpenMaxCalls
  }

  /** In every reachable state the failure count is below the threshold and no more probes are
      out than allowed. */
  lemma {:induction false} CountersInRange(limits: Limits, s: State, events: seq<Event>)
    requires limits.Valid() && InRange(limits, s)
    ensures InRange(limits, Run(limits, s, events))
    decreases events
  {
    if events != [] {
      CountersInRange(limits, s.Step(limits, events[0]), events[1..]);
    }
  }

  // ----- How much an outage lets through -----

  ghost predicate NoSuccess(events: seq<Event>)
  {
    forall i :: 0 <= i < |events| ==> !events[i].Success?
  }

  /** Whole recovery periods between two instants. */
  function Periods(limits: Limits, from: real, to: real): int
    requires limits.recoverySeconds > 0.0
  {
    ((to - from) / limits.recoverySeconds).Floor
  }

  lemma PeriodsMonotone(limits: Limits, a: real, b: real, to: real)
    requires limits.Valid() && a <= b <= to
    ensures 0 <= Periods(limits, b, to) <= Periods(limits, a, to)
  {
    var x, y, r := to - b, to - a, limits.recoverySeconds;
    assert x / r * r == x && y / r * r == y;
    assert 0.0 <= x / r <= y / r;
  }

  lemma OnePeriodLater(limits: Limits, a: real, b: real, to: real)
    requires limits.Valid() && b - a >= limits.recoverySeconds && b <= to
    ensures 0 <= Periods(limits, b, to) + 1 <= Periods(limits, a, to)
  {
    var r, q := limits.recoverySeconds, (to - b) / limits.recoverySeconds;
    PeriodsMonotone(limits, b, b, to);
    PeriodsMonotone(limits, a, b - r, to);
    QuotientOf(to - (b - r), q + 1.0, r);
    assert (q + 1.0).Floor == q.Floor + 1;
  }

  /** How many more requests an outage can let through up to `until`, given where it stands. */
  function Allowance(limits: Limits, s: State, now: real, until: real): int
    requires limits.recoverySeconds > 0.0
  {
    if s.phase.Open? then limits.halfOpenMaxCalls * Periods(limits, s.openedAt, until)
    else limits.halfOpenMaxCalls - s.halfOpenCalls + limits.halfOpenMaxCalls * Periods(limits, now, until)
  }

  /** One event, success excepted, spends of the allowance whatever it admits. */
  lemma AllowanceSpent(limits: Limits, s: State, now: real, e: Event, until: real)
    requires limits.Valid() && InRange(limits, s) && !s.phase.Closed? && !e.Success?
    requires now <= e.at <= until && s.openedAt <= now
    ensures (if e.Allow? && s.Allows(limits, e.at) then 1 else 0)
            + Allowance(limits, s.Step(limits, e), e.at, until) <= Allowance(limits, s, now, until)
  {
    var h := limits.halfOpenMaxCalls;
    PeriodsMonotone(limits, now, e.at, until);
    PeriodsMonotone(limits, s.openedAt, e.at, until);
    ScaleInt(Periods(limits, e.at, until), Periods(limits, now, until), h);
    ScaleInt(Periods(limits, e.at, until), Periods(limits, s.openedAt, until), h);
    if s.phase.Open? && e.Allow? && e.at - s.openedAt >= limits.recoverySeconds {
      OnePeriodLater(limits, s.openedAt, e.at, until);
      ScaleInt(Periods(limits, e.at, until) + 1, Periods(limits, s.openedAt, until), h);
      assert h * (Periods(limits, e.at, until) + 1) == h * Periods(limits, e.at, until) + h;
    }
  }

  lemma {:induction false} OutageSpends(limits: Limits, s: State, now: real, events: seq<Event>, until: real)
    requires limits.Valid() && InRange(limits, s) && !s.phase.Closed? && NoSuccess(events)
    requires InClockOrder(now, events) && s.openedAt <= now <= until
    ensures Admitted(limits, s, events, until) <= Allowance(limits, s, now, until)
    decreases events
  {
    PeriodsMonotone(limits, s.openedAt, now, until);
    PeriodsMonotone(limits, now, now, until);
    ScaleInt(0, Periods(limits, s.openedAt, until), limits.halfOpenMaxCalls);
    ScaleInt(0, Periods(limits, now, until), limits.halfOpenMaxCalls);
    if events != [] {
      var e := events[0];
      var next := s.Step(limits, e);
      assert NoSuccess(events[1..]) by {
        forall i | 0 <= i < |events[1..]| ensures !events[1..][i].Success? {
          assert events[1..][i] == events[i + 1];
        }
      }
      assert !e.Success?;
      if e.at <= until {
        AllowanceSpent(limits, s, now, e, until);
        OutageSpends(limits, next, e.at, events[1..], until);
      } else {
        NothingAfter(limits, s, events, until);
      }
    }
  }

  lemma {:induction false} NothingAfter(limits: Limits, s: State, events: seq<Event>, until: real)
    requires events != [] ==> until < events[0].at && InClockOrder(events[0].at, events)
    ensures Admitted(limits, s, events, until) == 0
    decreases events
  {
    if events != [] {
      NothingAfter(limits, s.Step(limits, events[0]), events[1..], until);
    }
  }

  lemma OutageFrom(limits: Limits, s: State, events: seq<Event>, until: real)
    requires limits.Valid() && InRange(limits, s) && s.phase.Open? && NoSuccess(events)
    requires InClockOrder(s.openedAt, events) && s.openedAt <= until
    ensures Admitted(limits, s, events, until)
            <= limits.halfOpenMaxCalls * Periods(limits, s.openedAt, until)
  {
    OutageSpends(limits, s, s.openedAt, events, until);
  }

  // ----- Since when a breaker is open -----

  function FailureCount(events: seq<Event>): nat
    decreases events
  {
    if events == [] then 0 else FailureCount(events[..|events| - 1]) + if events[|events| - 1].Failure? then 1 else 0
  }

  /** Event `k` is a failure that opened the breaker, or opened it anew. Since then no success was recorded and
      nobody was admitted, and fewer failures came than it takes to open it anew. */
  ghost predicate OpenedBy(limits: Limits, events: seq<Event>, k: nat)
  {
    && k < |events| && events[k].Failure?
    && (var s := Run(limits, INITIAL, events[..k + 1]);
        && s.phase.Open? && s.openedAt == events[k].at && s.failureCount == 0
        && NobodyAdmitted(limits, s, events[k + 1..]))
    && NoSuccess(events[k + 1..]) && FailureCount(events[k + 1..]) < limits.failureThreshold
  }

  ghost predicate NobodyAdmitted(limits: Limits, s: State, events: seq<Event>)
  {
    forall until :: Admitted(limits, s, events, until) == 0
  }

  /** An open breaker was opened by a failure of its run, holds the very instant of that failure, and counts
      the failures that came late since. */
  lemma {:induction false} OpenSince(limits: Limits, events: seq<Event>) returns (k: nat)
    requires limits.Valid() && Run(limits, INITIAL, events).phase.Open?
    ensures OpenedBy(limits, events, k)
    ensures Run(limits, INITIAL, events).openedAt == events[k].at
    ensures Run(limits, INITIAL, events).failureCount == FailureCount(events[k + 1..])
    decreases events
  {
    var n := |events| - 1;
    var h, e := events[..n], events[n];
    var s := Run(limits, INITIAL, h);
    assert events == h + [e];
    RunSnoc(limits, INITIAL, h, e);
    CountersInRange(limits, INITIAL, h);
    if e.Failure? && (s.phase.HalfOpen? || s.failureCount + 1 >= limits.failureThreshold) {
      k := n;
      assert events[..k + 1] == events && events[k + 1..] == [];
    } else {
      k := OpenSince(limits, h);
      OpenStill(limits, h, e, k);
    }
  }

  lemma OpenStill(limits: Limits, h: seq<Event>, e: Event, k: nat)
    requires limits.Valid() && OpenedBy(limits, h, k) && !e.Success?
    requires Run(limits, INITIAL, h).phase.Open? && Run(limits, INITIAL, h + [e]).phase.Open?
    requires Run(limits, INITIAL, h).failureCount == FailureCount(h[k + 1..])
    requires e.Failure? ==> Run(limits, INITIAL, h).failureCount + 1 < limits.failureThreshold
    ensures OpenedBy(limits, h + [e], k)
    ensures Run(limits, INITIAL, h + [e]).failureCount == FailureCount((h + [e])[k + 1..])
  {
    var s, first, tail := Run(limits, INITIAL, h), Run(limits, INITIAL, h[..k + 1]), h[k + 1..];
    RunSnoc(limits, INITIAL, h, e);
    assert (h + [e])[..k + 1] == h[..k + 1] && (h + [e])[k + 1..] == tail + [e];
    assert h[..k + 1] + tail == h;
    RunConcat(limits, INITIAL, h[..k + 1], tail);
    FailureCountSnoc(tail, e);
    forall until ensures Admitted(limits, first, tail + [e], until) == 0 {
      AdmittedSnoc(limits, first, tail, e, until);
    }
  }

  lemma FailureCountSnoc(events: seq<Event>, e: Event)
    ensures FailureCount(events + [e]) == FailureCount(events) + if e.Failure? then 1 else 0
  {
    assert (events + [e])[..|events|] == events;
  }

  lemma {:induction false} RunConcat(limits: Limits, s: State, a: seq<Event>, b: seq<Event>)
    ensures Run(limits, s, a + b) == Run(limits, Run(limits, s, a), b)
    decreases a
  {
    if a == [] {
      assert a + b == b;
    } else {
      assert (a + b)[1..] == a[1..] + b;
      RunConcat(limits, s.Step(limits, a[0]), a[1..], b);
    }
  }

  lemma {:induction false} AdmittedSnoc(limits: Limits, s: State, events: seq<Event>, e: Event, until: real)
    ensures Admitted(limits, s, events + [e], until)
            == Admitted(limits, s, events, until)
               + if e.Allow? && e.at <= until && Run(limits, s, events).Allows(limits, e.at) then 1 else 0
    decreases events
  {
    if events == [] {
      assert [e][1..] == [];
      assert Admitted(limits, s.Step(limits, e), [], until) == 0;
    } else {
      assert (events + [e])[1..] == events[1..] + [e];
      AdmittedSnoc(limits, s.Step(limits, events[0]), events[1..], e, until);
    }
  }

  /** The outage bound: whenever a run ends with the breaker open, then counted from the very failure that
      opened it, and as long as no success is recorded, at most `halfOpenMaxCalls` requests get through per
      elapsed recovery period, and none during the first, whatever failures arrive late and whoever asks. */
  lemma OutageBound(limits: Limits, events: seq<Event>, after: seq<Event>, until: real) returns (k: nat)
    requires limits.Valid() && Run(limits, INITIAL, events).phase.Open? && NoSuccess(after)
    requires InClockOrder(0.0, events + after) && forall i :: 0 <= i < |events| ==> events[i].at <= until
    ensures OpenedBy(limits, events, k)
    ensures Admitted(limits, Run(limits, INITIAL, events), after, until)
            <= limits.halfOpenMaxCalls * ((until - events[k].at) / limits.recoverySeconds).Floor
    ensures until < events[k].at + limits.recoverySeconds ==> Admitted(limits, Run(limits, INITIAL, events), after, until) == 0
  {
    k := OpenSince(limits, events);
    var s := Run(limits, INITIAL, events);
    CountersInRange(limits, INITIAL, events);
    LaterThan(0.0, events, after, k);
    OutageFrom(limits, s, after, until);
    if until < events[k].at + limits.recoverySeconds {
      NoPeriod(limits, events[k].at, until);
    }
  }

  lemma NoPeriod(limits: Limits, from: real, until: real)
    requires limits.Valid() && from <= until < from + limits.recoverySeconds
    ensures Periods(limits, from, until) == 0
  {
    var q := (until - from) / limits.recoverySeconds;
    CancelProducts(q, 1.0, limits.recoverySeconds, until - from, limits.recoverySeconds);
    CancelProducts(0.0, q, limits.recoverySeconds, 0.0, until - from);
  }

  lemma {:induction false} LaterThan(start: real, events: seq<Event>, after: seq<Event>, k: nat)
    requires InClockOrder(start, events + after) && k < |events|
    ensures InClockOrder(events[k].at, after) && start <= events[k].at
    decreases events
  {
    assert (events + after)[1..] == events[1..] + after;
    if k > 0 {
      LaterThan(events[0].at, events[1..], after, k - 1);
    } else {
      TailLater(events[0].at, events[1..], after);
    }
  }

  lemma {:induction false} TailLater(start: real, events: seq<Event>, after: seq<Event>)
    requires InClockOrder(start, events + after)
    ensures InClockOrder(start, after)
    decreases events
  {
    if events == [] {
      assert events + after == after;
    } else {
      assert (events + after)[1..] == events[1..] + after;
      TailLater(events[0].at, events[1..], after);
    }
  }

  // ----- What an open breaker does with requests, and with failures that arrive late -----

  function Requests(times: seq<real>): seq<Event> { seq(|times|, i requires 0 <= i < |times| => Allow(times[i])) }

  function Late(times: seq<real>): seq<Event> { seq(|times|, i requires 0 <= i < |times| => Failure(times[i])) }

  /** As long as nothing is recorded, exactly the first requests past the recovery time get through, as many
      as are allowed. */
  lemma {:induction false} ProbesExactly(limits: Limits, s: State, times: seq<real>, until: real)
    requires limits.Valid() && s.phase.Open? && exists start :: Chronological(start, times)
    ensures Admitted(limits, s, Requests(times), until)
            == MinInt(limits.halfOpenMaxCalls, CountWithin(times, s.openedAt + limits.recoverySeconds, until))
    decreases times
  {
    if times != [] {
      var t, rest := times[0], times[1..];
      assert Requests(times)[1..] == Requests(rest);
      assert Chronological(t, rest);
      if t < s.openedAt + limits.recoverySeconds {
        ProbesExactly(limits, s, rest, until);
      } else {
        ProbesLeft(limits, s.Step(limits, Allow(t)), t, rest, s.openedAt + limits.recoverySeconds, until);
        NoneWithin(t, rest, s.openedAt + limits.recoverySeconds, until);
      }
    }
  }

  lemma {:induction false} NoneWithin(start: real, times: seq<real>, from: real, until: real)
    requires Chronological(start, times)
    ensures start > until ==> CountWithin(times, from, until) == 0
    decreases times
  {
    if times != [] { NoneWithin(times[0], times[1..], from, until); }
  }

  lemma {:induction false} ProbesLeft(limits: Limits, s: State, start: real, times: seq<real>, from: real, until: real)
    requires s.phase.HalfOpen? && 0 <= s.halfOpenCalls <= limits.halfOpenMaxCalls && from <= start && Chronological(start, times)
    ensures Admitted(limits, s, Requests(times), until)
            == MinInt(limits.halfOpenMaxCalls - s.halfOpenCalls, CountWithin(times, from, until))
    decreases times
  {
    if times != [] {
      assert Requests(times)[1..] == Requests(times[1..]);
      ProbesLeft(limits, s.Step(limits, Allow(times[0])), times[0], times[1..], from, until);
      NoneWithin(times[0], times[1..], from, until);
    }
  }

  /** Failures that arrive late, of calls admitted before the breaker opened, restart the recovery time with
      every `failureThreshold`-th of them, and only with those. */
  lemma {:induction false} LateFailuresRestart(limits: Limits, s: State, times: seq<real>)
    requires limits.Valid() && s.phase.Open? && s.failureCount == 0
    ensures var n := Run(limits, s, Late(times));
      && n.phase.Open? && n.failureCount == |times| % limits.failureThreshold
      && n.openedAt == if |times| < limits.failureThreshold then s.openedAt
                       else times[|times| / limits.failureThreshold * limits.failureThreshold - 1]
    decreases times
  {
    var th := limits.failureThreshold;
    Whole(|times|, th);
    if times == [] {
      assert Late(times) == [];
    } else {
      var n := |times| - 1;
      LateFailuresRestart(limits, s, times[..n]);
      assert Late(times) == Late(times[..n]) + [Failure(times[n])];
      RunSnoc(limits, s, Late(times[..n]), Failure(times[n]));
      OneMoreUnit(n, th);
      Whole(n, th);
    }
  }

  lemma Whole(n: nat, th: int)
    requires th >= 1
    ensures n < th ==> n / th == 0 && n % th == n
    ensures n >= th ==> 1 <= n / th * th <= n
    ensures n == n / th * th + n % th
  {
    if n >= th { ScaleInt(1, n / th, th); }
  }

  lemma OneMoreUnit(n: nat, th: int)
    requires th >= 1
    ensures if n % th + 1 == th then (n + 1) % th == 0 && (n + 1) / th * th == n + 1
            else (n + 1) % th == n % th + 1 && (n + 1) / th == n / th
  {
    var q, r := n / th, n % th;
    assert n == q * th + r;
    if r + 1 == th {
      assert n + 1 == (q + 1) * th;
      UnitsOf(q + 1, 0, th);
    } else {
      UnitsOf(q, r + 1, th);
    }
  }

  lemma UnitsOf(q: nat, r: nat, th: int)
    requires th >= 1 && r < th
    ensures (q * th + r) / th == q && (q * th + r) % th == r
  {
    var n := q * th + r;
    var d := n / th;
    assert n == d * th + n % th;
    if d > q { ScaleInt(q + 1, d, th); }
    if d < q { ScaleInt(d + 1, q, th); }
  }

  /** A half-open breaker whose probes were all handed out and never recorded, neither as success
      nor as failure, admits nobody ever again. */
  lemma {:induction false} UnrecordedProbesWedge(limits: Limits, s: State, events: seq<Event>, until: real)
    requires s.phase.HalfOpen? && s.halfOpenCalls >= limits.halfOpenMaxCalls
    requires forall i :: 0 <= i < |events| ==> events[i].Allow?
    ensures Run(limits, s, events) == s && Admitted(limits, s, events, until) == 0
    decreases events
  {
    if events != [] {
      assert events[0].Allow?;
      UnrecordedProbesWedge(limits, s, events[1..], until);
    }
  }

  // ----- When a breaker admits again -----

  /** The probes, requests admitted by a breaker that was not closed, counted from its last record on. */
  function Unrecorded(limits: Limits, s: State, events: seq<Event>, before: nat): nat
    decreases events
  {
    if events == [] then before
    else
      var e := events[0];
      var next := match e
        case Allow(now) => if !s.phase.Closed? && s.Allows(limits, now) then before + 1 else before
        case _ => 0;
      Unrecorded(limits, s.Step(limits, e), events[1..], next)
  }

  ghost predicate Counts(s: State, unrecorded: nat)
  {
    if s.phase.HalfOpen? then s.halfOpenCalls == unrecorded >= 1 else unrecorded == 0
  }

  lemma {:induction false} UnrecordedCounts(limits: Limits, s: State, events: seq<Event>, before: nat)
    requires limits.Valid() && Counts(s, before)
    ensures Counts(Run(limits, s, events), Unrecorded(limits, s, events, before))
    decreases events
  {
    if events != [] {
      var e := events[0];
      var next := match e
        case Allow(now) => if !s.phase.Closed? && s.Allows(limits, now) then before + 1 else before
        case _ => 0;
      UnrecordedCounts(limits, s.Step(limits, e), events[1..], next);
    }
  }

  /** After any interleaving of requests and records a breaker is half open exactly when it admitted some
      probe since its last record, and once its recovery time has passed it admits exactly when those were
      fewer than the allowed number. */
  lemma AdmitsAgainIff(limits: Limits, events: seq<Event>, now: real)
    requires limits.Valid()
    ensures var n, unrecorded := Run(limits, INITIAL, events), Unrecorded(limits, INITIAL, events, 0);
      && (n.phase.HalfOpen? <==> unrecorded > 0)
      && (now >= n.openedAt + limits.recoverySeconds ==>
            (n.Allows(limits, now) <==> unrecorded < limits.halfOpenMaxCalls))
  {
    UnrecordedCounts(limits, INITIAL, events, 0);
  }

  // ----- When a closed breaker trips -----

  /** The longest row of failures not interrupted by a success, the first of them added to the
      `before` failures already counted. */
  function LongestStreak(before: int, events: seq<Event>): int
    decreases events
  {
    if events == [] then before
    else match events[0]
      case Allow(_) => LongestStreak(before, events[1..])
      case Success(_) => MaxInt(before, LongestStreak(0, events[1..]))
      case Failure(_) => LongestStreak(before + 1, events[1..])
  }

  lemma {:induction false} StreakAtLeast(before: int, events: seq<Event>)
    ensures LongestStreak(before, events) >= before
    decreases events
  {
    if events != [] {
      match events[0]
      case Allow(_) => StreakAtLeast(before, events[1..]);
      case Success(_) => StreakAtLeast(0, events[1..]);
      case Failure(_) => StreakAtLeast(before + 1, events[1..]);
    }
  }

  /** A closed breaker opens during a run exactly when `failureThreshold` failures arrive in a row
      without a success among them, and until then admits everybody. */
  lemma {:induction false} TripsExactly(limits: Limits, s: State, events: seq<Event>)
    requires limits.Valid() && InRange(limits, s) && s.phase.Closed?
    ensures (forall k :: 0 <= k <= |events| ==> Run(limits, s, events[..k]).phase.Closed?)
            <==> LongestStreak(s.failureCount, events) < limits.failureThreshold
    decreases events
  {
    if events == [] {
      assert forall k :: 0 <= k <= |events| ==> events[..k] == [];
    } else {
      var next := s.Step(limits, events[0]);
      forall k | 0 < k <= |events|
        ensures Run(limits, s, events[..k]) == Run(limits, next, events[1..][..k - 1])
      {
        assert events[..k][1..] == events[1..][..k - 1];
      }
      assert events[..0] == [] && events[1..][..0] == [];
      if next.phase.Closed? {
        TripsExactly(limits, next, events[1..]);
        if forall k :: 0 <= k <= |events| ==> Run(limits, s, events[..k]).phase.Closed? {
          forall k | 0 <= k <= |events[1..]| ensures Run(limits, next, events[1..][..k]).phase.Closed? {
            assert Run(limits, s, events[..k + 1]).phase.Closed?;
          }
        }
      } else {
        StreakAtLeast(s.failureCount + 1, events[1..]);
        assert Run(limits, s, events[..1]) == next;
      }
    }
  }

  class AsyncCircuitBreaker {
    const failureThreshold: int
    const recoverySeconds: real
    const halfOpenMaxCalls: int
    var phase: Phase
    var failureCount: int
    var openedAt: real
    var halfOpenCalls: int
    ghost var history: seq<Event>

    ghost function Settings(): Limits
    {
      Limits(failureThreshold, recoverySeconds, halfOpenMaxCalls)
    }

    ghost function Snapshot(): State
      reads this
    {
      State(phase, failureCount, openedAt, halfOpenCalls)
    }

    ghost predicate Valid()
      reads this
    {
      Settings().Valid() && Snapshot() == Run(Settings(), INITIAL, history)
    }

    constructor (failureThreshold: int, recoverySeconds: real, halfOpenMaxCalls: int)
      ensures Valid() && history == [] && Snapshot() == INITIAL
      ensures this.failureThreshold == MaxInt(1, failureThreshold)
      ensures this.recoverySeconds == MaxReal(0.5, recoverySeconds)
      ensures this.halfOpenMaxCalls == MaxInt(1, halfOpenMaxCalls)
    {
      this.failureThreshold := MaxInt(1, failureThreshold);
      this.recoverySeconds := MaxReal(0.5, recoverySeconds);
      this.halfOpenMaxCalls := MaxInt(1, halfOpenMaxCalls);
      phase, failureCount, openedAt, halfOpenCalls := Closed, 0, 0.0, 0;
      history := [];
    }

    method AllowRequest(now: real) returns (allowed: bool)
      requires Valid()
      modifies this
      ensures Valid() && history == old(history) + [Allow(now)]
      ensures Snapshot() == old(Snapshot()).Step(Settings(), Allow(now))
      ensures allowed == old(Snapshot()).Allows(Settings(), now)
    {
      RunSnoc(Settings(), INITIAL, history, Allow(now));
      history := history + [Allow(now)];
      if phase == Open {
        if now - openedAt >= recoverySeconds {
          phase, halfOpenCalls := HalfOpen, 0;
        } else {
          return false;
        }
      }
      if phase == HalfOpen {
        if halfOpenCalls >= halfOpenMaxCalls {
          return false;
        }
        halfOpenCalls := halfOpenCalls + 1;
        return true;
      }
      return true;
    }

    method RecordSuccess(now: real)
      requires Valid()
      modifies this
      ensures Valid() && history == old(history) + [Success(now)]
      ensures Snapshot() == old(Snapshot()).Step(Settings(), Success(now))
      ensures phase == Closed && failureCount == 0
    {
      RunSnoc(Settings(), INITIAL, history, Success(now));
      history := history + [Success(now)];
      failureCount := 0;
      if phase == Open || phase == HalfOpen {
        phase, halfOpenCalls := Closed, 0;
      }
    }

    method RecordFailure(now: real)
      requires Valid()
      modifies this
      ensures Valid() && history == old(history) + [Failure(now)]
      ensures Snapshot() == old(Snapshot()).Step(Settings(), Failure(now))
    {
      RunSnoc(Settings(), INITIAL, history, Failure(now));
      history := history + [Failure(now)];
      if phase == HalfOpen {
        phase, openedAt, failureCount, halfOpenCalls := Open, now, 0, 0;
        return;
      }
      failureCount := failureCount + 1;
      if failureCount >= failureThreshold {
        phase, openedAt, failureCount := Open, now, 0;
      }
    }

    method RemainingOpenSeconds(now: real) returns (seconds: real)
      requires Valid()
      ensures 0.0 <= seconds <= MaxReal(recoverySeconds, recoverySeconds + (openedAt - now))
      ensures seconds > 0.0 <==> phase == Open && !Snapshot().Allows(Settings(), now)
      ensures phase == Open ==>
                forall later :: now <= later ==> (Snapshot().Allows(Settings(), later) <==> later >= now + seconds)
    {
      if phase != Open {
        return 0.0;
      }
      var elapsed := now - openedAt;
      seconds := MaxReal(0.0, recoverySeconds - elapsed);
    }

    /** Whatever was recorded so far left the counters of this object in range. */
    lemma Ranged()
      requires Valid()
      ensures 0 <= failureCount < failureThreshold && 0 <= halfOpenCalls <= halfOpenMaxCalls
    {
      CountersInRange(Settings(), INITIAL, history);
    }
  }

  /** One breaker per (trimmed, lower-cased) name, replaced only when its settings change. */
  class CircuitBreakerRegistry {
    var breakers: map<string, AsyncCircuitBreaker>

    method GetBreaker(key: string, failureThreshold: int, recoverySeconds: real, halfOpenMaxCalls: int)
      returns (breaker: AsyncCircuitBreaker)
      modifies this
      ensures breakers == old(breakers)[key := breaker]
      ensures Matches(breaker, failureThreshold, recoverySeconds, halfOpenMaxCalls)
      ensures key in old(breakers)
              && Matches(old(breakers)[key], failureThreshold, recoverySeconds, halfOpenMaxCalls)
              ==> breaker == old(breakers)[key]
      ensures !(key in old(breakers)
                && Matches(old(breakers)[key], failureThreshold, recoverySeconds, halfOpenMaxCalls))
              ==> fresh(breaker) && breaker.Valid() && breaker.history == []
    {
      var threshold := MaxInt(1, failureThreshold);
      var recovery := MaxReal(0.5, recoverySeconds);
      var probes := MaxInt(1, halfOpenMaxCalls);
      if key in breakers {
        breaker := breakers[key];
        if breaker.failureThreshold == threshold
           && MaxReal(breaker.recoverySeconds - recovery, recovery - breaker.recoverySeconds) <= 0.000000001
           && breaker.halfOpenMaxCalls == probes {
          assert breakers == breakers[key := breaker];
          return;
        }
      }
      breaker := new AsyncCircuitBreaker(threshold, recovery, probes);
      breakers := breakers[key := breaker];
    }
  }

  ghost predicate Matches(breaker: AsyncCircuitBreaker, failureThreshold: int, recoverySeconds: real,
                          halfOpenMaxCalls: int)
  {
    var recovery := MaxReal(0.5, recoverySeconds);
    && breaker.failureThreshold == MaxInt(1, failureThreshold)
    && MaxReal(breaker.recoverySeconds - recovery, recovery - breaker.recoverySeconds) <= 0.000000001
    && breaker.halfOpenMaxCalls == MaxInt(1, halfOpenMaxCalls)
  }
}

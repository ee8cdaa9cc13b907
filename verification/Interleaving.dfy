/** Protected calls of one resource that overlap: src/shared/resilience/executor.py and the request of
    src/ingestion/resilience/resilient_http_client.py. Asking guard and breaker is one step, and so is
    recording on both, because neither awaits anything; the tries of all calls interleave in between. A call
    leaves unrecorded when its executor raises a non-retryable error, or its request is cancelled. */
module Interleaving {
  import opened Common
  import opened Backoff
  import CB = CircuitBreaker
  import X = Executor

  type Task = nat

  /** `probes` are the calls that a breaker not closed admitted since its last record. */
  datatype World = World(now: real, shared: X.Shared, started: set<Task>, running: set<Task>, probes: set<Task>)

  const START := World(0.0, X.Shared(CB.INITIAL, OPEN), {}, {}, {})

  datatype Event =
    | Begin(task: Task, guardAt: real, breakerAt: real)
    | Succeed(task: Task, at: real)
    | Fail(task: Task, at: real, blockAt: real)
    | Leave(task: Task)

  /** One clock for all calls. */
  ghost predicate Enabled(w: World, e: Event)
  {
    match e
    case Begin(t, guardAt, breakerAt) => t !in w.started && w.now <= guardAt <= breakerAt
    case Succeed(t, at) => t in w.running && w.now <= at
    case Fail(t, at, blockAt) => t in w.running && w.now <= at <= blockAt
    case Leave(t) => t in w.running
  }

  predicate Admitted(limits: CB.Limits, w: World, e: Event)
  {
    e.Begin? && w.shared.guard.Allows(e.guardAt) && w.shared.breaker.Allows(limits, e.breakerAt)
  }

  function Next(config: X.Config, limits: CB.Limits, w: World, e: Event): World
  {
    var s := w.shared;
    match e
    case Begin(t, guardAt, breakerAt) =>
      if !s.guard.Allows(guardAt) then w.(now := guardAt, started := w.started + {t})
      else
        World(breakerAt, s.(breaker := s.breaker.Step(limits, CB.Allow(breakerAt))), w.started + {t},
              if Admitted(limits, w, e) then w.running + {t} else w.running,
              if Admitted(limits, w, e) && !s.breaker.phase.Closed? then w.probes + {t} else w.probes)
    case Succeed(t, at) =>
      World(at, X.Shared(s.breaker.Step(limits, CB.Success(at)), OPEN), w.started, w.running - {t}, {})
    case Fail(t, at, blockAt) =>
      World(blockAt, X.Shared(s.breaker.Step(limits, CB.Failure(at)), s.guard.Failed(blockAt, config.backoffBase, config.backoffMax)),
            w.started, w.running - {t}, {})
    case Leave(t) => w.(running := w.running - {t})
  }

  ghost predicate Behaves(config: X.Config, limits: CB.Limits, w: World, events: seq<Event>)
    decreases events
  {
    events == [] || (Enabled(w, events[0]) && Behaves(config, limits, Next(config, limits, w, events[0]), events[1..]))
  }

  function After(config: X.Config, limits: CB.Limits, w: World, events: seq<Event>): World
    decreases events
  {
    if events == [] then w else After(config, limits, Next(config, limits, w, events[0]), events[1..])
  }

  function Admissions(config: X.Config, limits: CB.Limits, w: World, events: seq<Event>): nat
    decreases events
  {
    if events == [] then 0
    else (if Admitted(limits, w, events[0]) then 1 else 0) + Admissions(config, limits, Next(config, limits, w, events[0]), events[1..])
  }

  /** The call ends as its last try does. */
  ghost predicate EndsLike(f: Event, t: Task, last: X.Outcome, m: X.Moments)
  {
    if last == X.Returned then f == Succeed(t, m.recordAt)
    else if last == X.OtherError then f == Leave(t)
    else f == Fail(t, m.recordAt, m.blockAt)
  }

  /** A call that nothing interrupts is an execution of the executor: it leaves the same breaker and guard. */
  lemma UndisturbedIsExecute(config: X.Config, limits: CB.Limits, w: World, e: Event, f: Event, call: X.Call)
    requires config.retryAttempts >= 1 && call.moments.Ordered()
    requires e.Begin? && Enabled(w, e) && e.guardAt == call.moments.guardAt && e.breakerAt == call.moments.breakerAt
    requires EndsLike(f, e.task, call.fn(X.LastTry(call.fn, 1, config.retryAttempts)), call.moments)
    ensures var n, left := Next(config, limits, w, e), X.Execute(config, limits, w.shared, call.fn, call.moments).0;
      if Admitted(limits, w, e) then Enabled(n, f) && Next(config, limits, n, f).shared == left else n.shared == left
  {
  }

  // ----- What every run keeps -----

  ghost predicate Counts(s: CB.State, probes: set<Task>)
  {
    if s.phase.HalfOpen? then s.halfOpenCalls == |probes| >= 1 else probes == {}
  }

  /** A half-open breaker has counted exactly its probes, any other has none; and a probe still runs or has
      left unrecorded. */
  ghost predicate Inv(w: World, past: seq<Event>)
  {
    && Counts(w.shared.breaker, w.probes) && w.running <= w.started && w.probes <= w.started
    && forall t :: t in w.probes ==> t in w.running || Leave(t) in past
  }

  lemma ProbeCounts(limits: CB.Limits, s: CB.State, probes: set<Task>, t: Task, now: real)
    requires limits.Valid() && Counts(s, probes) && t !in probes
    ensures Counts(s.Step(limits, CB.Allow(now)), if s.Allows(limits, now) && !s.phase.Closed? then probes + {t} else probes)
  {
  }

  lemma RecordCounts(limits: CB.Limits, s: CB.State, probes: set<Task>, at: real)
    requires Counts(s, probes)
    ensures Counts(s.Step(limits, CB.Success(at)), {}) && Counts(s.Step(limits, CB.Failure(at)), {})
  {
  }

  lemma StepInv(config: X.Config, limits: CB.Limits, w: World, past: seq<Event>, e: Event)
    requires limits.Valid() && Inv(w, past) && Enabled(w, e)
    ensures Inv(Next(config, limits, w, e), past + [e])
  {
    match e {
      case Begin(t, _, breakerAt) => ProbeCounts(limits, w.shared.breaker, w.probes, t, breakerAt);
      case Succeed(_, at) => RecordCounts(limits, w.shared.breaker, w.probes, at);
      case Fail(_, at, _) => RecordCounts(limits, w.shared.breaker, w.probes, at);
      case Leave(t) => assert Leave(t) in past + [e];
    }
  }

  lemma {:induction false} AlwaysInv(config: X.Config, limits: CB.Limits, w: World, past: seq<Event>, events: seq<Event>)
    requires limits.Valid() && Inv(w, past) && Behaves(config, limits, w, events)
    ensures Inv(After(config, limits, w, events), past + events)
    decreases events
  {
    if events == [] {
      assert past + [] == past;
    } else {
      StepInv(config, limits, w, past, events[0]);
      assert past + events == (past + [events[0]]) + events[1..];
      AlwaysInv(config, limits, Next(config, limits, w, events[0]), past + [events[0]], events[1..]);
    }
  }

  // ----- When calls get through again -----

  /** Past the cooldown and the recovery time the next call is admitted exactly when fewer than the allowed
      probes were admitted since the last record. */
  lemma AdmittedIff(config: X.Config, limits: CB.Limits, events: seq<Event>, e: Event)
    requires limits.Valid() && Behaves(config, limits, START, events) && e.Begin?
    ensures var w := After(config, limits, START, events);
      e.guardAt >= w.shared.guard.openedUntil && e.breakerAt >= w.shared.breaker.openedAt + limits.recoverySeconds ==>
        (Admitted(limits, w, e) <==> |w.probes| < limits.halfOpenMaxCalls)
  {
    AlwaysInv(config, limits, START, [], events);
  }

  /** Some continuation admits a call. */
  ghost predicate CanAdmit(config: X.Config, limits: CB.Limits, w: World)
  {
    exists events :: Behaves(config, limits, w, events) && Admissions(config, limits, w, events) > 0
  }

  /** As many probes as are allowed were admitted since the last record, and no call is left that could
      still record anything. */
  ghost predicate Stuck(limits: CB.Limits, w: World)
  {
    |w.probes| >= limits.halfOpenMaxCalls && w.running == {}
  }

  /** However the calls overlap: no call is ever admitted again exactly when as many probes as are allowed
      all left unrecorded since the last record, and nothing else is running. */
  lemma StuckIff(config: X.Config, limits: CB.Limits, events: seq<Event>)
    requires limits.Valid() && Behaves(config, limits, START, events)
    ensures var w := After(config, limits, START, events);
      && (!CanAdmit(config, limits, w) <==> Stuck(limits, w))
      && (Stuck(limits, w) ==> forall t :: t in w.probes ==> Leave(t) in events)
  {
    AlwaysInv(config, limits, START, [], events);
    assert [] + events == events;
    var w := After(config, limits, START, events);
    if Stuck(limits, w) {
      forall later | Behaves(config, limits, w, later) ensures Admissions(config, limits, w, later) == 0 {
        StuckForever(config, limits, w, later);
      }
    } else if |w.probes| < limits.halfOpenMaxCalls {
      LateCallAdmitted(config, limits, w, events);
    } else {
      var t :| t in w.running;
      var e := Fail(t, w.now, w.now);
      var n := Next(config, limits, w, e);
      StepInv(config, limits, w, events, e);
      LateCallAdmitted(config, limits, n, events + [e]);
      var later :| Behaves(config, limits, n, later) && Admissions(config, limits, n, later) > 0;
      assert ([e] + later)[1..] == later;
      assert Behaves(config, limits, w, [e] + later) && Admissions(config, limits, w, [e] + later) > 0;
    }
  }

  lemma {:induction false} StuckForever(config: X.Config, limits: CB.Limits, w: World, events: seq<Event>)
    requires limits.Valid() && Stuck(limits, w) && Behaves(config, limits, w, events)
    requires w.shared.breaker.phase.HalfOpen? && w.shared.breaker.halfOpenCalls == |w.probes|
    ensures Admissions(config, limits, w, events) == 0
    decreases events
  {
    if events != [] {
      StuckForever(config, limits, Next(config, limits, w, events[0]), events[1..]);
    }
  }

  lemma LateCallAdmitted(config: X.Config, limits: CB.Limits, w: World, past: seq<Event>)
    requires limits.Valid() && Inv(w, past) && |w.probes| < limits.halfOpenMaxCalls
    ensures CanAdmit(config, limits, w)
  {
    var t := Fresh(w.started);
    var guardAt := MaxReal(w.now, w.shared.guard.openedUntil);
    var e := Begin(t, guardAt, MaxReal(guardAt, w.shared.breaker.openedAt + limits.recoverySeconds));
    assert Admitted(limits, w, e) && [e][1..] == [];
    assert Admissions(config, limits, Next(config, limits, w, e), []) == 0;
    assert Behaves(config, limits, Next(config, limits, w, e), []);
    assert Behaves(config, limits, w, [e]) && Admissions(config, limits, w, [e]) == 1;
  }

  lemma {:induction false} Fresh(started: set<Task>) returns (t: Task)
    ensures forall u :: u in started ==> u < t
    decreases started
  {
    if started == {} {
      t := 0;
    } else {
      var u :| u in started;
      var v := Fresh(started - {u});
      t := MaxInt(u + 1, v);
      assert forall x :: x in started ==> x == u || x in started - {u};
    }
  }
}

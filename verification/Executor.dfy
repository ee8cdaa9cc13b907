/** src/shared/resilience/executor.py: one protected call. The backoff guard and the circuit
    breaker may refuse it; otherwise it is tried up to `retryAttempts` times, each time with a
    token of its own. */
module Executor {
  import opened Common
  import RL = RateLimiter
  import CB = CircuitBreaker
  import opened Backoff

  /** How one try of the wrapped function ends. `OtherError` is any exception that leaves the retry
      loop: a non-retryable one, or a cancellation. */
  datatype Outcome = Returned | RetryableError | OtherError

  datatype Verdict = GuardClosed | BreakerOpen | Succeeded | Raised | Exhausted

  datatype Config = Config(retryAttempts: int, retryBase: real, retryMax: real, backoffBase: real, backoffMax: real)

  /** The clock readings of one execution. */
  datatype Moments = Moments(guardAt: real, breakerAt: real, recordAt: real, blockAt: real) {

    ghost predicate Ordered() { guardAt <= breakerAt <= recordAt <= blockAt }
  }

  datatype Shared = Shared(breaker: CB.State, guard: Guard)

  /** The number of the try that ends the loop: the first one that does not end in a retryable
      error, counted from `attempt`, or the last one. */
  function LastTry(fn: nat -> Outcome, attempt: nat, attempts: nat): nat
    requires 1 <= attempt <= attempts
    decreases attempts - attempt
  {
    if fn(attempt) != RetryableError || attempt == attempts then attempt
    else LastTry(fn, attempt + 1, attempts)
  }

  lemma {:induction false} LastTryIs(fn: nat -> Outcome, attempt: nat, attempts: nat)
    requires 1 <= attempt <= attempts
    ensures attempt <= LastTry(fn, attempt, attempts) <= attempts
    ensures forall i :: attempt <= i < LastTry(fn, attempt, attempts) ==> fn(i) == RetryableError
    ensures fn(LastTry(fn, attempt, attempts)) != RetryableError || LastTry(fn, attempt, attempts) == attempts
    decreases attempts - attempt
  {
    if fn(attempt) == RetryableError && attempt < attempts {
      LastTryIs(fn, attempt + 1, attempts);
    }
  }

  lemma {:induction false} LastTryUnique(fn: nat -> Outcome, attempt: nat, calls: nat, attempts: nat)
    requires 1 <= attempt <= calls <= attempts
    requires forall i :: attempt <= i < calls ==> fn(i) == RetryableError
    requires fn(calls) != RetryableError || calls == attempts
    ensures LastTry(fn, attempt, attempts) == calls
    decreases attempts - attempt
  {
    if attempt < calls {
      LastTryUnique(fn, attempt + 1, calls, attempts);
    }
  }

  /** What the retry loop leaves behind once the breaker has admitted the call. */
  function TryAll(config: Config, limits: CB.Limits, s: Shared, fn: nat -> Outcome, m: Moments): (Shared, Verdict, nat)
  {
    var failed := Shared(s.breaker.Step(limits, CB.Failure(m.recordAt)),
                         s.guard.Failed(m.blockAt, config.backoffBase, config.backoffMax));
    if config.retryAttempts <= 0 then (failed, Exhausted, 0)
    else
      var calls := LastTry(fn, 1, config.retryAttempts);
      match fn(calls)
      case Returned => (Shared(s.breaker.Step(limits, CB.Success(m.recordAt)), OPEN), Succeeded, calls)
      case OtherError => (s, Raised, calls)
      case RetryableError => (failed, Exhausted, calls)
  }

  /** How often `fn` runs, how the execution ends and what it leaves for the next one. */
  function Execute(config: Config, limits: CB.Limits, s: Shared, fn: nat -> Outcome, m: Moments): (Shared, Verdict, nat)
  {
    if !s.guard.Allows(m.guardAt) then (s, GuardClosed, 0)
    else
      var asked := s.(breaker := s.breaker.Step(limits, CB.Allow(m.breakerAt)));
      if s.breaker.Allows(limits, m.breakerAt) then TryAll(config, limits, asked, fn, m) else (asked, BreakerOpen, 0)
  }

  /** What a caller may rely on: refusals cost nothing downstream, a guard refusal does not even
      touch the breaker, and only a call that ran to its end is recorded anywhere. */
  lemma ExecuteComposes(config: Config, limits: CB.Limits, s: Shared, fn: nat -> Outcome, m: Moments)
    ensures var (s', verdict, calls) := Execute(config, limits, s, fn, m);
      && (verdict == GuardClosed <==> m.guardAt < s.guard.openedUntil)
      && (verdict == GuardClosed ==> s' == s)
      && (verdict == BreakerOpen <==>
            m.guardAt >= s.guard.openedUntil && !s.breaker.Allows(limits, m.breakerAt))
      && (verdict == GuardClosed || verdict == BreakerOpen ==> calls == 0 && s'.guard == s.guard)
      && (verdict == Succeeded ==>
            && calls >= 1 && fn(calls) == Returned && s'.breaker.phase.Closed? && s'.breaker.failureCount == 0
            && s'.guard.failureStreak == 0 && s'.guard.openedUntil == 0.0)
      && (verdict == Raised ==> calls >= 1 && fn(calls) == OtherError && s'.guard == s.guard)
      && (verdict == Exhausted ==>
            && calls == MaxInt(0, config.retryAttempts)
            && (forall i :: 1 <= i <= calls ==> fn(i) == RetryableError)
            && s'.guard.failureStreak == s.guard.failureStreak + 1)
      && (forall i :: 1 <= i < calls ==> fn(i) == RetryableError)
  {
    if config.retryAttempts > 0 {
      LastTryIs(fn, 1, config.retryAttempts);
    }
  }

  /** What an execution whose tries all failed leaves: the guard blocks from the instant it was told of the
      failure, for the cooldown of one more failure in a row; the breaker counts one more failure, or opens at
      the instant it was told, because that was one too many or the execution was a probe. */
  lemma ExhaustedRecords(config: Config, limits: CB.Limits, s: Shared, fn: nat -> Outcome, m: Moments, cooldown: real)
    requires limits.Valid() && CB.InRange(limits, s.breaker) && Execute(config, limits, s, fn, m).1 == Exhausted
    requires cooldown == MinReal(config.backoffMax, MaxReal(0.1, config.backoffBase) * MinInt(8, s.guard.failureStreak + 1) as real)
    ensures var s' := Execute(config, limits, s, fn, m).0;
      && s'.guard == Guard(s.guard.failureStreak + 1, MaxReal(s.guard.openedUntil, m.blockAt + cooldown))
      && if s.breaker.phase.Closed? && s.breaker.failureCount + 1 < limits.failureThreshold then
           s'.breaker == s.breaker.(failureCount := s.breaker.failureCount + 1)
         else
           s'.breaker.phase.Open? && s'.breaker.openedAt == m.recordAt && s'.breaker.failureCount == 0
  {
    CooldownIs(s.guard.failureStreak + 1, config.backoffBase, config.backoffMax, cooldown);
  }

  // ----- A failing resource is left alone -----

  const FAILING: nat -> Outcome := (n: nat) => RetryableError

  /** Executions one after another, all of whose tries fail: how many of them reach `fn`. */
  function AdmittedRuns(config: Config, limits: CB.Limits, s: Shared, runs: seq<Moments>): nat
    decreases runs
  {
    if runs == [] then 0
    else
      var (next, verdict, _) := Execute(config, limits, s, FAILING, runs[0]);
      (if verdict == Exhausted then 1 else 0) + AdmittedRuns(config, limits, next, runs[1..])
  }

  function TotalCalls(config: Config, limits: CB.Limits, s: Shared, runs: seq<Moments>): nat
    decreases runs
  {
    if runs == [] then 0
    else
      var (next, _, calls) := Execute(config, limits, s, FAILING, runs[0]);
      calls + TotalCalls(config, limits, next, runs[1..])
  }

  ghost predicate Sequential(start: real, runs: seq<Moments>)
    decreases runs
  {
    runs == [] || (start <= runs[0].guardAt && runs[0].Ordered() && Sequential(runs[0].blockAt, runs[1..]))
  }

  /** How long the first failure in a row blocks the next execution. */
  function FirstCooldown(config: Config): real { MinReal(config.backoffMax, MaxReal(0.1, config.backoffBase)) }

  lemma FirstIsCooldown(config: Config)
    ensures FirstCooldown(config) == Cooldown(1, config.backoffBase, config.backoffMax)
  {
  }

  /** How many executions fit between `from` and `until` when they are a cooldown apart. */
  function Slots(cooldown: real, from: real, until: real): int
    requires cooldown > 0.0
  {
    if until < from then 0 else 1 + ((until - from) / cooldown).Floor
  }

  lemma SlotsShrink(cooldown: real, from: real, later: real, until: real)
    requires cooldown > 0.0 && from <= later
    ensures 0 <= Slots(cooldown, later, until) <= Slots(cooldown, from, until)
  {
    if later <= until {
      var x, y := (until - later) / cooldown, (until - from) / cooldown;
      assert x * cooldown == until - later && y * cooldown == until - from;
      assert 0.0 <= x <= y;
    } else if from <= until {
      var y := (until - from) / cooldown;
      assert y * cooldown == until - from;
      assert 0.0 <= y;
    }
  }

  lemma NextSlot(cooldown: real, from: real, until: real)
    requires cooldown > 0.0 && from <= until
    ensures Slots(cooldown, from + cooldown, until) + 1 <= Slots(cooldown, from, until)
  {
    var y := (until - from) / cooldown;
    assert y * cooldown == until - from;
    if from + cooldown <= until {
      QuotientOf(until - (from + cooldown), y - 1.0, cooldown);
      assert (y - 1.0).Floor == y.Floor - 1;
    } else {
      assert y >= 0.0;
    }
  }

  lemma {:induction false} RunsSpaced(config: Config, limits: CB.Limits, s: Shared, runs: seq<Moments>,
                                      now: real, from: real, until: real)
    requires FirstCooldown(config) > 0.0 && Sequential(now, runs)
    requires from <= now || from <= s.guard.openedUntil
    requires forall i :: 0 <= i < |runs| ==> runs[i].guardAt <= until
    ensures AdmittedRuns(config, limits, s, runs) <= Slots(FirstCooldown(config), from, until)
    decreases runs
  {
    var c := FirstCooldown(config);
    SlotsShrink(c, from, from, until);
    if runs != [] {
      var m := runs[0];
      var (next, verdict, _) := Execute(config, limits, s, FAILING, m);
      assert forall i :: 0 <= i < |runs[1..]| ==> runs[1..][i] == runs[i + 1];
      if verdict == Exhausted {
        FirstIsCooldown(config);
        CooldownGrows(1, s.guard.failureStreak + 1, config.backoffBase, config.backoffMax);
        assert next.guard.openedUntil >= m.guardAt + c;
        RunsSpaced(config, limits, next, runs[1..], m.blockAt, m.guardAt + c, until);
        NextSlot(c, m.guardAt, until);
        SlotsShrink(c, from, m.guardAt, until);
      } else {
        RunsSpaced(config, limits, next, runs[1..], m.blockAt, from, until);
      }
    }
  }

  lemma Distribute(a: int, rest: int)
    ensures a * (1 + rest) == a + a * rest
  {
  }

  lemma {:induction false} CallsPerRun(config: Config, limits: CB.Limits, s: Shared, runs: seq<Moments>)
    requires config.retryAttempts >= 0
    ensures TotalCalls(config, limits, s, runs) == config.retryAttempts * AdmittedRuns(config, limits, s, runs)
    decreases runs
  {
    if runs != [] {
      var (next, verdict, calls) := Execute(config, limits, s, FAILING, runs[0]);
      ExecuteComposes(config, limits, s, FAILING, runs[0]);
      CallsPerRun(config, limits, next, runs[1..]);
      var rest := AdmittedRuns(config, limits, next, runs[1..]);
      Distribute(config.retryAttempts, rest);
    }
  }

  /** A resource that keeps failing over a stretch of length `until - from` is called at most
      `retryAttempts` times per first cooldown, plus once `retryAttempts` times. */
  lemma FailingRunBound(config: Config, limits: CB.Limits, s: Shared, runs: seq<Moments>, from: real, until: real)
    requires FirstCooldown(config) > 0.0 && config.retryAttempts >= 0 && from <= until
    requires Sequential(from, runs) && forall i :: 0 <= i < |runs| ==> runs[i].guardAt <= until
    ensures TotalCalls(config, limits, s, runs)
            <= config.retryAttempts * (1 + ((until - from) / FirstCooldown(config)).Floor)
  {
    CallsPerRun(config, limits, s, runs);
    RunsSpaced(config, limits, s, runs, from, from, until);
    ScaleInt(AdmittedRuns(config, limits, s, runs), Slots(FirstCooldown(config), from, until), config.retryAttempts);
  }

  // ----- Calls that leave without being recorded -----

  datatype Call = Call(fn: nat -> Outcome, moments: Moments)

  predicate Admits(limits: CB.Limits, s: Shared, m: Moments)
  {
    s.guard.Allows(m.guardAt) && s.breaker.Allows(limits, m.breakerAt)
  }

  /** The function ends the retry loop with an error that is recorded nowhere. */
  predicate Leaks(config: Config, fn: nat -> Outcome)
  {
    config.retryAttempts >= 1 && fn(LastTry(fn, 1, config.retryAttempts)) == OtherError
  }

  /** The probes an execution leaves unrecorded in a half-open breaker. */
  function Lost(s: Shared): int { if s.breaker.phase.HalfOpen? then s.breaker.halfOpenCalls else 0 }

  /** What an execution does to a breaker, whatever state it finds: refused, it changes nothing;
      recorded, it leaves it open or closed; unrecorded, it costs one probe, unless it was closed. */
  lemma ProbeFate(config: Config, limits: CB.Limits, s: Shared, fn: nat -> Outcome, m: Moments)
    requires limits.Valid()
    ensures var (s', _, calls) := Execute(config, limits, s, fn, m);
      && (!Admits(limits, s, m) ==> s' == s && calls == 0)
      && (Admits(limits, s, m) && config.retryAttempts >= 1 ==> calls >= 1)
      && (s'.breaker.phase.HalfOpen? <==>
            if Admits(limits, s, m) then !s.breaker.phase.Closed? && Leaks(config, fn) else s.breaker.phase.HalfOpen?)
      && (Admits(limits, s, m) && s'.breaker.phase.HalfOpen? ==> Lost(s') == Lost(s) + 1)
  {
    if config.retryAttempts >= 1 { LastTryIs(fn, 1, config.retryAttempts); }
  }

  /** In the terms of the caller: an execution leaves a probe behind exactly when it raises out of one. */
  lemma RaisedProbeLosesTheSlot(config: Config, limits: CB.Limits, s: Shared, fn: nat -> Outcome, m: Moments)
    requires limits.Valid()
    ensures var (s', verdict, calls) := Execute(config, limits, s, fn, m);
      && (!s.breaker.phase.HalfOpen? ==> (s'.breaker.phase.HalfOpen? <==> verdict == Raised && s.breaker.phase.Open?))
      && (s.breaker.phase.HalfOpen? ==> (s'.breaker.phase.HalfOpen? <==> verdict in {GuardClosed, BreakerOpen, Raised}))
      && (s'.breaker.phase.HalfOpen? ==> Lost(s') == Lost(s) + if verdict == Raised then 1 else 0)
  {
    ProbeFate(config, limits, s, fn, m);
  }

  function After(config: Config, limits: CB.Limits, s: Shared, calls: seq<Call>): Shared
    decreases calls
  {
    if calls == [] then s
    else After(config, limits, Execute(config, limits, s, calls[0].fn, calls[0].moments).0, calls[1..])
  }

  function TriesOf(config: Config, limits: CB.Limits, s: Shared, calls: seq<Call>): nat
    decreases calls
  {
    if calls == [] then 0
    else
      var (next, _, tries) := Execute(config, limits, s, calls[0].fn, calls[0].moments);
      tries + TriesOf(config, limits, next, calls[1..])
  }

  /** The executions admitted by a breaker that was not closed, in order: whether each left it unrecorded. */
  function Probes(config: Config, limits: CB.Limits, s: Shared, calls: seq<Call>): seq<bool>
    decreases calls
  {
    if calls == [] then []
    else
      var c := calls[0];
      (if Admits(limits, s, c.moments) && !s.breaker.phase.Closed? then [Leaks(config, c.fn)] else [])
      + Probes(config, limits, Execute(config, limits, s, c.fn, c.moments).0, calls[1..])
  }

  /** How many of the last probes left unrecorded, one after the other. */
  function LostInARow(probes: seq<bool>): nat
    decreases probes
  {
    if probes == [] || !probes[|probes| - 1] then 0 else 1 + LostInARow(probes[..|probes| - 1])
  }

  ghost predicate LastAllLost(probes: seq<bool>, n: nat)
  {
    |probes| >= n && forall i :: |probes| - n <= i < |probes| ==> probes[i]
  }

  lemma {:induction false} LostInARowIff(probes: seq<bool>, n: nat)
    ensures LostInARow(probes) >= n <==> LastAllLost(probes, n)
    decreases probes
  {
    if n > 0 && probes != [] && probes[|probes| - 1] {
      LostInARowIff(probes[..|probes| - 1], n - 1);
    }
  }

  lemma {:induction false} LostAreTheLast(config: Config, limits: CB.Limits, s: Shared, calls: seq<Call>, before: seq<bool>)
    requires limits.Valid() && Lost(s) == LostInARow(before)
    ensures Lost(After(config, limits, s, calls)) == LostInARow(before + Probes(config, limits, s, calls))
    decreases calls
  {
    if calls == [] {
      assert before + [] == before;
    } else {
      var c := calls[0];
      var next := Execute(config, limits, s, c.fn, c.moments).0;
      ProbeFate(config, limits, s, c.fn, c.moments);
      var fate := if Admits(limits, s, c.moments) && !s.breaker.phase.Closed? then [Leaks(config, c.fn)] else [];
      var rest := Probes(config, limits, next, calls[1..]);
      assert before + (fate + rest) == (before + fate) + rest;
      if fate != [] {
        assert (before + fate)[..|before|] == before;
      } else {
        assert before + fate == before;
      }
      LostAreTheLast(config, limits, next, calls[1..], before + fate);
    }
  }

  ghost predicate Wedged(limits: CB.Limits, s: Shared)
  {
    s.breaker.phase.HalfOpen? && s.breaker.halfOpenCalls >= limits.halfOpenMaxCalls
  }

  /** The probes up to the end of a run, with those already lost when it starts. */
  function AllProbes(config: Config, limits: CB.Limits, s: Shared, calls: seq<Call>): seq<bool>
    requires Lost(s) >= 0
  {
    seq(Lost(s), i => true) + Probes(config, limits, s, calls)
  }

  /** A run of executions wedges the breaker exactly when as many probes as are allowed were the last
      ones, and every one of them ended in an error that is not retried. */
  lemma WedgedIff(config: Config, limits: CB.Limits, s: Shared, calls: seq<Call>)
    requires limits.Valid() && Lost(s) >= 0
    ensures Wedged(limits, After(config, limits, s, calls))
            <==> LastAllLost(AllProbes(config, limits, s, calls), limits.halfOpenMaxCalls)
  {
    AllLost(Lost(s));
    LostAreTheLast(config, limits, s, calls, seq(Lost(s), i => true));
    LostInARowIff(AllProbes(config, limits, s, calls), limits.halfOpenMaxCalls);
  }

  lemma AllLost(n: nat)
    ensures LostInARow(seq(n, i => true)) == n
  {
    LostInARowIff(seq(n, i => true), n);
    LostInARowIff(seq(n, i => true), n + 1);
  }

  /** And a wedged breaker is exactly one that will never let a function run again, whatever the later
      executions are and however much time passes. */
  lemma {:induction false} RefusesForeverIff(config: Config, limits: CB.Limits, s: Shared)
    requires limits.Valid() && config.retryAttempts >= 1
    ensures (forall calls :: TriesOf(config, limits, s, calls) == 0) <==> Wedged(limits, s)
  {
    if Wedged(limits, s) {
      forall calls ensures TriesOf(config, limits, s, calls) == 0 { LostProbesRefuseForever(config, limits, s, calls); }
    } else {
      var at := MaxReal(s.guard.openedUntil, s.breaker.openedAt + limits.recoverySeconds);
      var calls := [Call(FAILING, Moments(at, at, at, at))];
      ProbeFate(config, limits, s, FAILING, calls[0].moments);
      assert TriesOf(config, limits, s, calls) >= 1;
    }
  }

  lemma {:induction false} LostProbesRefuseForever(config: Config, limits: CB.Limits, s: Shared, calls: seq<Call>)
    requires Wedged(limits, s)
    ensures After(config, limits, s, calls) == s && TriesOf(config, limits, s, calls) == 0
    decreases calls
  {
    if calls != [] {
      LostProbesRefuseForever(config, limits, s, calls[1..]);
    }
  }

  // ----- The executor itself -----

  function Pow2(n: nat): real { if n == 0 then 1.0 else 2.0 * Pow2(n - 1) }

  function RetrySleepSeconds(attempt: nat, base: real, max: real, jitter: real): real
    requires attempt >= 1
  {
    MinReal(max, base * Pow2(attempt - 1) + jitter)
  }

  /** The least an execution sleeps after its first `n` failed tries: what it sleeps without jitter. */
  function Pauses(base: real, max: real, n: nat): real
  {
    if n == 0 then 0.0 else Pauses(base, max, n - 1) + MaxReal(0.0, RetrySleepSeconds(n, base, max, 0.0))
  }

  lemma SleepsEnough(attempt: nat, base: real, max: real, jitter: real)
    requires attempt >= 1 && jitter >= 0.0
    ensures RetrySleepSeconds(attempt, base, max, jitter) >= RetrySleepSeconds(attempt, base, max, 0.0)
  {
  }

  /** Without jitter the first pause is the base, and each later one twice the one before, up to the maximum. */
  lemma PausesDouble(attempt: nat, base: real, max: real)
    requires attempt >= 1 && max >= 0.0
    ensures RetrySleepSeconds(1, base, max, 0.0) == MinReal(max, base)
    ensures RetrySleepSeconds(attempt + 1, base, max, 0.0)
            == MinReal(max, 2.0 * RetrySleepSeconds(attempt, base, max, 0.0))
  {
    assert Pow2(0) == 1.0;
    Doubled(base, Pow2(attempt - 1));
  }

  lemma Doubled(base: real, power: real)
    ensures base * (2.0 * power) == 2.0 * (base * power)
  {
  }

  class ResilientExecutor {
    const config: Config
    const breaker: CB.AsyncCircuitBreaker
    const limiter: RL.AsyncTokenBucket
    const guard: BackoffGuard

    ghost function Snapshot(): Shared
      reads breaker, guard
    {
      Shared(breaker.Snapshot(), guard.Snapshot())
    }

    ghost predicate Valid()
      reads breaker, limiter
    {
      breaker.Valid() && limiter.Valid()
    }

    constructor (config: Config, breaker: CB.AsyncCircuitBreaker, limiter: RL.AsyncTokenBucket, guard: BackoffGuard)
      requires breaker.Valid() && limiter.Valid()
      ensures Valid() && this.config == config && this.breaker == breaker && this.limiter == limiter && this.guard == guard
    {
      this.config, this.breaker, this.limiter, this.guard := config, breaker, limiter, guard;
    }

    /** `calls` counts the tries; `m` are the clock readings the verdict depended on. */
    method Run(fn: nat -> Outcome, clock: Clock) returns (verdict: Verdict, calls: nat, ghost m: Moments)
      requires Valid() && limiter.lastRefill <= clock.now
      modifies breaker, limiter, guard, clock
      ensures Valid() && limiter.lastRefill <= clock.now
      ensures m.Ordered() && old(clock.now) <= m.guardAt && m.blockAt <= clock.now
      ensures (Snapshot(), verdict, calls) == Execute(config, breaker.Settings(), old(Snapshot()), fn, m)
      ensures TokensTaken() == old(TokensTaken()) + calls
      ensures calls >= 1 ==> m.recordAt >= m.breakerAt + Pauses(config.retryBase, config.retryMax, calls - 1)
    {
      var guardAt := clock.Read();
      var open := guard.AllowRequest(guardAt);
      if !open {
        return GuardClosed, 0, Moments(guardAt, guardAt, guardAt, guardAt);
      }
      var breakerAt := clock.Read();
      var allowed := breaker.AllowRequest(breakerAt);
      if !allowed {
        return BreakerOpen, 0, Moments(guardAt, breakerAt, breakerAt, breakerAt);
      }
      verdict, calls, m := RetryLoop(fn, clock);
      m := m.(guardAt := guardAt, breakerAt := breakerAt);
    }

    /** The tokens handed out so far by the bucket of this executor. */
    ghost function TokensTaken(): nat
      reads limiter
    {
      |RL.Grants(limiter.created, limiter.polls)|
    }

    method RetryLoop(fn: nat -> Outcome, clock: Clock) returns (verdict: Verdict, calls: nat, ghost m: Moments)
      requires Valid() && limiter.lastRefill <= clock.now
      modifies breaker, limiter, guard, clock
      ensures Valid() && limiter.lastRefill <= clock.now
      ensures old(clock.now) <= m.recordAt <= m.blockAt <= clock.now
      ensures (Snapshot(), verdict, calls) == TryAll(config, breaker.Settings(), old(Snapshot()), fn, m)
      ensures TokensTaken() == old(TokensTaken()) + calls
      ensures calls >= 1 ==> m.recordAt >= old(clock.now) + Pauses(config.retryBase, config.retryMax, calls - 1)
    {
      if config.retryAttempts <= 0 {
        calls := 0;
        verdict, m := Leave(RetryableError, clock);
        return;
      }
      calls := Tries(fn, clock);
      verdict, m := Leave(fn(calls), clock);
    }

    /** The tries themselves, each with its token, and the pauses between them. */
    method Tries(fn: nat -> Outcome, clock: Clock) returns (calls: nat)
      requires limiter.Valid() && limiter.lastRefill <= clock.now && config.retryAttempts >= 1
      modifies limiter, clock
      ensures limiter.Valid() && limiter.lastRefill <= clock.now && old(clock.now) <= clock.now
      ensures 1 <= calls == LastTry(fn, 1, config.retryAttempts)
      ensures TokensTaken() == old(TokensTaken()) + calls
      ensures clock.now >= old(clock.now) + Pauses(config.retryBase, config.retryMax, calls - 1)
    {
      calls := 0;
      var attempt: nat := 1;
      while attempt <= config.retryAttempts
        invariant 1 <= attempt <= config.retryAttempts && calls == attempt - 1
        invariant limiter.Valid() && limiter.lastRefill <= clock.now && old(clock.now) <= clock.now
        invariant forall i :: 1 <= i < attempt ==> fn(i) == RetryableError
        invariant TokensTaken() == old(TokensTaken()) + calls
        invariant clock.now >= old(clock.now) + Pauses(config.retryBase, config.retryMax, calls)
        decreases config.retryAttempts - attempt
      {
        limiter.Acquire(clock);
        calls := attempt;
        if fn(attempt) != RetryableError || attempt == config.retryAttempts {
          LastTryUnique(fn, 1, calls, config.retryAttempts);
          return;
        }
        Pause(attempt, clock);
        attempt := attempt + 1;
      }
    }

    method Pause(attempt: nat, clock: Clock)
      requires attempt >= 1
      modifies clock
      ensures clock.now >= old(clock.now) + MaxReal(0.0, RetrySleepSeconds(attempt, config.retryBase, config.retryMax, 0.0))
    {
      var jitter: real := *;
      jitter := MinReal(MaxReal(0.0, jitter), MaxReal(0.0, config.retryBase));
      SleepsEnough(attempt, config.retryBase, config.retryMax, jitter);
      clock.Sleep(RetrySleepSeconds(attempt, config.retryBase, config.retryMax, jitter));
    }

    /** How the last try ends is recorded, unless its error is raised. */
    method Leave(last: Outcome, clock: Clock) returns (verdict: Verdict, ghost m: Moments)
      requires Valid()
      modifies breaker, guard, clock
      ensures Valid() && old(clock.now) <= m.recordAt <= m.blockAt <= clock.now
      ensures verdict == match last case Returned => Succeeded case OtherError => Raised case RetryableError => Exhausted
      ensures Snapshot() == match last
        case Returned => Shared(old(breaker.Snapshot()).Step(breaker.Settings(), CB.Success(m.recordAt)), OPEN)
        case OtherError => old(Snapshot())
        case RetryableError => Shared(old(breaker.Snapshot()).Step(breaker.Settings(), CB.Failure(m.recordAt)),
                                      old(guard.Snapshot()).Failed(m.blockAt, config.backoffBase, config.backoffMax))
    {
      m := Moments(clock.now, clock.now, clock.now, clock.now);
      if last == OtherError {
        return Raised, m;
      }
      var recordAt := clock.Read();
      if last == Returned {
        breaker.RecordSuccess(recordAt);
        guard.RecordSuccess();
        return Succeeded, Moments(recordAt, recordAt, recordAt, recordAt);
      }
      breaker.RecordFailure(recordAt);
      var blockAt := clock.Read();
      guard.RecordFailure(blockAt, config.backoffBase, config.backoffMax);
      return Exhausted, Moments(recordAt, recordAt, recordAt, blockAt);
    }
  }
}

/** src/ingestion/resilience/resilient_http_client.py: the request a single-flight leader makes, behind
    the guard and the breaker of its endpoint, and the bookkeeping of how long the endpoint is blocked. */
module HttpClient {
  import opened Common
  import opened Backoff
  import RL = RateLimiter
  import CB = CircuitBreaker
  import X = Executor

  /** How one attempt ends. `Cancelled` stands for whatever is neither an HTTP nor a value error and so
      leaves the attempt loop without being recorded. */
  datatype Reply = Payload | Retryable(retryAfter: Option<real>) | FailFast | Cancelled

  datatype Result = Blocked | Answered | GaveUp | Aborted

  function OutcomeOf(r: Reply): X.Outcome
  {
    match r
    case Payload => X.Returned
    case Retryable(_) => X.RetryableError
    case _ => X.OtherError
  }

  function Outcomes(replies: nat -> Reply): nat -> X.Outcome
  {
    (n: nat) => OutcomeOf(replies(n))
  }

  /** What is left behind, how the request ends and how often the server is asked. Unlike the executor,
      the client records an error that is not worth retrying. */
  function Request(config: X.Config, limits: CB.Limits, s: X.Shared, replies: nat -> Reply, m: X.Moments): (X.Shared, Result, nat)
    requires config.retryAttempts >= 1
  {
    if !s.guard.Allows(m.guardAt) then (s, Blocked, 0)
    else
      var asked := s.(breaker := s.breaker.Step(limits, CB.Allow(m.breakerAt)));
      if !s.breaker.Allows(limits, m.breakerAt) then (asked, Blocked, 0)
      else Attempts(config, limits, asked, replies, m)
  }

  function Attempts(config: X.Config, limits: CB.Limits, s: X.Shared, replies: nat -> Reply, m: X.Moments): (X.Shared, Result, nat)
    requires config.retryAttempts >= 1
  {
    var calls := X.LastTry(Outcomes(replies), 1, config.retryAttempts);
    match replies(calls)
    case Payload => (X.Shared(s.breaker.Step(limits, CB.Success(m.recordAt)), OPEN), Answered, calls)
    case Cancelled => (s, Aborted, calls)
    case _ => (X.Shared(s.breaker.Step(limits, CB.Failure(m.recordAt)),
                        s.guard.Failed(m.blockAt, config.backoffBase, config.backoffMax)), GaveUp, calls)
  }

  /** How a request ends, read off the replies: blocked without a call while the guard or the breaker says no;
      otherwise the server is asked until a reply is not worth a retry, or as often as allowed, and the last
      reply decides. An error not worth a retry is not retried. */
  lemma RequestComposes(config: X.Config, limits: CB.Limits, s: X.Shared, replies: nat -> Reply, m: X.Moments)
    requires config.retryAttempts >= 1
    ensures var (s', result, calls) := Request(config, limits, s, replies, m);
      && (result == Blocked <==> m.guardAt < s.guard.openedUntil || !s.breaker.Allows(limits, m.breakerAt))
      && (result == Blocked <==> calls == 0)
      && (calls >= 1 ==>
            && calls <= config.retryAttempts && (forall i :: 1 <= i < calls ==> replies(i).Retryable?)
            && (replies(calls).Retryable? ==> calls == config.retryAttempts)
            && result == match replies(calls) case Payload => Answered case Cancelled => Aborted case _ => GaveUp)
      && (result == Answered ==> s'.breaker.phase.Closed? && s'.guard.failureStreak == 0)
      && (result == GaveUp ==> !s'.breaker.phase.HalfOpen? && s'.guard.failureStreak == s.guard.failureStreak + 1)
      && (result == Aborted ==> s'.guard == s.guard)
  {
    X.LastTryIs(Outcomes(replies), 1, config.retryAttempts);
    assert forall i: nat :: Outcomes(replies)(i) == X.RetryableError <==> replies(i).Retryable?;
  }

  // ----- No probe is lost but to a cancellation -----

  /** The request ends in something that is recorded nowhere. */
  predicate CancelledAtLast(config: X.Config, replies: nat -> Reply)
    requires config.retryAttempts >= 1
  {
    replies(X.LastTry(Outcomes(replies), 1, config.retryAttempts)).Cancelled?
  }

  /** A function that leaves in an executor's breaker and guard what these replies leave in the client's:
      an error not worth a retry counts like one retried in vain. */
  function Counterpart(config: X.Config, replies: nat -> Reply): nat -> X.Outcome
    requires config.retryAttempts >= 1
  {
    if replies(X.LastTry(Outcomes(replies), 1, config.retryAttempts)).FailFast? then X.FAILING else Outcomes(replies)
  }

  lemma SameAsExecutor(config: X.Config, limits: CB.Limits, s: X.Shared, replies: nat -> Reply, m: X.Moments)
    requires config.retryAttempts >= 1
    ensures Request(config, limits, s, replies, m).0 == X.Execute(config, limits, s, Counterpart(config, replies), m).0
    ensures X.Leaks(config, Counterpart(config, replies)) <==> CancelledAtLast(config, replies)
  {
    X.LastTryIs(Outcomes(replies), 1, config.retryAttempts);
    X.LastTryIs(X.FAILING, 1, config.retryAttempts);
  }

  /** What a request does to the breaker, whatever state it finds: it leaves it half open exactly when it
      is refused and found it so, or is admitted by one that was not closed and cancelled in the end; and
      then it has cost one probe. */
  lemma ProbeLostIff(config: X.Config, limits: CB.Limits, s: X.Shared, replies: nat -> Reply, m: X.Moments)
    requires config.retryAttempts >= 1 && limits.Valid()
    ensures var (s', result, calls) := Request(config, limits, s, replies, m);
      && (s'.breaker.phase.HalfOpen? <==>
            if X.Admits(limits, s, m) then !s.breaker.phase.Closed? && CancelledAtLast(config, replies)
            else s.breaker.phase.HalfOpen?)
      && (s'.breaker.phase.HalfOpen? ==> X.Lost(s') == X.Lost(s) + if X.Admits(limits, s, m) then 1 else 0)
      && (calls >= 1 <==> X.Admits(limits, s, m)) && calls <= config.retryAttempts
  {
    X.LastTryIs(Outcomes(replies), 1, config.retryAttempts);
    SameAsExecutor(config, limits, s, replies, m);
    X.ProbeFate(config, limits, s, Counterpart(config, replies), m);
  }

  datatype Call = Call(replies: nat -> Reply, moments: X.Moments)

  function After(config: X.Config, limits: CB.Limits, s: X.Shared, calls: seq<Call>): X.Shared
    requires config.retryAttempts >= 1
    decreases calls
  {
    if calls == [] then s
    else After(config, limits, Request(config, limits, s, calls[0].replies, calls[0].moments).0, calls[1..])
  }

  /** The requests admitted by a breaker that was not closed, in order: whether each was cancelled. */
  function Probes(config: X.Config, limits: CB.Limits, s: X.Shared, calls: seq<Call>): seq<bool>
    requires config.retryAttempts >= 1
    decreases calls
  {
    if calls == [] then []
    else
      var c := calls[0];
      (if X.Admits(limits, s, c.moments) && !s.breaker.phase.Closed? then [CancelledAtLast(config, c.replies)] else [])
      + Probes(config, limits, Request(config, limits, s, c.replies, c.moments).0, calls[1..])
  }

  function Counterparts(config: X.Config, calls: seq<Call>): seq<X.Call>
    requires config.retryAttempts >= 1
    decreases calls
  {
    if calls == [] then []
    else [X.Call(Counterpart(config, calls[0].replies), calls[0].moments)] + Counterparts(config, calls[1..])
  }

  lemma {:induction false} RunsAsExecutor(config: X.Config, limits: CB.Limits, s: X.Shared, calls: seq<Call>)
    requires config.retryAttempts >= 1
    ensures After(config, limits, s, calls) == X.After(config, limits, s, Counterparts(config, calls))
    ensures Probes(config, limits, s, calls) == X.Probes(config, limits, s, Counterparts(config, calls))
    decreases calls
  {
    if calls != [] {
      SameAsExecutor(config, limits, s, calls[0].replies, calls[0].moments);
      assert Counterparts(config, calls)[1..] == Counterparts(config, calls[1..]);
      RunsAsExecutor(config, limits, Request(config, limits, s, calls[0].replies, calls[0].moments).0, calls[1..]);
    }
  }

  /** After any run of requests, the next one that comes after the cooldown and the recovery time reaches
      the server, unless as many probes as are allowed were the last ones and every one was cancelled: then
      none does any more. */
  lemma RecoversIff(config: X.Config, limits: CB.Limits, s: X.Shared, calls: seq<Call>, replies: nat -> Reply, m: X.Moments)
    requires config.retryAttempts >= 1 && limits.Valid() && X.Lost(s) >= 0
    ensures var n := After(config, limits, s, calls);
      m.guardAt >= n.guard.openedUntil && m.breakerAt >= n.breaker.openedAt + limits.recoverySeconds ==>
        (Request(config, limits, n, replies, m).2 >= 1
         <==> !X.LastAllLost(seq(X.Lost(s), i => true) + Probes(config, limits, s, calls), limits.halfOpenMaxCalls))
  {
    RunsAsExecutor(config, limits, s, calls);
    X.WedgedIff(config, limits, s, Counterparts(config, calls));
    assert seq(X.Lost(s), i => true) + Probes(config, limits, s, calls) == X.AllProbes(config, limits, s, Counterparts(config, calls));
    ProbeLostIff(config, limits, After(config, limits, s, calls), replies, m);
  }

  /** So as long as no request is cancelled, the server is always reached again. */
  lemma {:induction false} AlwaysRecovers(config: X.Config, limits: CB.Limits, s: X.Shared, calls: seq<Call>,
                                          replies: nat -> Reply, m: X.Moments)
    requires config.retryAttempts >= 1 && limits.Valid() && !X.Wedged(limits, s)
    requires forall i :: 0 <= i < |calls| ==> !CancelledAtLast(config, calls[i].replies)
    ensures var n := After(config, limits, s, calls);
      && !X.Wedged(limits, n)
      && (m.guardAt >= n.guard.openedUntil && m.breakerAt >= n.breaker.openedAt + limits.recoverySeconds ==>
            Request(config, limits, n, replies, m).2 >= 1)
    decreases calls
  {
    if calls == [] {
      ProbeLostIff(config, limits, s, replies, m);
    } else {
      ProbeLostIff(config, limits, s, calls[0].replies, calls[0].moments);
      AlwaysRecovers(config, limits, Request(config, limits, s, calls[0].replies, calls[0].moments).0, calls[1..], replies, m);
    }
  }

  // ----- A failing server is left alone -----

  ghost predicate AlwaysFails(replies: nat -> Reply)
  {
    forall n: nat :: replies(n).Retryable? || replies(n).FailFast?
  }

  function TotalCalls(config: X.Config, limits: CB.Limits, s: X.Shared, calls: seq<Call>): nat
    requires config.retryAttempts >= 1
    decreases calls
  {
    if calls == [] then 0
    else
      var (next, _, n) := Request(config, limits, s, calls[0].replies, calls[0].moments);
      n + TotalCalls(config, limits, next, calls[1..])
  }

  /** A failing request leaves what the executor leaves when its function keeps failing, for no more
      calls. */
  lemma FailingRequest(config: X.Config, limits: CB.Limits, s: X.Shared, replies: nat -> Reply, m: X.Moments)
    requires config.retryAttempts >= 1 && AlwaysFails(replies)
    ensures var (s', result, calls) := Request(config, limits, s, replies, m);
      var (x', _, tries) := X.Execute(config, limits, s, X.FAILING, m);
      s' == x' && calls <= tries
  {
    X.LastTryIs(Outcomes(replies), 1, config.retryAttempts);
    X.LastTryIs(X.FAILING, 1, config.retryAttempts);
    assert replies(X.LastTry(Outcomes(replies), 1, config.retryAttempts)).Payload? == false;
  }

  function MomentsOf(calls: seq<Call>): seq<X.Moments>
    decreases calls
  {
    if calls == [] then [] else [calls[0].moments] + MomentsOf(calls[1..])
  }

  lemma {:induction false} NoMoreThanExecutor(config: X.Config, limits: CB.Limits, s: X.Shared, calls: seq<Call>)
    requires config.retryAttempts >= 1 && forall i :: 0 <= i < |calls| ==> AlwaysFails(calls[i].replies)
    ensures TotalCalls(config, limits, s, calls) <= X.TotalCalls(config, limits, s, MomentsOf(calls))
    ensures |MomentsOf(calls)| == |calls| && forall i :: 0 <= i < |calls| ==> MomentsOf(calls)[i] == calls[i].moments
    decreases calls
  {
    if calls != [] {
      var next := Request(config, limits, s, calls[0].replies, calls[0].moments).0;
      FailingRequest(config, limits, s, calls[0].replies, calls[0].moments);
      NoMoreThanExecutor(config, limits, next, calls[1..]);
      assert MomentsOf(calls)[1..] == MomentsOf(calls[1..]);
    }
  }

  /** A server that keeps failing, whether worth a retry or not, is asked at most `retryAttempts` times
      per first cooldown, and once more. */
  lemma FailingServerBound(config: X.Config, limits: CB.Limits, s: X.Shared, calls: seq<Call>, from: real, until: real)
    requires config.retryAttempts >= 1 && X.FirstCooldown(config) > 0.0 && from <= until
    requires forall i :: 0 <= i < |calls| ==> AlwaysFails(calls[i].replies) && calls[i].moments.guardAt <= until
    requires X.Sequential(from, MomentsOf(calls))
    ensures TotalCalls(config, limits, s, calls)
            <= config.retryAttempts * (1 + ((until - from) / X.FirstCooldown(config)).Floor)
  {
    NoMoreThanExecutor(config, limits, s, calls);
    X.FailingRunBound(config, limits, s, MomentsOf(calls), from, until);
  }

  // ----- How long an endpoint was blocked -----

  /** Since when the endpoint is known to be blocked, and the seconds reported so far. */
  datatype Outage = Outage(since: Option<real>, reported: real) {

    function Reported(now: real): Outage
    {
      this.(reported := reported + if since.Some? then MaxReal(0.0, now - since.value) else 0.0)
    }

    function Block(now: real): Outage { Reported(now).(since := Some(now)) }

    function Clear(now: real): Outage { Reported(now).(since := None) }
  }

  function Blocks(o: Outage, times: seq<real>): Outage
    decreases times
  {
    if times == [] then o else Blocks(o.Block(times[0]), times[1..])
  }

  /** An outage is reported in pieces, one for each refusal and one when it ends. They add up to its
      length, from the first refusal to the end, exactly when the recorded instants never step back;
      otherwise they add up to more. */
  lemma {:induction false} ReportedIff(o: Outage, times: seq<real>, end: real)
    requires o.since.Some?
    ensures var after := Blocks(o, times).Clear(end);
      && after.since.None?
      && after.reported - o.reported >= end - o.since.value
      && (after.reported - o.reported == end - o.since.value <==> Chronological(o.since.value, times + [end]))
    decreases times
  {
    if times == [] {
      assert [] + [end] == [end];
    } else {
      assert (times + [end])[1..] == times[1..] + [end];
      ReportedIff(o.Block(times[0]), times[1..], end);
    }
  }

  // ----- The client itself -----

  /** A server's own request to wait is honoured up to the maximum; otherwise the wait doubles. */
  function SleepSeconds(r: Reply, base: real, attempt: nat, max: real, jitter: real): real
    requires attempt >= 1 && r.Retryable?
  {
    if r.retryAfter.Some? && r.retryAfter.value > 0.0 then MinReal(max, r.retryAfter.value)
    else X.RetrySleepSeconds(attempt, base, max, jitter)
  }

  /** The least a request waits after its first `n` replies: as long as the server asked for, up to the maximum,
      and else what it sleeps without jitter. */
  function Waits(replies: nat -> Reply, base: real, max: real, n: nat): real
    requires forall i :: 1 <= i <= n ==> replies(i).Retryable?
  {
    if n == 0 then 0.0
    else
      var asked := replies(n).retryAfter;
      Waits(replies, base, max, n - 1)
      + MaxReal(0.0, if asked.Some? && asked.value > 0.0 then MinReal(max, asked.value) else X.RetrySleepSeconds(n, base, max, 0.0))
  }

  ghost predicate Waited(replies: nat -> Reply, base: real, max: real, n: nat, seconds: real)
  {
    (forall i :: 1 <= i <= n ==> replies(i).Retryable?) && seconds >= Waits(replies, base, max, n)
  }

  class ResilientHttpClient {
    const config: X.Config
    const breaker: CB.AsyncCircuitBreaker
    const bucket: RL.AsyncTokenBucket
    const backoffGuard: BackoffGuard
    var blockedSince: Option<real>
    /** The seconds handed to the blocked-time metric. */
    var reportedSeconds: real

    ghost predicate Valid()
      reads breaker, bucket
    {
      config.retryAttempts >= 1 && breaker.Valid() && bucket.Valid()
    }

    ghost function Snapshot(): X.Shared
      reads breaker, backoffGuard
    {
      X.Shared(breaker.Snapshot(), backoffGuard.Snapshot())
    }

    ghost function BlockedTime(): Outage
      reads this
    {
      Outage(blockedSince, reportedSeconds)
    }

    ghost function TokensTaken(): nat
      reads bucket
    {
      |RL.Grants(bucket.created, bucket.polls)|
    }

    constructor (retryAttempts: int, retryBase: real, retryMax: real,
                 breaker: CB.AsyncCircuitBreaker, bucket: RL.AsyncTokenBucket, guard: BackoffGuard)
      requires breaker.Valid() && bucket.Valid()
      ensures Valid() && BlockedTime() == Outage(None, 0.0) && X.FirstCooldown(config) > 0.0
      ensures this.breaker == breaker && this.bucket == bucket && this.backoffGuard == guard
    {
      this.config := X.Config(MaxInt(1, retryAttempts), MaxReal(0.05, retryBase), MaxReal(0.05, retryMax),
                              MaxReal(0.1, retryBase), MaxReal(0.5, retryMax));
      this.breaker, this.bucket, this.backoffGuard := breaker, bucket, guard;
      blockedSince, reportedSeconds := None, 0.0;
    }

    method RecordCircuitBlocked(now: real)
      modifies this
      ensures BlockedTime() == old(BlockedTime()).Block(now)
    {
      if blockedSince.None? {
        blockedSince := Some(now);
        return;
      }
      var blockedSeconds := MaxReal(0.0, now - blockedSince.value);
      if blockedSeconds > 0.0 {
        reportedSeconds := reportedSeconds + blockedSeconds;
      }
      blockedSince := Some(now);
    }

    method ClearCircuitBlocked(now: real)
      modifies this
      ensures BlockedTime() == old(BlockedTime()).Clear(now)
    {
      if blockedSince.Some? {
        var blockedSeconds := MaxReal(0.0, now - blockedSince.value);
        if blockedSeconds > 0.0 {
          reportedSeconds := reportedSeconds + blockedSeconds;
        }
      }
      blockedSince := None;
    }

    method RequestJsonUncached(replies: nat -> Reply, clock: Clock) returns (result: Result, calls: nat, ghost m: X.Moments)
      requires Valid() && bucket.lastRefill <= clock.now
      modifies this, breaker, bucket, backoffGuard, clock
      ensures Valid() && bucket.lastRefill <= clock.now
      ensures m.Ordered() && old(clock.now) <= m.guardAt && m.blockAt <= clock.now
      ensures (Snapshot(), result, calls) == Request(config, breaker.Settings(), old(Snapshot()), replies, m)
      ensures TokensTaken() == old(TokensTaken()) + calls
      ensures calls >= 1 ==> Waited(replies, config.retryBase, config.retryMax, calls - 1, m.recordAt - m.breakerAt)
      ensures result == Blocked ==> BlockedTime() == old(BlockedTime()).Block(m.guardAt)
      ensures result != Blocked ==>
                exists now :: m.breakerAt <= now <= m.recordAt && BlockedTime() == old(BlockedTime()).Clear(now)
    {
      var guardAt := clock.Read();
      var open := backoffGuard.AllowRequest(guardAt);
      if !open {
        RecordCircuitBlocked(guardAt);
        return Blocked, 0, X.Moments(guardAt, guardAt, guardAt, guardAt);
      }
      var breakerAt := clock.Read();
      var allowed := breaker.AllowRequest(breakerAt);
      if !allowed {
        RecordCircuitBlocked(guardAt);
        return Blocked, 0, X.Moments(guardAt, breakerAt, breakerAt, breakerAt);
      }
      var clearedAt := clock.Read();
      ClearCircuitBlocked(clearedAt);
      result, calls, m := AttemptLoop(replies, clock);
      m := m.(guardAt := guardAt, breakerAt := breakerAt);
    }

    method AttemptLoop(replies: nat -> Reply, clock: Clock) returns (result: Result, calls: nat, ghost m: X.Moments)
      requires Valid() && bucket.lastRefill <= clock.now
      modifies breaker, bucket, backoffGuard, clock
      ensures Valid() && bucket.lastRefill <= clock.now
      ensures old(clock.now) <= m.recordAt <= m.blockAt <= clock.now
      ensures (Snapshot(), result, calls) == Attempts(config, breaker.Settings(), old(Snapshot()), replies, m)
      ensures TokensTaken() == old(TokensTaken()) + calls
      ensures calls >= 1 && Waited(replies, config.retryBase, config.retryMax, calls - 1, m.recordAt - old(clock.now))
    {
      calls := Tries(replies, clock);
      result, m := Conclude(replies(calls), clock);
    }

    /** The attempts themselves, each with its token, and the waits between them. */
    method Tries(replies: nat -> Reply, clock: Clock) returns (calls: nat)
      requires bucket.Valid() && bucket.lastRefill <= clock.now && config.retryAttempts >= 1
      modifies bucket, clock
      ensures bucket.Valid() && bucket.lastRefill <= clock.now && old(clock.now) <= clock.now
      ensures 1 <= calls == X.LastTry(Outcomes(replies), 1, config.retryAttempts)
      ensures forall i :: 1 <= i < calls ==> replies(i).Retryable?
      ensures TokensTaken() == old(TokensTaken()) + calls
      ensures clock.now >= old(clock.now) + Waits(replies, config.retryBase, config.retryMax, calls - 1)
    {
      calls := 0;
      var attempt: nat := 1;
      while true
        invariant 1 <= attempt <= config.retryAttempts && calls == attempt - 1
        invariant bucket.Valid() && bucket.lastRefill <= clock.now && old(clock.now) <= clock.now
        invariant forall i :: 1 <= i < attempt ==> replies(i).Retryable?
        invariant TokensTaken() == old(TokensTaken()) + calls
        invariant clock.now >= old(clock.now) + Waits(replies, config.retryBase, config.retryMax, calls)
        decreases config.retryAttempts - attempt
      {
        bucket.Acquire(clock);
        calls := attempt;
        var reply := replies(attempt);
        if !reply.Retryable? || attempt >= config.retryAttempts {
          X.LastTryUnique(Outcomes(replies), 1, calls, config.retryAttempts);
          return;
        }
        Wait(reply, attempt, clock);
        attempt := attempt + 1;
      }
    }

    method Wait(reply: Reply, attempt: nat, clock: Clock)
      requires attempt >= 1 && reply.Retryable?
      modifies clock
      ensures clock.now >= old(clock.now)
      ensures clock.now >= old(clock.now) + SleepSeconds(reply, config.retryBase, attempt, config.retryMax, 0.0)
    {
      var jitter: real := *;
      jitter := MinReal(MaxReal(0.0, jitter), MaxReal(0.0, config.retryBase));
      X.SleepsEnough(attempt, config.retryBase, config.retryMax, jitter);
      clock.Sleep(SleepSeconds(reply, config.retryBase, attempt, config.retryMax, jitter));
    }

    /** What the last attempt's reply leaves behind. */
    method Conclude(reply: Reply, clock: Clock) returns (result: Result, ghost m: X.Moments)
      requires Valid()
      modifies breaker, backoffGuard, clock
      ensures Valid() && old(clock.now) <= m.recordAt <= m.blockAt <= clock.now
      ensures result == match reply case Payload => Answered case Cancelled => Aborted case _ => GaveUp
      ensures Snapshot() == match reply
        case Payload => X.Shared(old(breaker.Snapshot()).Step(breaker.Settings(), CB.Success(m.recordAt)), OPEN)
        case Cancelled => old(Snapshot())
        case _ => X.Shared(old(breaker.Snapshot()).Step(breaker.Settings(), CB.Failure(m.recordAt)),
                           old(backoffGuard.Snapshot()).Failed(m.blockAt, config.backoffBase, config.backoffMax))
    {
      m := X.Moments(clock.now, clock.now, clock.now, clock.now);
      if reply.Cancelled? {
        return Aborted, m;
      }
      var recordAt := clock.Read();
      if reply.Payload? {
        breaker.RecordSuccess(recordAt);
        backoffGuard.RecordSuccess();
        return Answered, X.Moments(recordAt, recordAt, recordAt, recordAt);
      }
      breaker.RecordFailure(recordAt);
      var blockAt := clock.Read();
      backoffGuard.RecordFailure(blockAt, config.backoffBase, config.backoffMax);
      return GaveUp, X.Moments(recordAt, recordAt, recordAt, blockAt);
    }
  }
}

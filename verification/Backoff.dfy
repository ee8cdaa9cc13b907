/** src/shared/resilience/backoff.py: the guard that keeps a failing resource closed for a while.
    The cooldown grows linearly with the failures in a row and stops growing at the eighth. */
module Backoff {
  import opened Common

  datatype Guard = Guard(failureStreak: nat, openedUntil: real) {

    predicate Allows(now: real) { now >= openedUntil }

    function Failed(now: real, baseSeconds: real, maxSeconds: real): Guard
    {
      Guard(failureStreak + 1, MaxReal(openedUntil, now + Cooldown(failureStreak + 1, baseSeconds, maxSeconds)))
    }
  }

  const OPEN := Guard(0, 0.0)

  function Cooldown(streak: nat, baseSeconds: real, maxSeconds: real): real
  {
    Capped(MaxReal(0.1, baseSeconds), MinInt(8, MaxInt(1, streak)) as real, maxSeconds)
  }

  function Capped(b: real, x: real, cap: real): real { MinReal(cap, b * x) }

  lemma MinGrows(p: real, q: real, cap: real)
    requires p <= q
    ensures MinReal(cap, p) <= MinReal(cap, q)
  {
  }

  lemma CappedGrows(b: real, x: real, y: real, cap: real)
    requires b >= 0.0 && x <= y
    ensures Capped(b, x, cap) <= Capped(b, y, cap)
  {
    ScaleReal(b, x, y);
    MinGrows(b * x, b * y, cap);
  }

  lemma CooldownGrows(j: nat, k: nat, baseSeconds: real, maxSeconds: real)
    requires j <= k
    ensures Cooldown(j, baseSeconds, maxSeconds) <= Cooldown(k, baseSeconds, maxSeconds)
  {
    CappedGrows(MaxReal(0.1, baseSeconds), MinInt(8, MaxInt(1, j)) as real, MinInt(8, MaxInt(1, k)) as real, maxSeconds);
  }

  /** The guard after failures at the given instants and no success among them. */
  function Failures(g: Guard, times: seq<real>, baseSeconds: real, maxSeconds: real): Guard
    decreases times
  {
    if times == [] then g
    else Failures(g, times[..|times| - 1], baseSeconds, maxSeconds).Failed(times[|times| - 1], baseSeconds, maxSeconds)
  }

  /** After k failures in a row the guard is closed exactly until the k-th failure plus k base cooldowns, but
      no more than eight and no longer than the maximum: earlier, longer-lasting failures never dominate. */
  lemma ClosedExactlyUntil(times: seq<real>, baseSeconds: real, maxSeconds: real, cooldown: real, now: real)
    requires times != [] && now >= 0.0
    requires forall i, j :: 0 <= i <= j < |times| ==> times[i] <= times[j]
    requires cooldown == MinReal(maxSeconds, MaxReal(0.1, baseSeconds) * MinInt(8, |times|) as real)
    ensures var g := Failures(OPEN, times, baseSeconds, maxSeconds);
      && g.failureStreak == |times| && g.openedUntil == MaxReal(0.0, times[|times| - 1] + cooldown)
      && (g.Allows(now) <==> now >= times[|times| - 1] + cooldown)
  {
    CooldownIs(|times|, baseSeconds, maxSeconds, cooldown);
    BlockedUntil(times, baseSeconds, maxSeconds);
  }

  lemma CooldownIs(k: nat, baseSeconds: real, maxSeconds: real, cooldown: real)
    requires k >= 1 && cooldown == MinReal(maxSeconds, MaxReal(0.1, baseSeconds) * MinInt(8, k) as real)
    ensures Cooldown(k, baseSeconds, maxSeconds) == cooldown
  {
  }

  lemma {:induction false} BlockedUntil(times: seq<real>, baseSeconds: real, maxSeconds: real)
    requires times != [] && forall i, j :: 0 <= i <= j < |times| ==> times[i] <= times[j]
    ensures Failures(OPEN, times, baseSeconds, maxSeconds)
            == Guard(|times|, MaxReal(0.0, times[|times| - 1] + Cooldown(|times|, baseSeconds, maxSeconds)))
    decreases times
  {
    var before := times[..|times| - 1];
    if before != [] {
      BlockedUntil(before, baseSeconds, maxSeconds);
      assert before[|before| - 1] == times[|times| - 2] <= times[|times| - 1];
      CooldownGrows(|before|, |times|, baseSeconds, maxSeconds);
    }
  }

  class BackoffGuard {
    var failureStreak: nat
    var openedUntil: real

    ghost function Snapshot(): Guard
      reads this
    {
      Guard(failureStreak, openedUntil)
    }

    constructor ()
      ensures Snapshot() == OPEN
    {
      failureStreak, openedUntil := 0, 0.0;
    }

    method AllowRequest(now: real) returns (allowed: bool)
      ensures allowed == Snapshot().Allows(now)
    {
      allowed := now >= openedUntil;
    }

    method RemainingBlockedSeconds(now: real) returns (seconds: real)
      ensures seconds == 0.0 <==> Snapshot().Allows(now)
      ensures forall later :: now <= later ==> (Snapshot().Allows(later) <==> later >= now + seconds)
    {
      seconds := MaxReal(0.0, openedUntil - now);
    }

    method RecordFailure(now: real, baseSeconds: real, maxSeconds: real)
      modifies this
      ensures Snapshot() == old(Snapshot()).Failed(now, baseSeconds, maxSeconds)
    {
      failureStreak := failureStreak + 1;
      var multiplier := MinInt(8, MaxInt(1, failureStreak));
      var cooldown := Capped(MaxReal(0.1, baseSeconds), multiplier as real, maxSeconds);
      openedUntil := MaxReal(openedUntil, now + cooldown);
    }

    method RecordSuccess()
      modifies this
      ensures Snapshot() == OPEN
    {
      failureStreak, openedUntil := 0, 0.0;
    }
  }
}

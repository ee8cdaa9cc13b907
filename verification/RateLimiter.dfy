/** src/shared/resilience/rate_limiter.py: a token bucket shared by any number of tasks.
    The lock makes one poll (refill, then take a token if there is one) atomic, so a run of any
    number of tasks is a sequence of polls in clock order. */
module RateLimiter {
  import opened Common

  /** What a stretch of time adds. */
  function Refill(rate: real, seconds: real): real { rate * seconds }

  /** How long a caller that found `tokens` is told to sleep. */
  function WaitFor(rate: real, tokens: real): real
    requires rate > 0.0
  {
    (1.0 - tokens) / rate
  }

  datatype Bucket = Bucket(rate: real, capacity: real, tokens: real, lastRefill: real) {

    ghost predicate Valid()
    {
      rate >= 0.01 && capacity >= 1.0 && 0.0 <= tokens <= capacity
    }

    /** The level a poll at `now` finds after its refill. */
    function Level(now: real): real
    {
      MinReal(capacity, tokens + Refill(rate, MaxReal(0.0, now - lastRefill)))
    }

    function Granted(now: real): bool
    {
      Level(now) >= 1.0
    }

    /** The bucket after one poll. */
    function Poll(now: real): Bucket
    {
      this.(tokens := if Granted(now) then Level(now) - 1.0 else Level(now), lastRefill := now)
    }
  }

  /** The bucket after a sequence of polls. */
  function After(b: Bucket, polls: seq<real>): Bucket
    decreases polls
  {
    if polls == [] then b else After(b.Poll(polls[0]), polls[1..])
  }

  /** The instants at which a sequence of polls was granted a token. */
  function Grants(b: Bucket, polls: seq<real>): seq<real>
    decreases polls
  {
    if polls == [] then []
    else (if b.Granted(polls[0]) then [polls[0]] else []) + Grants(b.Poll(polls[0]), polls[1..])
  }

  lemma {:induction false} AfterSnoc(b: Bucket, polls: seq<real>, t: real)
    ensures After(b, polls + [t]) == After(b, polls).Poll(t)
    ensures Grants(b, polls + [t]) == Grants(b, polls) + if After(b, polls).Granted(t) then [t] else []
    decreases polls
  {
    if polls == [] {
      assert [] + [t] == [t];
    } else {
      assert (polls + [t])[1..] == polls[1..] + [t];
      AfterSnoc(b.Poll(polls[0]), polls[1..], t);
    }
  }

  /** The level stays between nothing and the capacity, whoever polls and whenever. */
  lemma {:induction false} LevelStaysInRange(b: Bucket, polls: seq<real>)
    requires b.Valid()
    ensures After(b, polls).Valid()
    ensures After(b, polls).rate == b.rate && After(b, polls).capacity == b.capacity
    decreases polls
  {
    if polls != [] {
      RefillNonNegative(b, polls[0]);
      LevelStaysInRange(b.Poll(polls[0]), polls[1..]);
    }
  }

  lemma RefillNonNegative(b: Bucket, now: real)
    requires b.Valid()
    ensures Refill(b.rate, MaxReal(0.0, now - b.lastRefill)) >= 0.0
    ensures 0.0 <= b.Level(now) <= b.capacity && b.Poll(now).Valid()
  {
    Scale(b.rate, 0.0, MaxReal(0.0, now - b.lastRefill));
  }

  /** The rate limit itself: over any closed interval, however the polls of the competing tasks
      interleave, no more tokens are handed out than the capacity plus the rate times the interval. */
  lemma RateBound(b: Bucket, polls: seq<real>, from: real, to: real)
    requires b.Valid() && Chronological(b.lastRefill, polls) && from <= to
    ensures CountWithin(Grants(b, polls), from, to) as real <= b.capacity + b.rate * (to - from)
  {
    Bound(b, polls, from, to, b.rate * (to - from));
  }

  lemma Bound(b: Bucket, polls: seq<real>, from: real, to: real, refilled: real)
    requires b.Valid() && Chronological(b.lastRefill, polls) && from <= to && refilled == b.rate * (to - from)
    ensures CountWithin(Grants(b, polls), from, to) as real <= b.capacity + refilled
  {
    assert refilled == Refill(b.rate, to - from);
    if b.lastRefill <= from {
      BoundBefore(b, polls, from, to);
    } else {
      BoundInside(b, polls, from, to);
      Scale(b.rate, MaxReal(0.0, to - b.lastRefill), to - from);
    }
  }

  lemma Scale(rate: real, x: real, y: real)
    requires rate >= 0.0 && x <= y
    ensures Refill(rate, x) <= Refill(rate, y)
    ensures x >= 0.0 ==> Refill(rate, x) >= 0.0
  {
    ScaleReal(rate, x, y);
    if x >= 0.0 { ScaleReal(rate, 0.0, x); }
  }

  /** A poll pays for the token it hands out from what the bucket held and what time added. */
  lemma PollSpends(b: Bucket, now: real)
    requires b.Valid() && b.lastRefill <= now
    ensures b.Poll(now).tokens + (if b.Granted(now) then 1.0 else 0.0)
            <= MinReal(b.capacity, b.tokens + Refill(b.rate, now - b.lastRefill))
  {
  }

  lemma CountFirst(b: Bucket, polls: seq<real>, from: real, to: real)
    requires polls != []
    ensures CountWithin(Grants(b, polls), from, to) ==
            (if b.Granted(polls[0]) && from <= polls[0] <= to then 1 else 0)
            + CountWithin(Grants(b.Poll(polls[0]), polls[1..]), from, to)
  {
    var rest := Grants(b.Poll(polls[0]), polls[1..]);
    assert ([polls[0]] + rest)[1..] == rest;
    assert [] + rest == rest;
  }

  /** Once the bucket was refilled inside the interval, only what it holds and what the rest of
      the interval adds can still be handed out. */
  lemma {:induction false} BoundInside(b: Bucket, polls: seq<real>, from: real, to: real)
    requires b.Valid() && Chronological(b.lastRefill, polls) && from <= b.lastRefill
    ensures b.lastRefill <= to ==>
              CountWithin(Grants(b, polls), from, to) as real <= b.tokens + Refill(b.rate, to - b.lastRefill)
    ensures b.lastRefill > to ==> CountWithin(Grants(b, polls), from, to) == 0
    decreases polls
  {
    if b.lastRefill <= to { Scale(b.rate, 0.0, to - b.lastRefill); }
    if polls != [] {
      var p := polls[0];
      RefillNonNegative(b, p);
      BoundInside(b.Poll(p), polls[1..], from, to);
      CountFirst(b, polls, from, to);
      if p <= to {
        PollSpends(b, p);
        Spread(b.rate, p - b.lastRefill, to - p);
        assert (p - b.lastRefill) + (to - p) == to - b.lastRefill;
      }
    }
  }

  lemma Spread(rate: real, x: real, y: real)
    ensures Refill(rate, x + y) == Refill(rate, x) + Refill(rate, y)
  {
  }

  lemma {:induction false} BoundBefore(b: Bucket, polls: seq<real>, from: real, to: real)
    requires b.Valid() && Chronological(b.lastRefill, polls) && b.lastRefill <= from <= to
    ensures CountWithin(Grants(b, polls), from, to) as real <= b.capacity + Refill(b.rate, to - from)
    decreases polls
  {
    Scale(b.rate, 0.0, to - from);
    if polls != [] {
      var p := polls[0];
      RefillNonNegative(b, p);
      CountFirst(b, polls, from, to);
      if p < from {
        BoundBefore(b.Poll(p), polls[1..], from, to);
      } else {
        BoundInside(b.Poll(p), polls[1..], from, to);
        if p <= to {
          PollSpends(b, p);
          Scale(b.rate, to - p, to - from);
        }
      }
    }
  }

  /** Refilling twice is refilling once. */
  lemma RefillComposes(b: Bucket, t: real, later: real)
    requires b.Valid() && b.lastRefill <= t <= later
    ensures b.(tokens := b.Level(t), lastRefill := t).Level(later) == b.Level(later)
  {
    Spread(b.rate, t - b.lastRefill, later - t);
    assert (t - b.lastRefill) + (later - t) == later - b.lastRefill;
    Scale(b.rate, 0.0, later - t);
  }

  /** Two buckets that no poll at or after `t` can tell apart. */
  ghost predicate SameFrom(b: Bucket, c: Bucket, t: real)
  {
    && b.rate == c.rate && b.capacity == c.capacity
    && forall u :: t <= u ==> b.Level(u) == c.Level(u)
  }

  lemma SamePoll(b: Bucket, c: Bucket, p: real)
    requires SameFrom(b, c, p)
    ensures b.Granted(p) == c.Granted(p) && b.Poll(p) == c.Poll(p)
  {
  }

  lemma FailedPollKeepsLevels(b: Bucket, p: real)
    requires b.Valid() && b.lastRefill <= p && !b.Granted(p)
    ensures SameFrom(b, b.Poll(p), p)
  {
    forall u | p <= u ensures b.Level(u) == b.Poll(p).Level(u) {
      RefillComposes(b, p, u);
    }
  }

  lemma {:induction false} SameGrants(b: Bucket, c: Bucket, t: real, polls: seq<real>)
    requires SameFrom(b, c, t) && Chronological(t, polls)
    ensures Grants(b, polls) == Grants(c, polls)
    decreases polls
  {
    if polls != [] {
      SamePoll(b, c, polls[0]);
    }
  }

  lemma {:induction false} GrantsChronological(b: Bucket, polls: seq<real>, start: real)
    requires Chronological(start, polls)
    ensures Chronological(start, Grants(b, polls))
    decreases polls
  {
    if polls != [] {
      var p := polls[0];
      GrantsChronological(b.Poll(p), polls[1..], p);
      var rest := Grants(b.Poll(p), polls[1..]);
      if b.Granted(p) {
        assert ([p] + rest)[1..] == rest;
      } else {
        assert Grants(b, polls) == rest;
      }
    }
  }

  /** Waiting tasks that poll in vain do not disturb anybody: replaying only the successful polls
      hands out the very same tokens at the very same instants. */
  lemma {:induction false} FailedPollsInvisible(b: Bucket, polls: seq<real>)
    requires b.Valid() && Chronological(b.lastRefill, polls)
    ensures Grants(b, Grants(b, polls)) == Grants(b, polls)
    decreases polls
  {
    if polls != [] {
      var p := polls[0];
      RefillNonNegative(b, p);
      var rest := Grants(b.Poll(p), polls[1..]);
      FailedPollsInvisible(b.Poll(p), polls[1..]);
      if b.Granted(p) {
        assert ([p] + rest)[1..] == rest;
      } else {
        assert Grants(b, polls) == rest;
        FailedPollKeepsLevels(b, p);
        GrantsChronological(b.Poll(p), polls[1..], p);
        SameGrants(b, b.Poll(p), p, rest);
      }
    }
  }

  /** A caller that finds less than one token is told to sleep exactly until there is one. */
  lemma WaitExact(b: Bucket, now: real)
    requires b.Valid() && b.lastRefill == now && b.tokens < 1.0
    ensures WaitFor(b.rate, b.tokens) > 0.0
    ensures forall later :: now <= later ==> (b.Granted(later) <==> later >= now + WaitFor(b.rate, b.tokens))
  {
    var wait := WaitFor(b.rate, b.tokens);
    assert wait * b.rate == 1.0 - b.tokens;
    assert wait > 0.0;
    forall later | now <= later ensures b.Granted(later) <==> later >= now + wait {
      CancelProducts(wait, later - now, b.rate, 1.0 - b.tokens, (later - now) * b.rate);
      assert b.Level(later) == MinReal(b.capacity, b.tokens + Refill(b.rate, later - now));
    }
  }

  // ----- What the bucket serves -----

  /** Whether what is held at first and what is refilled until then pay for the polls up to number `j`. */
  function Paid(b: Bucket, polls: seq<real>): nat -> bool
  {
    (j: nat) => j < |polls| && (j + 1) as real <= b.tokens + b.rate * (polls[j] - b.lastRefill)
  }

  /** Whether a full bucket and what is refilled in between pay for the polls from `i` to `j`. */
  function Apart(b: Bucket, polls: seq<real>): (nat, nat) -> bool
  {
    (i: nat, j: nat) => i <= j < |polls| && (j - i + 1) as real <= b.capacity + b.rate * (polls[j] - polls[i])
  }

  ghost predicate Everywhere(paid: nat -> bool, apart: (nat, nat) -> bool, n: nat)
  {
    (forall j: nat :: j < n ==> paid(j)) && (forall i: nat, j: nat :: i <= j < n ==> apart(i, j))
  }

  /** The polls respect the bucket's rate and burst, judged from their instants alone. */
  ghost predicate Fits(b: Bucket, polls: seq<real>)
  {
    Everywhere(Paid(b, polls), Apart(b, polls), |polls|)
  }

  /** The limiter is exact: every poll of a run is granted if and only if over no stretch of it more polls
      came than a full bucket and the refill of that stretch pay for, and never more than what was there at
      first and the refill since. So it refuses nobody it need not refuse. */
  lemma {:induction false} AllGrantedIff(b: Bucket, polls: seq<real>)
    requires b.Valid() && Chronological(b.lastRefill, polls)
    ensures Grants(b, polls) == polls <==> Fits(b, polls)
    decreases polls
  {
    if polls != [] {
      var n, rest := b.Poll(polls[0]), polls[1..];
      RefillNonNegative(b, polls[0]);
      AllGrantedIff(n, rest);
      FitsStep(b, polls);
      GrantsNoMore(n, rest);
      if b.Granted(polls[0]) {
        assert Grants(b, polls) == [polls[0]] + Grants(n, rest) && polls == [polls[0]] + rest;
        assert ([polls[0]] + Grants(n, rest))[1..] == Grants(n, rest);
      } else {
        assert Grants(b, polls) == Grants(n, rest);
      }
    }
  }

  lemma {:induction false} GrantsNoMore(b: Bucket, polls: seq<real>)
    ensures |Grants(b, polls)| <= |polls|
    decreases polls
  {
    if polls != [] { GrantsNoMore(b.Poll(polls[0]), polls[1..]); }
  }

  lemma FitsStep(b: Bucket, polls: seq<real>)
    requires b.Valid() && polls != [] && Chronological(b.lastRefill, polls)
    ensures Fits(b, polls) <==> b.Granted(polls[0]) && Fits(b.Poll(polls[0]), polls[1..])
  {
    FirstPaid(b, polls);
    if b.Granted(polls[0]) {
      forall k: nat | k < |polls[1..]|
        ensures Paid(b.Poll(polls[0]), polls[1..])(k) <==> Paid(b, polls)(k + 1) && Apart(b, polls)(0, k + 1)
      {
        PaidStep(b, polls, k);
      }
      forall i: nat, j: nat | i <= j < |polls[1..]|
        ensures Apart(b.Poll(polls[0]), polls[1..])(i, j) <==> Apart(b, polls)(i + 1, j + 1)
      {
        ApartStep(b, polls, i, j);
      }
      Shifted(Paid(b, polls), Apart(b, polls), Paid(b.Poll(polls[0]), polls[1..]), Apart(b.Poll(polls[0]), polls[1..]), |polls[1..]|);
    }
  }

  lemma FirstPaid(b: Bucket, polls: seq<real>)
    requires b.Valid() && polls != [] && b.lastRefill <= polls[0]
    ensures (Paid(b, polls)(0) <==> b.Granted(polls[0])) && Apart(b, polls)(0, 0)
  {
    assert (0 + 1) as real == 1.0;
  }

  lemma PaidStep(b: Bucket, polls: seq<real>, k: nat)
    requires polls != [] && k < |polls[1..]| && b.lastRefill <= polls[0] && b.Granted(polls[0])
    ensures Paid(b.Poll(polls[0]), polls[1..])(k) <==> Paid(b, polls)(k + 1) && Apart(b, polls)(0, k + 1)
  {
    var p, q := polls[0], polls[1..][k];
    Spread(b.rate, p - b.lastRefill, q - p);
    assert (p - b.lastRefill) + (q - p) == q - b.lastRefill;
    assert q == polls[k + 1] && (k + 2) as real == (k + 1) as real + 1.0;
  }

  lemma ApartStep(b: Bucket, polls: seq<real>, i: nat, j: nat)
    requires polls != [] && i <= j < |polls[1..]|
    ensures Apart(b.Poll(polls[0]), polls[1..])(i, j) <==> Apart(b, polls)(i + 1, j + 1)
  {
  }

  lemma Shifted(paid: nat -> bool, apart: (nat, nat) -> bool, paidOn: nat -> bool, apartOn: (nat, nat) -> bool, n: nat)
    requires apart(0, 0)
    requires forall k: nat :: k < n ==> (paidOn(k) <==> paid(k + 1) && apart(0, k + 1))
    requires forall i: nat, j: nat :: i <= j < n ==> (apartOn(i, j) <==> apart(i + 1, j + 1))
    ensures paid(0) ==> (Everywhere(paid, apart, n + 1) <==> Everywhere(paidOn, apartOn, n))
  {
    if paid(0) && Everywhere(paidOn, apartOn, n) {
      forall j: nat | j <= n ensures paid(j) && apart(0, j) {
        if j > 0 { assert paidOn(j - 1); }
      }
      forall i: nat, j: nat | 0 < i <= j <= n ensures apart(i, j) {
        assert apartOn(i - 1, j - 1);
      }
    }
  }

  /** Each of the instants lies at least `gap` after the one before it. */
  ghost predicate SpacedBy(gap: real, from: real, times: seq<real>)
    decreases times
  {
    times == [] || (times[0] >= from + gap && SpacedBy(gap, times[0], times[1..]))
  }

  /** Whoever polls no faster than the rate is always served, even by an empty bucket. */
  lemma {:induction false} SteadyCallerServed(b: Bucket, polls: seq<real>)
    requires b.Valid() && SpacedBy(1.0 / b.rate, b.lastRefill, polls)
    ensures Grants(b, polls) == polls
    decreases polls
  {
    if polls != [] {
      OneStepGranted(b, polls[0]);
      SteadyCallerServed(b.Poll(polls[0]), polls[1..]);
      assert polls == [polls[0]] + polls[1..];
    }
  }

  lemma OneStepGranted(b: Bucket, p: real)
    requires b.Valid() && p >= b.lastRefill + 1.0 / b.rate
    ensures b.Granted(p) && b.Poll(p).Valid()
  {
    assert 1.0 / b.rate * b.rate == 1.0 && 1.0 / b.rate > 0.0;
    ScaleReal(b.rate, 1.0 / b.rate, p - b.lastRefill);
  }

  class AsyncTokenBucket {
    const ratePerSecond: real
    const capacity: real
    var tokens: real
    var lastRefill: real
    ghost const created: Bucket
    ghost var polls: seq<real>

    ghost function State(): Bucket
      reads this
    {
      Bucket(ratePerSecond, capacity, tokens, lastRefill)
    }

    /** The fields are what the polls made so far, in clock order, leave of the full bucket. */
    ghost predicate Valid()
      reads this
    {
      && created.Valid() && State().Valid()
      && created.tokens == created.capacity
      && Chronological(created.lastRefill, polls)
      && lastRefill == (if polls == [] then created.lastRefill else polls[|polls| - 1])
      && State() == After(created, polls)
    }

    constructor (ratePerSecond: real, capacity: int, now: real)
      ensures Valid() && polls == [] && lastRefill == now
      ensures this.ratePerSecond == MaxReal(0.01, ratePerSecond)
      ensures this.capacity == MaxReal(1.0, capacity as real) == tokens
    {
      var rate := MaxReal(0.01, ratePerSecond);
      var size := MaxReal(1.0, capacity as real);
      this.ratePerSecond, this.capacity := rate, size;
      tokens, lastRefill := size, now;
      created := Bucket(rate, size, size, now);
      polls := [];
    }

    /** The critical section of `acquire`. */
    method Poll(now: real) returns (granted: bool, waitSeconds: real)
      requires Valid() && now >= lastRefill
      modifies this
      ensures Valid() && polls == old(polls) + [now] && lastRefill == now
      ensures State() == old(State()).Poll(now)
      ensures granted == old(State()).Granted(now)
      ensures !granted ==>
                && waitSeconds > 0.0
                && forall later :: now <= later ==> (State().Granted(later) <==> later >= now + waitSeconds)
    {
      var elapsed := MaxReal(0.0, now - lastRefill);
      RefillNonNegative(State(), now);
      AfterSnoc(created, polls, now);
      ChronologicalSnoc(created.lastRefill, polls, now);
      lastRefill := now;
      tokens := MinReal(capacity, tokens + Refill(ratePerSecond, elapsed));
      polls := polls + [now];
      granted, waitSeconds := false, 0.0;
      if tokens >= 1.0 {
        tokens := tokens - 1.0;
        granted := true;
      } else {
        waitSeconds := WaitFor(ratePerSecond, tokens);
        WaitExact(State(), now);
      }
    }

    /** Without a competitor the sleep is long enough: a caller polls at most twice and leaves
        with exactly one token. */
    method Acquire(clock: Clock)
      requires Valid() && lastRefill <= clock.now
      modifies this, clock
      ensures Valid() && old(clock.now) <= lastRefill <= clock.now
      ensures |old(polls)| < |polls| <= |old(polls)| + 2 && polls[..|old(polls)|] == old(polls)
      ensures Grants(created, polls) == Grants(created, old(polls)) + [lastRefill]
    {
      while true
        invariant Valid() && lastRefill <= clock.now && old(clock.now) <= clock.now
        invariant polls == old(polls)
                  || (|polls| == |old(polls)| + 1 && polls[..|old(polls)|] == old(polls) && State().Granted(clock.now))
        invariant Grants(created, polls) == Grants(created, old(polls))
        decreases if polls == old(polls) then 1 else 0
      {
        var before := polls;
        ghost var state := State();
        ghost var sleptUntil := clock.now;
        var now := clock.Read();
        GrantedLater(state, sleptUntil, now);
        AfterSnoc(created, polls, now);
        var granted, waitSeconds := Poll(now);
        if granted {
          return;
        }
        clock.Sleep(MaxReal(0.001, waitSeconds));
        GrantedLater(State(), now + waitSeconds, clock.now);
      }
    }

    /** Whatever was polled so far, this very object respected its rate. */
    lemma Bounded(from: real, to: real)
      requires Valid() && from <= to
      ensures CountWithin(Grants(created, polls), from, to) as real
              <= capacity + ratePerSecond * (to - from)
    {
      LevelStaysInRange(created, polls);
      RateBound(created, polls, from, to);
    }
  }

  lemma GrantedLater(b: Bucket, t: real, later: real)
    requires b.Valid() && t <= later
    ensures b.Granted(t) ==> b.Granted(later)
  {
    var x, y := MaxReal(0.0, t - b.lastRefill), MaxReal(0.0, later - b.lastRefill);
    Scale(b.rate, x, y);
    assert b.Level(t) == MinReal(b.capacity, b.tokens + Refill(b.rate, x));
    assert b.Level(later) == MinReal(b.capacity, b.tokens + Refill(b.rate, y));
  }

  /** One bucket per (trimmed, lower-cased) name, replaced only when its settings change. */
  class RateLimiterRegistry {
    var buckets: map<string, AsyncTokenBucket>

    method GetBucket(key: string, ratePerSecond: real, capacity: int, clock: Clock)
      returns (bucket: AsyncTokenBucket)
      modifies this`buckets, clock
      ensures clock.now >= old(clock.now)
      ensures buckets == old(buckets)[key := bucket]
      ensures key in old(buckets) && Matches(old(buckets)[key], ratePerSecond, capacity) ==>
                bucket == old(buckets)[key]
      ensures !(key in old(buckets) && Matches(old(buckets)[key], ratePerSecond, capacity)) ==>
                && fresh(bucket) && bucket.Valid() && bucket.polls == []
                && bucket.lastRefill <= clock.now && bucket.tokens == bucket.capacity
      ensures Matches(bucket, ratePerSecond, capacity)
    {
      var rate := MaxReal(0.01, ratePerSecond);
      var size := MaxInt(1, capacity);
      if key in buckets {
        bucket := buckets[key];
        if Distance(bucket.ratePerSecond, rate) <= 0.000000001
           && Distance(bucket.capacity, size as real) <= 0.000000001 {
          assert buckets == buckets[key := bucket];
          return;
        }
      }
      var now := clock.Read();
      bucket := new AsyncTokenBucket(rate, size, now);
      buckets := buckets[key := bucket];
    }
  }

  function Distance(a: real, b: real): real { MaxReal(a - b, b - a) }

  ghost predicate Matches(bucket: AsyncTokenBucket, ratePerSecond: real, capacity: int)
  {
    && Distance(bucket.ratePerSecond, MaxReal(0.01, ratePerSecond)) <= 0.000000001
    && Distance(bucket.capacity, MaxInt(1, capacity) as real) <= 0.000000001
  }
}

/** src/app/main.py: the sliding-window limiter in front of replay requests, and the same limiter in
    the HTTP middleware, which besides forgets the least recently seen keys when it holds too many.
    Neither awaits anything, so a run is a sequence of requests in clock order. */
module RequestLimiter {
  import opened Common

  type Key = string

  const WINDOW_SECONDS := 60.0
  const SWEEP_INTERVAL_SECONDS := 30.0

  datatype Rules = Rules(limit: int, ttl: real, maxKeys: Option<nat>) {
    ghost predicate Valid() { limit >= 1 && ttl >= WINDOW_SECONDS && (maxKeys.Some? ==> maxKeys.value >= 1) }
  }

  /** The module-level dictionaries: the accepted instants kept per key, when each key was last
      seen, and when stale keys were last swept. */
  datatype Books = Books(bucket: map<Key, seq<real>>, lastSeen: map<Key, real>, lastSweep: real)

  const FRESH := Books(map[], map[], 0.0)

  /** A request; `evicted` are the keys its sweep removes because there are too many. */
  datatype Request = Request(key: Key, at: real, evicted: set<Key>)

  function Of(m: map<Key, seq<real>>, k: Key): seq<real> { if k in m then m[k] else [] }

  function Prune(times: seq<real>, cutoff: real): seq<real>
    decreases times
  {
    if times != [] && times[0] < cutoff then Prune(times[1..], cutoff) else times
  }

  function Stale(b: Books, rules: Rules, now: real): set<Key>
  {
    set k | k in b.lastSeen && b.lastSeen[k] < now - rules.ttl
  }

  function Without(b: Books, keys: set<Key>): Books { b.(bucket := b.bucket - keys, lastSeen := b.lastSeen - keys) }

  predicate Sweeps(b: Books, now: real) { now - b.lastSweep >= SWEEP_INTERVAL_SECONDS }

  /** The books after the sweep, if one is due. */
  function Swept(b: Books, rules: Rules, r: Request): Books
  {
    if Sweeps(b, r.at) then Without(Without(b, Stale(b, rules, r.at)), r.evicted).(lastSweep := r.at) else b
  }

  /** As many of the least recently seen keys as there are too many. */
  ghost predicate Overflow(seen: map<Key, real>, maxKeys: Option<nat>, evicted: set<Key>)
  {
    if maxKeys.Some? && |seen| > maxKeys.value then
      && evicted <= seen.Keys && |evicted| == |seen| - maxKeys.value
      && (forall k, j :: k in evicted && j in seen.Keys - evicted ==> seen[k] <= seen[j])
    else evicted == {}
  }

  /** Keys are only evicted in a sweep, after the stale ones are gone. */
  ghost predicate EvictionAllowed(b: Books, rules: Rules, r: Request)
  {
    if Sweeps(b, r.at) then Overflow(b.lastSeen - Stale(b, rules, r.at), rules.maxKeys, r.evicted) else r.evicted == {}
  }

  function Kept(b: Books, rules: Rules, r: Request): seq<real>
  {
    Prune(Of(Swept(b, rules, r).bucket, r.key), r.at - WINDOW_SECONDS)
  }

  function Accepts(b: Books, rules: Rules, r: Request): bool { |Kept(b, rules, r)| < rules.limit }

  function Serve(b: Books, rules: Rules, r: Request): Books
  {
    var s := Swept(b, rules, r);
    var kept := Kept(b, rules, r);
    s.(bucket := s.bucket[r.key := if Accepts(b, rules, r) then kept + [r.at] else kept],
       lastSeen := s.lastSeen[r.key := r.at])
  }

  // ----- The reference: count the whole history -----

  /** Every accepted instant per key since the key was last evicted; nothing is ever pruned. */
  type History = map<Key, seq<real>>

  function Since(times: seq<real>, cutoff: real): seq<real>
    decreases times
  {
    if times == [] then []
    else (if times[0] >= cutoff then [times[0]] else []) + Since(times[1..], cutoff)
  }

  function FullyAccepts(h: History, rules: Rules, r: Request): bool
  {
    |Since(Of(h - r.evicted, r.key), r.at - WINDOW_SECONDS)| < rules.limit
  }

  function Record(h: History, rules: Rules, r: Request): History
  {
    var kept := h - r.evicted;
    if FullyAccepts(h, rules, r) then kept[r.key := Of(kept, r.key) + [r.at]] else kept
  }

  ghost predicate InClockOrder(start: real, requests: seq<Request>)
    decreases requests
  {
    requests == [] || (start <= requests[0].at && InClockOrder(requests[0].at, requests[1..]))
  }

  ghost predicate Possible(b: Books, rules: Rules, requests: seq<Request>)
    decreases requests
  {
    requests == []
    || (EvictionAllowed(b, rules, requests[0]) && Possible(Serve(b, rules, requests[0]), rules, requests[1..]))
  }

  function Answers(b: Books, rules: Rules, requests: seq<Request>): seq<bool>
    decreases requests
  {
    if requests == [] then []
    else [Accepts(b, rules, requests[0])] + Answers(Serve(b, rules, requests[0]), rules, requests[1..])
  }

  function FullAnswers(h: History, rules: Rules, requests: seq<Request>): seq<bool>
    decreases requests
  {
    if requests == [] then []
    else [FullyAccepts(h, rules, requests[0])] + FullAnswers(Record(h, rules, requests[0]), rules, requests[1..])
  }

  function HistoryAfter(h: History, rules: Rules, requests: seq<Request>): History
    decreases requests
  {
    if requests == [] then h else HistoryAfter(Record(h, rules, requests[0]), rules, requests[1..])
  }

  // ----- Lists of instants -----

  ghost predicate Sorted(times: seq<real>)
  {
    forall i, j :: 0 <= i < j < |times| ==> times[i] <= times[j]
  }

  ghost predicate AllUpTo(times: seq<real>, bound: real)
  {
    forall i :: 0 <= i < |times| ==> times[i] <= bound
  }

  lemma {:induction false} PruneIsSince(times: seq<real>, cutoff: real)
    requires Sorted(times)
    ensures Prune(times, cutoff) == Since(times, cutoff)
    decreases times
  {
    if times != [] {
      PruneIsSince(times[1..], cutoff);
      if times[0] >= cutoff {
        AllSince(times, cutoff);
      }
    }
  }

  lemma {:induction false} AllSince(times: seq<real>, cutoff: real)
    requires forall i :: 0 <= i < |times| ==> times[i] >= cutoff
    ensures Since(times, cutoff) == times
    decreases times
  {
    if times != [] {
      AllSince(times[1..], cutoff);
    }
  }

  lemma {:induction false} NoneSince(times: seq<real>, cutoff: real)
    requires forall i :: 0 <= i < |times| ==> times[i] < cutoff
    ensures Since(times, cutoff) == []
    decreases times
  {
    if times != [] {
      NoneSince(times[1..], cutoff);
    }
  }

  lemma {:induction false} SinceTwice(times: seq<real>, cutoff: real, later: real)
    requires cutoff <= later
    ensures Since(Since(times, cutoff), later) == Since(times, later)
    decreases times
  {
    if times != [] {
      SinceTwice(times[1..], cutoff, later);
      var rest := Since(times[1..], cutoff);
      if times[0] >= cutoff {
        assert ([times[0]] + rest)[1..] == rest;
      } else {
        assert Since(times, cutoff) == rest;
      }
    }
  }

  lemma {:induction false} SinceSnoc(times: seq<real>, t: real, cutoff: real)
    ensures Since(times + [t], cutoff) == Since(times, cutoff) + if t >= cutoff then [t] else []
    decreases times
  {
    if times != [] {
      assert (times + [t])[1..] == times[1..] + [t];
      SinceSnoc(times[1..], t, cutoff);
    }
  }

  lemma {:induction false} SinceSorted(times: seq<real>, cutoff: real, bound: real)
    requires Sorted(times) && AllUpTo(times, bound)
    ensures Sorted(Since(times, cutoff)) && AllUpTo(Since(times, cutoff), bound)
    decreases times
  {
    if times != [] {
      var rest := Since(times[1..], cutoff);
      SinceSorted(times[1..], cutoff, bound);
      SinceFloor(times[1..], cutoff, times[0]);
    }
  }

  lemma {:induction false} SinceFloor(times: seq<real>, cutoff: real, floor: real)
    requires forall i :: 0 <= i < |times| ==> floor <= times[i]
    ensures forall i :: 0 <= i < |Since(times, cutoff)| ==> floor <= Since(times, cutoff)[i]
    decreases times
  {
    if times != [] { SinceFloor(times[1..], cutoff, floor); }
  }

  // ----- Pruning and sweeping are invisible -----

  /** At instant `now` the books tell as much about the last window of `k` as the history does. */
  ghost predicate Tells(b: Books, h: History, k: Key, now: real)
  {
    && (k in b.bucket <==> k in b.lastSeen)
    && (k in b.lastSeen ==> b.lastSeen[k] <= now && AllUpTo(b.bucket[k], b.lastSeen[k]) && Sorted(b.bucket[k]))
    && Since(Of(b.bucket, k), now - WINDOW_SECONDS) == Since(Of(h, k), now - WINDOW_SECONDS)
  }

  ghost predicate Faithful(b: Books, h: History, now: real)
  {
    forall k :: Tells(b, h, k, now)
  }

  lemma FaithfulLater(b: Books, h: History, now: real, later: real)
    requires Faithful(b, h, now) && now <= later
    ensures Faithful(b, h, later)
  {
    forall k ensures Tells(b, h, k, later) {
      assert Tells(b, h, k, now);
      SinceTwice(Of(b.bucket, k), now - WINDOW_SECONDS, later - WINDOW_SECONDS);
      SinceTwice(Of(h, k), now - WINDOW_SECONDS, later - WINDOW_SECONDS);
    }
  }

  lemma SweepFaithful(b: Books, h: History, rules: Rules, r: Request)
    requires rules.Valid() && Faithful(b, h, r.at) && EvictionAllowed(b, rules, r)
    ensures Faithful(Swept(b, rules, r), h - r.evicted, r.at)
  {
    var s := Swept(b, rules, r);
    forall k ensures Tells(s, h - r.evicted, k, r.at) {
      SweepTells(b, h, rules, r, k);
    }
  }

  lemma SweepTells(b: Books, h: History, rules: Rules, r: Request, k: Key)
    requires rules.Valid() && Tells(b, h, k, r.at) && EvictionAllowed(b, rules, r)
    ensures Tells(Swept(b, rules, r), h - r.evicted, k, r.at)
  {
    if Sweeps(b, r.at) && k in Stale(b, rules, r.at) {
      NoneSince(b.bucket[k], r.at - WINDOW_SECONDS);
    }
  }

  /** After the sweep and the pruning, what is left is what the history says of the last window. */
  lemma KeptIsWindow(b: Books, h: History, rules: Rules, r: Request)
    requires rules.Valid() && Faithful(b, h, r.at) && EvictionAllowed(b, rules, r)
    ensures Kept(b, rules, r) == Since(Of(h - r.evicted, r.key), r.at - WINDOW_SECONDS)
    ensures Sorted(Kept(b, rules, r)) && AllUpTo(Kept(b, rules, r), r.at)
  {
    SweepFaithful(b, h, rules, r);
    var times, cutoff := Of(Swept(b, rules, r).bucket, r.key), r.at - WINDOW_SECONDS;
    assert Tells(Swept(b, rules, r), h - r.evicted, r.key, r.at);
    assert Sorted(times) && AllUpTo(times, r.at);
    PruneIsSince(times, cutoff);
    SinceSorted(times, cutoff, r.at);
  }

  lemma ServeAnswer(b: Books, h: History, rules: Rules, r: Request)
    requires rules.Valid() && Faithful(b, h, r.at) && EvictionAllowed(b, rules, r)
    ensures Accepts(b, rules, r) == FullyAccepts(h, rules, r)
  {
    KeptIsWindow(b, h, rules, r);
  }

  lemma ServeFaithful(b: Books, h: History, rules: Rules, r: Request)
    requires rules.Valid() && Faithful(b, h, r.at) && EvictionAllowed(b, rules, r)
    ensures Faithful(Serve(b, rules, r), Record(h, rules, r), r.at)
  {
    ServeAnswer(b, h, rules, r);
    KeptIsWindow(b, h, rules, r);
    SweepFaithful(b, h, rules, r);
    PutFaithful(Swept(b, rules, r), h - r.evicted, r.key, r.at, Kept(b, rules, r), Accepts(b, rules, r));
  }

  lemma PutFaithful(s: Books, g: History, key: Key, now: real, kept: seq<real>, accepted: bool)
    requires Faithful(s, g, now) && Sorted(kept) && AllUpTo(kept, now)
    requires kept == Since(Of(g, key), now - WINDOW_SECONDS)
    ensures Faithful(s.(bucket := s.bucket[key := if accepted then kept + [now] else kept], lastSeen := s.lastSeen[key := now]),
                     if accepted then g[key := Of(g, key) + [now]] else g, now)
  {
    UpdateTells(Of(g, key), now, kept);
    var n := s.(bucket := s.bucket[key := if accepted then kept + [now] else kept], lastSeen := s.lastSeen[key := now]);
    var m := if accepted then g[key := Of(g, key) + [now]] else g;
    forall k ensures Tells(n, m, k, now) {
      assert Tells(s, g, k, now);
      if k == key {
        assert Of(n.bucket, k) == if accepted then kept + [now] else kept;
        assert Of(m, k) == if accepted then Of(g, key) + [now] else Of(g, key);
      }
    }
  }

  lemma UpdateTells(full: seq<real>, now: real, kept: seq<real>)
    requires kept == Since(full, now - WINDOW_SECONDS) && Sorted(kept) && AllUpTo(kept, now)
    ensures Sorted(kept + [now]) && AllUpTo(kept + [now], now)
    ensures Since(kept, now - WINDOW_SECONDS) == Since(full, now - WINDOW_SECONDS)
    ensures Since(kept + [now], now - WINDOW_SECONDS) == Since(full + [now], now - WINDOW_SECONDS)
  {
    var cutoff := now - WINDOW_SECONDS;
    SinceTwice(full, cutoff, cutoff);
    SinceSnoc(kept, now, cutoff);
    SinceSnoc(full, now, cutoff);
  }

  lemma {:induction false} SameAnswers(b: Books, h: History, rules: Rules, now: real, requests: seq<Request>)
    requires rules.Valid() && Faithful(b, h, now) && InClockOrder(now, requests) && Possible(b, rules, requests)
    ensures Answers(b, rules, requests) == FullAnswers(h, rules, requests)
    decreases requests
  {
    if requests != [] {
      var r := requests[0];
      FaithfulLater(b, h, now, r.at);
      ServeAnswer(b, h, rules, r);
      ServeFaithful(b, h, rules, r);
      SameAnswers(Serve(b, rules, r), Record(h, rules, r), rules, r.at, requests[1..]);
    }
  }

  /** Exactness: over any run, each request is answered as if all accepted instants of its key since
      the key was last evicted had been kept and those of the last window counted. */
  lemma LimiterIsExact(rules: Rules, requests: seq<Request>)
    requires rules.Valid() && InClockOrder(0.0, requests) && Possible(FRESH, rules, requests)
    ensures Answers(FRESH, rules, requests) == FullAnswers(map[], rules, requests)
  {
    SameAnswers(FRESH, map[], rules, 0.0, requests);
  }

  /** Without a limit on the number of keys, as for replays, nothing is ever evicted. */
  lemma {:induction false} NeverEvicts(b: Books, rules: Rules, requests: seq<Request>, i: nat)
    requires rules.maxKeys.None? && Possible(b, rules, requests) && i < |requests|
    ensures requests[i].evicted == {}
    decreases requests
  {
    if i > 0 {
      NeverEvicts(Serve(b, rules, requests[0]), rules, requests[1..], i - 1);
    }
  }

  // ----- No window is overfull -----

  /** Each instant was accepted because fewer than `limit` earlier ones lay in its window. */
  ghost predicate Justified(times: seq<real>, limit: int)
    decreases times
  {
    times == []
    || (var n := |times| - 1;
        && Justified(times[..n], limit) && (n > 0 ==> times[n - 1] <= times[n])
        && |Since(times[..n], times[n] - WINDOW_SECONDS)| < limit)
  }

  lemma {:induction false} WithinAtMostSince(times: seq<real>, from: real, to: real, cutoff: real)
    requires cutoff <= from
    ensures CountWithin(times, from, to) <= |Since(times, cutoff)|
    decreases times
  {
    if times != [] {
      WithinAtMostSince(times[1..], from, to, cutoff);
    }
  }

  lemma {:induction false} CountSnoc(times: seq<real>, t: real, from: real, to: real)
    ensures CountWithin(times + [t], from, to) == CountWithin(times, from, to) + if from <= t <= to then 1 else 0
    decreases times
  {
    if times == [] {
      assert [] + [t] == [t];
    } else {
      assert (times + [t])[1..] == times[1..] + [t];
      CountSnoc(times[1..], t, from, to);
    }
  }

  lemma {:induction false} WindowBound(times: seq<real>, limit: int, from: real)
    requires Justified(times, limit) && limit >= 0
    ensures CountWithin(times, from, from + WINDOW_SECONDS) <= limit
    decreases times
  {
    if times != [] {
      var n := |times| - 1;
      var t := times[n];
      assert times == times[..n] + [t];
      CountSnoc(times[..n], t, from, from + WINDOW_SECONDS);
      if from <= t <= from + WINDOW_SECONDS {
        WithinAtMostSince(times[..n], from, from + WINDOW_SECONDS, t - WINDOW_SECONDS);
      } else {
        WindowBound(times[..n], limit, from);
      }
    }
  }

  ghost predicate AllJustified(h: History, limit: int, now: real)
  {
    forall k :: k in h ==> Justified(h[k], limit) && (h[k] != [] ==> h[k][|h[k]| - 1] <= now)
  }

  lemma {:induction false} HistoryJustified(h: History, rules: Rules, now: real, requests: seq<Request>)
    requires rules.Valid() && AllJustified(h, rules.limit, now) && InClockOrder(now, requests)
    ensures exists end :: AllJustified(HistoryAfter(h, rules, requests), rules.limit, end)
    decreases requests
  {
    if requests == [] {
      assert AllJustified(HistoryAfter(h, rules, requests), rules.limit, now);
    } else {
      var r := requests[0];
      var kept := h - r.evicted;
      var times := Of(kept, r.key);
      assert (times + [r.at])[..|times|] == times;
      assert AllJustified(Record(h, rules, r), rules.limit, r.at);
      HistoryJustified(Record(h, rules, r), rules, r.at, requests[1..]);
      var end :| AllJustified(HistoryAfter(Record(h, rules, r), rules, requests[1..]), rules.limit, end);
      assert AllJustified(HistoryAfter(h, rules, requests), rules.limit, end);
    }
  }

  /** The instants at which requests of `key` were accepted by the given answers, after those in `before`
      and since the key was last evicted. */
  function AcceptedSinceEviction(requests: seq<Request>, answers: seq<bool>, key: Key, before: seq<real>): seq<real>
    requires |requests| == |answers|
    decreases requests
  {
    if requests == [] then before
    else
      var r := requests[0];
      AcceptedSinceEviction(requests[1..], answers[1..], key,
        (if key in r.evicted then [] else before) + if answers[0] && r.key == key then [r.at] else [])
  }

  /** The same without regard to evictions. */
  function Accepted(requests: seq<Request>, answers: seq<bool>, key: Key, before: seq<real>): seq<real>
    requires |requests| == |answers|
    decreases requests
  {
    if requests == [] then before
    else Accepted(requests[1..], answers[1..], key, before + if answers[0] && requests[0].key == key then [requests[0].at] else [])
  }

  lemma {:induction false} OneAnswerEach(b: Books, rules: Rules, requests: seq<Request>)
    ensures |Answers(b, rules, requests)| == |requests|
    decreases requests
  {
    if requests != [] { OneAnswerEach(Serve(b, rules, requests[0]), rules, requests[1..]); }
  }

  lemma {:induction false} HistoryIsAccepted(h: History, rules: Rules, requests: seq<Request>, key: Key)
    ensures |FullAnswers(h, rules, requests)| == |requests|
    ensures AcceptedSinceEviction(requests, FullAnswers(h, rules, requests), key, Of(h, key)) == Of(HistoryAfter(h, rules, requests), key)
    decreases requests
  {
    if requests != [] {
      var r := requests[0];
      var next := Record(h, rules, r);
      HistoryIsAccepted(next, rules, requests[1..], key);
      assert Of(next, key) == (if key in r.evicted then [] else Of(h, key)) + if FullyAccepts(h, rules, r) && r.key == key then [r.at] else [];
      assert FullAnswers(h, rules, requests)[1..] == FullAnswers(next, rules, requests[1..]);
    }
  }

  /** Whatever requests arrive, no closed window of a minute holds more than `limit` requests of one key
      that the limiter accepted since it last evicted the key. */
  lemma NoWindowOverfull(rules: Rules, requests: seq<Request>, key: Key, from: real)
    requires rules.Valid() && InClockOrder(0.0, requests) && Possible(FRESH, rules, requests)
    ensures |Answers(FRESH, rules, requests)| == |requests|
    ensures CountWithin(AcceptedSinceEviction(requests, Answers(FRESH, rules, requests), key, []), from, from + 60.0)
            <= rules.limit
  {
    OneAnswerEach(FRESH, rules, requests);
    LimiterIsExact(rules, requests);
    HistoryIsAccepted(map[], rules, requests, key);
    HistoryJustified(map[], rules, 0.0, requests);
    var end :| AllJustified(HistoryAfter(map[], rules, requests), rules.limit, end);
    if key in HistoryAfter(map[], rules, requests) {
      WindowBound(HistoryAfter(map[], rules, requests)[key], rules.limit, from);
    }
  }

  /** Where the number of keys is not limited, as for replays, that is every request it accepted. */
  lemma NoReplayWindowOverfull(rules: Rules, requests: seq<Request>, key: Key, from: real)
    requires rules.Valid() && InClockOrder(0.0, requests) && Possible(FRESH, rules, requests) && rules.maxKeys.None?
    ensures |Answers(FRESH, rules, requests)| == |requests|
    ensures CountWithin(Accepted(requests, Answers(FRESH, rules, requests), key, []), from, from + 60.0) <= rules.limit
  {
    NoWindowOverfull(rules, requests, key, from);
    forall i | 0 <= i < |requests| ensures requests[i].evicted == {} { NeverEvicts(FRESH, rules, requests, i); }
    NothingForgotten(requests, Answers(FRESH, rules, requests), key, []);
  }

  /** And it refuses nobody else: over any run a request is accepted exactly when it finds fewer than `limit`
      accepted ones of its key, since the key was last evicted, in the minute that ends with it. */
  lemma AcceptedIff(rules: Rules, requests: seq<Request>, r: Request)
    requires rules.Valid() && InClockOrder(0.0, requests + [r]) && Possible(FRESH, rules, requests + [r])
    ensures |Answers(FRESH, rules, requests)| == |requests| && |Answers(FRESH, rules, requests + [r])| == |requests| + 1
    ensures var before := AcceptedSinceEviction(requests, Answers(FRESH, rules, requests), r.key, []);
      Answers(FRESH, rules, requests + [r])[|requests|]
      <==> CountWithin(if r.key in r.evicted then [] else before, r.at - 60.0, r.at) < rules.limit
  {
    OneAnswerEach(FRESH, rules, requests);
    OneAnswerEach(FRESH, rules, requests + [r]);
    PrefixPossible(FRESH, rules, 0.0, requests, r);
    LimiterIsExact(rules, requests);
    LimiterIsExact(rules, requests + [r]);
    HistoryIsAccepted(map[], rules, requests, r.key);
    FullAnswersSnoc(map[], rules, requests, r);
    HistoryUpTo(map[], rules, 0.0, requests, r);
    CountIsSince(Of(HistoryAfter(map[], rules, requests) - r.evicted, r.key), r.at - 60.0, r.at);
  }

  lemma {:induction false} PrefixPossible(b: Books, rules: Rules, start: real, requests: seq<Request>, r: Request)
    requires InClockOrder(start, requests + [r]) && Possible(b, rules, requests + [r])
    ensures InClockOrder(start, requests) && Possible(b, rules, requests)
    decreases requests
  {
    if requests != [] {
      assert (requests + [r])[1..] == requests[1..] + [r];
      PrefixPossible(Serve(b, rules, requests[0]), rules, requests[0].at, requests[1..], r);
    }
  }

  lemma {:induction false} FullAnswersSnoc(h: History, rules: Rules, requests: seq<Request>, r: Request)
    ensures FullAnswers(h, rules, requests + [r])
            == FullAnswers(h, rules, requests) + [FullyAccepts(HistoryAfter(h, rules, requests), rules, r)]
    ensures |FullAnswers(h, rules, requests)| == |requests|
    decreases requests
  {
    if requests == [] {
      assert [] + [r] == [r] && [r][1..] == [];
      assert FullAnswers(Record(h, rules, r), rules, []) == [];
    } else {
      assert (requests + [r])[1..] == requests[1..] + [r];
      FullAnswersSnoc(Record(h, rules, requests[0]), rules, requests[1..], r);
    }
  }

  /** Nothing in the history lies after the next request. */
  lemma {:induction false} HistoryUpTo(h: History, rules: Rules, start: real, requests: seq<Request>, r: Request)
    requires InClockOrder(start, requests + [r]) && forall k :: k in h ==> AllUpTo(h[k], start)
    ensures forall k :: AllUpTo(Of(HistoryAfter(h, rules, requests) - r.evicted, k), r.at)
    decreases requests
  {
    assert requests != [] ==> (requests + [r])[1..] == requests[1..] + [r];
    if requests != [] {
      HistoryUpTo(Record(h, rules, requests[0]), rules, requests[0].at, requests[1..], r);
    }
  }

  lemma {:induction false} CountIsSince(times: seq<real>, cutoff: real, now: real)
    requires AllUpTo(times, now)
    ensures CountWithin(times, cutoff, now) == |Since(times, cutoff)|
    decreases times
  {
    if times != [] { CountIsSince(times[1..], cutoff, now); }
  }

  lemma {:induction false} NothingForgotten(requests: seq<Request>, answers: seq<bool>, key: Key, before: seq<real>)
    requires |requests| == |answers| && forall i :: 0 <= i < |requests| ==> requests[i].evicted == {}
    ensures AcceptedSinceEviction(requests, answers, key, before) == Accepted(requests, answers, key, before)
    decreases requests
  {
    if requests != [] {
      NothingForgotten(requests[1..], answers[1..], key, before + if answers[0] && requests[0].key == key then [requests[0].at] else []);
    }
  }

  // ----- How much is kept, and when keys are evicted -----

  function BooksAfter(b: Books, rules: Rules, requests: seq<Request>): Books
    decreases requests
  {
    if requests == [] then b else BooksAfter(Serve(b, rules, requests[0]), rules, requests[1..])
  }

  function Instants(requests: seq<Request>): seq<real> { seq(|requests|, i requires 0 <= i < |requests| => requests[i].at) }

  /** After requests at the instants `past`, the last of them at `now`. */
  ghost predicate Tidy(b: Books, rules: Rules, past: seq<real>, now: real)
  {
    && b.lastSweep <= now < b.lastSweep + 30.0
    && (forall k :: k in b.lastSeen ==> b.lastSweep - rules.ttl <= b.lastSeen[k])
    && (rules.maxKeys.Some? ==> |b.lastSeen| <= rules.maxKeys.value + CountWithin(past, b.lastSweep, now))
  }

  lemma {:induction false} CountWider(times: seq<real>, from: real, to: real, earlier: real, later: real)
    requires earlier <= from && to <= later
    ensures CountWithin(times, from, to) <= CountWithin(times, earlier, later)
    decreases times
  {
    if times != [] { CountWider(times[1..], from, to, earlier, later); }
  }

  lemma StepTidy(b: Books, rules: Rules, past: seq<real>, now: real, r: Request)
    requires rules.Valid() && b.lastSweep <= now <= r.at && EvictionAllowed(b, rules, r)
    requires Tidy(b, rules, past, now) || (b == FRESH && past == [])
    ensures Tidy(Serve(b, rules, r), rules, past + [r.at], r.at)
  {
    var s, n := Swept(b, rules, r), Serve(b, rules, r);
    CountSnoc(past, r.at, n.lastSweep, r.at);
    OneKeyMore(s.lastSeen, r.key, r.at);
    if Sweeps(b, r.at) {
      SweptFits(b.lastSeen - Stale(b, rules, r.at), rules.maxKeys, r.evicted);
    } else {
      CountWider(past, b.lastSweep, now, b.lastSweep, r.at);
    }
  }

  lemma OneKeyMore(seen: map<Key, real>, key: Key, at: real)
    ensures |seen[key := at]| <= |seen| + 1
  {
    assert seen[key := at].Keys == seen.Keys + {key};
    assert |seen[key := at]| == |seen[key := at].Keys| && |seen| == |seen.Keys|;
  }

  lemma SweptFits(seen: map<Key, real>, maxKeys: Option<nat>, evicted: set<Key>)
    requires Overflow(seen, maxKeys, evicted)
    ensures maxKeys.Some? ==> |seen - evicted| <= maxKeys.value
  {
    assert (seen - evicted).Keys == seen.Keys - evicted;
    assert |seen - evicted| == |(seen - evicted).Keys| && |seen| == |seen.Keys|;
  }

  lemma {:induction false} AlwaysTidy(b: Books, rules: Rules, past: seq<real>, now: real, requests: seq<Request>, all: seq<real>)
    requires rules.Valid() && b.lastSweep <= now && InClockOrder(now, requests) && Possible(b, rules, requests)
    requires Tidy(b, rules, past, now) || (b == FRESH && past == [] && requests != [])
    requires all == past + Instants(requests)
    ensures Tidy(BooksAfter(b, rules, requests), rules, all, if requests == [] then now else requests[|requests| - 1].at)
    decreases requests
  {
    if requests == [] {
      assert all == past;
    } else {
      var r := requests[0];
      StepTidy(b, rules, past, now, r);
      AlwaysTidy(Serve(b, rules, r), rules, past + [r.at], r.at, requests[1..], all);
    }
  }

  /** The books stay small: no key is held that was not seen for its lifetime and half a minute more, and no
      more keys than allowed, but for those of the requests of the last half minute. */
  lemma BooksStaySmall(rules: Rules, requests: seq<Request>, b: Books, now: real)
    requires rules.Valid() && requests != [] && InClockOrder(0.0, requests) && Possible(FRESH, rules, requests)
    requires b == BooksAfter(FRESH, rules, requests) && now == requests[|requests| - 1].at
    ensures forall k :: k in b.lastSeen ==> now - b.lastSeen[k] < rules.ttl + 30.0
    ensures rules.maxKeys.Some? ==> |b.lastSeen| <= rules.maxKeys.value + CountWithin(Instants(requests), now - 30.0, now)
  {
    AlwaysTidy(FRESH, rules, [], 0.0, requests, Instants(requests));
    TidyIsSmall(b, rules, Instants(requests), now);
  }

  lemma TidyIsSmall(b: Books, rules: Rules, past: seq<real>, now: real)
    requires Tidy(b, rules, past, now)
    ensures forall k :: k in b.lastSeen ==> now - b.lastSeen[k] < rules.ttl + 30.0
    ensures rules.maxKeys.Some? ==> |b.lastSeen| <= rules.maxKeys.value + CountWithin(past, now - 30.0, now)
  {
    CountWider(past, b.lastSweep, now, now - 30.0, now);
  }

  /** Keys are evicted only when half a minute has passed since `last`, or since the last time that was so. */
  ghost predicate EvictsRarely(last: real, requests: seq<Request>)
    decreases requests
  {
    requests == []
    || ((requests[0].evicted != {} ==> requests[0].at - last >= 30.0)
        && EvictsRarely(if requests[0].at - last >= 30.0 then requests[0].at else last, requests[1..]))
  }

  lemma StepEvicts(b: Books, rules: Rules, r: Request)
    requires EvictionAllowed(b, rules, r)
    ensures r.evicted != {} ==> r.at - b.lastSweep >= 30.0
    ensures Serve(b, rules, r).lastSweep == if r.at - b.lastSweep >= 30.0 then r.at else b.lastSweep
  {
  }

  lemma {:induction false} AlwaysRarely(b: Books, rules: Rules, requests: seq<Request>)
    requires Possible(b, rules, requests)
    ensures EvictsRarely(b.lastSweep, requests)
    decreases requests
  {
    if requests != [] {
      StepEvicts(b, rules, requests[0]);
      AlwaysRarely(Serve(b, rules, requests[0]), rules, requests[1..]);
    }
  }

  lemma {:induction false} EvictsLater(last: real, requests: seq<Request>, j: nat)
    requires EvictsRarely(last, requests) && j < |requests| && requests[j].evicted != {}
    ensures requests[j].at - last >= 30.0
    decreases requests
  {
    if j > 0 { EvictsLater(if requests[0].at - last >= 30.0 then requests[0].at else last, requests[1..], j - 1); }
  }

  lemma {:induction false} RarelyIsApart(last: real, requests: seq<Request>, i: nat, j: nat)
    requires EvictsRarely(last, requests) && i < j < |requests| && requests[i].evicted != {} && requests[j].evicted != {}
    ensures requests[j].at - requests[i].at >= 30.0
    decreases requests
  {
    var next := if requests[0].at - last >= 30.0 then requests[0].at else last;
    if i == 0 {
      EvictsLater(next, requests[1..], j - 1);
    } else {
      RarelyIsApart(next, requests[1..], i - 1, j - 1);
    }
  }

  /** Two evictions lie half a minute apart. */
  lemma EvictionsApart(b: Books, rules: Rules, requests: seq<Request>, i: nat, j: nat)
    requires Possible(b, rules, requests) && i < j < |requests|
    requires requests[i].evicted != {} && requests[j].evicted != {}
    ensures requests[j].at - requests[i].at >= 30.0
  {
    AlwaysRarely(b, rules, requests);
    RarelyIsApart(b.lastSweep, requests, i, j);
  }

  // ----- What an eviction changes -----

  ghost predicate Evictionless(requests: seq<Request>)
  {
    forall i :: 0 <= i < |requests| ==> requests[i].evicted == {}
  }

  /** Later requests are answered alike whether or not `k` is forgotten at `t`. */
  ghost predicate Unnoticed(h: History, rules: Rules, k: Key, t: real)
  {
    forall requests :: InClockOrder(t, requests) && Evictionless(requests) ==>
      FullAnswers(h, rules, requests) == FullAnswers(h - {k}, rules, requests)
  }

  /** Forgetting a key goes unnoticed exactly when it had no accepted request in the last window. */
  lemma EvictionUnnoticedIff(h: History, rules: Rules, k: Key, t: real)
    requires rules.limit >= 1
    ensures Unnoticed(h, rules, k, t) <==> forall i :: 0 <= i < |Of(h, k)| ==> Of(h, k)[i] < t - 60.0
  {
    NoneSinceIff(Of(h, k), t - WINDOW_SECONDS);
    if Since(Of(h, k), t - WINDOW_SECONDS) == [] {
      forall requests | InClockOrder(t, requests) && Evictionless(requests)
        ensures FullAnswers(h, rules, requests) == FullAnswers(h - {k}, rules, requests)
      {
        AlikeFrom(h, h - {k}, t);
        AlikeAnswers(h, h - {k}, rules, t, requests);
      }
    } else {
      var burst := Burst(k, t, rules.limit);
      BurstAnswers(h, rules, k, t, rules.limit);
      BurstAnswers(h - {k}, rules, k, t, rules.limit);
      assert InClockOrder(t, burst) && Evictionless(burst);
      assert FullAnswers(h, rules, burst) != FullAnswers(h - {k}, rules, burst);
    }
  }

  lemma {:induction false} NoneSinceIff(times: seq<real>, cutoff: real)
    ensures Since(times, cutoff) == [] <==> forall i :: 0 <= i < |times| ==> times[i] < cutoff
    decreases times
  {
    if times != [] {
      NoneSinceIff(times[1..], cutoff);
      assert forall i :: 0 < i < |times| ==> times[i] == times[1..][i - 1];
      if forall i :: 0 <= i < |times| ==> times[i] < cutoff { NoneSince(times, cutoff); }
    }
  }

  ghost predicate Alike(h: History, g: History, t: real)
  {
    forall k :: Since(Of(h, k), t - WINDOW_SECONDS) == Since(Of(g, k), t - WINDOW_SECONDS)
  }

  lemma AlikeFrom(h: History, g: History, t: real)
    requires forall k :: Of(h, k) == Of(g, k) || Since(Of(h, k), t - WINDOW_SECONDS) == Of(g, k) == []
    ensures Alike(h, g, t)
  {
  }

  lemma AlikeLater(h: History, g: History, t: real, later: real)
    requires Alike(h, g, t) && t <= later
    ensures Alike(h, g, later)
  {
    forall k ensures Since(Of(h, k), later - WINDOW_SECONDS) == Since(Of(g, k), later - WINDOW_SECONDS) {
      SinceTwice(Of(h, k), t - WINDOW_SECONDS, later - WINDOW_SECONDS);
      SinceTwice(Of(g, k), t - WINDOW_SECONDS, later - WINDOW_SECONDS);
      assert Since(Of(h, k), t - WINDOW_SECONDS) == Since(Of(g, k), t - WINDOW_SECONDS);
    }
  }

  lemma AlikeRecord(h: History, g: History, rules: Rules, r: Request)
    requires Alike(h, g, r.at) && r.evicted == {}
    ensures FullyAccepts(h, rules, r) == FullyAccepts(g, rules, r)
    ensures Alike(Record(h, rules, r), Record(g, rules, r), r.at)
  {
    var cutoff := r.at - WINDOW_SECONDS;
    assert h - r.evicted == h && g - r.evicted == g;
    assert Since(Of(h, r.key), cutoff) == Since(Of(g, r.key), cutoff);
    forall k ensures Since(Of(Record(h, rules, r), k), cutoff) == Since(Of(Record(g, rules, r), k), cutoff) {
      assert Since(Of(h, k), cutoff) == Since(Of(g, k), cutoff);
      SinceSnoc(Of(h, k), r.at, cutoff);
      SinceSnoc(Of(g, k), r.at, cutoff);
    }
  }

  lemma {:induction false} AlikeAnswers(h: History, g: History, rules: Rules, t: real, requests: seq<Request>)
    requires Alike(h, g, t) && InClockOrder(t, requests) && Evictionless(requests)
    ensures FullAnswers(h, rules, requests) == FullAnswers(g, rules, requests)
    decreases requests
  {
    if requests != [] {
      var r := requests[0];
      AlikeLater(h, g, t, r.at);
      AlikeRecord(h, g, rules, r);
      AlikeAnswers(Record(h, rules, r), Record(g, rules, r), rules, r.at, requests[1..]);
    }
  }

  /** `n` requests of one key at one instant. */
  function Burst(k: Key, t: real, n: nat): seq<Request>
    ensures InClockOrder(t, Burst(k, t, n)) && Evictionless(Burst(k, t, n)) && |Burst(k, t, n)| == n
  {
    if n == 0 then [] else [Request(k, t, {})] + Burst(k, t, n - 1)
  }

  /** All of a burst is accepted exactly when the window has room for all of it. */
  lemma {:induction false} BurstAnswers(h: History, rules: Rules, k: Key, t: real, n: nat)
    ensures (false !in FullAnswers(h, rules, Burst(k, t, n)))
            <==> n == 0 || |Since(Of(h, k), t - WINDOW_SECONDS)| + n <= rules.limit
    decreases n
  {
    if n > 0 {
      var r := Request(k, t, {});
      var burst := Burst(k, t, n);
      assert h - {} == h && burst[0] == r && burst[1..] == Burst(k, t, n - 1);
      SinceSnoc(Of(h, k), t, t - WINDOW_SECONDS);
      BurstAnswers(Record(h, rules, r), rules, k, t, n - 1);
      var rest := FullAnswers(Record(h, rules, r), rules, burst[1..]);
      assert FullAnswers(h, rules, burst) == [FullyAccepts(h, rules, r)] + rest;
    }
  }

  /** Evicting a key makes the middleware forget it: however full its window was, its next request is
      accepted. */
  lemma EvictedIsForgotten(b: Books, rules: Rules, r: Request, next: Request)
    requires rules.limit >= 1 && EvictionAllowed(b, rules, r)
    requires next.key in r.evicted && next.key != r.key
    ensures Accepts(Serve(b, rules, r), rules, next)
  {
    assert next.key !in Serve(b, rules, r).bucket;
    assert Of(Swept(Serve(b, rules, r), rules, next).bucket, next.key) == [];
  }

  /** So the window bound fails across an eviction: with room for one key and one request a minute, "a"
      gets in at 100 and again at 131, because "b" came at 101 and 130. */
  lemma EvictionForgets()
    ensures
      var rules := Rules(1, 60.0, Some(1));
      var r0, r1, r2, r3 := Request("a", 100.0, {}), Request("b", 101.0, {}), Request("b", 130.0, {"a"}), Request("a", 131.0, {});
      var b1 := Serve(FRESH, rules, r0);
      var b2 := Serve(b1, rules, r1);
      var b3 := Serve(b2, rules, r2);
      && EvictionAllowed(FRESH, rules, r0) && EvictionAllowed(b1, rules, r1)
      && EvictionAllowed(b2, rules, r2) && EvictionAllowed(b3, rules, r3)
      && Accepts(FRESH, rules, r0) && Accepts(b3, rules, r3)
  {
    var rules := Rules(1, 60.0, Some(1));
    var r0, r1, r2, r3 := Request("a", 100.0, {}), Request("b", 101.0, {}), Request("b", 130.0, {"a"}), Request("a", 131.0, {});
    var b1 := Books(map["a" := [100.0]], map["a" := 100.0], 100.0);
    var b2 := Books(map["a" := [100.0], "b" := [101.0]], map["a" := 100.0, "b" := 101.0], 100.0);
    FirstTwo(rules, r0, r1, b1, b2);
    OlderGoes(b2.lastSeen, "a", "b");
    assert Stale(b2, rules, 130.0) == {};
    EvictedIsForgotten(b2, rules, r2, r3);
  }

  lemma OlderGoes(seen: map<Key, real>, x: Key, y: Key)
    requires seen.Keys == {x, y} && x != y && seen[x] <= seen[y]
    ensures Overflow(seen - {}, Some(1), {x})
  {
    assert seen - {} == seen && |seen| == |seen.Keys|;
  }

  lemma FirstTwo(rules: Rules, r0: Request, r1: Request, b1: Books, b2: Books)
    requires rules == Rules(1, 60.0, Some(1)) && r0 == Request("a", 100.0, {}) && r1 == Request("b", 101.0, {})
    requires b1 == Books(map["a" := [100.0]], map["a" := 100.0], 100.0)
    requires b2 == Books(map["a" := [100.0], "b" := [101.0]], map["a" := 100.0, "b" := 101.0], 100.0)
    ensures EvictionAllowed(FRESH, rules, r0) && Accepts(FRESH, rules, r0) && Serve(FRESH, rules, r0) == b1
    ensures EvictionAllowed(b1, rules, r1) && Accepts(b1, rules, r1) && Serve(b1, rules, r1) == b2
  {
    assert Swept(FRESH, rules, r0) == Books(map[], map[], 100.0);
    assert Kept(FRESH, rules, r0) == [];
    assert [] + [100.0] == [100.0] && [] + [101.0] == [101.0];
    assert Swept(b1, rules, r1) == b1 && Kept(b1, rules, r1) == [];
  }

  // ----- The limiter itself -----

  ghost predicate Oldest(seen: map<Key, real>, k: Key)
  {
    k in seen && forall j :: j in seen ==> seen[k] <= seen[j]
  }

  lemma {:induction false} SomeOldest(seen: map<Key, real>)
    requires |seen| > 0
    ensures exists k :: Oldest(seen, k)
    decreases |seen|
  {
    var x :| x in seen;
    var rest := seen - {x};
    if |rest| == 0 {
      assert forall j :: j in seen ==> j == x || j in rest;
      assert Oldest(seen, x);
    } else {
      assert rest.Keys == seen.Keys - {x};
      SomeOldest(rest);
      var y :| Oldest(rest, y);
      assert forall j :: j in seen ==> j == x || j in rest;
      if seen[x] <= seen[y] { assert Oldest(seen, x); } else { assert Oldest(seen, y); }
    }
  }

  class RequestWindowLimiter {
    const limitBase: int
    const rules: Rules
    var bucket: map<Key, seq<real>>
    var lastSeen: map<Key, real>
    var lastSweepAt: real

    ghost function Snapshot(): Books
      reads this
    {
      Books(bucket, lastSeen, lastSweepAt)
    }

    constructor (limitBase: int, burst: int, keyTtlSeconds: real, maxKeys: Option<int>)
      ensures Snapshot() == FRESH && rules.Valid() && this.limitBase == limitBase
      ensures rules.limit == MaxInt(1, limitBase + burst) && rules.ttl == MaxReal(60.0, keyTtlSeconds)
      ensures rules.maxKeys == if maxKeys.None? then None else Some(MaxInt(1, maxKeys.value))
    {
      this.limitBase := limitBase;
      rules := Rules(MaxInt(1, limitBase + burst), MaxReal(60.0, keyTtlSeconds),
                     if maxKeys.None? then None else Some(MaxInt(1, maxKeys.value)));
      bucket, lastSeen, lastSweepAt := map[], map[], 0.0;
    }

    /** A configured limit of zero or less switches the limiter off. */
    method Enforce(key: Key, now: real) returns (accepted: bool, ghost r: Request)
      modifies this
      ensures r.key == key && r.at == now
      ensures limitBase <= 0 ==> accepted && Snapshot() == old(Snapshot())
      ensures limitBase > 0 ==>
                && EvictionAllowed(old(Snapshot()), rules, r)
                && accepted == Accepts(old(Snapshot()), rules, r)
                && Snapshot() == Serve(old(Snapshot()), rules, r)
    {
      r := Request(key, now, {});
      if limitBase <= 0 {
        return true, r;
      }
      r := Sweep(key, now);
      var timestamps := PruneFront(if key in bucket then bucket[key] else [], now - WINDOW_SECONDS);
      lastSeen := lastSeen[key := now];
      accepted := |timestamps| < rules.limit;
      bucket := bucket[key := if accepted then timestamps + [now] else timestamps];
    }

    method Sweep(key: Key, now: real) returns (ghost r: Request)
      modifies this
      ensures r.key == key && r.at == now && EvictionAllowed(old(Snapshot()), rules, r)
      ensures Snapshot() == Swept(old(Snapshot()), rules, r)
    {
      r := Request(key, now, {});
      if now - lastSweepAt >= SWEEP_INTERVAL_SECONDS {
        var staleKeys := Stale(Books(bucket, lastSeen, lastSweepAt), rules, now);
        bucket, lastSeen := bucket - staleKeys, lastSeen - staleKeys;
        var oldest := OverflowingKeys(lastSeen, rules.maxKeys);
        bucket, lastSeen, lastSweepAt := bucket - oldest, lastSeen - oldest, now;
        r := Request(key, now, oldest);
      }
    }
  }

  method OverflowingKeys(seen: map<Key, real>, maxKeys: Option<nat>) returns (oldest: set<Key>)
    ensures Overflow(seen, maxKeys, oldest)
  {
    oldest := {};
    if maxKeys.Some? && |seen| > maxKeys.value {
      oldest := OldestKeys(seen, |seen| - maxKeys.value);
    }
  }

  method PruneFront(times: seq<real>, cutoff: real) returns (timestamps: seq<real>)
    ensures timestamps == Prune(times, cutoff)
  {
    timestamps := times;
    while timestamps != [] && timestamps[0] < cutoff
      invariant Prune(timestamps, cutoff) == Prune(times, cutoff)
      decreases |timestamps|
    {
      timestamps := timestamps[1..];
    }
  }

  /** The `count` keys seen longest ago. */
  method OldestKeys(seen: map<Key, real>, count: nat) returns (oldest: set<Key>)
    requires count <= |seen|
    ensures oldest <= seen.Keys && |oldest| == count
    ensures forall k, j :: k in oldest && j in seen.Keys - oldest ==> seen[k] <= seen[j]
  {
    oldest := {};
    var rest := seen;
    while |oldest| < count
      invariant |oldest| <= count && oldest <= seen.Keys
      invariant rest == seen - oldest && |rest| == |seen| - |oldest|
      invariant forall k, j :: k in oldest && j in seen.Keys - oldest ==> seen[k] <= seen[j]
    {
      SomeOldest(rest);
      var k :| k in rest && forall j :: j in rest ==> rest[k] <= rest[j];
      assert (rest - {k}).Keys == rest.Keys - {k};
      assert |(rest - {k}).Keys| == |rest.Keys| - 1;
      oldest, rest := oldest + {k}, rest - {k};
    }
  }
}

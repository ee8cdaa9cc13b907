/** src/app/services/chain_scheduler.py: which minutes a scheduler is due for, and how its memory of
    the last window moves. Instants are whole minutes. */
module ChainScheduler {
  import opened Common

  /** The minutes last + step, last + 2*step, ..., as many as `count`. */
  function Grid(last: int, step: int, count: nat): (g: seq<int>)
    ensures |g| == count && forall i :: 0 <= i < count ==> g[i] == last + (i + 1) * step
  {
    seq(count, i requires 0 <= i < count => last + (i + 1) * step)
  }

  /** How many steps fit between the last window and now. */
  function Elapsed(last: int, step: int, now: int): int
    requires step >= 1
  {
    (now - last) / step
  }

  function LastOf(windows: seq<int>, count: nat): seq<int>
  {
    if |windows| > count then windows[|windows| - count..] else windows
  }

  /** The windows a scheduler works on when it wakes up at `now`. */
  function DueWindows(last: Option<int>, step: int, catchup: nat, now: int): seq<int>
    requires step >= 1
  {
    if last.None? || Elapsed(last.value, step, now) <= 0 then [now]
    else LastOf(Grid(last.value, step, Elapsed(last.value, step, now)), catchup)
  }

  lemma Quotient(a: int, b: int)
    requires b >= 1
    ensures a / b * b <= a < (a / b + 1) * b
    ensures a / b >= 1 <==> a >= b
  {
  }

  ghost predicate Increasing(s: seq<int>)
  {
    forall i, j :: 0 <= i < j < |s| ==> s[i] < s[j]
  }

  lemma GridFacts(last: int, step: int, count: nat, now: int)
    requires step >= 1 && count == Elapsed(last, step, now) && count >= 1
    ensures Increasing(Grid(last, step, count))
    ensures forall i :: 0 <= i < count ==> last < Grid(last, step, count)[i] <= now
    ensures now - step < Grid(last, step, count)[count - 1]
  {
    Quotient(now - last, step);
    var g := Grid(last, step, count);
    forall i, j | 0 <= i < j < count ensures g[i] < g[j] {
      ScaleInt(i + 1, j + 1, step);
    }
    forall i | 0 <= i < count ensures last < g[i] <= now {
      ScaleInt(0, i + 1, step);
      if i + 1 < count { ScaleInt(i + 1, count, step); }
    }
    assert (count + 1) * step == count * step + step;
  }

  lemma TailOfGrid(last: int, step: int, catchup: nat, n: nat, now: int)
    requires step >= 1 && catchup >= 1 && n == Elapsed(last, step, now) && n >= 1
    ensures var due := LastOf(Grid(last, step, n), catchup);
      && |due| == MinInt(n, catchup) && due == Grid(last, step, n)[n - |due|..]
      && Increasing(due) && (forall i :: 0 <= i < |due| ==> last < due[i] <= now) && now - step < due[|due| - 1]
  {
    GridFacts(last, step, n, now);
    TailFacts(Grid(last, step, n), catchup, last, now);
  }

  lemma TailFacts(g: seq<int>, count: nat, above: int, upTo: int)
    requires Increasing(g) && count >= 1 && |g| >= 1 && forall i :: 0 <= i < |g| ==> above < g[i] <= upTo
    ensures var t := LastOf(g, count);
      && |t| == MinInt(|g|, count) && t == g[|g| - |t|..] && Increasing(t)
      && (forall i :: 0 <= i < |t| ==> above < t[i] <= upTo) && t[|t| - 1] == g[|g| - 1]
  {
  }

  /** Catch-up: at least one and at most `catchup` windows, increasing and none in the future. When
      one is due, they are the latest windows of the grid that starts at the last one, and end less
      than a step before now. */
  lemma CatchUp(last: Option<int>, step: int, catchup: nat, now: int)
    requires step >= 1 && catchup >= 1
    ensures var due := DueWindows(last, step, catchup, now);
      && 1 <= |due| <= catchup && Increasing(due) && (forall i :: 0 <= i < |due| ==> due[i] <= now)
      && (last.Some? && now >= last.value + step ==>
            var n := Elapsed(last.value, step, now);
            && n >= 1 && |due| == MinInt(n, catchup) && now - step < due[|due| - 1]
            && due == Grid(last.value, step, n)[n - |due|..])
      && (last.None? || now < last.value + step ==> due == [now])
  {
    if last.Some? {
      Quotient(now - last.value, step);
      var n := Elapsed(last.value, step, now);
      if n >= 1 {
        TailOfGrid(last.value, step, catchup, n, now);
      }
    }
  }

  /** The windows worked on stay on the grid only while the scheduler wakes up late enough, or again in
      the very minute of the last window: woken in between, it takes the current minute instead and moves
      the grid there. */
  lemma OnGridIff(last: int, step: int, catchup: nat, now: int)
    requires step >= 1 && catchup >= 1 && now >= last
    ensures (forall w :: w in DueWindows(Some(last), step, catchup, now) ==> (w - last) % step == 0)
            <==> now == last || now - last >= step
  {
    if now - last >= step {
      OnGrid(last, step, catchup, now);
    } else {
      TooEarly(now - last, step);
      assert DueWindows(Some(last), step, catchup, now) == [now] && now in [now];
    }
  }

  lemma TooEarly(a: int, step: int)
    requires 0 <= a < step
    ensures a / step == 0 && a % step == a
  {
  }

  lemma OnGrid(last: int, step: int, catchup: nat, now: int)
    requires step >= 1 && catchup >= 1 && now - last >= step
    ensures forall w :: w in DueWindows(Some(last), step, catchup, now) ==> (w - last) % step == 0
  {
    Quotient(now - last, step);
    var n := Elapsed(last, step, now);
    var g := Grid(last, step, n);
    GridMultiples(last, step, n);
    forall w | w in LastOf(g, catchup) ensures w in g {}
  }

  lemma GridMultiples(last: int, step: int, n: nat)
    requires step >= 1
    ensures forall w :: w in Grid(last, step, n) ==> (w - last) % step == 0
  {
    forall w | w in Grid(last, step, n) ensures (w - last) % step == 0 {
      var i :| 0 <= i < n && Grid(last, step, n)[i] == w;
      Multiple(i + 1, step);
    }
  }

  lemma Multiple(k: int, step: int)
    requires step >= 1
    ensures (k * step) % step == 0
  {
    QuotientIs(k * step, step, k);
  }

  lemma QuotientIs(a: int, b: int, q: int)
    requires b >= 1 && q * b <= a < (q + 1) * b
    ensures a / b == q
  {
    Quotient(a, b);
    if a / b > q { ScaleInt(q + 1, a / b, b); }
    if a / b < q { ScaleInt(a / b + 1, q, b); }
  }

  // ----- Over whole runs -----

  /** How the work on one window ends: the lock is busy, somebody else has the slot, the run
      completes, or something raises. Only two of them are remembered. */
  datatype WindowResult = LockBusy | Duplicate | Completed | Raised

  predicate Remembered(r: WindowResult) { r == Duplicate || r == Completed }

  /** The last window after working through `windows` with the given results. */
  function Remember(last: Option<int>, windows: seq<int>, results: seq<WindowResult>): Option<int>
    requires |windows| == |results|
    decreases windows
  {
    if windows == [] then last
    else Remember(if Remembered(results[0]) then Some(windows[0]) else last, windows[1..], results[1..])
  }

  /** Window `i` is the last one that completed or was somebody else's. */
  ghost predicate LastDone(results: seq<WindowResult>, i: int)
  {
    && 0 <= i < |results| && (results[i] == Completed || results[i] == Duplicate)
    && forall j :: i < j < |results| ==> results[j] == LockBusy || results[j] == Raised
  }

  /** The memory is the last window that completed or was somebody else's. A window that raised or found the
      lock busy moves nothing: it is made up for later only if no window after it was remembered. */
  lemma {:induction false} RememberedIs(last: Option<int>, windows: seq<int>, results: seq<WindowResult>)
    requires |windows| == |results|
    ensures forall i :: LastDone(results, i) ==> Remember(last, windows, results) == Some(windows[i])
    ensures (forall i :: 0 <= i < |results| ==> results[i] == LockBusy || results[i] == Raised) ==>
              Remember(last, windows, results) == last
    decreases windows
  {
    if windows != [] {
      var next := if Remembered(results[0]) then Some(windows[0]) else last;
      RememberedIs(next, windows[1..], results[1..]);
      assert forall j :: 0 < j < |results| ==> results[j] == results[1..][j - 1];
      forall i | LastDone(results, i) ensures Remember(last, windows, results) == Some(windows[i]) {
        if i > 0 { assert LastDone(results[1..], i - 1); }
      }
    }
  }

  lemma {:induction false} RememberBetween(last: Option<int>, windows: seq<int>, results: seq<WindowResult>, now: int)
    requires |windows| == |results| && Increasing(windows)
    requires forall i :: 0 <= i < |windows| ==> (last.Some? ==> last.value <= windows[i]) && windows[i] <= now
    ensures var after := Remember(last, windows, results);
      && (last.Some? ==> after.Some? && last.value <= after.value)
      && (after.Some? ==> after == last || after.value <= now)
    decreases windows
  {
    if windows != [] {
      var rest := windows[1..];
      assert forall i :: 0 <= i < |rest| ==> rest[i] == windows[i + 1];
      RememberBetween(if Remembered(results[0]) then Some(windows[0]) else last, rest, results[1..], now);
    }
  }

  /** One turn of the loop: when it woke up, and what became of each window. */
  datatype Turn = Turn(now: int, results: seq<WindowResult>)

  ghost predicate Fits(last: Option<int>, step: int, catchup: nat, start: int, turns: seq<Turn>)
    requires step >= 1
    decreases turns
  {
    turns == []
    || (var due := DueWindows(last, step, catchup, turns[0].now);
        && start <= turns[0].now && |turns[0].results| == |due|
        && Fits(Remember(last, due, turns[0].results), step, catchup, turns[0].now, turns[1..]))
  }

  function LastWindow(last: Option<int>, step: int, catchup: nat, turns: seq<Turn>): Option<int>
    requires step >= 1
    decreases turns
  {
    if turns == [] then last
    else
      var due := DueWindows(last, step, catchup, turns[0].now);
      if |due| != |turns[0].results| then last
      else LastWindow(Remember(last, due, turns[0].results), step, catchup, turns[1..])
  }

  lemma DueNotBefore(last: int, step: int, catchup: nat, now: int)
    requires step >= 1 && catchup >= 1 && last <= now
    ensures forall i :: 0 <= i < |DueWindows(Some(last), step, catchup, now)| ==>
                          last <= DueWindows(Some(last), step, catchup, now)[i] <= now
  {
    Quotient(now - last, step);
    var n := Elapsed(last, step, now);
    if n >= 1 {
      TailOfGrid(last, step, catchup, n, now);
    }
  }

  /** Over any run on a clock that does not go back, the last window never moves back and never
      passes the clock. */
  lemma {:induction false} LastWindowMonotone(last: Option<int>, step: int, catchup: nat, start: int, turns: seq<Turn>)
    requires step >= 1 && catchup >= 1 && Fits(last, step, catchup, start, turns)
    requires last.Some? ==> last.value <= start
    ensures var after := LastWindow(last, step, catchup, turns);
      && (last.Some? ==> after.Some? && last.value <= after.value)
      && (after.Some? ==> after.value <= if turns == [] then start else turns[|turns| - 1].now)
    decreases turns
  {
    if turns != [] {
      var t := turns[0];
      var due := DueWindows(last, step, catchup, t.now);
      CatchUp(last, step, catchup, t.now);
      if last.Some? { DueNotBefore(last.value, step, catchup, t.now); }
      RememberBetween(last, due, t.results, t.now);
      LastWindowMonotone(Remember(last, due, t.results), step, catchup, t.now, turns[1..]);
    }
  }

  /** A window that lies before the remembered one is never worked on again: if its run raised, and a later
      window of the same turn was remembered, nothing makes up for it. */
  lemma SkippedForGood(last: int, step: int, catchup: nat, start: int, turns: seq<Turn>, skipped: int, now: int)
    requires step >= 1 && catchup >= 1 && skipped < last <= start && Fits(Some(last), step, catchup, start, turns)
    requires now >= if turns == [] then start else turns[|turns| - 1].now
    ensures skipped !in DueWindows(LastWindow(Some(last), step, catchup, turns), step, catchup, now)
  {
    LastWindowMonotone(Some(last), step, catchup, start, turns);
    DueNotBefore(LastWindow(Some(last), step, catchup, turns).value, step, catchup, now);
  }

  // ----- The scheduler itself -----

  /** Python rounds halves to the even neighbour. */
  function RoundedMinutes(seconds: nat): (minutes: int)
    ensures -30 <= 60 * minutes - seconds <= 30 && (seconds % 60 == 30 ==> minutes % 2 == 0)
  {
    var q, r := seconds / 60, seconds % 60;
    if r < 30 || (r == 30 && q % 2 == 0) then q else q + 1
  }

  class ChainPipelineScheduler {
    const intervalSeconds: nat
    const catchupWindows: nat
    const windowStepMinutes: int
    var lastWindow: Option<int>

    ghost predicate Valid()
    {
      catchupWindows >= 1 && windowStepMinutes >= 1
    }

    constructor (intervalSeconds: int, catchupWindows: int)
      ensures Valid() && lastWindow == None
      ensures this.catchupWindows == MaxInt(1, catchupWindows)
      ensures windowStepMinutes == MaxInt(1, RoundedMinutes(MaxInt(10, intervalSeconds)))
    {
      this.intervalSeconds := MaxInt(10, intervalSeconds);
      this.catchupWindows := MaxInt(1, catchupWindows);
      windowStepMinutes := MaxInt(1, RoundedMinutes(MaxInt(10, intervalSeconds)));
      lastWindow := None;
    }

    method BuildDueWindows(now: int) returns (due: seq<int>)
      requires Valid()
      ensures due == DueWindows(lastWindow, windowStepMinutes, catchupWindows, now)
    {
      if lastWindow == None {
        return [now];
      }
      var last, step := lastWindow.value, windowStepMinutes;
      var next := last + step;
      due := [];
      Quotient(now - last, step);
      while next <= now
        invariant next == last + (|due| + 1) * step && due == Grid(last, step, |due|)
        invariant |due| > 0 ==> last + |due| * step <= now
        decreases now - next
      {
        assert Grid(last, step, |due| + 1) == Grid(last, step, |due|) + [next];
        assert (|due| + 2) * step == (|due| + 1) * step + step;
        due := due + [next];
        next := next + step;
      }
      StepCount(last, step, |due|, now);
      if due == [] {
        return [now];
      }
      if |due| > catchupWindows {
        return due[|due| - catchupWindows..];
      }
    }

    /** One turn of the loop, with what becomes of each due window. */
    method Turn(now: int, outcome: int -> WindowResult) returns (due: seq<int>)
      requires Valid()
      modifies this
      ensures Valid()
      ensures due == DueWindows(old(lastWindow), windowStepMinutes, catchupWindows, now)
      ensures lastWindow == Remember(old(lastWindow), due, seq(|due|, i requires 0 <= i < |due| => outcome(due[i])))
    {
      due := BuildDueWindows(now);
      ghost var results := seq(|due|, i requires 0 <= i < |due| => outcome(due[i]));
      var i := 0;
      while i < |due|
        invariant 0 <= i <= |due|
        invariant Remember(old(lastWindow), due, results) == Remember(lastWindow, due[i..], results[i..])
      {
        assert due[i..][1..] == due[i + 1..] && results[i..][1..] == results[i + 1..];
        if Remembered(outcome(due[i])) {
          lastWindow := Some(due[i]);
        }
        i := i + 1;
      }
    }
  }

  lemma StepCount(last: int, step: int, k: nat, now: int)
    requires step >= 1 && now < last + (k + 1) * step && (k > 0 ==> last + k * step <= now)
    ensures k > 0 ==> Elapsed(last, step, now) == k
    ensures k == 0 ==> Elapsed(last, step, now) <= 0
  {
    if k > 0 {
      QuotientIs(now - last, step, k);
    } else {
      Quotient(now - last, step);
    }
  }
}

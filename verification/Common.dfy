/** Small vocabulary shared by every component of the model. */
module Common {

  datatype Option<+T> = None | Some(value: T)

  function MaxInt(a: int, b: int): int { if a >= b then a else b }

  function MinInt(a: int, b: int): int { if a <= b then a else b }

  function MaxReal(a: real, b: real): real { if a >= b then a else b }

  function MinReal(a: real, b: real): real { if a <= b then a else b }

  function Sum(s: seq<real>): real
    decreases s
  {
    if s == [] then 0.0 else s[0] + Sum(s[1..])
  }

  lemma {:induction false} SumSnoc(s: seq<real>, x: real)
    ensures Sum(s + [x]) == Sum(s) + x
    decreases s
  {
    if s == [] {
      assert [] + [x] == [x];
    } else {
      assert (s + [x])[1..] == s[1..] + [x];
      SumSnoc(s[1..], x);
    }
  }

  lemma {:induction false} SubsetSize<T>(a: set<T>, b: set<T>)
    requires a <= b
    ensures |a| <= |b|
    decreases a
  {
    if a != {} {
      var x :| x in a;
      SubsetSize(a - {x}, b - {x});
    }
  }

  // ----- The nonlinear facts every component needs -----

  lemma ScaleInt(a: int, b: int, step: int)
    requires a <= b && step >= 0
    ensures a * step <= b * step && step * a <= step * b
    ensures a < b && step > 0 ==> a * step < b * step
  {
  }

  lemma ScaleReal(factor: real, x: real, y: real)
    requires factor >= 0.0 && x <= y
    ensures factor * x <= factor * y
  {
  }

  lemma CancelFactor(x: real, y: real, w: real)
    requires w > 0.0
    ensures x * w <= y * w <==> x <= y
  {
  }

  lemma CancelProducts(x: real, y: real, w: real, xw: real, yw: real)
    requires w > 0.0 && xw == x * w && yw == y * w
    ensures xw <= yw <==> x <= y
    ensures xw < yw <==> x < y
  {
    CancelFactor(x, y, w);
    CancelFactor(y, x, w);
  }

  lemma QuotientOf(x: real, q: real, w: real)
    requires w > 0.0 && x == q * w
    ensures x / w == q
  {
  }

  /** `part` is the share `rate` of the whole. */
  ghost predicate IsShare(rate: real, whole: real, part: real) { rate * whole == part }

  lemma RateOf(part: real, whole: real, rate: real)
    requires whole > 0.0 && rate == part / whole
    ensures IsShare(rate, whole, part)
  {
  }

  /** Instants read from one clock that never runs backwards, none of them before `start`. */
  ghost predicate Chronological(start: real, times: seq<real>)
    decreases times
  {
    times == [] || (start <= times[0] && Chronological(times[0], times[1..]))
  }

  /** How many of the instants fall in the closed interval from `from` to `to`. */
  function CountWithin(times: seq<real>, from: real, to: real): nat
  {
    if times == [] then 0
    else (if from <= times[0] <= to then 1 else 0) + CountWithin(times[1..], from, to)
  }

  lemma {:induction false} ChronologicalSnoc(start: real, times: seq<real>, t: real)
    requires Chronological(start, times)
    requires t >= if times == [] then start else times[|times| - 1]
    ensures Chronological(start, times + [t])
    decreases times
  {
    if times == [] {
    } else {
      assert (times + [t])[1..] == times[1..] + [t];
      ChronologicalSnoc(times[0], times[1..], t);
    }
  }

  /** The process clock: every reading is at or after the previous one and sleeping lasts at
      least as long as asked. How far it moves otherwise is arbitrary. */
  class Clock {
    var now: real

    constructor (start: real)
      ensures now == start
    {
      now := start;
    }

    method Read() returns (t: real)
      modifies this
      ensures t == now && now >= old(now)
    {
      var drift: real := *;
      now := now + MaxReal(0.0, drift);
      t := now;
    }

    method Sleep(seconds: real)
      modifies this
      ensures now >= old(now) + MaxReal(0.0, seconds)
    {
      var drift: real := *;
      now := now + MaxReal(0.0, seconds) + MaxReal(0.0, drift);
    }
  }
}

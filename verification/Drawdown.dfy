/** src/backtest/engine.py, `_max_drawdown_pct`: the largest drop of the equity curve, in one pass. */
module Drawdown {
  import opened Common

  /** Equity after the first k trades. */
  function Equity(start: real, pnl: seq<real>, k: nat): real
    requires k <= |pnl|
  {
    if k == 0 then start else Equity(start, pnl, k - 1) + pnl[k - 1]
  }

  /** The highest equity among those after 0, 1, ..., k trades. */
  function Peak(start: real, pnl: seq<real>, k: nat): real
    requires k <= |pnl|
  {
    if k == 0 then start else MaxReal(Peak(start, pnl, k - 1), Equity(start, pnl, k))
  }

  /** The start and the results of the first k trades together. */
  function Capital(start: real, pnl: seq<real>, k: nat): real
    requires k <= |pnl|
  {
    start + Sum(pnl[..k])
  }

  lemma {:induction false} EquityIsSum(start: real, pnl: seq<real>, k: nat)
    requires k <= |pnl|
    ensures Equity(start, pnl, k) == Capital(start, pnl, k)
    decreases k
  {
    if k == 0 {
      assert pnl[..0] == [];
    } else {
      EquityIsSum(start, pnl, k - 1);
      SumSnoc(pnl[..k - 1], pnl[k - 1]);
      assert pnl[..k] == pnl[..k - 1] + [pnl[k - 1]];
    }
  }

  function Drop(high: real, low: real): real
    requires high > 0.0
  {
    (high - low) / high
  }

  lemma {:induction false} PeakIsHighest(start: real, pnl: seq<real>, k: nat)
    requires k <= |pnl|
    ensures forall i :: 0 <= i <= k ==> Equity(start, pnl, i) <= Peak(start, pnl, k)
    ensures exists i :: 0 <= i <= k && Equity(start, pnl, i) == Peak(start, pnl, k)
    decreases k
  {
    if k > 0 {
      PeakIsHighest(start, pnl, k - 1);
      assert Equity(start, pnl, k) <= Peak(start, pnl, k);
    } else {
      assert Equity(start, pnl, 0) == start;
    }
  }

  /** `dd` is the largest drop below the running peak (or nothing, when there is none). */
  ghost predicate LargestFromPeak(start: real, pnl: seq<real>, n: nat, dd: real)
    requires n <= |pnl|
  {
    && dd >= 0.0
    && (forall k :: 0 <= k <= n && Peak(start, pnl, k) > 0.0 ==> Drop(Peak(start, pnl, k), Equity(start, pnl, k)) <= dd)
    && (dd > 0.0 ==> exists k :: 0 <= k <= n && Peak(start, pnl, k) > 0.0 && dd == Drop(Peak(start, pnl, k), Equity(start, pnl, k)))
  }

  /** No drop from any earlier positive equity to any later one is larger than `dd`. */
  ghost predicate BoundsAllPairs(start: real, pnl: seq<real>, n: nat, dd: real)
    requires n <= |pnl|
  {
    forall i, j :: 0 <= i <= j <= n && Equity(start, pnl, i) > 0.0 ==>
      Drop(Equity(start, pnl, i), Equity(start, pnl, j)) <= dd
  }

  /** What is left of an equity of `high` after falling to `low`, as a share. */
  lemma Remainder(high: real, low: real) returns (left: real)
    requires high > 0.0
    ensures left == 1.0 - Drop(high, low) && left * high == low
    ensures left >= 0.0 <==> low >= 0.0
  {
    var dropped := Drop(high, low);
    assert dropped * high == high - low;
    left := 1.0 - dropped;
    CancelProducts(0.0, left, high, 0.0, low);
  }

  /** Of the same level, a non-negative one is the smaller share of the higher start, a negative one the
      larger. */
  lemma Shares(x: real, y: real, a: real, p: real, e: real)
    requires 0.0 < a <= p && x * a == e && y * p == e
    ensures y >= 0.0 ==> x >= y
    ensures y < 0.0 && a < p ==> x < y
  {
    var ya := y * a;
    if y >= 0.0 { ScaleReal(y, a, p); } else { CancelProducts(a, p, -y, -ya, -e); }
    CancelProducts(x, y, a, e, ya);
  }

  /** From a higher start the drop to the same non-negative level is larger. */
  lemma DropGrows(a: real, p: real, e: real)
    requires 0.0 < a <= p && e >= 0.0
    ensures Drop(a, e) <= Drop(p, e) <= 1.0
  {
    var x := Remainder(a, e);
    var y := Remainder(p, e);
    Shares(x, y, a, p, e);
  }

  /** Below zero it is the other way round. */
  lemma DropShrinks(a: real, p: real, e: real)
    requires 0.0 < a < p && e < 0.0
    ensures Drop(a, e) > Drop(p, e) > 1.0
  {
    var x := Remainder(a, e);
    var y := Remainder(p, e);
    Shares(x, y, a, p, e);
  }

  /** While equity stays non-negative, the one pass finds the maximum over all pairs. */
  lemma PeakFormIsPairMaximum(start: real, pnl: seq<real>, n: nat, dd: real)
    requires n <= |pnl| && LargestFromPeak(start, pnl, n, dd)
    requires forall k :: 0 <= k <= n ==> Equity(start, pnl, k) >= 0.0
    ensures BoundsAllPairs(start, pnl, n, dd)
  {
    forall i, j | 0 <= i <= j <= n && Equity(start, pnl, i) > 0.0
      ensures Drop(Equity(start, pnl, i), Equity(start, pnl, j)) <= dd
    {
      PeakIsHighest(start, pnl, j);
      DropGrows(Equity(start, pnl, i), Peak(start, pnl, j), Equity(start, pnl, j));
    }
  }

  /** Whatever the equity does, the reported drawdown is a drop between two of its points. */
  lemma PeakFormIsSomePair(start: real, pnl: seq<real>, n: nat, dd: real)
    requires n <= |pnl| && LargestFromPeak(start, pnl, n, dd) && dd > 0.0
    ensures exists i, j :: 0 <= i <= j <= n && Equity(start, pnl, i) > 0.0
                           && dd == Drop(Equity(start, pnl, i), Equity(start, pnl, j))
  {
    var k :| 0 <= k <= n && Peak(start, pnl, k) > 0.0 && dd == Drop(Peak(start, pnl, k), Equity(start, pnl, k));
    PeakIsHighest(start, pnl, k);
    var i :| 0 <= i <= k && Equity(start, pnl, i) == Peak(start, pnl, k);
    assert dd == Drop(Equity(start, pnl, i), Equity(start, pnl, k));
  }

  /** What is lost over the trades from `i` to before `j`. */
  function Lost(pnl: seq<real>, i: nat, j: nat): real
    requires i <= j <= |pnl|
  {
    -Sum(pnl[i..j])
  }

  lemma {:induction false} LostBetween(start: real, pnl: seq<real>, i: nat, j: nat)
    requires i <= j <= |pnl|
    ensures Equity(start, pnl, i) - Equity(start, pnl, j) == Lost(pnl, i, j)
    decreases j
  {
    if i == j {
      assert pnl[i..j] == [];
    } else {
      LostBetween(start, pnl, i, j - 1);
      SumSnoc(pnl[i..j - 1], pnl[j - 1]);
      assert pnl[i..j] == pnl[i..j - 1] + [pnl[j - 1]];
    }
  }

  ghost predicate AtMost(lost: real, share: real, capital: real) { lost <= share * capital }

  ghost predicate Exactly(lost: real, share: real, capital: real) { lost == share * capital > 0.0 }

  /** In money, with no curve and no peak: as long as the results never add up to a loss of more than the
      start, no stretch of trades loses more than the reported share of what there was before it, and if that
      share is positive, some stretch loses just that. */
  lemma DrawdownInMoney(start: real, pnl: seq<real>, dd: real)
    requires LargestFromPeak(start, pnl, |pnl|, dd)
    requires forall k :: 0 <= k <= |pnl| ==> Capital(start, pnl, k) >= 0.0
    ensures forall i, j :: 0 <= i <= j <= |pnl| ==> AtMost(Lost(pnl, i, j), dd, Capital(start, pnl, i))
    ensures dd > 0.0 ==> exists i, j :: 0 <= i <= j <= |pnl| && Exactly(Lost(pnl, i, j), dd, Capital(start, pnl, i))
  {
    forall k | 0 <= k <= |pnl| ensures Equity(start, pnl, k) >= 0.0 { EquityIsSum(start, pnl, k); }
    PeakFormIsPairMaximum(start, pnl, |pnl|, dd);
    forall i, j | 0 <= i <= j <= |pnl| ensures AtMost(Lost(pnl, i, j), dd, Capital(start, pnl, i)) {
      StretchAtMost(start, pnl, i, j, dd);
    }
    if dd > 0.0 {
      PeakFormIsSomePair(start, pnl, |pnl|, dd);
      var i, j :| 0 <= i <= j <= |pnl| && Equity(start, pnl, i) > 0.0 && dd == Drop(Equity(start, pnl, i), Equity(start, pnl, j));
      StretchJust(start, pnl, i, j, dd);
    }
  }

  lemma StretchAtMost(start: real, pnl: seq<real>, i: nat, j: nat, dd: real)
    requires i <= j <= |pnl| && dd >= 0.0 && Equity(start, pnl, i) >= 0.0 && Equity(start, pnl, j) >= 0.0
    requires Equity(start, pnl, i) > 0.0 ==> Drop(Equity(start, pnl, i), Equity(start, pnl, j)) <= dd
    ensures AtMost(Lost(pnl, i, j), dd, Capital(start, pnl, i))
  {
    EquityIsSum(start, pnl, i);
    LostBetween(start, pnl, i, j);
    ShareAtMost(Capital(start, pnl, i), Equity(start, pnl, j), Lost(pnl, i, j), dd);
  }

  lemma ShareAtMost(high: real, low: real, lost: real, dd: real)
    requires high >= 0.0 && low >= 0.0 && dd >= 0.0 && lost == high - low && (high > 0.0 ==> Drop(high, low) <= dd)
    ensures AtMost(lost, dd, high)
  {
    if high > 0.0 {
      assert Drop(high, low) * high == lost;
      CancelFactor(Drop(high, low), dd, high);
    }
  }

  lemma StretchJust(start: real, pnl: seq<real>, i: nat, j: nat, dd: real)
    requires i <= j <= |pnl| && dd > 0.0 && Equity(start, pnl, i) > 0.0
    requires dd == Drop(Equity(start, pnl, i), Equity(start, pnl, j))
    ensures Exactly(Lost(pnl, i, j), dd, Capital(start, pnl, i))
  {
    EquityIsSum(start, pnl, i);
    LostBetween(start, pnl, i, j);
    ShareJust(Capital(start, pnl, i), Equity(start, pnl, j), Lost(pnl, i, j), dd);
  }

  lemma ShareJust(high: real, low: real, lost: real, dd: real)
    requires high > 0.0 && dd > 0.0 && lost == high - low && dd == Drop(high, low)
    ensures Exactly(lost, dd, high)
  {
    CancelProducts(0.0, dd, high, 0.0, dd * high);
  }

  /** So a run without a losing trade is reported without a drawdown. */
  lemma NoLossNoDrawdown(start: real, pnl: seq<real>, dd: real)
    requires LargestFromPeak(start, pnl, |pnl|, dd) && forall k :: 0 <= k < |pnl| ==> pnl[k] >= 0.0
    ensures dd == 0.0
  {
    forall k | 0 <= k <= |pnl| ensures Peak(start, pnl, k) == Equity(start, pnl, k) { PeakIsNow(start, pnl, k); }
  }

  lemma {:induction false} PeakIsNow(start: real, pnl: seq<real>, k: nat)
    requires k <= |pnl| && forall i :: 0 <= i < |pnl| ==> pnl[i] >= 0.0
    ensures Peak(start, pnl, k) == Equity(start, pnl, k)
    decreases k
  {
    if k > 0 { PeakIsNow(start, pnl, k - 1); }
  }

  method MaxDrawdownPct(netValues: seq<real>, tradeSizeUsd: real) returns (maxDd: real)
    ensures LargestFromPeak(tradeSizeUsd * 10.0, netValues, |netValues|, maxDd)
    ensures (forall k :: 0 <= k < |netValues| ==> netValues[k] >= 0.0) ==> maxDd == 0.0
  {
    var equity := tradeSizeUsd * 10.0;
    ghost var start := equity;
    var peak := equity;
    maxDd := 0.0;
    var k := 0;
    while k < |netValues|
      invariant 0 <= k <= |netValues|
      invariant equity == Equity(start, netValues, k) && peak == Peak(start, netValues, k)
      invariant LargestFromPeak(start, netValues, k, maxDd)
    {
      equity := equity + netValues[k];
      k := k + 1;
      if equity > peak {
        peak := equity;
      }
      if peak > 0.0 {
        var dd := (peak - equity) / peak;
        assert dd == Drop(Peak(start, netValues, k), Equity(start, netValues, k));
        if dd > maxDd {
          maxDd := dd;
        }
      }
    }
    if forall k :: 0 <= k < |netValues| ==> netValues[k] >= 0.0 {
      NoLossNoDrawdown(start, netValues, maxDd);
    }
  }

  // ----- Once equity dips below zero -----

  /** The lowest positive equity among those after 0, 1, ..., k trades. */
  function Lowest(start: real, pnl: seq<real>, k: nat): (low: Option<real>)
    requires k <= |pnl|
    ensures low.Some? ==> low.value > 0.0
  {
    var before := if k == 0 then None else Lowest(start, pnl, k - 1);
    var e := Equity(start, pnl, k);
    if e > 0.0 && (before.None? || e < before.value) then Some(e) else before
  }

  lemma {:induction false} LowestIsLowest(start: real, pnl: seq<real>, k: nat)
    requires k <= |pnl|
    ensures forall i :: 0 <= i <= k && Equity(start, pnl, i) > 0.0 ==>
              Lowest(start, pnl, k).Some? && Lowest(start, pnl, k).value <= Equity(start, pnl, i)
    ensures Lowest(start, pnl, k).Some? ==>
              exists i :: 0 <= i <= k && Equity(start, pnl, i) == Lowest(start, pnl, k).value
    decreases k
  {
    if k > 0 {
      LowestIsLowest(start, pnl, k - 1);
      assert Equity(start, pnl, k) == Equity(start, pnl, k);
    } else {
      assert Equity(start, pnl, 0) == start;
    }
  }

  /** In general the one pass bounds all pairs exactly when it bounds, for each negative equity, the drop
      from the lowest positive one before it: a second pass that keeps that figure would tell. */
  lemma BoundsAllPairsIff(start: real, pnl: seq<real>, n: nat, dd: real)
    requires n <= |pnl| && LargestFromPeak(start, pnl, n, dd)
    ensures BoundsAllPairs(start, pnl, n, dd)
            <==> forall j :: 0 <= j <= n && Equity(start, pnl, j) < 0.0 && Lowest(start, pnl, j).Some? ==>
                   Drop(Lowest(start, pnl, j).value, Equity(start, pnl, j)) <= dd
  {
    if BoundsAllPairs(start, pnl, n, dd) {
      forall j | 0 <= j <= n && Equity(start, pnl, j) < 0.0 && Lowest(start, pnl, j).Some?
        ensures Drop(Lowest(start, pnl, j).value, Equity(start, pnl, j)) <= dd
      {
        LowestIsLowest(start, pnl, j);
        var i :| 0 <= i <= j && Equity(start, pnl, i) == Lowest(start, pnl, j).value;
      }
    } else {
      var i, j :| 0 <= i <= j <= n && Equity(start, pnl, i) > 0.0 && Drop(Equity(start, pnl, i), Equity(start, pnl, j)) > dd;
      PeakIsHighest(start, pnl, j);
      LowestIsLowest(start, pnl, j);
      if Equity(start, pnl, j) >= 0.0 {
        DropGrows(Equity(start, pnl, i), Peak(start, pnl, j), Equity(start, pnl, j));
      } else if Lowest(start, pnl, j).value < Equity(start, pnl, i) {
        DropShrinks(Lowest(start, pnl, j).value, Equity(start, pnl, i), Equity(start, pnl, j));
      }
    }
  }

  /** Once the two forms part at the first dip they never meet again, whatever is traded afterwards. */
  lemma SeparatedForGood(start: real, pnl: seq<real>, dip: nat, n: nat, dd: real)
    requires 1 <= dip <= n <= |pnl| && LargestFromPeak(start, pnl, n, dd)
    requires forall k :: 0 <= k < dip ==> Equity(start, pnl, k) >= 0.0
    requires Equity(start, pnl, dip) < 0.0
    requires exists i :: 0 <= i < dip && 0.0 < Equity(start, pnl, i) < Peak(start, pnl, dip)
    ensures !BoundsAllPairs(start, pnl, n, dd)
  {
    var i :| 0 <= i < dip && 0.0 < Equity(start, pnl, i) < Peak(start, pnl, dip);
    DropShrinks(Equity(start, pnl, i), Peak(start, pnl, dip), Equity(start, pnl, dip));
    var k :| 0 <= k <= n && Peak(start, pnl, k) > 0.0 && dd == Drop(Peak(start, pnl, k), Equity(start, pnl, k));
    var _ := Remainder(Peak(start, pnl, k), Equity(start, pnl, k));
    PeakGrows(start, pnl, dip, k);
    DropShrinks(Equity(start, pnl, i), Peak(start, pnl, k), Equity(start, pnl, k));
    assert Drop(Equity(start, pnl, i), Equity(start, pnl, k)) > dd;
  }

  lemma {:induction false} PeakGrows(start: real, pnl: seq<real>, j: nat, k: nat)
    requires j <= k <= |pnl|
    ensures Peak(start, pnl, j) <= Peak(start, pnl, k)
    decreases k
  {
    if j < k { PeakGrows(start, pnl, j, k - 1); }
  }

  /** Among the equities after 0, 1, ..., n trades no positive one is other than `level`. */
  ghost predicate OneLevel(start: real, pnl: seq<real>, n: nat, level: real)
    requires n <= |pnl|
  {
    forall k :: 0 <= k <= n && Equity(start, pnl, k) > 0.0 ==> Equity(start, pnl, k) == level
  }

  /** And as long as equity knows a single positive level, dips or not, they agree. */
  lemma OneLevelAgrees(start: real, pnl: seq<real>, n: nat, dd: real, level: real)
    requires n <= |pnl| && LargestFromPeak(start, pnl, n, dd)
    requires OneLevel(start, pnl, n, level)
    ensures BoundsAllPairs(start, pnl, n, dd)
  {
    forall j | 0 <= j <= n && Equity(start, pnl, j) < 0.0 && Lowest(start, pnl, j).Some?
      ensures Drop(Lowest(start, pnl, j).value, Equity(start, pnl, j)) <= dd
    {
      LowestIsLowest(start, pnl, j);
      PeakIsHighest(start, pnl, j);
      assert Peak(start, pnl, j) == level == Lowest(start, pnl, j).value;
    }
    BoundsAllPairsIff(start, pnl, n, dd);
  }

  /** The first trade that takes equity below zero separates the two forms, unless equity had known
      no other positive level than its peak. */
  lemma FirstDipSeparates(start: real, pnl: seq<real>, n: nat, dd: real)
    requires 1 <= n <= |pnl| && LargestFromPeak(start, pnl, n, dd)
    requires forall k :: 0 <= k < n ==> Equity(start, pnl, k) >= 0.0
    requires Equity(start, pnl, n) < 0.0
    ensures BoundsAllPairs(start, pnl, n, dd) <==> OneLevel(start, pnl, n, Peak(start, pnl, n))
  {
    if OneLevel(start, pnl, n, Peak(start, pnl, n)) {
      OneLevelAgrees(start, pnl, n, dd, Peak(start, pnl, n));
    } else {
      OtherLevelBefore(start, pnl, n);
      SeparatedForGood(start, pnl, n, n, dd);
    }
  }

  lemma OtherLevelBefore(start: real, pnl: seq<real>, n: nat)
    requires n <= |pnl| && Equity(start, pnl, n) < 0.0 && !OneLevel(start, pnl, n, Peak(start, pnl, n))
    ensures exists i :: 0 <= i < n && 0.0 < Equity(start, pnl, i) < Peak(start, pnl, n)
  {
    PeakIsHighest(start, pnl, n);
    var i :| 0 <= i <= n && Equity(start, pnl, i) > 0.0 && Equity(start, pnl, i) != Peak(start, pnl, n);
    assert i < n;
  }
}

/** src/backtest/engine.py and src/backtest/validator.py: running a strategy over a period, its
    metrics, and the walk-forward check that splits the period in two. Instants are microseconds. What
    a minute offers (synthetic ticks, gate, features, scores) is a function of the minute. */
module Backtest {
  import opened Common

  const MINUTE := 60_000_000

  datatype Score = Score(token: string, minute: int, conviction: real)

  datatype Trade = Trade(score: Score, net: real, cost: real)

  type Market = int -> seq<Score>

  /** What a score trades for, given the configuration without period and threshold. */
  type Settlement = Score -> Trade

  datatype Result<T> = Ok(value: T) | Err(message: string)

  // ----- The minutes of a period -----

  function Minute(at: int): int { at / MINUTE }

  /** All minutes from `from` to `to`, both included. */
  function Minutes(from: int, to: int): (m: seq<int>)
    ensures |m| == MaxInt(0, to - from + 1) && forall i :: 0 <= i < |m| ==> m[i] == from + i
  {
    seq(MaxInt(0, to - from + 1), i => from + i)
  }

  method IterMinutes(start: int, end: int) returns (points: seq<int>)
    ensures points == Minutes(Minute(start), Minute(end))
  {
    var cursor, stop := Minute(start), Minute(end);
    points := [];
    while cursor <= stop
      invariant cursor == Minute(start) + |points| && points == Minutes(Minute(start), cursor - 1)
      invariant |points| > 0 ==> cursor - 1 <= stop
      decreases stop - cursor
    {
      points := points + [cursor];
      cursor := cursor + 1;
    }
  }

  // ----- The trades of a run -----

  function Traded(scores: seq<Score>, threshold: real, settle: Settlement): seq<Trade>
    decreases scores
  {
    if scores == [] then []
    else (if scores[0].conviction >= threshold then [settle(scores[0])] else []) + Traded(scores[1..], threshold, settle)
  }

  function TradesOf(minutes: seq<int>, market: Market, threshold: real, settle: Settlement): seq<Trade>
    decreases minutes
  {
    if minutes == [] then []
    else Traded(market(minutes[0]), threshold, settle) + TradesOf(minutes[1..], market, threshold, settle)
  }

  lemma {:induction false} TradedConcat(a: seq<Score>, b: seq<Score>, threshold: real, settle: Settlement)
    ensures Traded(a + b, threshold, settle) == Traded(a, threshold, settle) + Traded(b, threshold, settle)
    decreases a
  {
    if a == [] {
      assert a + b == b;
    } else {
      assert (a + b)[1..] == a[1..] + b;
      TradedConcat(a[1..], b, threshold, settle);
      var head, first, second := if a[0].conviction >= threshold then [settle(a[0])] else [], Traded(a[1..], threshold, settle), Traded(b, threshold, settle);
      assert Traded(a + b, threshold, settle) == head + (first + second) == (head + first) + second;
    }
  }

  lemma {:induction false} TradesConcat(a: seq<int>, b: seq<int>, market: Market, threshold: real, settle: Settlement)
    ensures TradesOf(a + b, market, threshold, settle)
            == TradesOf(a, market, threshold, settle) + TradesOf(b, market, threshold, settle)
    decreases a
  {
    if a == [] {
      assert a + b == b;
    } else {
      assert (a + b)[1..] == a[1..] + b;
      TradesConcat(a[1..], b, market, threshold, settle);
      var head, first, second := Traded(market(a[0]), threshold, settle), TradesOf(a[1..], market, threshold, settle), TradesOf(b, market, threshold, settle);
      assert TradesOf(a + b, market, threshold, settle) == head + (first + second) == (head + first) + second;
    }
  }

  method Run(start: int, end: int, market: Market, threshold: real, settle: Settlement) returns (r: Result<seq<Trade>>)
    ensures r == if end < start then Err("period_end must be greater than or equal to period_start")
                 else Ok(TradesOf(Minutes(Minute(start), Minute(end)), market, threshold, settle))
  {
    if end < start {
      return Err("period_end must be greater than or equal to period_start");
    }
    var minutes := IterMinutes(start, end);
    var trades := [];
    var i := 0;
    while i < |minutes|
      invariant 0 <= i <= |minutes| && trades == TradesOf(minutes[..i], market, threshold, settle)
    {
      trades := TradeMinute(market(minutes[i]), threshold, settle, trades);
      assert minutes[..i + 1] == minutes[..i] + [minutes[i]];
      TradesConcat(minutes[..i], [minutes[i]], market, threshold, settle);
      assert TradesOf([minutes[i]], market, threshold, settle) == Traded(market(minutes[i]), threshold, settle);
      i := i + 1;
    }
    assert minutes[..i] == minutes;
    return Ok(trades);
  }

  method TradeMinute(scores: seq<Score>, threshold: real, settle: Settlement, before: seq<Trade>) returns (trades: seq<Trade>)
    ensures trades == before + Traded(scores, threshold, settle)
  {
    trades := before;
    var j := 0;
    while j < |scores|
      invariant 0 <= j <= |scores| && trades == before + Traded(scores[..j], threshold, settle)
    {
      assert scores[..j + 1] == scores[..j] + [scores[j]];
      TradedConcat(scores[..j], [scores[j]], threshold, settle);
      assert Traded([scores[j]], threshold, settle) == if scores[j].conviction >= threshold then [settle(scores[j])] else [];
      if scores[j].conviction >= threshold {
        trades := trades + [settle(scores[j])];
      }
      j := j + 1;
    }
    assert scores[..j] == scores;
  }

  // ----- Walking forward -----

  /** Half a time span, rounded to the microsecond, ties to even. */
  function Half(span: int): (half: int)
    ensures -1 <= 2 * half - span <= 1 && (span % 2 == 1 ==> half % 2 == 0)
  {
    var q := span / 2;
    if span % 2 == 0 || q % 2 == 0 then q else q + 1
  }

  function SplitPoint(start: int, end: int): int { start + Half(end - start) }

  function Windows(start: int, end: int): seq<(int, int)>
  {
    [(start, SplitPoint(start, end)), (SplitPoint(start, end) + MINUTE, end)]
  }

  function MinutesOf(window: (int, int)): seq<int> { Minutes(Minute(window.0), Minute(window.1)) }

  /** Every period longer than two minutes is split in the middle into two windows, neither of them reversed.
      Their minutes are exactly the minutes of the period, none skipped and none twice; so at one threshold
      the trades of the period are those of the first window and then those of the second. */
  lemma WindowsPartition(start: int, end: int, market: Market, threshold: real, settle: Settlement)
    requires end - start > 2 * MINUTE
    ensures var windows, all := Windows(start, end), Minutes(Minute(start), Minute(end));
      && |windows| == 2 && windows[0].0 == start && windows[1].1 == end
      && windows[0].0 <= windows[0].1 && windows[1].0 <= windows[1].1
      && -1 <= (windows[0].1 - start) - (end - windows[0].1) <= 1
      && MinutesOf(windows[0]) + MinutesOf(windows[1]) == all
      && TradesOf(all, market, threshold, settle)
         == TradesOf(MinutesOf(windows[0]), market, threshold, settle) + TradesOf(MinutesOf(windows[1]), market, threshold, settle)
  {
    SplitFacts(start, end);
    var windows := Windows(start, end);
    assert MinutesOf(windows[0]) + MinutesOf(windows[1]) == Minutes(Minute(start), Minute(end));
    TradesConcat(MinutesOf(windows[0]), MinutesOf(windows[1]), market, threshold, settle);
  }

  lemma SplitFacts(start: int, end: int)
    requires end - start > 2 * MINUTE
    ensures var split := SplitPoint(start, end);
      && start <= split && split + MINUTE <= end && -1 <= (split - start) - (end - split) <= 1
      && Minute(start) <= Minute(split) && Minute(split + MINUTE) == Minute(split) + 1 <= Minute(end)
  {
  }

  function AtLeast(trades: seq<Trade>, threshold: real): seq<Trade>
    decreases trades
  {
    if trades == [] then []
    else (if trades[0].score.conviction >= threshold then [trades[0]] else []) + AtLeast(trades[1..], threshold)
  }

  lemma {:induction false} AtLeastConcat(a: seq<Trade>, b: seq<Trade>, threshold: real)
    ensures AtLeast(a + b, threshold) == AtLeast(a, threshold) + AtLeast(b, threshold)
    decreases a
  {
    if a == [] {
      assert a + b == b;
    } else {
      assert (a + b)[1..] == a[1..] + b;
      AtLeastConcat(a[1..], b, threshold);
      var head, first, second := if a[0].score.conviction >= threshold then [a[0]] else [], AtLeast(a[1..], threshold), AtLeast(b, threshold);
      assert AtLeast(a + b, threshold) == head + (first + second) == (head + first) + second;
    }
  }

  lemma {:induction false} TradedFilters(scores: seq<Score>, low: real, high: real, settle: Settlement)
    requires low <= high && forall s :: settle(s).score == s
    ensures Traded(scores, high, settle) == AtLeast(Traded(scores, low, settle), high)
    decreases scores
  {
    if scores != [] {
      TradedFilters(scores[1..], low, high, settle);
      var rest, t := Traded(scores[1..], low, settle), settle(scores[0]);
      assert t.score == scores[0];
      assert [] + rest == rest && [] + AtLeast(rest, high) == AtLeast(rest, high);
      if scores[0].conviction >= low {
        assert ([t] + rest)[1..] == rest;
      }
    }
  }

  /** Raising the threshold keeps exactly the trades whose conviction reaches it, in their order. */
  lemma {:induction false} RaisedThresholdFilters(minutes: seq<int>, market: Market, low: real, high: real, settle: Settlement)
    requires low <= high && forall s :: settle(s).score == s
    ensures TradesOf(minutes, market, high, settle) == AtLeast(TradesOf(minutes, market, low, settle), high)
    decreases minutes
  {
    if minutes != [] {
      TradedFilters(market(minutes[0]), low, high, settle);
      RaisedThresholdFilters(minutes[1..], market, low, high, settle);
      AtLeastConcat(Traded(market(minutes[0]), low, settle), TradesOf(minutes[1..], market, low, settle), high);
    }
  }

  /** The second threshold the walk-forward check tries. */
  function Variant(threshold: real): real { MinReal(95.0, threshold + 2.0) }

  /** It is the stricter one only up to 95, by two points if that leaves it there: beyond, the check compares
      with a laxer run. */
  lemma VariantFilters(minutes: seq<int>, market: Market, threshold: real, settle: Settlement)
    requires forall s :: settle(s).score == s
    ensures Variant(threshold) == if threshold <= 93.0 then threshold + 2.0 else 95.0
    ensures threshold <= 95.0 ==>
              TradesOf(minutes, market, Variant(threshold), settle)
              == AtLeast(TradesOf(minutes, market, threshold, settle), Variant(threshold))
    ensures threshold > 95.0 ==>
              TradesOf(minutes, market, threshold, settle)
              == AtLeast(TradesOf(minutes, market, Variant(threshold), settle), threshold)
  {
    if threshold <= 95.0 {
      RaisedThresholdFilters(minutes, market, threshold, Variant(threshold), settle);
    } else {
      RaisedThresholdFilters(minutes, market, Variant(threshold), threshold, settle);
    }
  }

  // ----- Metrics -----

  function Nets(trades: seq<Trade>): seq<real> { seq(|trades|, i requires 0 <= i < |trades| => trades[i].net) }

  function Wins(net: seq<real>): seq<real>
    decreases net
  {
    if net == [] then [] else (if net[0] > 0.0 then [net[0]] else []) + Wins(net[1..])
  }

  function Losses(net: seq<real>): seq<real>
    decreases net
  {
    if net == [] then [] else (if net[0] <= 0.0 then [net[0]] else []) + Losses(net[1..])
  }

  datatype Metrics = Metrics(tradeCount: nat, winCount: nat, loseCount: nat, winRate: real, netPnl: real,
                             grossProfit: real, grossLoss: real, pf: real, expectancy: real)

  function Abs(x: real): real { if x < 0.0 then -x else x }

  function BuildMetrics(net: seq<real>): Metrics
  {
    if net == [] then Metrics(0, 0, 0, 0.0, 0.0, 0.0, 0.0, 0.0, 0.0)
    else
      var wins, losses := Wins(net), Losses(net);
      var profit, loss := Sum(wins), Abs(Sum(losses));
      Metrics(|net|, |wins|, |losses|, |wins| as real / |net| as real, Sum(net), profit, loss,
              if loss > 0.0 then profit / loss else 99.0,
              Expectancy(|wins| as real, |losses| as real, |net| as real, profit, loss))
  }

  /** The win rate times the average win, less the rest times the average loss. */
  function Expectancy(wins: real, losses: real, trades: real, profit: real, loss: real): real
    requires trades > 0.0
  {
    var winRate := wins / trades;
    var avgWin := if wins > 0.0 then profit / wins else 0.0;
    var avgLoss := if losses > 0.0 then loss / losses else 0.0;
    winRate * avgWin - (1.0 - winRate) * avgLoss
  }

  lemma {:induction false} WinsAndLosses(net: seq<real>)
    ensures |Wins(net)| + |Losses(net)| == |net|
    ensures Sum(Wins(net)) + Sum(Losses(net)) == Sum(net)
    ensures Sum(Wins(net)) >= 0.0 && Sum(Losses(net)) <= 0.0
    ensures Wins(net) != [] ==> Sum(Wins(net)) > 0.0
    decreases net
  {
    if net != [] {
      var wins, losses := Wins(net[1..]), Losses(net[1..]);
      WinsAndLosses(net[1..]);
      assert [] + wins == wins && [] + losses == losses;
      assert ([net[0]] + wins)[1..] == wins && ([net[0]] + losses)[1..] == losses;
    }
  }

  /** A fraction of the trades times its average is its share per trade. */
  lemma Share(part: real, whole: real, total: real)
    requires part > 0.0 && whole > 0.0
    ensures part / whole * (total / part) == total / whole
  {
    var x, y := part / whole, total / part;
    assert x * whole == part && y * part == total;
    assert (x * y) * whole == (x * whole) * y;
    QuotientOf(total, x * y, whole);
  }

  lemma WeighedAverages(w: real, l: real, n: real, profit: real, loss: real)
    requires w >= 0.0 && l >= 0.0 && w + l == n && n > 0.0
    requires (w == 0.0 ==> profit == 0.0) && (l == 0.0 ==> loss == 0.0)
    ensures Expectancy(w, l, n, profit, loss) == (profit - loss) / n
  {
    var x := w / n;
    assert x * n == w;
    assert (1.0 - x) * n == l;
    QuotientOf(l, 1.0 - x, n);
    if w > 0.0 { Share(w, n, profit); }
    if l > 0.0 { Share(l, n, loss); }
    var won, lost := profit / n, loss / n;
    assert won * n == profit && lost * n == loss;
    assert (won - lost) * n == profit - loss;
    QuotientOf(profit - loss, won - lost, n);
  }

  lemma ExpectancyIsMean(net: seq<real>, w: real, l: real, n: real, profit: real, loss: real)
    requires net != [] && w == |Wins(net)| as real && l == |Losses(net)| as real && n == |net| as real
    requires profit == Sum(Wins(net)) && loss == Abs(Sum(Losses(net)))
    ensures Expectancy(w, l, n, profit, loss) == (profit - loss) / n
  {
    WinsAndLosses(net);
    NoneNothing(net);
    WeighedAverages(w, l, n, profit, loss);
  }

  /** What each trade won, if it did. */
  function Gains(net: seq<real>): seq<real> { seq(|net|, i requires 0 <= i < |net| => MaxReal(0.0, net[i])) }

  ghost function Winners(net: seq<real>): set<int> { set i | 0 <= i < |net| && net[i] > 0.0 }

  lemma {:induction false} GrossIsGains(net: seq<real>)
    ensures Sum(Wins(net)) == Sum(Gains(net))
    decreases net
  {
    if net != [] {
      GrossIsGains(net[1..]);
      assert Gains(net)[1..] == Gains(net[1..]);
      assert ([net[0]] + Wins(net[1..]))[1..] == Wins(net[1..]) && [] + Wins(net[1..]) == Wins(net[1..]);
    }
  }

  lemma {:induction false} WinsSnoc(net: seq<real>, x: real)
    ensures Wins(net + [x]) == Wins(net) + if x > 0.0 then [x] else []
    decreases net
  {
    if net != [] {
      assert (net + [x])[1..] == net[1..] + [x];
      WinsSnoc(net[1..], x);
    }
  }

  lemma {:induction false} WinsCounted(net: seq<real>)
    ensures |Wins(net)| == |Winners(net)|
    decreases net
  {
    if net != [] {
      var n := |net| - 1;
      WinsCounted(net[..n]);
      WinsSnoc(net[..n], net[n]);
      assert net == net[..n] + [net[n]];
      OneMoreWinner(net[..n], net[n]);
    }
  }

  lemma OneMoreWinner(net: seq<real>, x: real)
    ensures |Winners(net + [x])| == |Winners(net)| + if x > 0.0 then 1 else 0
  {
    var all := net + [x];
    assert Winners(all) == Winners(net) + if x > 0.0 then {|net|} else {};
  }

  /** Exactly the trades with a positive result are wins; their share is the win rate, and what they made the
      gross profit. */
  lemma WinsAre(net: seq<real>)
    ensures var m := BuildMetrics(net);
      && m.winCount == |Winners(net)| && IsShare(m.winRate, |net| as real, m.winCount as real)
      && m.grossProfit == Sum(Gains(net))
  {
    WinsCounted(net);
    GrossIsGains(net);
    if net == [] {
      assert Winners(net) == {} && Gains(net) == [];
    } else {
      RateOf(|Wins(net)| as real, |net| as real, BuildMetrics(net).winRate);
    }
  }

  /** What was won and what was lost add up to the net result, and the counts add up. */
  lemma TotalsAddUp(net: seq<real>)
    ensures BuildMetrics(net).grossProfit - BuildMetrics(net).grossLoss == BuildMetrics(net).netPnl
    ensures BuildMetrics(net).winCount + BuildMetrics(net).loseCount == BuildMetrics(net).tradeCount == |net|
    ensures BuildMetrics(net).netPnl == Sum(net)
  {
    WinsAndLosses(net);
  }

  /** The expectancy is the net result per trade. */
  lemma ExpectancyPerTrade(net: seq<real>)
    requires net != []
    ensures BuildMetrics(net).expectancy == BuildMetrics(net).netPnl / |net| as real
  {
    ExpectancyIsMean(net, |Wins(net)| as real, |Losses(net)| as real, |net| as real, Sum(Wins(net)), Abs(Sum(Losses(net))));
    TotalsAddUp(net);
  }

  lemma NoneNothing(net: seq<real>)
    ensures Wins(net) == [] ==> Sum(Wins(net)) == 0.0
    ensures Losses(net) == [] ==> Sum(Losses(net)) == 0.0
  {
  }

  lemma Ratio(profit: real, loss: real)
    requires profit >= 0.0 && loss > 0.0
    ensures (profit / loss > 1.0 <==> profit - loss > 0.0) && profit / loss * loss == profit
  {
    assert profit / loss * loss == profit;
    CancelFactor(profit / loss, 1.0, loss);
  }

  /** A profit factor above one means a profit, and the other way round, unless there were trades
      and not one of them won or lost anything: then it is reported as 99. */
  lemma ProfitFactorIff(net: seq<real>)
    ensures var m := BuildMetrics(net);
      && ((m.pf > 1.0 <==> m.netPnl > 0.0) <==> !(m.tradeCount > 0 && m.grossProfit == 0.0 && m.grossLoss == 0.0))
      && (if m.grossLoss > 0.0 then m.pf * m.grossLoss == m.grossProfit else m.pf == if net == [] then 0.0 else 99.0)
  {
    WinsAndLosses(net);
    var profit, loss := Sum(Wins(net)), Abs(Sum(Losses(net)));
    if loss > 0.0 {
      Ratio(profit, loss);
    }
  }

  // ----- The gate -----

  function MinOf(s: seq<real>): (m: real)
    requires s != []
    ensures m in s && forall x :: x in s ==> m <= x
    decreases s
  {
    if |s| == 1 then s[0]
    else
      assert forall x :: x in s ==> x == s[0] || x in s[1..];
      MinReal(s[0], MinOf(s[1..]))
  }

  function MaxOf(s: seq<real>): (m: real)
    requires s != []
    ensures m in s && forall x :: x in s ==> x <= m
    decreases s
  {
    if |s| == 1 then s[0]
    else
      assert forall x :: x in s ==> x == s[0] || x in s[1..];
      MaxReal(s[0], MaxOf(s[1..]))
  }

  datatype WalkForward = WalkForward(windowCount: nat, pfValues: seq<real>, expectancyValues: seq<real>,
                                     stability: real, passed: bool)

  function Mean(s: seq<real>): real
    requires s != []
  {
    Sum(s) / |s| as real
  }

  function Stability(active: seq<real>): real
    requires active != []
  {
    if MaxOf(active) <= 0.0 then 0.0 else MaxReal(0.0, 1.0 - (MaxOf(active) - MinOf(active)) / MaxOf(active))
  }

  /** What the stability of the profit factors of the active windows is, and what passing its test means. */
  lemma StableIff(active: seq<real>)
    requires active != [] && forall v :: v in active ==> v > 1.0
    ensures IsShare(Stability(active), MaxOf(active), MinOf(active))
    ensures Stability(active) >= 0.4 <==> MinOf(active) >= 0.4 * MaxOf(active)
  {
    assert MaxOf(active) > 1.0;
    Spread(MinOf(active), MaxOf(active));
    Remainder(MinOf(active), MaxOf(active));
  }

  lemma Spread(low: real, high: real)
    requires high > 0.0
    ensures 1.0 - (high - low) / high >= 0.4 <==> low >= 0.4 * high
  {
    var x := (high - low) / high;
    assert x * high == high - low;
    CancelFactor(x, 0.6, high);
  }

  lemma Remainder(low: real, high: real)
    requires 0.0 < low <= high
    ensures 1.0 - (high - low) / high > 0.0 && IsShare(1.0 - (high - low) / high, high, low)
  {
    var x := (high - low) / high;
    assert x * high == high - low;
    assert (1.0 - x) * high == low;
    CancelProducts(0.0, 1.0 - x, high, 0.0, low);
  }

  /** The metrics of one window at one threshold. */
  function WindowMetrics(window: (int, int), market: Market, threshold: real, settle: Settlement): Metrics
  {
    BuildMetrics(Nets(TradesOf(MinutesOf(window), market, threshold, settle)))
  }

  /** The profit factors of the variants that traded at all. */
  function ActivePfs(m: Metrics, v: Metrics): seq<real>
  {
    (if m.tradeCount > 0 then [m.pf] else []) + (if v.tradeCount > 0 then [v.pf] else [])
  }

  function ActiveMeans(ms: seq<(Metrics, Metrics)>): seq<real>
  {
    Gathered(ms, ActiveMean)
  }

  function ActiveMean(m: (Metrics, Metrics)): seq<real>
  {
    var active := ActivePfs(m.0, m.1);
    if active == [] then [] else [Mean(active)]
  }

  /** A window counts with the mean over the thresholds at which it traded, and not at all if it never did. */
  lemma ActiveMeanIs(m: Metrics, v: Metrics)
    ensures ActiveMean((m, v)) ==
            if m.tradeCount > 0 && v.tradeCount > 0 then [(m.pf + v.pf) / 2.0]
            else if m.tradeCount > 0 then [m.pf] else if v.tradeCount > 0 then [v.pf] else []
  {
    SumSnoc([], m.pf);
    SumSnoc([], v.pf);
    SumSnoc([m.pf], v.pf);
    assert [m.pf] + [] == [] + [m.pf] == [m.pf] && [] + [v.pf] == [v.pf];
    assert Mean([m.pf, v.pf]) == (m.pf + v.pf) / 2.0 && Mean([m.pf]) == m.pf && Mean([v.pf]) == v.pf;
  }

  function Gathered<T>(s: seq<T>, f: T -> seq<real>): seq<real>
    decreases s
  {
    if s == [] then [] else f(s[0]) + Gathered(s[1..], f)
  }

  lemma {:induction false} GatheredSnoc<T>(s: seq<T>, x: T, f: T -> seq<real>)
    ensures Gathered(s + [x], f) == Gathered(s, f) + f(x)
    decreases s
  {
    if s == [] {
      assert [] + [x] == [x];
    } else {
      assert (s + [x])[1..] == s[1..] + [x];
      GatheredSnoc(s[1..], x, f);
    }
  }

  /** Each window at both thresholds. */
  function WindowPairs(windows: seq<(int, int)>, market: Market, threshold: real, settle: Settlement): seq<(Metrics, Metrics)>
  {
    seq(|windows|, i requires 0 <= i < |windows| =>
      (WindowMetrics(windows[i], market, threshold, settle), WindowMetrics(windows[i], market, Variant(threshold), settle)))
  }

  /** The first figures of a window are those of its trades, and up to a threshold of 95 the second ones those
      of the trades among them that reach the stricter threshold. */
  lemma PairIs(windows: seq<(int, int)>, market: Market, threshold: real, settle: Settlement, i: nat)
    requires i < |windows| && forall s :: settle(s).score == s
    ensures var pairs := WindowPairs(windows, market, threshold, settle);
      var trades := TradesOf(MinutesOf(windows[i]), market, threshold, settle);
      && |pairs| == |windows| && pairs[i].0 == BuildMetrics(Nets(trades))
      && (threshold <= 95.0 ==> pairs[i].1 == BuildMetrics(Nets(AtLeast(trades, Variant(threshold)))))
  {
    VariantFilters(MinutesOf(windows[i]), market, threshold, settle);
  }

  /** Every window in which some variant traded has a mean profit factor above one, there is such a
      window, and the weakest reaches two fifths of the strongest. */
  ghost predicate Robust(active: seq<real>)
  {
    active != [] && (forall v :: v in active ==> v > 1.0) && MinOf(active) >= 0.4 * MaxOf(active)
  }

  /** The means over both thresholds, window by window. */
  ghost predicate MeansOf(pfValues: seq<real>, expectancyValues: seq<real>, pairs: seq<(Metrics, Metrics)>)
  {
    && |pfValues| == |expectancyValues| == |pairs|
    && forall i :: 0 <= i < |pairs| ==>
         && pfValues[i] == (pairs[i].0.pf + pairs[i].1.pf) / 2.0
         && expectancyValues[i] == (pairs[i].0.expectancy + pairs[i].1.expectancy) / 2.0
  }

  method WalkForwardCheck(start: int, end: int, market: Market, threshold: real, settle: Settlement)
    returns (report: WalkForward)
    ensures report.passed <==>
              end - start > 120_000_000
              && Robust(ActiveMeans(WindowPairs(Windows(start, end), market, threshold, settle)))
    ensures end - start <= 2 * MINUTE ==> report == WalkForward(0, [], [], 0.0, false)
    ensures end - start > 2 * MINUTE ==>
              var pairs := WindowPairs(Windows(start, end), market, threshold, settle);
              && report.windowCount == |pairs| == 2 && MeansOf(report.pfValues, report.expectancyValues, pairs)
              && report.stability == if ActiveMeans(pairs) == [] then 0.0 else Stability(ActiveMeans(pairs))
  {
    if end - start <= 2 * MINUTE {
      return WalkForward(0, [], [], 0.0, false);
    }
    WindowsPartition(start, end, market, threshold, settle);
    var pairs := EvaluateWindows(Windows(start, end), market, threshold, settle);
    var pfValues, expectancyValues, active := Summarise(pairs);
    if active == [] {
      return WalkForward(2, pfValues, expectancyValues, 0.0, false);
    }
    var stability := Stability(active);
    var passed := Decide(active);
    return WalkForward(2, pfValues, expectancyValues, stability, passed);
  }

  /** The runs of the windows, each window at both thresholds. */
  method EvaluateWindows(windows: seq<(int, int)>, market: Market, threshold: real, settle: Settlement)
    returns (pairs: seq<(Metrics, Metrics)>)
    requires forall i :: 0 <= i < |windows| ==> windows[i].0 <= windows[i].1
    ensures pairs == WindowPairs(windows, market, threshold, settle)
  {
    pairs := [];
    var i := 0;
    while i < |windows|
      invariant 0 <= i <= |windows|
      invariant pairs == WindowPairs(windows, market, threshold, settle)[..i]
    {
      var a := VariantMetrics(windows[i], market, threshold, settle);
      var b := VariantMetrics(windows[i], market, Variant(threshold), settle);
      pairs := pairs + [(a, b)];
      i := i + 1;
    }
  }

  /** The figures of the report, one per window, and the profit factors of windows that traded. */
  method Summarise(pairs: seq<(Metrics, Metrics)>)
    returns (pfValues: seq<real>, expectancyValues: seq<real>, active: seq<real>)
    ensures MeansOf(pfValues, expectancyValues, pairs)
    ensures active == ActiveMeans(pairs)
  {
    pfValues, expectancyValues, active := [], [], [];
    var i := 0;
    while i < |pairs|
      invariant 0 <= i <= |pairs| && MeansOf(pfValues, expectancyValues, pairs[..i])
      invariant active == ActiveMeans(pairs[..i])
    {
      var (a, b) := pairs[i];
      pfValues := pfValues + [(a.pf + b.pf) / 2.0];
      expectancyValues := expectancyValues + [(a.expectancy + b.expectancy) / 2.0];
      var traded := ActivePfs(a, b);
      GatheredSnoc(pairs[..i], (a, b), ActiveMean);
      assert pairs[..i + 1] == pairs[..i] + [(a, b)];
      if traded != [] {
        active := active + [Mean(traded)];
      }
      i := i + 1;
    }
    assert pairs[..i] == pairs;
  }

  method Decide(active: seq<real>) returns (passed: bool)
    requires active != []
    ensures passed <==> Robust(active)
  {
    var above := forall v :: v in active ==> v > 1.0;
    if above {
      StableIff(active);
    }
    passed := above && Stability(active) >= 0.4;
  }

  method VariantMetrics(window: (int, int), market: Market, threshold: real, settle: Settlement) returns (m: Metrics)
    requires window.0 <= window.1
    ensures m == WindowMetrics(window, market, threshold, settle)
  {
    var r := Run(window.0, window.1, market, threshold, settle);
    m := BuildMetrics(Nets(r.value));
  }

  // ----- The second gate -----

  function Costs(trades: seq<Trade>): seq<real> { seq(|trades|, i requires 0 <= i < |trades| => trades[i].cost) }

  /** The gate runs the period twice, checks its costs, walks it forward and looks at its metrics. */
  method Check(start: int, end: int, market: Market, threshold: real, settle: Settlement) returns (passed: Result<bool>)
    ensures passed.Err? <==> end < start
    ensures start <= end ==>
              var trades := TradesOf(Minutes(Minute(start), Minute(end)), market, threshold, settle);
              var m := BuildMetrics(Nets(trades));
              passed.value <==>
                && trades != [] && Sum(Costs(trades)) > 0.0 && m.pf > 1.2 && m.netPnl > 0.0
                && end - start > 120_000_000
                && Robust(ActiveMeans(WindowPairs(Windows(start, end), market, threshold, settle)))
  {
    var first := Run(start, end, market, threshold, settle);
    if first.Err? {
      return Err(first.message);
    }
    var second := Run(start, end, market, threshold, settle);
    var trades := first.value;
    var a, b := BuildMetrics(Nets(trades)), BuildMetrics(Nets(second.value));
    var reproducible := Abs(a.netPnl - b.netPnl) <= 0.000000001;
    var costConsistent := a.tradeCount == 0 || Sum(Costs(trades)) > 0.0;
    var walkForward := WalkForwardCheck(start, end, market, threshold, settle);
    ExpectancySign(Nets(trades));
    return Ok(reproducible && costConsistent && walkForward.passed && a.pf > 1.2 && a.expectancy > 0.0);
  }

  lemma ExpectancySign(net: seq<real>)
    ensures BuildMetrics(net).expectancy > 0.0 <==> BuildMetrics(net).netPnl > 0.0
    ensures net == [] ==> BuildMetrics(net).netPnl == 0.0
  {
    if net != [] {
      ExpectancyPerTrade(net);
      PositiveQuotient(BuildMetrics(net).netPnl, |net| as real);
    }
  }

  lemma PositiveQuotient(x: real, w: real)
    requires w > 0.0
    ensures x / w > 0.0 <==> x > 0.0
  {
    assert x / w * w == x;
    CancelFactor(x / w, 0.0, w);
  }
}

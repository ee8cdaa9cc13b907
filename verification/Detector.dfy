/** src/scanner/detector.py: the hard filter, the score of a trending token against its previous
    appearance, and detection with its running histogram. */
module Detector {
  import opened Common

  datatype Token = Token(address: string, symbol: string, volume1m: Option<real>, liquidity: Option<real>,
                         smartDegenCount: Option<int>, rank: int, alsoIn1h: bool)

  datatype Risk = Risk(rugRisk: real, isHoneypot: bool, bundlerRatio: real, ratRatio: real, sniperCount: int,
                       top10HolderPct: real)

  datatype Breakdown = Breakdown(smartMoney: int, rankMomentum: int, volumeQuality: int, volumeAcceleration: int,
                                 structure: int, timeframe: int, riskPenalty: int)

  datatype Scored = Scored(token: Token, score: int, breakdown: Breakdown, risk: Option<Risk>)

  datatype FilterReason = Passed | LowLiquidity | Honeypot | RugRisk | BundlerRat

  datatype Thresholds = Thresholds(minLiquidity: real, maxRugRisk: real, maxBundlerRatRatio: real,
                                   scoreHigh: int, scoreMedium: int, scoreLow: int)

  function HardFilter(t: Thresholds, token: Token, risk: Option<Risk>): FilterReason
  {
    if token.liquidity.Some? && token.liquidity.value < t.minLiquidity then LowLiquidity
    else if risk.None? then Passed
    else if risk.value.isHoneypot then Honeypot
    else if risk.value.rugRisk > t.maxRugRisk then RugRisk
    else if risk.value.bundlerRatio + risk.value.ratRatio > t.maxBundlerRatRatio then BundlerRat
    else Passed
  }

  // ----- The factors -----

  /** Smart money, judged by its growth since the previous snapshot when that is known. */
  function SmartMoney(count: Option<int>, prev: Option<Token>): int
  {
    if count.None? then 0
    else if prev.Some? && prev.value.smartDegenCount.Some? then
      SmartGrowth(count.value, prev.value.smartDegenCount.value)
    else if count.value >= 5 then 15
    else if count.value >= 3 then 10
    else 0
  }

  function SmartGrowth(count: int, before: int): int
  {
    var delta := count - before;
    var base := if delta >= 5 then 30 else if delta >= 3 then 25 else if delta >= 1 then 20 else if count >= 10 then 15 else 0;
    var boosted :=
      if delta > 0 && before > 0 && delta as real / before as real > 0.5 then
        MinInt(30, base + MinInt(5, (delta as real / before as real * 10.0).Floor))
      else base;
    MinInt(30, if count >= 5 && boosted < 10 then 10 else boosted)
  }

  function RankMomentum(rank: int, prev: Option<Token>): int
  {
    if prev.None? then 10
    else
      var change := prev.value.rank - rank;
      if change >= 40 then 25 else if change >= 20 then 20 else if change >= 10 then 15
      else if change >= 5 then 10 else if change > 0 then 5 else 0
  }

  /** Python takes a missing and a zero figure alike. */
  predicate Given(x: Option<real>) { x.Some? && x.value != 0.0 }

  function VolumeQuality(volume: Option<real>, liquidity: Option<real>): int
  {
    if Given(volume) && Given(liquidity) && liquidity.value > 0.0 then
      var ratio := volume.value / liquidity.value;
      if 0.5 <= ratio <= 5.0 then 15 else if 0.1 <= ratio <= 10.0 then 10 else 5
    else if Given(volume) && volume.value > 0.0 then 5
    else 0
  }

  function VolumeAcceleration(volume: Option<real>, prev: Option<Token>): int
  {
    if prev.Some? && Given(volume) && Given(prev.value.volume1m) && prev.value.volume1m.value > 0.0 then
      var accel := volume.value / prev.value.volume1m.value;
      if accel > 3.0 then 15 else if accel > 2.0 then 10 else if accel > 1.5 then 5 else 0
    else 0
  }

  function Structure(risk: Option<Risk>): int
  {
    if risk.None? then 10
    else
      var r := risk.value;
      MinInt(15, 10 + (if r.bundlerRatio < 0.2 then 3 else 0) + (if r.ratRatio < 0.2 then 2 else 0)
                    + (if r.top10HolderPct < 0.5 then 3 else 0) + (if r.sniperCount < 5 then 2 else 0))
  }

  function RiskPenalty(token: Token, risk: Option<Risk>): int
  {
    var fromRisk :=
      if risk.None? then 0
      else if risk.value.isHoneypot then -10
      else if risk.value.rugRisk > 0.7 then -10 else if risk.value.rugRisk > 0.5 then -5 else 0;
    if token.smartDegenCount == Some(0) && token.volume1m.Some? && token.volume1m.value > 100_000.0 then
      MinInt(fromRisk, -10)
    else fromRisk
  }

  function BreakdownOf(token: Token, prev: Option<Token>, risk: Option<Risk>): Breakdown
  {
    Breakdown(SmartMoney(token.smartDegenCount, prev), RankMomentum(token.rank, prev),
              VolumeQuality(token.volume1m, token.liquidity), VolumeAcceleration(token.volume1m, prev),
              Structure(risk), if token.alsoIn1h then 10 else 0, RiskPenalty(token, risk))
  }

  function RawTotal(b: Breakdown): int
  {
    b.smartMoney + b.rankMomentum + b.volumeQuality + b.volumeAcceleration + b.structure + b.timeframe + b.riskPenalty
  }

  function Score(token: Token, prev: Option<Token>, risk: Option<Risk>): Scored
  {
    var b := BreakdownOf(token, prev, risk);
    Scored(token, MaxInt(0, MinInt(100, RawTotal(b))), b, risk)
  }

  /** Every factor respects its cap, so the total lies in 0..100; only the upper clamp ever acts. */
  lemma FactorsCapped(token: Token, prev: Option<Token>, risk: Option<Risk>)
    ensures var s := Score(token, prev, risk); var b := s.breakdown;
      && 0 <= b.smartMoney <= 30 && 0 <= b.rankMomentum <= 25 && 0 <= b.volumeQuality <= 15
      && 0 <= b.volumeAcceleration <= 15 && 10 <= b.structure <= 15 && 0 <= b.timeframe <= 10 && -10 <= b.riskPenalty <= 0
      && 0 <= s.score <= 100
      && s.score == MinInt(100, b.smartMoney + b.rankMomentum + b.volumeQuality + b.volumeAcceleration + b.structure
                                + b.timeframe + b.riskPenalty)
  {
    if token.smartDegenCount.Some? && prev.Some? && prev.value.smartDegenCount.Some? {
      GrowthRange(token.smartDegenCount.value, prev.value.smartDegenCount.value);
    }
  }

  lemma GrowthRange(count: int, before: int)
    ensures 0 <= SmartGrowth(count, before) <= 30
  {
    if count > before > 0 && (count - before) as real / before as real > 0.5 {
      BoostIsFive(count - before, before);
    }
  }

  /** The proportional boost is all or nothing: beyond half, a tenth of the ratio already reaches five. */
  lemma BoostIsFive(delta: int, before: int)
    requires delta > 0 && before > 0 && delta as real / before as real > 0.5
    ensures MinInt(5, (delta as real / before as real * 10.0).Floor) == 5
  {
    var x := delta as real / before as real * 10.0;
    assert x > 5.0;
    assert x.Floor >= 5;
  }

  /** What smart money is worth against the previous snapshot, in whole numbers alone: the boost counts exactly
      when the count grew by more than half. Without a previous count only the count itself tells. */
  lemma SmartMoneySteps(token: Token, prev: Option<Token>, risk: Option<Risk>, count: int)
    requires token.smartDegenCount == Some(count)
    ensures var points := BreakdownOf(token, prev, risk).smartMoney;
      if prev.None? || prev.value.smartDegenCount.None? then
        points in {0, 10, 15} && (points >= 10 <==> count >= 3) && (points == 15 <==> count >= 5)
      else
        var before := prev.value.smartDegenCount.value;
        var delta, boosted := count - before, before > 0 && 2 * (count - before) > before;
        if delta > 0 then
          && points in {20, 25, 30}
          && (points >= 25 <==> delta >= 3 || boosted) && (points == 30 <==> delta >= 5 || (delta >= 3 && boosted))
        else
          points in {0, 10, 15} && (points >= 10 <==> count >= 5) && (points == 15 <==> count >= 10)
  {
    if prev.Some? && prev.value.smartDegenCount.Some? {
      var before := prev.value.smartDegenCount.value;
      var delta := count - before;
      if delta > 0 && before > 0 {
        HalfIff(delta, before);
        if 2 * delta > before { BoostIsFive(delta, before); }
      }
    }
  }

  lemma HalfIff(delta: int, before: int)
    requires before > 0
    ensures delta as real / before as real > 0.5 <==> 2 * delta > before
  {
    var x, w := delta as real / before as real, before as real;
    assert x * w == delta as real;
    CancelFactor(x, 0.5, w);
  }

  /** The steps of the rank factor: five points each for a gain of 1, 5, 10, 20 and 40 places; and the hourly
      bonus. */
  lemma RankSteps(token: Token, prev: Option<Token>, risk: Option<Risk>)
    ensures var points := BreakdownOf(token, prev, risk).rankMomentum;
      if prev.None? then points == 10
      else
        var gain := prev.value.rank - token.rank;
        && 0 <= points <= 25 && points % 5 == 0
        && (points >= 5 <==> gain >= 1) && (points >= 10 <==> gain >= 5) && (points >= 15 <==> gain >= 10)
        && (points >= 20 <==> gain >= 20) && (points >= 25 <==> gain >= 40)
    ensures BreakdownOf(token, prev, risk).timeframe == if token.alsoIn1h then 10 else 0
  {
  }

  /** The steps of the two volume factors, with no division: volume against liquidity, ... */
  lemma QualitySteps(token: Token, prev: Option<Token>, risk: Option<Risk>, volume: real)
    requires token.volume1m == Some(volume)
    ensures var points := BreakdownOf(token, prev, risk).volumeQuality;
      if volume != 0.0 && token.liquidity.Some? && token.liquidity.value > 0.0 then
        var liquidity := token.liquidity.value;
        && points in {5, 10, 15}
        && (points == 15 <==> liquidity <= 2.0 * volume && volume <= 5.0 * liquidity)
        && (points >= 10 <==> liquidity <= 10.0 * volume && volume <= 10.0 * liquidity)
      else points == if volume > 0.0 then 5 else 0
  {
    if token.liquidity.Some? && token.liquidity.value > 0.0 {
      RatioIs(volume, token.liquidity.value, 0.5);
      RatioIs(volume, token.liquidity.value, 5.0);
      RatioIs(volume, token.liquidity.value, 0.1);
      RatioIs(volume, token.liquidity.value, 10.0);
    }
  }

  /** ... and against the volume of the previous snapshot. */
  lemma AccelerationSteps(token: Token, before: Token, risk: Option<Risk>, volume: real, earlier: real)
    requires token.volume1m == Some(volume) && volume != 0.0 && before.volume1m == Some(earlier) && earlier > 0.0
    ensures var points := BreakdownOf(token, Some(before), risk).volumeAcceleration;
      && points in {0, 5, 10, 15}
      && (points >= 5 <==> 2.0 * volume > 3.0 * earlier) && (points >= 10 <==> volume > 2.0 * earlier)
      && (points >= 15 <==> volume > 3.0 * earlier)
    ensures BreakdownOf(token, None, risk).volumeAcceleration == 0
  {
    RatioIs(volume, earlier, 1.5);
    RatioIs(volume, earlier, 2.0);
    RatioIs(volume, earlier, 3.0);
  }

  lemma RatioIs(x: real, w: real, q: real)
    requires w > 0.0
    ensures (x / w <= q <==> x <= q * w) && (x / w >= q <==> x >= q * w)
  {
    assert x / w * w == x;
    CancelFactor(x / w, q, w);
    CancelFactor(q, x / w, w);
  }

  /** The structure factor is full exactly for two good marks of which one is a heavy one; the penalty is full
      for a honeypot, for a high rug risk, and for volume without any smart money. */
  lemma StructureSteps(token: Token, prev: Option<Token>, risk: Risk)
    ensures var heavy := (if risk.bundlerRatio < 0.2 then 1 else 0) + (if risk.top10HolderPct < 0.5 then 1 else 0);
      var light := (if risk.ratRatio < 0.2 then 1 else 0) + (if risk.sniperCount < 5 then 1 else 0);
      BreakdownOf(token, prev, Some(risk)).structure == if heavy >= 1 && heavy + light >= 2 then 15 else 10 + 3 * heavy + 2 * light
    ensures var unbacked := token.smartDegenCount == Some(0) && token.volume1m.Some? && token.volume1m.value > 100_000.0;
      var penalty := BreakdownOf(token, prev, Some(risk)).riskPenalty;
      && penalty in {-10, -5, 0} && (penalty == -10 <==> risk.isHoneypot || risk.rugRisk > 0.7 || unbacked)
      && (penalty == 0 <==> !risk.isHoneypot && risk.rugRisk <= 0.5 && !unbacked)
      && BreakdownOf(token, prev, None).riskPenalty == (if unbacked then -10 else 0)
      && BreakdownOf(token, prev, None).structure == 10
  {
  }

  lemma RatioGrows(a: int, b: int, before: int)
    requires before > 0 && a <= b
    ensures a as real / before as real <= b as real / before as real
  {
    var x, y, w := a as real / before as real, b as real / before as real, before as real;
    assert x * w == a as real && y * w == b as real;
    CancelFactor(x, y, w);
  }

  lemma GrowthMonotone(count: int, more: int, before: int)
    requires count <= more
    ensures SmartGrowth(count, before) <= SmartGrowth(more, before)
  {
    GrowthRange(count, before);
    GrowthRange(more, before);
    var d, e := count - before, more - before;
    if before > 0 && d > 0 {
      RatioGrows(d, e, before);
      if d as real / before as real > 0.5 { BoostIsFive(d, before); }
      if e as real / before as real > 0.5 { BoostIsFive(e, before); }
    } else if before > 0 && e > 0 {
      if e as real / before as real > 0.5 { BoostIsFive(e, before); }
    }
  }

  /** Raising a token's smart-money count from `count` to `more` does not lower its score. */
  predicate NoLower(count: int, more: int, token: Token, prev: Option<Token>, risk: Option<Risk>)
  {
    Score(token.(smartDegenCount := Some(count)), prev, risk).score <= Score(token.(smartDegenCount := Some(more)), prev, risk).score
  }

  /** More smart money never lowers a score, whatever else the token, its past and its risk are: across
      the growth steps, the boost, the floor and the penalty for having none. The one exception is a
      count that rises from a negative figure to exactly zero, and that one is real. */
  lemma MoreSmartMoneyNeverHurtsIff(count: int, more: int)
    requires count <= more
    ensures (forall token, prev, risk :: NoLower(count, more, token, prev, risk)) <==> !(count < 0 && more == 0)
  {
    if count < 0 && more == 0 {
      assert !NoLower(count, more, Token("a", "A", Some(200_000.0), Some(100_000.0), None, 5, false), None, None);
    } else {
      forall token, prev: Option<Token>, risk ensures NoLower(count, more, token, prev, risk) {
        if prev.Some? && prev.value.smartDegenCount.Some? {
          GrowthMonotone(count, more, prev.value.smartDegenCount.value);
        }
      }
    }
  }

  /** A better rank never lowers the score, all else equal. */
  lemma BetterRankNeverHurts(token: Token, better: Token, prev: Option<Token>, risk: Option<Risk>)
    requires better == token.(rank := better.rank) && better.rank <= token.rank
    ensures Score(token, prev, risk).score <= Score(better, prev, risk).score
  {
  }

  // ----- Detection -----

  datatype Level = High | Medium | Observe

  datatype Signal = Signal(scored: Scored, level: Level)

  function LevelOf(t: Thresholds, score: int): Option<Level>
  {
    if score >= t.scoreHigh then Some(High)
    else if score >= t.scoreMedium then Some(Medium)
    else if score >= t.scoreLow then Some(Observe)
    else None
  }

  ghost predicate LastIndex(tokens: seq<Token>, address: string, i: int)
  {
    0 <= i < |tokens| && tokens[i].address == address && forall j :: i < j < |tokens| ==> tokens[j].address != address
  }

  /** A dictionary built from a list keeps the last token of an address. */
  function LastWith(tokens: seq<Token>, address: string): (last: Option<Token>)
    ensures last.None? ==> forall token <- tokens :: token.address != address
    ensures last.Some? ==> exists i :: 0 <= i < |tokens| && tokens[i] == last.value && LastIndex(tokens, address, i)
    decreases tokens
  {
    if tokens == [] then None
    else if tokens[|tokens| - 1].address == address then Some(tokens[|tokens| - 1])
    else LastWith(tokens[..|tokens| - 1], address)
  }

  type Risks = map<string, Risk>

  function RiskOf(risks: Risks, address: string): Option<Risk> { if address in risks then Some(risks[address]) else None }

  /** The signal one token of the snapshot gives rise to, if any. */
  function SignalOf(t: Thresholds, prev: seq<Token>, risks: Risks, token: Token): Option<Signal>
  {
    var risk := RiskOf(risks, token.address);
    var scored := Score(token, LastWith(prev, token.address), risk);
    if HardFilter(t, token, risk) != Passed || LevelOf(t, scored.score).None? then None
    else Some(Signal(scored, LevelOf(t, scored.score).value))
  }

  function Signaller(t: Thresholds, prev: seq<Token>, risks: Risks): Token -> Option<Signal>
  {
    (token: Token) => SignalOf(t, prev, risks, token)
  }

  function Gather(tokens: seq<Token>, signal: Token -> Option<Signal>): seq<Signal>
    decreases tokens
  {
    if tokens == [] then []
    else
      Gather(tokens[..|tokens| - 1], signal) + var s := signal(tokens[|tokens| - 1]); if s.Some? then [s.value] else []
  }

  function Signals(t: Thresholds, prev: seq<Token>, risks: Risks, tokens: seq<Token>): seq<Signal>
  {
    Gather(tokens, Signaller(t, prev, risks))
  }

  /** What the figures of a token and of its risk have to be for it to be scored at all. */
  ghost predicate Sound(t: Thresholds, risks: Risks, token: Token)
  {
    && (token.liquidity.Some? ==> token.liquidity.value >= t.minLiquidity)
    && (token.address in risks ==>
          var risk := risks[token.address];
          !risk.isHoneypot && risk.rugRisk <= t.maxRugRisk && risk.bundlerRatio + risk.ratRatio <= t.maxBundlerRatRatio)
  }

  function ScoreIn(prev: seq<Token>, risks: Risks, token: Token): int
  {
    Score(token, LastWith(prev, token.address), RiskOf(risks, token.address)).score
  }

  ghost predicate Reaches(t: Thresholds, score: int) { score >= t.scoreHigh || score >= t.scoreMedium || score >= t.scoreLow }

  /** The level is the highest one the score reaches. */
  ghost predicate LevelFits(t: Thresholds, score: int, level: Level)
  {
    && Reaches(t, score) && (level == High <==> score >= t.scoreHigh)
    && (level == Medium <==> t.scoreMedium <= score < t.scoreHigh)
  }

  /** A token gives rise to a signal exactly when it is sound and its score reaches some level, and the signal
      is of the highest level reached. */
  lemma SignalIff(t: Thresholds, prev: seq<Token>, risks: Risks, token: Token)
    ensures var signal, score := SignalOf(t, prev, risks, token), ScoreIn(prev, risks, token);
      && (signal.Some? <==> Sound(t, risks, token) && Reaches(t, score))
      && (signal.Some? ==>
            && signal.value.scored.token == token && signal.value.scored.score == score
            && LevelFits(t, score, signal.value.level))
  {
  }

  ghost predicate Names(signal: Token -> Option<Signal>)
  {
    forall token :: signal(token).Some? ==> signal(token).value.scored.token == token
  }

  /** The signals are those of the tokens that have one, one for each. */
  ghost predicate Collected(tokens: seq<Token>, signal: Token -> Option<Signal>, signals: seq<Signal>)
  {
    && (forall s <- signals :: s.scored.token in tokens && signal(s.scored.token) == Some(s))
    && (forall token <- tokens :: signal(token).Some? ==> signal(token).value in signals)
    && |signals| == |Places(tokens, signal)|
  }

  ghost function Places(tokens: seq<Token>, signal: Token -> Option<Signal>): set<int>
  {
    set i | 0 <= i < |tokens| && signal(tokens[i]).Some?
  }

  lemma GatherCollects(tokens: seq<Token>, signal: Token -> Option<Signal>)
    requires Names(signal)
    ensures Collected(tokens, signal, Gather(tokens, signal))
  {
    GatherMembers(tokens, signal);
    GatherSize(tokens, signal);
  }

  lemma {:induction false} GatherMembers(tokens: seq<Token>, signal: Token -> Option<Signal>)
    requires Names(signal)
    ensures forall s <- Gather(tokens, signal) :: s.scored.token in tokens && signal(s.scored.token) == Some(s)
    ensures forall token <- tokens :: signal(token).Some? ==> signal(token).value in Gather(tokens, signal)
    decreases tokens
  {
    if tokens != [] {
      var n := |tokens| - 1;
      GatherMembers(tokens[..n], signal);
      assert forall token <- tokens :: token in tokens[..n] || token == tokens[n];
      assert forall token <- tokens[..n] :: token in tokens;
    }
  }

  lemma {:induction false} GatherSize(tokens: seq<Token>, signal: Token -> Option<Signal>)
    ensures |Gather(tokens, signal)| == |Places(tokens, signal)|
    decreases tokens
  {
    if tokens != [] {
      var n := |tokens| - 1;
      GatherSize(tokens[..n], signal);
      PlacesSnoc(tokens[..n], tokens[n], signal);
      assert tokens == tokens[..n] + [tokens[n]];
    }
  }

  lemma PlacesSnoc(tokens: seq<Token>, token: Token, signal: Token -> Option<Signal>)
    ensures |Places(tokens + [token], signal)| == |Places(tokens, signal)| + if signal(token).Some? then 1 else 0
  {
    var n, all := |tokens|, tokens + [token];
    forall i | i in Places(all, signal) ensures i in Places(tokens, signal) || (i == n && signal(token).Some?) {
    }
    assert Places(all, signal) == Places(tokens, signal) + if signal(token).Some? then {n} else {};
  }

  /** So among the signals of a snapshot there is none of a token short of liquidity, of a honeypot, of a rug
      risk or of too many bundlers and rats, and none is missing: as many signals as tokens that qualify. */
  lemma SignalsIff(t: Thresholds, prev: seq<Token>, risks: Risks, tokens: seq<Token>)
    ensures var signals := Signals(t, prev, risks, tokens);
      && (forall s <- signals ::
            && s.scored.token in tokens && Sound(t, risks, s.scored.token)
            && s.scored.score == ScoreIn(prev, risks, s.scored.token) && LevelFits(t, s.scored.score, s.level))
      && (forall token <- tokens :: Sound(t, risks, token) && Reaches(t, ScoreIn(prev, risks, token)) ==>
            exists s <- signals :: s.scored.token == token)
      && |signals| == |set i | 0 <= i < |tokens| && Sound(t, risks, tokens[i]) && Reaches(t, ScoreIn(prev, risks, tokens[i]))|
  {
    var signal, signals := Signaller(t, prev, risks), Signals(t, prev, risks, tokens);
    forall token ensures signal(token) == SignalOf(t, prev, risks, token)
      && (signal(token).Some? <==> Sound(t, risks, token) && Reaches(t, ScoreIn(prev, risks, token)))
      && (signal(token).Some? ==>
            && signal(token).value.scored.token == token && signal(token).value.scored.score == ScoreIn(prev, risks, token)
            && LevelFits(t, signal(token).value.scored.score, signal(token).value.level))
    {
      SignalIff(t, prev, risks, token);
    }
    GatherCollects(tokens, signal);
    assert (set i | 0 <= i < |tokens| && Sound(t, risks, tokens[i]) && Reaches(t, ScoreIn(prev, risks, tokens[i])))
      == Places(tokens, signal);
  }

  function SumOf(h: seq<int>): int
    decreases h
  {
    if h == [] then 0 else h[0] + SumOf(h[1..])
  }

  lemma {:induction false} SumUpdate(h: seq<int>, i: nat)
    requires i < |h|
    ensures SumOf(h[i := h[i] + 1]) == SumOf(h) + 1
    decreases h
  {
    if i > 0 {
      assert h[i := h[i] + 1][1..] == h[1..][i - 1 := h[1..][i - 1] + 1];
      SumUpdate(h[1..], i - 1);
    }
  }

  /** How many of the signals score in the given band of ten points; a full hundred has a band of its own. */
  function InBand(signals: seq<Signal>, band: int): nat
    decreases signals
  {
    if signals == [] then 0
    else InBand(signals[..|signals| - 1], band) + if 10 * band <= signals[|signals| - 1].scored.score < 10 * band + 10 then 1 else 0
  }

  const EMPTY_HISTOGRAM := [0, 0, 0, 0, 0, 0, 0, 0, 0, 0, 0]

  class AlphaScorer {
    const thresholds: Thresholds
    var scoreHistogram: seq<int>
    var scanned: nat

    /** The histogram counts no more signals than tokens were scanned since it was last logged, which
        is fewer than a hundred. */
    ghost predicate Valid()
      reads this
    {
      && |scoreHistogram| == 11 && (forall i :: 0 <= i < 11 ==> scoreHistogram[i] >= 0)
      && SumOf(scoreHistogram) <= scanned < 100
    }

    constructor (thresholds: Thresholds)
      ensures Valid() && this.thresholds == thresholds
    {
      this.thresholds := thresholds;
      scoreHistogram, scanned := EMPTY_HISTOGRAM, 0;
    }

    method Detect(prev: Option<seq<Token>>, tokens: seq<Token>, risks: Risks) returns (signals: seq<Signal>)
      requires Valid()
      modifies this
      ensures Valid()
      ensures prev.None? ==> signals == [] && unchanged(this)
      ensures prev.Some? ==> signals == Signals(thresholds, prev.value, risks, tokens)
      ensures prev.Some? && old(scanned) + |tokens| >= 100 ==> scanned == 0 && scoreHistogram == EMPTY_HISTOGRAM
      ensures prev.Some? && old(scanned) + |tokens| < 100 ==>
                && scanned == old(scanned) + |tokens|
                && (forall b :: 0 <= b < 11 ==> scoreHistogram[b] == old(scoreHistogram)[b] + InBand(signals, b))
    {
      if prev.None? {
        return [];
      }
      signals := CollectSignals(prev.value, tokens, risks);
      scanned := scanned + |tokens|;
      scoreHistogram := Tallied(scoreHistogram, signals);
      if scanned >= 100 {
        scoreHistogram, scanned := EMPTY_HISTOGRAM, 0;
      }
    }

    static method Tallied(before: seq<int>, signals: seq<Signal>) returns (histogram: seq<int>)
      requires |before| == 11 && forall i :: 0 <= i < |signals| ==> 0 <= signals[i].scored.score <= 100
      ensures |histogram| == 11 && SumOf(histogram) == SumOf(before) + |signals|
      ensures forall b :: 0 <= b < 11 ==> histogram[b] == before[b] + InBand(signals, b)
    {
      histogram := before;
      var i := 0;
      while i < |signals|
        invariant 0 <= i <= |signals| && |histogram| == 11 && SumOf(histogram) == SumOf(before) + i
        invariant forall b :: 0 <= b < 11 ==> histogram[b] == before[b] + InBand(signals[..i], b)
      {
        assert signals[..i + 1][..i] == signals[..i];
        var bucket := MinInt(signals[i].scored.score / 10, 10);
        SumUpdate(histogram, bucket);
        histogram := histogram[bucket := histogram[bucket] + 1];
        i := i + 1;
      }
      assert signals[..i] == signals;
    }

    method CollectSignals(prev: seq<Token>, tokens: seq<Token>, risks: Risks) returns (signals: seq<Signal>)
      ensures signals == Signals(thresholds, prev, risks, tokens) && |signals| <= |tokens|
      ensures forall i :: 0 <= i < |signals| ==> 0 <= signals[i].scored.score <= 100
    {
      signals := [];
      var i := 0;
      while i < |tokens|
        invariant 0 <= i <= |tokens| && |signals| <= i
        invariant signals == Signals(thresholds, prev, risks, tokens[..i])
        invariant forall k :: 0 <= k < |signals| ==> 0 <= signals[k].scored.score <= 100
      {
        var token := tokens[i];
        assert tokens[..i + 1][..i] == tokens[..i];
        i := i + 1;
        var risk := RiskOf(risks, token.address);
        if HardFilter(thresholds, token, risk) == Passed {
          var scored := Score(token, LastWith(prev, token.address), risk);
          FactorsCapped(token, LastWith(prev, token.address), risk);
          var level := LevelOf(thresholds, scored.score);
          if level.Some? {
            signals := signals + [Signal(scored, level.value)];
          }
        }
      }
      assert tokens[..i] == tokens;
    }
  }
}

/** src/scanner/orchestrator.py: one scan of a chain, which turns detected signals into alerts token by
    token, and the cycle that adds the hourly scan when its interval has passed. */
module Orchestrator {
  import opened Common
  import opened Detector
  import opened Cooldown

  datatype Interval = OneMinute | OneHour

  type Store = map<(string, Interval), seq<Token>>

  function Load(store: Store, chain: string, interval: Interval): Option<seq<Token>>
  {
    if (chain, interval) in store then Some(store[(chain, interval)]) else None
  }

  datatype Scan = Scan(thresholds: Thresholds, prev: Option<seq<Token>>, risks: Risks, tokens: seq<Token>) {

    function Detected(): seq<Signal>
    {
      if prev.None? then [] else Signals(thresholds, prev.value, risks, tokens)
    }

    function Before(): seq<Token> { if prev.None? then [] else prev.value }

    function Own(token: Token): Option<Signal>
    {
      if prev.None? then None else SignalOf(thresholds, prev.value, risks, token)
    }
  }

  /** The signal kept for an address: the last one detected. */
  function SignalFor(signals: seq<Signal>, address: string): Option<Signal>
    decreases signals
  {
    if signals == [] then None
    else if signals[|signals| - 1].scored.token.address == address then Some(signals[|signals| - 1])
    else SignalFor(signals[..|signals| - 1], address)
  }

  function Flagged(tokens: seq<Token>, hourly: set<string>): seq<Token>
  {
    seq(|tokens|, i requires 0 <= i < |tokens| => tokens[i].(alsoIn1h := tokens[i].alsoIn1h || tokens[i].address in hourly))
  }

  function ScanOf(thresholds: Thresholds, store: Store, chain: string, interval: Interval, tokens: seq<Token>, risks: Risks): Scan
  {
    var hourly := if interval == OneMinute then Load(store, chain, OneHour) else None;
    Scan(thresholds, Load(store, chain, interval), risks,
         if hourly.None? then tokens else Flagged(tokens, set t <- hourly.value :: t.address))
  }

  /** A minute scan flags the tokens that the stored hourly snapshot of the chain also has, and changes nothing
      else about them; an hourly scan leaves all as they are. */
  lemma FlaggedIff(thresholds: Thresholds, store: Store, chain: string, interval: Interval, tokens: seq<Token>, risks: Risks, i: nat)
    requires i < |tokens|
    ensures var scan := ScanOf(thresholds, store, chain, interval, tokens, risks);
      && |scan.tokens| == |tokens| && scan.tokens[i] == tokens[i].(alsoIn1h := scan.tokens[i].alsoIn1h)
      && (scan.tokens[i].alsoIn1h <==>
            tokens[i].alsoIn1h
            || (interval == OneMinute && (chain, OneHour) in store
                && exists t <- store[(chain, OneHour)] :: t.address == tokens[i].address))
      && scan.prev == if (chain, interval) in store then Some(store[(chain, interval)]) else None
  {
  }

  /** What the detector makes of a token: its own filter result, score and breakdown, and the signal
      kept for its address. */
  datatype Sight = Sight(token: Token, reason: FilterReason, total: Option<int>, breakdown: Option<Breakdown>, signal: Option<Signal>)

  function SightOf(scan: Scan, signals: seq<Signal>, token: Token): Sight
  {
    var risk := RiskOf(scan.risks, token.address);
    var reason := HardFilter(scan.thresholds, token, risk);
    var scored := Score(token, LastWith(scan.Before(), token.address), risk);
    Sight(token, reason, if reason == Passed then Some(scored.score) else None,
          if reason == Passed then Some(scored.breakdown) else None, SignalFor(signals, token.address))
  }

  function ViewOf(scan: Scan, signals: seq<Signal>): Token -> Sight
  {
    token => SightOf(scan, signals, token)
  }

  function Sights(tokens: seq<Token>, view: Token -> Sight): seq<Sight>
  {
    seq(|tokens|, i requires 0 <= i < |tokens| => view(tokens[i]))
  }

  function SightsOf(scan: Scan): seq<Sight>
  {
    Sights(scan.tokens, ViewOf(scan, scan.Detected()))
  }

  /** What is published about a token. */
  datatype Record = Record(token: Token, reason: FilterReason, total: Option<int>, breakdown: Option<Breakdown>,
                           emitted: bool, level: Option<Level>, skipped: bool)

  /** When a token's cooldown is checked, whether a send started for it succeeds, and when it is marked. */
  datatype Moment = Moment(checkedAt: real, delivered: bool, markedAt: real)

  datatype Pass = Pass(pool: Pool, records: seq<Record>, turns: seq<Turn>, aborted: bool)

  function RecordOf(sight: Sight, pool: Pool, checkedAt: real): Record
  {
    var Sight(token, reason, total, breakdown, signal) := sight;
    if signal.None? then Record(token, reason, total, breakdown, false, None, false)
    else if pool.Cooling(token.address, checkedAt) then Record(token, reason, total, breakdown, false, None, true)
    else Record(token, reason, Decayed(total, pool.Decay(token.address)), breakdown, true, Some(signal.value.level), false)
  }

  function Decayed(total: Option<int>, factor: real): Option<int>
  {
    if factor < 1.0 then Some(((if total.Some? then total.value else 0) as real * factor).Floor) else total
  }

  function TurnOf(sight: Sight, m: Moment): Option<Turn>
  {
    if sight.signal.None? then None
    else Some(Turn(sight.token.address, sight.signal.value.level, m.checkedAt, m.delivered, m.markedAt))
  }

  /** One token: a failed send ends the pass before anything is marked or published. */
  function Step(d: Durations, p: Pass, sight: Sight, m: Moment): Pass
  {
    var record, turn := RecordOf(sight, p.pool, m.checkedAt), TurnOf(sight, m);
    if p.aborted then p
    else if turn.None? then p.(records := p.records + [record])
    else if record.emitted && !m.delivered then p.(turns := p.turns + [turn.value], aborted := true)
    else Pass(Handle(d, p.pool, turn.value), p.records + [record], p.turns + [turn.value], false)
  }

  function Walk(sights: seq<Sight>, d: Durations, pool: Pool, moments: seq<Moment>): Pass
    requires |moments| <= |sights|
    decreases moments
  {
    if moments == [] then Pass(pool, [], [], false)
    else
      var n := |moments| - 1;
      Step(d, Walk(sights, d, pool, moments[..n]), sights[n], moments[n])
  }

  // ----- A pass and the alert history -----

  function Named(alerts: seq<Alert>): seq<(string, Level)>
    decreases alerts
  {
    if alerts == [] then [] else Named(alerts[..|alerts| - 1]) + [(alerts[|alerts| - 1].address, alerts[|alerts| - 1].level)]
  }

  function Emitted(records: seq<Record>): seq<(string, Level)>
    decreases records
  {
    if records == [] then []
    else
      var r := records[|records| - 1];
      Emitted(records[..|records| - 1]) + if r.emitted && r.level.Some? then [(r.token.address, r.level.value)] else []
  }

  /** A pass leaves the pool its turns lead to, and what it publishes as emitted are exactly the alerts
      it added to the history, in order, with their levels. */
  lemma {:induction false} PublishedAreAlerts(sights: seq<Sight>, d: Durations, history: seq<Turn>, moments: seq<Moment>)
    requires |moments| <= |sights|
    ensures var p := Walk(sights, d, After(d, history), moments);
      && p.pool == After(d, history + p.turns)
      && Named(Alerts(d, history + p.turns)) == Named(Alerts(d, history)) + Emitted(p.records)
    decreases moments
  {
    if moments == [] {
      assert history + [] == history;
    } else {
      var n := |moments| - 1;
      PublishedAreAlerts(sights, d, history, moments[..n]);
      var q, p := Walk(sights, d, After(d, history), moments[..n]), Walk(sights, d, After(d, history), moments);
      StepTurns(d, q, sights[n], moments[n]);
      if p.turns != q.turns {
        var turn := TurnOf(sights[n], moments[n]).value;
        TurnPublishes(d, history + q.turns, turn, Named(Alerts(d, history)), Emitted(q.records), Emitted(p.records));
        assert history + p.turns == (history + q.turns) + [turn];
      }
    }
  }

  lemma TurnPublishes(d: Durations, turns: seq<Turn>, turn: Turn, names: seq<(string, Level)>,
                      emitted: seq<(string, Level)>, after: seq<(string, Level)>)
    requires Named(Alerts(d, turns)) == names + emitted && after == emitted + NameOf(After(d, turns), turn)
    ensures After(d, turns + [turn]) == Handle(d, After(d, turns), turn)
    ensures Named(Alerts(d, turns + [turn])) == names + after
  {
    TurnAdds(d, turns, turn);
    assert (names + emitted) + NameOf(After(d, turns), turn) == names + after;
  }

  /** A step takes no turn and emits nothing, or it takes one and emits just when that turn is an alert. */
  lemma StepTurns(d: Durations, q: Pass, sight: Sight, m: Moment)
    ensures var p, turn := Step(d, q, sight, m), TurnOf(sight, m);
      if p.turns == q.turns then p.pool == q.pool && Emitted(p.records) == Emitted(q.records)
      else
        && turn.Some? && p.turns == q.turns + [turn.value] && p.pool == Handle(d, q.pool, turn.value)
        && Emitted(p.records) == Emitted(q.records) + NameOf(q.pool, turn.value)
  {
    EmittedSnoc(q.records, RecordOf(sight, q.pool, m.checkedAt));
  }

  function NameOf(pool: Pool, turn: Turn): seq<(string, Level)>
  {
    if AlertOf(pool, turn).Some? then [(turn.address, turn.level)] else []
  }

  lemma TurnAdds(d: Durations, turns: seq<Turn>, turn: Turn)
    ensures After(d, turns + [turn]) == Handle(d, After(d, turns), turn)
    ensures Named(Alerts(d, turns + [turn]))
            == Named(Alerts(d, turns)) + NameOf(After(d, turns), turn)
  {
    OneMoreTurn(d, turns, turn);
    var alert := AlertOf(After(d, turns), turn);
    if alert.Some? { NamedSnoc(Alerts(d, turns), alert.value); } else { assert Alerts(d, turns) + [] == Alerts(d, turns); }
  }

  lemma NamedSnoc(alerts: seq<Alert>, a: Alert)
    ensures Named(alerts + [a]) == Named(alerts) + [(a.address, a.level)]
  {
    assert (alerts + [a])[..|alerts|] == alerts;
  }

  lemma EmittedSnoc(records: seq<Record>, r: Record)
    ensures Emitted(records + [r]) == Emitted(records) + if r.emitted && r.level.Some? then [(r.token.address, r.level.value)] else []
  {
    assert (records + [r])[..|records|] == records;
  }

  // ----- A pass and the detector -----

  /** The last token of the address that has a signal is at `i`. */
  ghost predicate LastSignalAt(tokens: seq<Token>, signal: Token -> Option<Signal>, address: string, i: int)
  {
    && 0 <= i < |tokens| && tokens[i].address == address && signal(tokens[i]).Some?
    && forall j :: i < j < |tokens| && tokens[j].address == address ==> signal(tokens[j]).None?
  }

  ghost predicate NoSignal(tokens: seq<Token>, signal: Token -> Option<Signal>, address: string)
  {
    forall i :: 0 <= i < |tokens| && tokens[i].address == address ==> signal(tokens[i]).None?
  }

  lemma SignalForSnoc(signals: seq<Signal>, s: Signal, address: string)
    ensures SignalFor(signals + [s], address) == if s.scored.token.address == address then Some(s) else SignalFor(signals, address)
  {
    assert (signals + [s])[..|signals|] == signals;
  }

  /** What the address map finds is the own signal of the last token of that address that has one. */
  lemma {:induction false} SignalForIs(tokens: seq<Token>, signal: Token -> Option<Signal>, address: string)
    requires Names(signal)
    ensures var found := SignalFor(Gather(tokens, signal), address);
      if found.None? then NoSignal(tokens, signal, address)
      else exists i :: LastSignalAt(tokens, signal, address, i) && signal(tokens[i]) == found
    decreases tokens
  {
    if tokens != [] {
      var n := |tokens| - 1;
      var before, own := tokens[..n], signal(tokens[n]);
      SignalForIs(before, signal, address);
      var all, early := Gather(tokens, signal), Gather(before, signal);
      if own.Some? {
        SignalForSnoc(early, own.value, address);
      } else {
        assert all == early;
      }
      if own.Some? && tokens[n].address == address {
        assert LastSignalAt(tokens, signal, address, n) && signal(tokens[n]) == SignalFor(all, address);
      } else if SignalFor(early, address).Some? {
        var i :| LastSignalAt(before, signal, address, i) && signal(before[i]) == SignalFor(early, address);
        assert LastSignalAt(tokens, signal, address, i) && signal(tokens[i]) == SignalFor(all, address);
      }
    }
  }

  /** Every token is served its own signal exactly when tokens that share an address also share their
      signal, in particular when addresses are distinct. */
  lemma OwnSignalIff(scan: Scan)
    ensures (forall i :: 0 <= i < |scan.tokens| ==>
               SignalFor(scan.Detected(), scan.tokens[i].address) == scan.Own(scan.tokens[i]))
            <==> (forall i, j :: 0 <= i < j < |scan.tokens| && scan.tokens[i].address == scan.tokens[j].address ==>
                    scan.Own(scan.tokens[i]) == scan.Own(scan.tokens[j]))
  {
    if scan.prev.Some? {
      var signal := Signaller(scan.thresholds, scan.prev.value, scan.risks);
      ServedOwnIff(scan.tokens, signal);
      assert forall token :: scan.Own(token) == signal(token);
    }
  }

  ghost predicate ServedOwn(tokens: seq<Token>, signal: Token -> Option<Signal>)
  {
    forall i :: 0 <= i < |tokens| ==> SignalFor(Gather(tokens, signal), tokens[i].address) == signal(tokens[i])
  }

  ghost predicate Shared(tokens: seq<Token>, signal: Token -> Option<Signal>)
  {
    forall i, j :: 0 <= i < j < |tokens| && tokens[i].address == tokens[j].address ==> signal(tokens[i]) == signal(tokens[j])
  }

  lemma ServedOwnIff(tokens: seq<Token>, signal: Token -> Option<Signal>)
    requires Names(signal)
    ensures ServedOwn(tokens, signal) <==> Shared(tokens, signal)
  {
    if Shared(tokens, signal) {
      forall i | 0 <= i < |tokens| ensures SignalFor(Gather(tokens, signal), tokens[i].address) == signal(tokens[i]) {
        ServedAt(tokens, signal, i);
      }
    } else {
      var i, j :| 0 <= i < j < |tokens| && tokens[i].address == tokens[j].address && signal(tokens[i]) != signal(tokens[j]);
      assert SignalFor(Gather(tokens, signal), tokens[i].address) == SignalFor(Gather(tokens, signal), tokens[j].address);
    }
  }

  lemma ServedAt(tokens: seq<Token>, signal: Token -> Option<Signal>, i: nat)
    requires Names(signal) && Shared(tokens, signal) && i < |tokens|
    ensures SignalFor(Gather(tokens, signal), tokens[i].address) == signal(tokens[i])
  {
    SignalForIs(tokens, signal, tokens[i].address);
    var found := SignalFor(Gather(tokens, signal), tokens[i].address);
    if found.Some? {
      var k :| LastSignalAt(tokens, signal, tokens[i].address, k) && signal(tokens[k]) == found;
      assert i < k || k < i || i == k;
    }
  }

  /** With distinct addresses every emitted record passed the filter, carries the level and breakdown the
      detector gave its token, and the detector's score: the whole of it up to the second alert of the address,
      three fifths of it for the third and three tenths for every later one, rounded down. */
  lemma {:induction false} EmittedMatchesDetection(scan: Scan, d: Durations, pool: Pool, moments: seq<Moment>, k: nat)
    requires |moments| <= |scan.tokens| && k < |Walk(SightsOf(scan), d, pool, moments).records|
    requires forall i, j :: 0 <= i < j < |scan.tokens| ==> scan.tokens[i].address != scan.tokens[j].address
    ensures k < |moments|
    ensures var r := Walk(SightsOf(scan), d, pool, moments).records[k];
      r.token == scan.tokens[k] && Matches(scan, r, Walk(SightsOf(scan), d, pool, moments[..k]).pool.Hits(r.token.address))
    decreases moments
  {
    OwnSignalIff(scan);
    OneRecordEach(SightsOf(scan), d, pool, moments);
    RecordAt(SightsOf(scan), d, pool, moments, k);
    RecordMatches(scan, scan.tokens[k], Walk(SightsOf(scan), d, pool, moments[..k]).pool, moments[k].checkedAt);
  }

  /** The record of a token whose address was alerted `alerted` times before. */
  ghost predicate Matches(scan: Scan, r: Record, alerted: nat)
  {
    && (r.emitted || r.skipped <==> scan.Own(r.token).Some?)
    && (r.emitted ==>
          var signal := scan.Own(r.token).value;
          var score := signal.scored.score;
          && r.reason == Passed && r.level == Some(signal.level) && r.breakdown == Some(signal.scored.breakdown)
          && r.total == Some(if alerted <= 1 then score else if alerted == 2 then score * 3 / 5 else score * 3 / 10))
    && (!r.emitted ==>
        && r.level.None? && (r.total.Some? <==> Sound(scan.thresholds, scan.risks, r.token))
        && (r.total.Some? ==> r.total.value == ScoreIn(scan.Before(), scan.risks, r.token)))
  }

  lemma RecordMatches(scan: Scan, token: Token, pool: Pool, at: real)
    requires SignalFor(scan.Detected(), token.address) == scan.Own(token)
    ensures Matches(scan, RecordOf(SightOf(scan, scan.Detected(), token), pool, at), pool.Hits(token.address))
  {
    var signal := scan.Own(token);
    if signal.Some? {
      FactorsCapped(token, LastWith(scan.Before(), token.address), RiskOf(scan.risks, token.address));
      DecayedIs(signal.value.scored.score, pool, token.address);
    }
  }

  lemma DecayedIs(score: nat, pool: Pool, address: string)
    ensures var alerted := pool.Hits(address);
      Decayed(Some(score), pool.Decay(address))
      == Some(if alerted <= 1 then score else if alerted == 2 then score * 3 / 5 else score * 3 / 10)
  {
    var fifths, tenths := score * 3 / 5, score * 3 / 10;
    assert fifths as real <= score as real * 0.6 < fifths as real + 1.0;
    assert tenths as real <= score as real * 0.3 < tenths as real + 1.0;
  }

  lemma {:induction false} OneRecordEach(sights: seq<Sight>, d: Durations, pool: Pool, moments: seq<Moment>)
    requires |moments| <= |sights|
    ensures var p := Walk(sights, d, pool, moments);
      |p.records| <= |moments| && (!p.aborted ==> |p.records| == |moments|)
    decreases moments
  {
    if moments != [] { OneRecordEach(sights, d, pool, moments[..|moments| - 1]); }
  }

  lemma {:induction false} RecordAt(sights: seq<Sight>, d: Durations, pool: Pool, moments: seq<Moment>, k: nat)
    requires |moments| <= |sights| && k < |Walk(sights, d, pool, moments).records| && k < |moments|
    ensures Walk(sights, d, pool, moments).records[k]
            == RecordOf(sights[k], Walk(sights, d, pool, moments[..k]).pool, moments[k].checkedAt)
    decreases moments
  {
    var n := |moments| - 1;
    var q := Walk(sights, d, pool, moments[..n]);
    OneRecordEach(sights, d, pool, moments[..n]);
    StepRecords(d, q, sights[n], moments[n]);
    if k < |q.records| {
      RecordAt(sights, d, pool, moments[..n], k);
      assert moments[..n][..k] == moments[..k];
    }
  }

  lemma StepRecords(d: Durations, q: Pass, sight: Sight, m: Moment)
    ensures var p := Step(d, q, sight, m);
      p.records == q.records || (!q.aborted && p.records == q.records + [RecordOf(sight, q.pool, m.checkedAt)])
  {
  }

  /** Without distinct addresses it is not so: the filtered first token of an address goes out as an alert
      on the strength of the second, with no score of its own. */
  lemma DuplicateTakesTheOthersSignal()
    ensures
      var t := Thresholds(50_000.0, 0.8, 0.7, 75, 65, 10);
      var poor, rich := Token("a", "A", None, Some(1.0), None, 2, false), Token("a", "A", None, Some(90_000.0), None, 1, false);
      var scan := Scan(t, Some([]), map[], [poor, rich]);
      var record := RecordOf(SightOf(scan, scan.Detected(), poor), EMPTY, 0.0);
      record.emitted && record.reason == LowLiquidity && record.total.None?
  {
    var t := Thresholds(50_000.0, 0.8, 0.7, 75, 65, 10);
    var poor, rich := Token("a", "A", None, Some(1.0), None, 2, false), Token("a", "A", None, Some(90_000.0), None, 1, false);
    SignalForIs([poor, rich], Signaller(t, [], map[]), "a");
    assert Signaller(t, [], map[])([poor, rich][1]).Some?;
  }

  // ----- The orchestrator -----

  class ScannerOrchestrator {
    const chains: seq<string>
    const intervalHourSeconds: int
    const scorer: AlphaScorer
    const cooldown: CooldownManager
    const clock: Clock
    var store: Store
    var lastHourRun: real
    /** Every signal whose cooldown was checked so far, and every start of the hourly scans. */
    ghost var turns: seq<Turn>
    ghost var firings: seq<real>

    ghost predicate Valid()
      reads this, scorer, cooldown, clock
    {
      && scorer.Valid() && Faithful()
      && Apart(firings, intervalHourSeconds as real) && (firings != [] ==> lastHourRun == firings[|firings| - 1])
    }

    /** The cooldown pool is the one the turns so far lead to. */
    ghost predicate Faithful()
      reads this, cooldown, clock
    {
      LeadsTo(cooldown.durations, turns, clock.now, cooldown.Snapshot())
    }

    constructor (chains: seq<string>, intervalHourSeconds: int, scorer: AlphaScorer, durations: Durations, clock: Clock)
      requires scorer.Valid()
      modifies clock
      ensures Valid() && turns == [] && firings == [] && this.scorer == scorer && this.clock == clock && fresh(cooldown)
    {
      var now := clock.Read();
      this.chains, this.intervalHourSeconds, this.scorer, this.clock := chains, intervalHourSeconds, scorer, clock;
      lastHourRun := now;
      cooldown := new CooldownManager(durations);
      store, turns, firings := map[], [], [];
    }

    /** At any time of any run, all alerts of an address lie apart by the cooldown of the earlier one. */
    lemma AlertsApart(i: nat, j: nat)
      requires Valid() && i < j < |Alerts(cooldown.durations, turns)|
      requires Alerts(cooldown.durations, turns)[i].address == Alerts(cooldown.durations, turns)[j].address
      ensures var alerts := Alerts(cooldown.durations, turns);
        alerts[j].checkedAt >= alerts[i].markedAt + cooldown.durations.Seconds(alerts[i].level)
    {
      AlertsSpaced(cooldown.durations, turns, i, j);
    }

    /** One scan. What it publishes, how it moves the cooldown pool and whether it gets to the end are
        those of the walk over its tokens; only a scan that gets to the end is stored. */
    method RunChain(chain: string, interval: Interval, fetched: Option<seq<Token>>, risks: Risks)
      returns (records: seq<Record>, completed: bool, ghost moments: seq<Moment>, ghost walk: Pass)
      requires Valid()
      modifies this`store, this`turns, scorer, cooldown, clock
      ensures Valid() && clock.now >= old(clock.now) && turns == old(turns) + walk.turns
      ensures fetched.None? || fetched.value == [] ==>
                records == [] && completed == fetched.Some? && store == old(store) && turns == old(turns)
      ensures fetched.Some? && fetched.value != [] ==>
                var scan := ScanOf(scorer.thresholds, old(store), chain, interval, fetched.value, risks);
                && |moments| <= |scan.tokens| && (completed ==> |moments| == |scan.tokens|)
                && walk == Walk(SightsOf(scan), cooldown.durations, old(cooldown.Snapshot()), moments)
                && records == walk.records && completed == !walk.aborted && cooldown.Snapshot() == walk.pool
                && store == if completed then old(store)[(chain, interval) := scan.tokens] else old(store)
      ensures store == old(store) || ((chain, interval) in store && store == old(store)[(chain, interval) := store[(chain, interval)]])
    {
      if fetched.None? || fetched.value == [] {
        return [], fetched.Some?, [], Pass(cooldown.Snapshot(), [], [], false);
      }
      records, completed, moments, walk := ScanFetched(chain, interval, fetched.value, risks);
    }

    method ScanFetched(chain: string, interval: Interval, tokens: seq<Token>, risks: Risks)
      returns (records: seq<Record>, completed: bool, ghost moments: seq<Moment>, ghost walk: Pass)
      requires Valid()
      modifies this`store, this`turns, scorer, cooldown, clock
      ensures Valid() && clock.now >= old(clock.now) && turns == old(turns) + walk.turns
      ensures var scan := ScanOf(scorer.thresholds, old(store), chain, interval, tokens, risks);
        && |moments| <= |scan.tokens| && (completed ==> |moments| == |scan.tokens|)
        && walk == Walk(SightsOf(scan), cooldown.durations, old(cooldown.Snapshot()), moments)
        && store == if completed then old(store)[(chain, interval) := scan.tokens] else old(store)
      ensures records == walk.records && completed == !walk.aborted && cooldown.Snapshot() == walk.pool
    {
      var scan := Prepare(chain, interval, tokens, risks);
      records, completed, moments, walk := ScanTokens(scan);
      if completed {
        store := store[(chain, interval) := scan.tokens];
      }
    }

    method ScanTokens(scan: Scan) returns (records: seq<Record>, completed: bool, ghost moments: seq<Moment>, ghost walk: Pass)
      requires Valid() && scan.thresholds == scorer.thresholds
      modifies this`turns, scorer, cooldown, clock
      ensures Valid() && clock.now >= old(clock.now) && turns == old(turns) + walk.turns
      ensures |moments| <= |scan.tokens| && (completed ==> |moments| == |scan.tokens|)
      ensures walk == Walk(SightsOf(scan), cooldown.durations, old(cooldown.Snapshot()), moments)
      ensures records == walk.records && completed == !walk.aborted && cooldown.Snapshot() == walk.pool
    {
      var signals := scorer.Detect(scan.prev, scan.tokens, scan.risks);
      assert signals == scan.Detected();
      records, completed, moments, walk := ServeTokens(scan.tokens, ViewOf(scan, signals));
    }

    /** The snapshot to score: the last one stored for comparison, and for a minute scan the tokens
        flagged that the last hourly scan also saw. */
    method Prepare(chain: string, interval: Interval, tokens: seq<Token>, risks: Risks) returns (scan: Scan)
      ensures scan == ScanOf(scorer.thresholds, store, chain, interval, tokens, risks)
    {
      var flagged := tokens;
      if interval == OneMinute {
        var hourly := Load(store, chain, OneHour);
        if hourly.Some? {
          flagged := FlagTimeframe(tokens, set t <- hourly.value :: t.address);
        }
      }
      scan := Scan(scorer.thresholds, Load(store, chain, interval), risks, flagged);
    }

    method FlagTimeframe(tokens: seq<Token>, hourly: set<string>) returns (flagged: seq<Token>)
      ensures flagged == Flagged(tokens, hourly)
    {
      flagged := [];
      for i := 0 to |tokens|
        invariant flagged == Flagged(tokens, hourly)[..i]
      {
        flagged := flagged + [if tokens[i].address in hourly then tokens[i].(alsoIn1h := true) else tokens[i]];
      }
    }

    /** The token loop over what the detector makes of each token. */
    method ServeTokens(tokens: seq<Token>, view: Token -> Sight)
      returns (records: seq<Record>, completed: bool, ghost moments: seq<Moment>, ghost walk: Pass)
      requires Faithful()
      modifies this`turns, cooldown, clock
      ensures Faithful() && clock.now >= old(clock.now) && turns == old(turns) + walk.turns
      ensures |moments| <= |tokens| && (completed ==> |moments| == |tokens|)
      ensures walk == Walk(Sights(tokens, view), cooldown.durations, old(cooldown.Snapshot()), moments)
      ensures records == walk.records && completed == !walk.aborted && cooldown.Snapshot() == walk.pool
    {
      ghost var start, pool := clock.now, cooldown.Snapshot();
      records, completed, moments, walk := TokenLoop(tokens, view);
      WalkLeadsTo(Sights(tokens, view), cooldown.durations, turns, start, pool, moments, walk, clock.now);
      turns := turns + walk.turns;
    }

    method TokenLoop(tokens: seq<Token>, view: Token -> Sight)
      returns (records: seq<Record>, completed: bool, ghost moments: seq<Moment>, ghost walk: Pass)
      modifies cooldown, clock
      ensures Follow(old(clock.now), walk.turns, clock.now)
      ensures |moments| <= |tokens| && (completed ==> |moments| == |tokens|)
      ensures walk == Walk(Sights(tokens, view), cooldown.durations, old(cooldown.Snapshot()), moments)
      ensures records == walk.records && completed == !walk.aborted && cooldown.Snapshot() == walk.pool
    {
      records, completed, moments := [], true, [];
      ghost var sights, pool, start := Sights(tokens, view), cooldown.Snapshot(), clock.now;
      walk := Pass(pool, [], [], false);
      var i := 0;
      while i < |tokens| && completed
        invariant 0 <= i <= |tokens| && |moments| <= |tokens| && (completed ==> i == |moments|)
        invariant Follow(start, walk.turns, clock.now)
        invariant walk == Walk(sights, cooldown.durations, pool, moments)
        invariant records == walk.records && completed == !walk.aborted && cooldown.Snapshot() == walk.pool
        decreases |tokens| - i, completed
      {
        ghost var now := clock.now;
        var record, ok, m := ServeToken(view(tokens[i]));
        WalkOn(sights, cooldown.durations, pool, moments, m);
        ghost var turn := TurnOf(sights[i], m);
        if turn.Some? {
          FollowOn(start, walk.turns, now, turn.value, clock.now);
        } else {
          FollowLater(start, walk.turns, now, clock.now);
        }
        moments := moments + [m];
        walk := Walk(sights, cooldown.durations, pool, moments);
        if ok {
          records := records + [record];
          i := i + 1;
        }
        completed := ok;
      }
    }

    /** The loop's body: what is published about a token and whether sending went well. Sending takes arbitrarily long and
        may fail. */
    method ServeToken(sight: Sight) returns (record: Record, ok: bool, ghost m: Moment)
      modifies cooldown, clock
      ensures old(clock.now) <= clock.now
      ensures sight.signal.Some? ==> old(clock.now) <= m.checkedAt <= m.markedAt <= clock.now
      ensures record == RecordOf(sight, old(cooldown.Snapshot()), m.checkedAt) && ok == (record.emitted ==> m.delivered)
      ensures var turn := TurnOf(sight, m);
        cooldown.Snapshot() == if turn.Some? then Handle(cooldown.durations, old(cooldown.Snapshot()), turn.value) else old(cooldown.Snapshot())
    {
      var token, total, signal := sight.token, sight.total, sight.signal;
      var emitted, level: Option<Level>, skipped := false, None, false;
      ok, m := true, Moment(0.0, true, 0.0);
      if signal.Some? {
        skipped := cooldown.IsCooling(token.address, clock);
        m := Moment(clock.now, true, clock.now);
        if !skipped {
          emitted, level := true, Some(signal.value.level);
          var factor := cooldown.DecayFactor(token.address);
          total := Decayed(total, factor);
          ok := SendAlpha();
          if ok {
            cooldown.Mark(token.address, signal.value.level, clock);
          }
          m := Moment(m.checkedAt, ok, clock.now);
        }
      }
      record := Record(token, sight.reason, total, sight.breakdown, emitted, level, skipped);
    }

    method SendAlpha() returns (delivered: bool)
      modifies clock
      ensures clock.now >= old(clock.now)
    {
      var _ := clock.Read();
      delivered := *;
    }

    /** All chains at one interval; a scan that fails does not stop the others. */
    method ScanChains(interval: Interval)
      requires Valid()
      modifies this`store, this`turns, scorer, cooldown, clock
      ensures Valid() && clock.now >= old(clock.now) && old(turns) <= turns
      ensures forall other, slot :: slot != interval ==> Load(store, other, slot) == Load(old(store), other, slot)
    {
      for i := 0 to |chains|
        invariant Valid() && clock.now >= old(clock.now) && old(turns) <= turns
        invariant forall other, slot :: slot != interval ==> Load(store, other, slot) == Load(old(store), other, slot)
      {
        var fetched: Option<seq<Token>> := *;
        var risks: Risks := *;
        var _, _, _, _ := RunChain(chains[i], interval, fetched, risks);
      }
    }

    /** The hourly scan runs in a cycle exactly when its interval has passed since the last one started. */
    method RunCycle() returns (fired: bool, decidedAt: real)
      requires Valid()
      modifies this, scorer, cooldown, clock
      ensures Valid() && old(clock.now) <= decidedAt <= clock.now && old(turns) <= turns
      ensures fired <==> decidedAt - old(lastHourRun) >= intervalHourSeconds as real
      ensures if fired then lastHourRun == decidedAt && firings == old(firings) + [decidedAt]
              else lastHourRun == old(lastHourRun) && firings == old(firings)
      ensures !fired ==> forall chain :: Load(store, chain, OneHour) == Load(old(store), chain, OneHour)
    {
      ScanChains(OneMinute);
      decidedAt := clock.Read();
      fired := decidedAt - lastHourRun >= intervalHourSeconds as real;
      if fired {
        lastHourRun := decidedAt;
        assert (firings + [decidedAt])[..|firings|] == firings;
        firings := firings + [decidedAt];
        ScanChains(OneHour);
      }
    }
  }

  /** A walk that is under way goes on, case by case. */
  lemma WalkOn(sights: seq<Sight>, d: Durations, pool: Pool, moments: seq<Moment>, m: Moment)
    requires |moments| < |sights| && !Walk(sights, d, pool, moments).aborted
    ensures var p, q := Walk(sights, d, pool, moments), Walk(sights, d, pool, moments + [m]);
      var record, turn := RecordOf(sights[|moments|], p.pool, m.checkedAt), TurnOf(sights[|moments|], m);
      && q.aborted == (record.emitted && !m.delivered)
      && q.records == (if q.aborted then p.records else p.records + [record])
      && q.turns == (if turn.Some? then p.turns + [turn.value] else p.turns)
      && q.pool == if turn.Some? then Handle(d, p.pool, turn.value) else p.pool
  {
    assert (moments + [m])[..|moments|] == moments;
  }

  /** The turns lie one after the other between two instants. */
  ghost predicate Follow(start: real, turns: seq<Turn>, end: real)
    decreases turns
  {
    if turns == [] then start <= end
    else
      var t := turns[|turns| - 1];
      Follow(start, turns[..|turns| - 1], t.checkedAt) && t.checkedAt <= t.markedAt <= end
  }

  lemma FollowOn(start: real, turns: seq<Turn>, now: real, t: Turn, end: real)
    requires Follow(start, turns, now) && now <= t.checkedAt <= t.markedAt <= end
    ensures Follow(start, turns + [t], end)
  {
    assert (turns + [t])[..|turns|] == turns;
    FollowLater(start, turns, now, t.checkedAt);
  }

  lemma FollowLater(start: real, turns: seq<Turn>, now: real, later: real)
    requires Follow(start, turns, now) && now <= later
    ensures Follow(start, turns, later)
  {
  }

  lemma {:induction false} FollowsHistory(history: seq<Turn>, start: real, turns: seq<Turn>, end: real)
    requires InClockOrder(history) && (history != [] ==> history[|history| - 1].markedAt <= start) && Follow(start, turns, end)
    ensures InClockOrder(history + turns) && start <= end
    ensures history + turns != [] ==> (history + turns)[|history + turns| - 1].markedAt <= end
    decreases turns
  {
    if turns == [] {
      assert history + turns == history;
    } else {
      var n := |turns| - 1;
      FollowsHistory(history, start, turns[..n], turns[n].checkedAt);
      assert (history + turns)[..|history + turns| - 1] == history + turns[..n];
    }
  }

  /** The history lies before an instant and leads to this pool. */
  ghost predicate LeadsTo(d: Durations, history: seq<Turn>, now: real, pool: Pool) {
    InClockOrder(history) && (history != [] ==> history[|history| - 1].markedAt <= now) && pool == After(d, history)
  }

  lemma WalkLeadsTo(sights: seq<Sight>, d: Durations, history: seq<Turn>, start: real, pool: Pool, moments: seq<Moment>,
                    walk: Pass, end: real)
    requires LeadsTo(d, history, start, pool) && |moments| <= |sights|
    requires walk == Walk(sights, d, pool, moments) && Follow(start, walk.turns, end)
    ensures LeadsTo(d, history + walk.turns, end, walk.pool) && start <= end
  {
    PublishedAreAlerts(sights, d, history, moments);
    FollowsHistory(history, start, walk.turns, end);
  }

  ghost predicate Apart(times: seq<real>, least: real)
    decreases times
  {
    var n := |times| - 1;
    n <= 0 || (Apart(times[..n], least) && times[n] - times[n - 1] >= least)
  }

  lemma OneMore(n: real, x: real)
    ensures (n + 1.0) * x == n * x + x
  {
  }

  /** So the hourly scans started over any run lie an interval apart for each that separates them. */
  lemma {:induction false} FiringsApart(firings: seq<real>, interval: real, i: nat, j: nat)
    requires Apart(firings, interval) && i <= j < |firings|
    ensures firings[j] - firings[i] >= (j - i) as real * interval
    decreases firings
  {
    var n := |firings| - 1;
    if j < n {
      FiringsApart(firings[..n], interval, i, j);
    } else if i < n {
      FiringsApart(firings[..n], interval, i, n - 1);
      OneMore((n - 1 - i) as real, interval);
      assert (n - i) as real == (n - 1 - i) as real + 1.0;
    } else {
      assert (j - i) as real == 0.0;
    }
  }
}

/** src/scanner/cooldown.py: how long an address stays quiet after an alert and how its later alerts
    decay, proved equal to a reading of the whole alert history. */
module Cooldown {
  import opened Common
  import opened Detector

  datatype Durations = Durations(high: int, medium: int, observe: int) {

    function Seconds(level: Level): real
    {
      match level
      case High => high as real
      case Observe => observe as real
      case Medium => medium as real
    }
  }

  datatype Pool = Pool(expires: map<string, real>, hits: map<string, nat>) {

    function Expiry(address: string): real { if address in expires then expires[address] else 0.0 }

    function Hits(address: string): nat { if address in hits then hits[address] else 0 }

    predicate Cooling(address: string, now: real) { Expiry(address) > now }

    function Decay(address: string): real
    {
      if Hits(address) >= 3 then 0.3 else if Hits(address) == 2 then 0.6 else 1.0
    }

    function Marked(d: Durations, address: string, level: Level, now: real): Pool
    {
      Pool(expires[address := now + d.Seconds(level)], hits[address := Hits(address) + 1])
    }
  }

  const EMPTY := Pool(map[], map[])

  // ----- Whole runs -----

  /** One signal about to be sent: when its cooldown is checked, whether sending it succeeds, and when
      the success is marked. */
  datatype Turn = Turn(address: string, level: Level, checkedAt: real, delivered: bool, markedAt: real)

  datatype Alert = Alert(address: string, level: Level, checkedAt: real, markedAt: real, factor: real)

  /** The alert the turn leads to. The factor is read before the mark; a failed send marks nothing. */
  function AlertOf(pool: Pool, t: Turn): Option<Alert>
  {
    if pool.Cooling(t.address, t.checkedAt) || !t.delivered then None
    else Some(Alert(t.address, t.level, t.checkedAt, t.markedAt, pool.Decay(t.address)))
  }

  function Handle(d: Durations, pool: Pool, t: Turn): Pool
  {
    if AlertOf(pool, t).Some? then pool.Marked(d, t.address, t.level, t.markedAt) else pool
  }

  function After(d: Durations, turns: seq<Turn>): Pool
    decreases turns
  {
    if turns == [] then EMPTY else Handle(d, After(d, turns[..|turns| - 1]), turns[|turns| - 1])
  }

  function Alerts(d: Durations, turns: seq<Turn>): seq<Alert>
    decreases turns
  {
    if turns == [] then []
    else
      var before := turns[..|turns| - 1];
      var alert := AlertOf(After(d, before), turns[|turns| - 1]);
      Alerts(d, before) + if alert.Some? then [alert.value] else []
  }

  /** Every turn marks no earlier than it checks, and checks no earlier than the turn before it marked. */
  ghost predicate InClockOrder(turns: seq<Turn>)
    decreases turns
  {
    turns == [] ||
    var n := |turns| - 1;
    && InClockOrder(turns[..n]) && turns[n].checkedAt <= turns[n].markedAt
    && (n > 0 ==> turns[n - 1].markedAt <= turns[n].checkedAt)
  }

  lemma OneMoreTurn(d: Durations, turns: seq<Turn>, turn: Turn)
    ensures After(d, turns + [turn]) == Handle(d, After(d, turns), turn)
    ensures Alerts(d, turns + [turn])
            == Alerts(d, turns) + var alert := AlertOf(After(d, turns), turn); if alert.Some? then [alert.value] else []
    ensures InClockOrder(turns + [turn]) <==>
            InClockOrder(turns) && turn.checkedAt <= turn.markedAt && (turns == [] || turns[|turns| - 1].markedAt <= turn.checkedAt)
  {
    assert (turns + [turn])[..|turns|] == turns;
  }

  // The history read back, without any pool.

  function TimesAlerted(alerts: seq<Alert>, address: string): nat
    decreases alerts
  {
    if alerts == [] then 0
    else TimesAlerted(alerts[..|alerts| - 1], address) + if alerts[|alerts| - 1].address == address then 1 else 0
  }

  function LastAlert(alerts: seq<Alert>, address: string): (last: Option<Alert>)
    ensures last.Some? ==> last.value in alerts && last.value.address == address
    ensures last.None? ==> forall a <- alerts :: a.address != address
    decreases alerts
  {
    if alerts == [] then None
    else if alerts[|alerts| - 1].address == address then Some(alerts[|alerts| - 1])
    else LastAlert(alerts[..|alerts| - 1], address)
  }

  /** The pool holds the end of each address's last cooldown and how often it was alerted. */
  lemma {:induction false} PoolIsHistory(d: Durations, turns: seq<Turn>, address: string)
    ensures var pool, alerts := After(d, turns), Alerts(d, turns);
      && pool.Hits(address) == TimesAlerted(alerts, address)
      && (address in pool.expires <==> LastAlert(alerts, address).Some?)
      && (address in pool.expires ==>
            var last := LastAlert(alerts, address).value; pool.expires[address] == last.markedAt + d.Seconds(last.level))
    decreases turns
  {
    if turns != [] {
      var before, turn := turns[..|turns| - 1], turns[|turns| - 1];
      PoolIsHistory(d, before, address);
      var alert := AlertOf(After(d, before), turn);
      if alert.Some? {
        assert Alerts(d, turns) == Alerts(d, before) + [alert.value];
        assert Alerts(d, turns)[..|Alerts(d, before)|] == Alerts(d, before);
      } else {
        assert Alerts(d, turns) == Alerts(d, before);
      }
    }
  }

  /** No cooldown is forgotten: the end of every earlier one is at most the later of the expiry now held
      and the last mark. That needs only a clock that never runs back, not positive cooldowns. */
  lemma {:induction false} EveryCooldownHeld(d: Durations, turns: seq<Turn>, now: real)
    requires InClockOrder(turns) && (turns != [] ==> turns[|turns| - 1].markedAt <= now)
    ensures forall a <- Alerts(d, turns) ::
      a.markedAt <= now && a.markedAt + d.Seconds(a.level) <= MaxReal(After(d, turns).Expiry(a.address), now)
    decreases turns
  {
    if turns != [] {
      var before, turn := turns[..|turns| - 1], turns[|turns| - 1];
      EveryCooldownHeld(d, before, turn.checkedAt);
    }
  }

  /** Alerts of one address keep their distance: each is checked no earlier than the end of the cooldown
      of every one before it, however often the address turns up. */
  lemma {:induction false} AlertsSpaced(d: Durations, turns: seq<Turn>, i: nat, j: nat)
    requires InClockOrder(turns)
    requires i < j < |Alerts(d, turns)| && Alerts(d, turns)[i].address == Alerts(d, turns)[j].address
    ensures var alerts := Alerts(d, turns);
      var seconds := match alerts[i].level case High => d.high case Medium => d.medium case Observe => d.observe;
      alerts[j].markedAt >= alerts[j].checkedAt >= alerts[i].markedAt + seconds as real
    decreases turns
  {
    var before, turn := turns[..|turns| - 1], turns[|turns| - 1];
    if j < |Alerts(d, before)| {
      AlertsSpaced(d, before, i, j);
    } else {
      EveryCooldownHeld(d, before, turn.checkedAt);
      assert Alerts(d, before)[i] in Alerts(d, before);
    }
  }

  /** A deliverable signal is held back exactly while the cooldown of some earlier alert of its address
      runs; the absent expiry counts as instant zero. */
  lemma {:induction false} HeldBackIff(d: Durations, turns: seq<Turn>, turn: Turn)
    requires InClockOrder(turns + [turn]) && turn.delivered && turn.checkedAt >= 0.0
    ensures AlertOf(After(d, turns), turn).None? <==>
            exists a <- Alerts(d, turns) ::
              && a.address == turn.address
              && turn.checkedAt - a.markedAt < (match a.level case High => d.high case Medium => d.medium case Observe => d.observe) as real
  {
    PoolIsHistory(d, turns, turn.address);
    OneMoreTurn(d, turns, turn);
    EveryCooldownHeld(d, turns, turn.checkedAt);
    var alerts := Alerts(d, turns);
    if After(d, turns).Cooling(turn.address, turn.checkedAt) {
      var last := LastAlert(alerts, turn.address).value;
      assert last in alerts && last.markedAt + d.Seconds(last.level) > turn.checkedAt;
    } else {
      forall a <- alerts | a.address == turn.address ensures a.markedAt + d.Seconds(a.level) <= turn.checkedAt {
      }
    }
  }

  /** The factors of one address run 1, 1, 0.6, 0.3, 0.3, … */
  function FactorOf(earlier: nat): real
  {
    if earlier <= 1 then 1.0 else if earlier == 2 then 0.6 else 0.3
  }

  lemma {:induction false} FactorsByCount(d: Durations, turns: seq<Turn>, i: nat)
    requires i < |Alerts(d, turns)|
    ensures Alerts(d, turns)[i].factor == FactorOf(TimesAlerted(Alerts(d, turns)[..i], Alerts(d, turns)[i].address))
    decreases turns
  {
    var before, turn := turns[..|turns| - 1], turns[|turns| - 1];
    if i < |Alerts(d, before)| {
      FactorsByCount(d, before, i);
      assert Alerts(d, turns)[..i] == Alerts(d, before)[..i];
    } else {
      PoolIsHistory(d, before, turn.address);
      assert Alerts(d, turns)[..i] == Alerts(d, before);
    }
  }

  class CooldownManager {
    const durations: Durations
    var cooldown: map<string, real>
    var hitCounts: map<string, nat>

    ghost function Snapshot(): Pool
      reads this
    {
      Pool(cooldown, hitCounts)
    }

    constructor (durations: Durations)
      ensures Snapshot() == EMPTY && this.durations == durations
    {
      this.durations := durations;
      cooldown, hitCounts := map[], map[];
    }

    method IsCooling(address: string, clock: Clock) returns (cooling: bool)
      modifies clock
      ensures cooling == Snapshot().Cooling(address, clock.now) && clock.now >= old(clock.now)
    {
      var expires := if address in cooldown then cooldown[address] else 0.0;
      var now := clock.Read();
      cooling := expires > now;
    }

    method DecayFactor(address: string) returns (factor: real)
      ensures factor == Snapshot().Decay(address)
    {
      var hits := if address in hitCounts then hitCounts[address] else 0;
      if hits >= 3 {
        return 0.3;
      }
      if hits == 2 {
        return 0.6;
      }
      return 1.0;
    }

    method Mark(address: string, level: Level, clock: Clock)
      modifies this, clock
      ensures Snapshot() == old(Snapshot()).Marked(durations, address, level, clock.now) && clock.now >= old(clock.now)
    {
      var seconds := match level case High => durations.high case Observe => durations.observe case Medium => durations.medium;
      var now := clock.Read();
      cooldown := cooldown[address := now + seconds as real];
      hitCounts := hitCounts[address := (if address in hitCounts then hitCounts[address] else 0) + 1];
    }
  }
}

/** src/shared/db/repository.py and src/app/services/chain_pipeline_service.py: how schedulers,
    manual requests and replays on any number of nodes share the table `pipeline_runs`. Each database
    transaction is one step; the nodes share one clock. */
module PipelineRuns {
  import opened Common

  type Chain = string
  type RunId = string
  type Worker = nat

  datatype Trigger = Manual | Scheduler | Replay

  datatype Status = Running | Success | Failed

  /** What the partial unique index of the table is on. */
  datatype Slot = Slot(chain: Chain, strategy: string, minute: int)

  datatype Row = Row(slot: Slot, trigger: Trigger, status: Status, startedAt: real)

  type Rows = map<RunId, Row>

  // ----- The statements -----

  /** `INSERT ... ON CONFLICT (chain_id, strategy_version, ts_minute) WHERE trigger <> 'replay' DO NOTHING` */
  ghost predicate Taken(rows: Rows, slot: Slot)
  {
    exists id :: id in rows && rows[id].slot == slot && rows[id].trigger != Replay
  }

  ghost function Started(rows: Rows, slot: Slot, trigger: Trigger, id: RunId, now: real): Rows
  {
    if trigger != Replay && Taken(rows, slot) then rows else rows[id := Row(slot, trigger, Running, now)]
  }

  /** The update of `mark_pipeline_run_status`, which names the row by slot and run id. */
  function Marked(rows: Rows, slot: Slot, status: Status, id: RunId): Rows
  {
    if id in rows && rows[id].slot == slot then rows[id := rows[id].(status := status)] else rows
  }

  predicate IsActive(row: Row, chain: Chain, staleAfter: real)
  {
    row.slot.chain == chain && row.trigger == Replay && row.status == Running && row.startedAt >= staleAfter
  }

  function Active(rows: Rows, chain: Chain, staleAfter: real): set<RunId>
  {
    set id | id in rows && IsActive(rows[id], chain, staleAfter)
  }

  // ----- Written data -----

  /** The key of one stored row: its table, and chain, token and minute, and for scores the strategy. */
  datatype DataKey = DataKey(table: string, chain: Chain, token: string, minute: int, strategy: string)

  type Payload = seq<(DataKey, string)>

  /** `INSERT ... ON CONFLICT DO UPDATE`, row after row. */
  function Upsert(data: map<DataKey, string>, payload: Payload): map<DataKey, string>
    decreases payload
  {
    if payload == [] then data else Upsert(data[payload[0].0 := payload[0].1], payload[1..])
  }

  lemma {:induction false} UpsertConcat(data: map<DataKey, string>, p: Payload, q: Payload)
    ensures Upsert(data, p + q) == Upsert(Upsert(data, p), q)
    decreases p
  {
    if p == [] {
      assert p + q == q;
    } else {
      assert (p + q)[1..] == p[1..] + q;
      UpsertConcat(data[p[0].0 := p[0].1], p[1..], q);
    }
  }

  /** Nothing is ever deleted, and every written key is there afterwards. */
  lemma {:induction false} UpsertHas(data: map<DataKey, string>, payload: Payload)
    ensures data.Keys <= Upsert(data, payload).Keys
    ensures forall i :: 0 <= i < |payload| ==> payload[i].0 in Upsert(data, payload)
    decreases payload
  {
    if payload != [] {
      UpsertHas(data[payload[0].0 := payload[0].1], payload[1..]);
      forall i | 0 <= i < |payload| ensures payload[i].0 in Upsert(data, payload) {
        if i > 0 { assert payload[1..][i - 1] == payload[i]; }
      }
    }
  }

  /** Of several rows with one key the last one stays. */
  lemma {:induction false} UpsertLast(data: map<DataKey, string>, payload: Payload, i: nat)
    requires i < |payload| && forall j :: i < j < |payload| ==> payload[j].0 != payload[i].0
    ensures payload[i].0 in Upsert(data, payload) && Upsert(data, payload)[payload[i].0] == payload[i].1
    decreases payload
  {
    var rest := payload[1..];
    assert forall j :: 0 <= j < |rest| ==> rest[j] == payload[j + 1];
    if i > 0 {
      UpsertLast(data[payload[0].0 := payload[0].1], rest, i - 1);
    } else {
      UpsertElsewhere(data[payload[0].0 := payload[0].1], rest, payload[0].0);
    }
  }

  /** A key without a row keeps what it held. */
  lemma {:induction false} UpsertElsewhere(data: map<DataKey, string>, payload: Payload, key: DataKey)
    requires forall j :: 0 <= j < |payload| ==> payload[j].0 != key
    ensures key in Upsert(data, payload) <==> key in data
    ensures key in data ==> Upsert(data, payload)[key] == data[key]
    decreases payload
  {
    if payload != [] {
      assert forall j :: 0 <= j < |payload[1..]| ==> payload[1..][j] == payload[j + 1];
      UpsertElsewhere(data[payload[0].0 := payload[0].1], payload[1..], key);
    }
  }

  /** Batching does not change what is written. */
  method SaveInBatches(data: map<DataKey, string>, payload: Payload, batchSize: int) returns (saved: map<DataKey, string>)
    ensures saved == Upsert(data, payload)
  {
    var size := MaxInt(1, batchSize);
    saved := data;
    var idx := 0;
    while idx < |payload|
      invariant 0 <= idx <= |payload| && saved == Upsert(data, payload[..idx])
      decreases |payload| - idx
    {
      var end := MinInt(idx + size, |payload|);
      UpsertConcat(data, payload[..idx], payload[idx..end]);
      assert payload[..idx] + payload[idx..end] == payload[..end];
      saved := Upsert(saved, payload[idx..end]);
      idx := end;
    }
    assert payload[..idx] == payload;
  }

  // ----- The protocol -----

  /** How far a node is with one admitted run. A timed-out run ends while its persisting thread,
      which cannot be cancelled, goes on. */
  datatype Stage = Preparing | Persisting(payload: Payload) | Ended

  /** How far a worker is with the admission of a replay, all of it under the chain's advisory lock. */
  datatype Admission = Locked(chain: Chain) | Counted(chain: Chain, active: nat) | Inserted(chain: Chain)

  datatype Commit = Commit(id: RunId, payload: Payload)

  datatype World = World(
    now: real,
    rows: Rows,
    stages: map<RunId, Stage>,
    threads: map<RunId, Payload>,
    computed: map<RunId, Payload>,
    locks: map<Chain, Worker>,
    admissions: map<Worker, Admission>,
    log: seq<Commit>,
    data: map<DataKey, string>)

  const START := World(0.0, map[], map[], map[], map[], map[], map[], [], map[])

  datatype Settings = Settings(replayLimit: nat, staleSeconds: real)

  datatype Event =
    | Wait(seconds: real)
    | Claim(id: RunId, slot: Slot, trigger: Trigger)
    | TakeLock(worker: Worker, chain: Chain)
    | Count(worker: Worker)
    | InsertReplay(worker: Worker, id: RunId, slot: Slot, startedAt: real)
    | Unlock(worker: Worker)
    | Prepare(id: RunId, payload: Payload)
    | Persist(id: RunId)
    | RollBack(id: RunId)
    | MarkFailed(id: RunId)
    | Stop(id: RunId)

  ghost predicate Enabled(s: Settings, w: World, e: Event)
  {
    match e
    case Wait(seconds) => seconds >= 0.0
    case Claim(id, _, trigger) => id !in w.rows && trigger != Replay
    case TakeLock(worker, chain) => worker !in w.admissions && chain !in w.locks
    case Count(worker) => worker in w.admissions && w.admissions[worker].Locked?
    case InsertReplay(worker, id, slot, startedAt) =>
      && worker in w.admissions && w.admissions[worker].Counted? && w.admissions[worker].active < s.replayLimit
      && slot.chain == w.admissions[worker].chain && id !in w.rows && startedAt <= w.now
    case Unlock(worker) => worker in w.admissions
    case Prepare(id, _) => id in w.stages && w.stages[id].Preparing?
    case Persist(id) => id in w.threads && id in w.rows
    case RollBack(id) => id in w.threads
    case MarkFailed(id) => id in w.stages && !w.stages[id].Ended? && id in w.rows
    case Stop(id) => id in w.stages
  }

  ghost function Next(s: Settings, w: World, e: Event): World
    requires Enabled(s, w, e)
  {
    match e
    case Wait(seconds) => w.(now := w.now + seconds)
    case Claim(id, slot, trigger) =>
      var rows := Started(w.rows, slot, trigger, id, w.now);
      // a run is executed only if its row was inserted
      w.(rows := rows, stages := if id in rows then w.stages[id := Preparing] else w.stages)
    case TakeLock(worker, chain) =>
      w.(locks := w.locks[chain := worker], admissions := w.admissions[worker := Locked(chain)])
    case Count(worker) =>
      var chain := w.admissions[worker].chain;
      w.(admissions := w.admissions[worker := Counted(chain, |Active(w.rows, chain, w.now - s.staleSeconds)|)])
    case InsertReplay(worker, id, slot, startedAt) =>
      w.(rows := Started(w.rows, slot, Replay, id, startedAt), stages := w.stages[id := Preparing],
         admissions := w.admissions[worker := Inserted(slot.chain)])
    case Unlock(worker) =>
      w.(locks := w.locks - {w.admissions[worker].chain}, admissions := w.admissions - {worker})
    case Prepare(id, payload) =>
      w.(stages := w.stages[id := Persisting(payload)], threads := w.threads[id := payload],
         computed := w.computed[id := payload])
    case Persist(id) =>
      var payload := w.threads[id];
      w.(rows := Marked(w.rows, w.rows[id].slot, Success, id), threads := w.threads - {id},
         log := w.log + [Commit(id, payload)], data := Upsert(w.data, payload))
    case RollBack(id) => w.(threads := w.threads - {id})
    case MarkFailed(id) =>
      w.(rows := Marked(w.rows, w.rows[id].slot, Failed, id), stages := w.stages[id := Ended])
    case Stop(id) => w.(stages := w.stages[id := Ended])
  }

  ghost predicate Behaves(s: Settings, w: World, events: seq<Event>)
    decreases events
  {
    events == [] || (Enabled(s, w, events[0]) && Behaves(s, Next(s, w, events[0]), events[1..]))
  }

  ghost function After(s: Settings, w: World, events: seq<Event>): World
    requires Behaves(s, w, events)
    decreases events
  {
    if events == [] then w else After(s, Next(s, w, events[0]), events[1..])
  }

  // ----- At most one claim per slot -----

  ghost predicate Claims(w: World, id: RunId)
  {
    id in w.rows && w.rows[id].trigger != Replay
  }

  ghost predicate OnePerSlot(w: World)
  {
    && (forall i, j :: Claims(w, i) && Claims(w, j) && w.rows[i].slot == w.rows[j].slot ==> i == j)
    && w.stages.Keys <= w.rows.Keys
    && w.threads.Keys <= w.rows.Keys
  }

  lemma StepOnePerSlot(s: Settings, w: World, e: Event)
    requires OnePerSlot(w) && Enabled(s, w, e)
    ensures OnePerSlot(Next(s, w, e))
  {
  }

  lemma {:induction false} AlwaysOnePerSlot(s: Settings, w: World, events: seq<Event>)
    requires OnePerSlot(w) && Behaves(s, w, events)
    ensures OnePerSlot(After(s, w, events))
    decreases events
  {
    if events != [] {
      StepOnePerSlot(s, w, events[0]);
      AlwaysOnePerSlot(s, Next(s, w, events[0]), events[1..]);
    }
  }

  /** Whoever claims, at most one run per chain, strategy and minute is executed that is not a replay, and
      what such runs commit for it all comes from that one. */
  lemma AtMostOnce(s: Settings, events: seq<Event>, i: RunId, j: RunId)
    requires Behaves(s, START, events)
    ensures var w := After(s, START, events);
      (i in w.stages ==> i in w.rows)
      && (i in w.stages && j in w.stages && Claims(w, i) && Claims(w, j) && w.rows[i].slot == w.rows[j].slot ==> i == j)
      && (forall c, d :: c in w.log && d in w.log && Claims(w, c.id) && Claims(w, d.id) && w.rows[c.id].slot == w.rows[d.id].slot ==>
            c.id == d.id)
  {
    AlwaysOnePerSlot(s, START, events);
  }

  lemma StepTaken(s: Settings, w: World, e: Event, slot: Slot)
    requires Enabled(s, w, e)
    ensures Taken(Next(s, w, e).rows, slot) <==> Taken(w.rows, slot) || (e.Claim? && e.slot == slot)
  {
    var n := Next(s, w, e);
    if Taken(w.rows, slot) {
      var id :| id in w.rows && w.rows[id].slot == slot && w.rows[id].trigger != Replay;
      assert id in n.rows && n.rows[id].slot == slot && n.rows[id].trigger != Replay;
    }
    if Taken(n.rows, slot) {
      var id :| id in n.rows && n.rows[id].slot == slot && n.rows[id].trigger != Replay;
    }
    if e.Claim? && e.slot == slot && !Taken(w.rows, slot) {
      assert e.id in n.rows && n.rows[e.id].slot == slot && n.rows[e.id].trigger != Replay;
    }
  }

  lemma {:induction false} AlwaysTaken(s: Settings, w: World, events: seq<Event>, slot: Slot)
    requires Behaves(s, w, events)
    ensures Taken(After(s, w, events).rows, slot)
            <==> Taken(w.rows, slot) || exists i :: 0 <= i < |events| && events[i].Claim? && events[i].slot == slot
    decreases events
  {
    if events != [] {
      StepTaken(s, w, events[0], slot);
      AlwaysTaken(s, Next(s, w, events[0]), events[1..], slot);
      assert forall i :: 0 < i < |events| ==> events[i] == events[1..][i - 1];
      if i :| 0 <= i < |events[1..]| && events[1..][i].Claim? && events[1..][i].slot == slot {
        assert events[i + 1].Claim? && events[i + 1].slot == slot;
      }
    }
  }

  /** And the slot is never lost: the first claim of it is the one that starts a run, whatever was replayed,
      finished or failed before. */
  lemma ClaimedIff(s: Settings, events: seq<Event>, id: RunId, slot: Slot, trigger: Trigger)
    requires Behaves(s, START, events) && Enabled(s, After(s, START, events), Claim(id, slot, trigger))
    ensures var n := Next(s, After(s, START, events), Claim(id, slot, trigger));
      && (id in n.rows <==> forall i :: 0 <= i < |events| && events[i].Claim? ==> events[i].slot != slot)
      && (id in n.rows ==> n.rows[id].status == Running && id in n.stages && n.stages[id].Preparing?)
  {
    AlwaysTaken(s, START, events, slot);
  }

  // ----- The life of a row -----

  /** The last status written to a row by an event of the run. */
  function LastMark(events: seq<Event>, id: RunId, before: Status): Status
    decreases events
  {
    if events == [] then before else LastMark(events[1..], id, MarkOf(events[0], id, before))
  }

  function MarkOf(e: Event, id: RunId, before: Status): Status
  {
    if e == Persist(id) then Success else if e == MarkFailed(id) then Failed else before
  }

  lemma StepRow(s: Settings, w: World, e: Event, id: RunId)
    requires Enabled(s, w, e) && id in w.rows
    ensures var n := Next(s, w, e);
      id in n.rows && n.rows[id] == w.rows[id].(status := MarkOf(e, id, w.rows[id].status))
  {
  }

  /** A row is never removed, keeps its slot, trigger and start, and has the status of the last
      commit or failure recorded for it. */
  lemma {:induction false} RowLife(s: Settings, w: World, events: seq<Event>, id: RunId)
    requires Behaves(s, w, events) && id in w.rows
    ensures var n := After(s, w, events);
      id in n.rows && n.rows[id] == w.rows[id].(status := LastMark(events, id, w.rows[id].status))
    decreases events
  {
    if events != [] {
      StepRow(s, w, events[0], id);
      RowLife(s, Next(s, w, events[0]), events[1..], id);
    }
  }

  /** So no row returns to running. */
  lemma {:induction false} NeverRunningAgain(s: Settings, w: World, events: seq<Event>, id: RunId)
    requires Behaves(s, w, events) && id in w.rows && w.rows[id].status != Running
    ensures id in After(s, w, events).rows && After(s, w, events).rows[id].status != Running
    decreases events
  {
    if events != [] {
      StepRow(s, w, events[0], id);
      NeverRunningAgain(s, Next(s, w, events[0]), events[1..], id);
    }
  }

  /** But failure is not final: a persisting thread that outlives its timeout turns it to success. */
  lemma LateCommitAfterFailure(s: Settings)
    ensures
      var events := [Claim("r", Slot("bsc", "v1", 0), Manual), Prepare("r", []), MarkFailed("r")];
      && Behaves(s, START, events)
      && (var w := After(s, START, events);
          && "r" in w.rows && w.rows["r"].status == Failed
          && Enabled(s, w, Persist("r")) && Next(s, w, Persist("r")).rows["r"].status == Success)
  {
    var slot := Slot("bsc", "v1", 0);
    var events := [Claim("r", slot, Manual), Prepare("r", []), MarkFailed("r")];
    var w1 := Next(s, START, events[0]);
    var w2 := Next(s, w1, events[1]);
    var w3 := Next(s, w2, events[2]);
    assert !Taken(START.rows, slot);
    assert events[1..][1..] == [events[2]] && [events[2]][1..] == [];
    Unfold(s, w2, [events[2]], w3);
    Unfold(s, w1, events[1..], w3);
    Unfold(s, START, events, w3);
  }

  lemma Unfold(s: Settings, w: World, events: seq<Event>, n: World)
    requires events != [] && Enabled(s, w, events[0])
    requires Behaves(s, Next(s, w, events[0]), events[1..]) && After(s, Next(s, w, events[0]), events[1..]) == n
    ensures Behaves(s, w, events) && After(s, w, events) == n
  {
  }

  /** A failed run has ended, and nothing starts it again. */
  ghost predicate FailedEnded(w: World)
  {
    forall id :: id in w.rows && w.rows[id].status == Failed ==> HasEnded(w, id)
  }

  ghost predicate HasEnded(w: World, id: RunId) { id in w.stages && w.stages[id].Ended? }

  lemma StaysEnded(s: Settings, w: World, e: Event, id: RunId)
    requires Enabled(s, w, e) && id in w.rows && HasEnded(w, id)
    ensures HasEnded(Next(s, w, e), id)
    ensures id !in w.threads ==> id !in Next(s, w, e).threads
  {
  }

  lemma StepFailedEnded(s: Settings, w: World, e: Event)
    requires FailedEnded(w) && Enabled(s, w, e)
    ensures FailedEnded(Next(s, w, e))
  {
    var n := Next(s, w, e);
    forall id | id in n.rows && n.rows[id].status == Failed ensures HasEnded(n, id) {
      if id in w.rows {
        StepRow(s, w, e, id);
        if w.rows[id].status == Failed { StaysEnded(s, w, e, id); }
      }
    }
  }

  lemma {:induction false} AlwaysFailedEnded(s: Settings, w: World, events: seq<Event>)
    requires FailedEnded(w) && Behaves(s, w, events)
    ensures FailedEnded(After(s, w, events))
    decreases events
  {
    if events != [] {
      StepFailedEnded(s, w, events[0]);
      AlwaysFailedEnded(s, Next(s, w, events[0]), events[1..]);
    }
  }

  ghost predicate CanSucceed(s: Settings, w: World, id: RunId)
  {
    exists events :: Behaves(s, w, events) && id in After(s, w, events).rows && After(s, w, events).rows[id].status == Success
  }

  /** In every reachable state a failed run can still turn to success exactly when a thread of its goes
      on persisting. */
  lemma FailureNotFinalIff(s: Settings, events: seq<Event>, id: RunId)
    requires Behaves(s, START, events)
    requires id in After(s, START, events).rows && After(s, START, events).rows[id].status == Failed
    ensures CanSucceed(s, After(s, START, events), id) <==> id in After(s, START, events).threads
  {
    var w := After(s, START, events);
    AlwaysFailedEnded(s, START, events);
    if id in w.threads {
      PersistSucceeds(s, w, id);
    } else {
      forall later | Behaves(s, w, later) ensures id in After(s, w, later).rows && After(s, w, later).rows[id].status == Failed {
        StaysFailed(s, w, later, id);
      }
    }
  }

  lemma PersistSucceeds(s: Settings, w: World, id: RunId)
    requires id in w.threads && id in w.rows
    ensures CanSucceed(s, w, id)
  {
    var persist := [Persist(id)];
    var n := Next(s, w, persist[0]);
    assert persist[1..] == [];
    assert Behaves(s, n, persist[1..]) && After(s, n, persist[1..]) == n;
    assert Behaves(s, w, persist) && After(s, w, persist) == n;
  }

  lemma {:induction false} StaysFailed(s: Settings, w: World, events: seq<Event>, id: RunId)
    requires Behaves(s, w, events) && id in w.rows && w.rows[id].status == Failed
    requires HasEnded(w, id) && id !in w.threads
    ensures id in After(s, w, events).rows && After(s, w, events).rows[id].status == Failed
    decreases events
  {
    if events != [] {
      StepRow(s, w, events[0], id);
      StaysEnded(s, w, events[0], id);
      StaysFailed(s, Next(s, w, events[0]), events[1..], id);
    }
  }

  // ----- Success means persisted -----

  function Replayed(log: seq<Commit>): map<DataKey, string>
    decreases log
  {
    if log == [] then map[] else Upsert(Replayed(log[..|log| - 1]), log[|log| - 1].payload)
  }

  /** The data is what the commits wrote, and each success was marked by the commit that wrote the
      run's own results. */
  ghost predicate Backed(w: World)
  {
    w.data == Replayed(w.log) && Recorded(w)
  }

  ghost predicate Recorded(w: World)
  {
    && (forall c :: c in w.log ==> c.id in w.computed && w.computed[c.id] == c.payload)
    && (forall id :: id in w.rows && w.rows[id].status == Success ==>
          id in w.computed && Commit(id, w.computed[id]) in w.log)
    && (forall id :: id in w.threads ==> id in w.computed && w.threads[id] == w.computed[id])
    && (forall id :: id in w.stages && w.stages[id].Preparing? ==> id !in w.computed)
    && w.computed.Keys <= w.rows.Keys
    && w.stages.Keys <= w.rows.Keys
  }

  lemma StepBacked(s: Settings, w: World, e: Event)
    requires Backed(w) && Enabled(s, w, e)
    ensures Backed(Next(s, w, e))
  {
    match e {
      case Persist(id) => PersistBacked(s, w, e);
      case Prepare(id, _) => PrepareBacked(s, w, e);
      case Claim(_, _, _) => InsertBacked(s, w, e);
      case InsertReplay(_, _, _, _) => InsertBacked(s, w, e);
      case _ => OtherBacked(s, w, e);
    }
  }

  lemma PersistBacked(s: Settings, w: World, e: Event)
    requires Backed(w) && Enabled(s, w, e) && e.Persist?
    ensures Backed(Next(s, w, e))
  {
    ReplayedSnoc(w.log, Commit(e.id, w.threads[e.id]));
    PersistRecorded(s, w, e);
  }

  lemma ReplayedSnoc(log: seq<Commit>, c: Commit)
    ensures Replayed(log + [c]) == Upsert(Replayed(log), c.payload)
  {
    assert (log + [c])[..|log|] == log;
  }

  lemma PersistRecorded(s: Settings, w: World, e: Event)
    requires Recorded(w) && Enabled(s, w, e) && e.Persist?
    ensures Recorded(Next(s, w, e))
  {
    assert Commit(e.id, w.threads[e.id]) in Next(s, w, e).log;
  }

  lemma PrepareBacked(s: Settings, w: World, e: Event)
    requires Backed(w) && Enabled(s, w, e) && e.Prepare?
    ensures Backed(Next(s, w, e))
  {
    assert w.stages[e.id].Preparing?;
  }

  lemma InsertBacked(s: Settings, w: World, e: Event)
    requires Backed(w) && Enabled(s, w, e) && (e.Claim? || e.InsertReplay?)
    ensures Backed(Next(s, w, e))
  {
  }

  lemma OtherBacked(s: Settings, w: World, e: Event)
    requires Backed(w) && Enabled(s, w, e) && !e.Persist? && !e.Prepare? && !e.Claim? && !e.InsertReplay?
    ensures Backed(Next(s, w, e))
  {
  }

  lemma {:induction false} AlwaysBacked(s: Settings, w: World, events: seq<Event>)
    requires Backed(w) && Behaves(s, w, events)
    ensures Backed(After(s, w, events))
    decreases events
  {
    if events != [] {
      StepBacked(s, w, events[0]);
      AlwaysBacked(s, Next(s, w, events[0]), events[1..]);
    }
  }

  lemma {:induction false} ReplayedHas(log: seq<Commit>, c: Commit)
    requires c in log
    ensures forall i :: 0 <= i < |c.payload| ==> c.payload[i].0 in Replayed(log)
    decreases log
  {
    var n := |log| - 1;
    UpsertHas(Replayed(log[..n]), log[n].payload);
    if c != log[n] {
      assert c in log[..n];
      ReplayedHas(log[..n], c);
    }
  }

  /** A run whose row says success has every tick, feature and score it computed in the database,
      even when the timeout of its persisting thread was followed by marking it failed; and the data
      is what the commits wrote, in their order. */
  lemma SuccessMeansPersisted(s: Settings, events: seq<Event>, id: RunId)
    requires Behaves(s, START, events)
    ensures var w := After(s, START, events);
      && w.data == Replayed(w.log)
      && (id in w.rows && w.rows[id].status == Success ==>
            && id in w.computed && Commit(id, w.computed[id]) in w.log
            && (forall i :: 0 <= i < |w.computed[id]| ==> w.computed[id][i].0 in w.data))
  {
    AlwaysBacked(s, START, events);
    var w := After(s, START, events);
    if id in w.rows && w.rows[id].status == Success {
      ReplayedHas(w.log, Commit(id, w.computed[id]));
    }
  }

  // ----- Replay admission -----

  function ActiveNow(s: Settings, w: World, chain: Chain): set<RunId>
  {
    Active(w.rows, chain, w.now - s.staleSeconds)
  }

  /** Admissions of a chain hold its lock; a count taken under the lock is never too low later on. */
  ghost predicate Guarded(s: Settings, w: World)
  {
    && (forall v :: v in w.admissions ==> w.admissions[v].chain in w.locks && w.locks[w.admissions[v].chain] == v)
    && (forall v :: v in w.admissions && w.admissions[v].Counted? ==>
          |ActiveNow(s, w, w.admissions[v].chain)| <= w.admissions[v].active)
    && (forall chain :: |ActiveNow(s, w, chain)| <= s.replayLimit)
  }

  /** A row counts, and counts once, exactly when it is a running replay of the chain that is not stale. */
  lemma OneMoreRow(rows: Rows, id: RunId, row: Row, chain: Chain, staleAfter: real)
    requires id !in rows
    ensures |Active(rows[id := row], chain, staleAfter)|
            == |Active(rows, chain, staleAfter)| + if IsActive(row, chain, staleAfter) then 1 else 0
  {
    var before, after := Active(rows, chain, staleAfter), Active(rows[id := row], chain, staleAfter);
    if IsActive(row, chain, staleAfter) {
      assert after == before + {id};
    } else {
      assert after == before;
    }
  }

  /** Only inserting a replay makes the active set of a chain larger, and by one row at most: marks
      and the passing of time only shrink it. */
  lemma ActiveShrinks(s: Settings, w: World, e: Event, chain: Chain)
    requires Enabled(s, w, e)
    ensures var before, after := ActiveNow(s, w, chain), ActiveNow(s, Next(s, w, e), chain);
      && (if e.InsertReplay? && e.slot.chain == chain then after <= before + {e.id} && |after| <= |before| + 1
          else after <= before && |after| <= |before|)
  {
    var before, after := ActiveNow(s, w, chain), ActiveNow(s, Next(s, w, e), chain);
    if e.InsertReplay? && e.slot.chain == chain {
      SubsetSize(after, before + {e.id});
    } else {
      SubsetSize(after, before);
    }
  }

  lemma StepGuarded(s: Settings, w: World, e: Event)
    requires Guarded(s, w) && Enabled(s, w, e)
    ensures Guarded(s, Next(s, w, e))
  {
    var n := Next(s, w, e);
    forall chain ensures |ActiveNow(s, n, chain)| <= s.replayLimit {
      ActiveShrinks(s, w, e, chain);
    }
    forall v | v in n.admissions && n.admissions[v].Counted?
      ensures |ActiveNow(s, n, n.admissions[v].chain)| <= n.admissions[v].active
    {
      ActiveShrinks(s, w, e, n.admissions[v].chain);
    }
  }

  lemma {:induction false} AlwaysGuarded(s: Settings, w: World, events: seq<Event>)
    requires Guarded(s, w) && Behaves(s, w, events)
    ensures Guarded(s, After(s, w, events))
    decreases events
  {
    if events != [] {
      StepGuarded(s, w, events[0]);
      AlwaysGuarded(s, Next(s, w, events[0]), events[1..]);
    }
  }

  /** What the events so far tell about a row: whether it is a replay, of which slot and since when, and
      whether it still runs. */
  ghost predicate Tells(past: seq<Event>, w: World, id: RunId)
  {
    && (forall e :: e in past && e.InsertReplay? && e.id == id ==>
          id in w.rows && w.rows[id].trigger == Replay && w.rows[id].slot == e.slot && w.rows[id].startedAt == e.startedAt)
    && (id in w.rows && w.rows[id].trigger == Replay ==> exists e :: e in past && e.InsertReplay? && e.id == id)
    && (Persist(id) in past || MarkFailed(id) in past <==> id in w.rows && w.rows[id].status != Running)
  }

  lemma StepTells(s: Settings, past: seq<Event>, w: World, e: Event, id: RunId)
    requires Tells(past, w, id) && Enabled(s, w, e)
    ensures Tells(past + [e], Next(s, w, e), id)
  {
    if id in w.rows {
      StepRow(s, w, e, id);
      if w.rows[id].trigger == Replay {
        var f :| f in past && f.InsertReplay? && f.id == id;
        assert f in past + [e];
      }
    } else if e.InsertReplay? && e.id == id {
      assert e in past + [e];
    }
  }

  lemma {:induction false} AlwaysTells(s: Settings, past: seq<Event>, w: World, events: seq<Event>, id: RunId)
    requires Tells(past, w, id) && Behaves(s, w, events)
    ensures Tells(past + events, After(s, w, events), id)
    decreases events
  {
    if events == [] {
      assert past + [] == past;
    } else {
      StepTells(s, past, w, events[0], id);
      assert past + events == (past + [events[0]]) + events[1..];
      AlwaysTells(s, past + [events[0]], Next(s, w, events[0]), events[1..], id);
    }
  }

  /** A run counts against the limit of a chain exactly when it was inserted as a replay of the chain, less
      than the stale time ago, and was neither persisted nor marked failed since. */
  lemma ActiveIff(s: Settings, events: seq<Event>, id: RunId, chain: Chain)
    requires Behaves(s, START, events)
    ensures var w := After(s, START, events);
      id in ActiveNow(s, w, chain) <==>
        && (exists e :: e in events && e.InsertReplay? && e.id == id && e.slot.chain == chain && e.startedAt >= w.now - s.staleSeconds)
        && Persist(id) !in events && MarkFailed(id) !in events
  {
    AlwaysTells(s, [], START, events, id);
    assert [] + events == events;
    var w := After(s, START, events);
    if id in ActiveNow(s, w, chain) {
      var e :| e in events && e.InsertReplay? && e.id == id;
      assert e.slot.chain == chain && e.startedAt >= w.now - s.staleSeconds;
    }
  }

  /** And no replay is refused without need: a worker that finds the chain unlocked admits one exactly while
      fewer than the limit are active. */
  lemma ReplayAdmittedIff(s: Settings, w: World, worker: Worker, id: RunId, slot: Slot)
    requires worker !in w.admissions && slot.chain !in w.locks && id !in w.rows
    ensures Behaves(s, w, [TakeLock(worker, slot.chain), Count(worker), InsertReplay(worker, id, slot, w.now)])
            <==> |ActiveNow(s, w, slot.chain)| < s.replayLimit
  {
    var events := [TakeLock(worker, slot.chain), Count(worker), InsertReplay(worker, id, slot, w.now)];
    var w1 := Next(s, w, events[0]);
    var w2 := Next(s, w1, events[1]);
    assert events[1..] == [events[1], events[2]] && events[1..][1..] == [events[2]] && [events[2]][1..] == [];
    assert Behaves(s, w, events) <==> Behaves(s, w1, events[1..]);
    assert Behaves(s, w1, events[1..]) <==> Behaves(s, w2, [events[2]]);
    assert Behaves(s, w2, [events[2]]) <==> Enabled(s, w2, events[2]);
  }

  /** The lock comes free: once its holder unlocks, anybody else can take it. */
  lemma UnlockFrees(s: Settings, events: seq<Event>, worker: Worker, other: Worker)
    requires Behaves(s, START, events) && worker in After(s, START, events).admissions
    ensures var w := After(s, START, events);
      var n := Next(s, w, Unlock(worker));
      && (other !in n.admissions ==> Enabled(s, n, TakeLock(other, w.admissions[worker].chain)))
      && (other in n.admissions <==> other in w.admissions && other != worker)
  {
    assert forall c :: ActiveNow(s, START, c) == {};
    AlwaysGuarded(s, START, events);
  }

  /** Over all workers, nodes and interleavings, the running, non-stale replays of a chain never
      exceed the limit, although counting and inserting are separate transactions. */
  lemma ReplaysLimited(s: Settings, events: seq<Event>, chain: Chain)
    requires Behaves(s, START, events)
    ensures |ActiveNow(s, After(s, START, events), chain)| <= s.replayLimit
  {
    assert forall c :: ActiveNow(s, START, c) == {};
    AlwaysGuarded(s, START, events);
  }

  // ----- The repository -----

  class PipelineRunsTable {
    var rows: Rows

    constructor ()
      ensures rows == map[]
    {
      rows := map[];
    }

    method TryStartPipelineRun(slot: Slot, trigger: Trigger, id: RunId, now: real) returns (started: bool)
      requires id !in rows
      modifies this
      ensures rows == Started(old(rows), slot, trigger, id, now)
      ensures started <==> id in rows
    {
      var conflicting := set i | i in rows && rows[i].slot == slot && rows[i].trigger != Replay;
      if trigger != Replay && conflicting != {} {
        ghost var i :| i in conflicting;
        assert Taken(rows, slot);
        return false;
      }
      assert trigger == Replay || !Taken(rows, slot) by {
        if Taken(rows, slot) {
          var i :| i in rows && rows[i].slot == slot && rows[i].trigger != Replay;
          assert i in conflicting;
        }
      }
      rows := rows[id := Row(slot, trigger, Running, now)];
      started := true;
    }

    method InsertPipelineRunForReplay(slot: Slot, id: RunId, now: real)
      requires id !in rows
      modifies this
      ensures rows == Started(old(rows), slot, Replay, id, now)
    {
      rows := rows[id := Row(slot, Replay, Running, now)];
    }

    method MarkPipelineRunStatus(slot: Slot, status: Status, id: RunId) returns (updated: bool)
      modifies this
      ensures rows == Marked(old(rows), slot, status, id)
      ensures updated <==> id in old(rows) && old(rows)[id].slot == slot
      ensures rows == if updated then old(rows)[id := old(rows)[id].(status := status)] else old(rows)
    {
      updated := id in rows && rows[id].slot == slot;
      if updated {
        rows := rows[id := rows[id].(status := status)];
      }
    }

    /** Row by row. */
    method CountActiveReplayRuns(chain: Chain, staleSeconds: int, now: real) returns (count: nat)
      ensures count == |Active(rows, chain, now - MaxInt(1, staleSeconds) as real)|
    {
      var staleAfter := now - MaxInt(1, staleSeconds) as real;
      var left := rows;
      count := 0;
      while left != map[]
        invariant count + |Active(left, chain, staleAfter)| == |Active(rows, chain, staleAfter)|
        decreases left.Keys
      {
        var id :| id in left;
        var row, rest := left[id], left - {id};
        OneMoreRow(rest, id, row, chain, staleAfter);
        assert rest[id := row] == left;
        if IsActive(row, chain, staleAfter) {
          count := count + 1;
        }
        left := rest;
      }
    }
  }
}

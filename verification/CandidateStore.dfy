/** src/shared/db/repository.py: ranking a batch of scores into candidates, and the short-lived cache
    in front of the latest-candidates query. */
module CandidateStore {
  import opened Common
  import StableSort

  // ----- Ranking one batch -----

  datatype ScoreRow = ScoreRow(chain: string, token: string, conviction: real, tier: string)

  datatype Candidate = Candidate(row: ScoreRow, rank: nat)

  predicate Tiered(row: ScoreRow) { row.tier == "A" || row.tier == "B" || row.tier == "C" }

  function Ranking(rows: seq<ScoreRow>): seq<ScoreRow> { StableSort.Sorted(rows, (r: ScoreRow) => r.conviction) }

  /** The tiered rows of a ranking with their positions in it, the first row being number `first`. */
  function Numbered(ranking: seq<ScoreRow>, first: nat): seq<Candidate>
    decreases ranking
  {
    if ranking == [] then []
    else (if Tiered(ranking[0]) then [Candidate(ranking[0], first)] else []) + Numbered(ranking[1..], first + 1)
  }

  function Candidates(rows: seq<ScoreRow>): seq<Candidate> { Numbered(Ranking(rows), 1) }

  /** From the first row without a tier on, no row has one. */
  ghost predicate TieredFirst(ranking: seq<ScoreRow>)
    decreases ranking
  {
    ranking == []
    || (if Tiered(ranking[0]) then TieredFirst(ranking[1..])
        else forall i :: 0 <= i < |ranking| ==> !Tiered(ranking[i]))
  }

  /** Each candidate is the row at its rank, and has a tier. */
  lemma {:induction false} NumberedRows(ranking: seq<ScoreRow>, first: nat, i: nat)
    requires i < |Numbered(ranking, first)|
    ensures var c := Numbered(ranking, first)[i];
      first <= c.rank < first + |ranking| && c.row == ranking[c.rank - first] && Tiered(c.row)
    decreases ranking
  {
    var skipped := if Tiered(ranking[0]) then 1 else 0;
    if i >= skipped {
      assert Numbered(ranking, first)[i] == Numbered(ranking[1..], first + 1)[i - skipped];
      NumberedRows(ranking[1..], first + 1, i - skipped);
    }
  }

  /** Ranks rise, and none is skipped downwards. */
  lemma {:induction false} NumberedRises(ranking: seq<ScoreRow>, first: nat)
    ensures var c := Numbered(ranking, first);
      && |c| <= |ranking|
      && (forall i :: 0 <= i < |c| ==> c[i].rank >= first + i)
      && (forall i, j :: 0 <= i < j < |c| ==> c[i].rank < c[j].rank)
    decreases ranking
  {
    if ranking != [] {
      NumberedRises(ranking[1..], first + 1);
      var rest := Numbered(ranking[1..], first + 1);
      if !Tiered(ranking[0]) { assert Numbered(ranking, first) == rest; }
    }
  }

  lemma {:induction false} NoneNumbered(ranking: seq<ScoreRow>, first: nat)
    ensures Numbered(ranking, first) == [] <==> forall i :: 0 <= i < |ranking| ==> !Tiered(ranking[i])
    decreases ranking
  {
    if ranking != [] {
      NoneNumbered(ranking[1..], first + 1);
      assert forall i :: 1 <= i < |ranking| ==> ranking[i] == ranking[1..][i - 1];
    }
  }

  ghost predicate Consecutive(c: seq<Candidate>, first: nat)
  {
    forall i :: 0 <= i < |c| ==> c[i].rank == first + i
  }

  lemma ConsecutiveTail(x: Candidate, c: seq<Candidate>, first: nat)
    requires x.rank == first
    ensures Consecutive([x] + c, first) <==> Consecutive(c, first + 1)
  {
    assert forall i :: 0 <= i < |c| ==> ([x] + c)[i + 1] == c[i];
    if Consecutive([x] + c, first) {
      forall i | 0 <= i < |c| ensures c[i].rank == first + 1 + i {
        assert ([x] + c)[i + 1] == c[i];
      }
    }
  }

  lemma {:induction false} ConsecutiveIff(ranking: seq<ScoreRow>, first: nat)
    ensures Consecutive(Numbered(ranking, first), first) <==> TieredFirst(ranking)
    decreases ranking
  {
    if ranking != [] {
      var rest := Numbered(ranking[1..], first + 1);
      if Tiered(ranking[0]) {
        ConsecutiveIff(ranking[1..], first + 1);
        ConsecutiveTail(Candidate(ranking[0], first), rest, first);
      } else {
        NoneNumbered(ranking, first);
        NumberedRises(ranking[1..], first + 1);
        assert [] + rest == rest;
        if rest != [] {
          assert rest[0].rank >= first + 1;
        }
      }
    }
  }

  /** The candidates of a batch are its rows of tier A, B or C, each with its position by conviction as its
      rank. So ranks go up while convictions go down; they are exactly 1, 2, ..., one for each candidate, if and
      only if no row without a tier outranks a row with one. */
  lemma RanksOfBatch(rows: seq<ScoreRow>)
    ensures |Ranking(rows)| == |rows| && forall p :: 0 <= p < |rows| ==>
              (Candidate(Ranking(rows)[p], p + 1) in Candidates(rows) <==> Ranking(rows)[p].tier in {"A", "B", "C"})
    ensures var c := Candidates(rows);
      && (forall i, j :: 0 <= i < j < |c| ==> c[i].rank < c[j].rank && c[i].row.conviction >= c[j].row.conviction)
      && (forall i :: 0 <= i < |c| ==> 1 <= c[i].rank <= |rows| && c[i].row in rows)
      && (Consecutive(c, 1) <==> TieredFirst(Ranking(rows)))
  {
    var c := Candidates(rows);
    NumberedRises(Ranking(rows), 1);
    forall i, j | 0 <= i < j < |c| ensures c[i].row.conviction >= c[j].row.conviction { HigherFirst(rows, i, j); }
    forall i | 0 <= i < |c| ensures 1 <= c[i].rank <= |rows| && c[i].row in rows { RankWithin(rows, i); }
    ConsecutiveIff(Ranking(rows), 1);
    StableSort.SortedFacts(rows, (r: ScoreRow) => r.conviction);
    forall p | 0 <= p < |rows|
      ensures Candidate(Ranking(rows)[p], p + 1) in c <==> Ranking(rows)[p].tier in {"A", "B", "C"}
    {
      NumberedIff(Ranking(rows), 1, p);
    }
  }

  lemma {:induction false} NumberedIff(ranking: seq<ScoreRow>, first: nat, p: nat)
    requires p < |ranking|
    ensures Candidate(ranking[p], first + p) in Numbered(ranking, first) <==> Tiered(ranking[p])
    decreases ranking
  {
    var rest := Numbered(ranking[1..], first + 1);
    if p > 0 {
      NumberedIff(ranking[1..], first + 1, p - 1);
    } else if Candidate(ranking[0], first) in rest {
      var i :| 0 <= i < |rest| && rest[i] == Candidate(ranking[0], first);
      NumberedRows(ranking[1..], first + 1, i);
    }
  }

  /** The scoring engine gives every row a tier, so every batch of the pipeline is ranked 1, 2, ..., n. */
  lemma AllTieredRanked(rows: seq<ScoreRow>)
    requires forall i :: 0 <= i < |rows| ==> rows[i].tier in {"A", "B", "C"}
    ensures Consecutive(Candidates(rows), 1) && |Candidates(rows)| == |rows|
  {
    StableSort.SortedFacts(rows, (r: ScoreRow) => r.conviction);
    forall i | 0 <= i < |Ranking(rows)| ensures Tiered(Ranking(rows)[i]) {
      assert Ranking(rows)[i] in multiset(rows);
    }
    AllNumbered(Ranking(rows), 1);
  }

  lemma {:induction false} AllNumbered(ranking: seq<ScoreRow>, first: nat)
    requires forall i :: 0 <= i < |ranking| ==> Tiered(ranking[i])
    ensures Consecutive(Numbered(ranking, first), first) && |Numbered(ranking, first)| == |ranking|
    decreases ranking
  {
    if ranking != [] { AllNumbered(ranking[1..], first + 1); }
  }

  lemma RankWithin(rows: seq<ScoreRow>, i: nat)
    requires i < |Candidates(rows)|
    ensures var c := Candidates(rows)[i];
      1 <= c.rank <= |rows| == |Ranking(rows)| && c.row == Ranking(rows)[c.rank - 1] && c.row in rows
  {
    StableSort.SortedFacts(rows, (r: ScoreRow) => r.conviction);
    NumberedRows(Ranking(rows), 1, i);
    assert Candidates(rows)[i].row in multiset(Ranking(rows));
  }

  lemma HigherFirst(rows: seq<ScoreRow>, i: nat, j: nat)
    requires i < j < |Candidates(rows)|
    ensures Candidates(rows)[i].row.conviction >= Candidates(rows)[j].row.conviction
  {
    StableSort.SortedFacts(rows, (r: ScoreRow) => r.conviction);
    NumberedRises(Ranking(rows), 1);
    RankWithin(rows, i);
    RankWithin(rows, j);
  }

  // ----- The query and its cache -----

  type Chain = string
  type Answer = seq<string>

  datatype Key = Key(chain: Chain, tier: Option<string>, limit: int)

  /** A row as it is upserted: its chain, its key in the tables (table, strategy, token and minute) and
      what it holds besides. */
  datatype Stored = Stored(chain: Chain, key: string, content: string)

  /** What the tables hold of one chain; a query is a function of that. */
  type Table = map<string, string>
  type Data = map<Chain, Table>
  type Query = (Table, Option<string>, int) -> Answer

  function Of(data: Data, chain: Chain): Table { if chain in data then data[chain] else map[] }

  function Ask(query: Query, data: Data, key: Key): Answer { query(Of(data, key.chain), key.tier, key.limit) }

  /** `INSERT ... ON CONFLICT DO UPDATE`, row after row. */
  function Write(data: Data, rows: seq<Stored>): Data
    decreases rows
  {
    if rows == [] then data else Write(Put(data, rows[0]), rows[1..])
  }

  function Put(data: Data, r: Stored): Data { data[r.chain := Of(data, r.chain)[r.key := r.content]] }

  /** What one row means for a chain. */
  function One(r: Stored, chain: Chain): Table { if r.chain == chain then map[r.key := r.content] else map[] }

  /** The last content the rows have for each key of the chain. */
  function Last(rows: seq<Stored>, chain: Chain): Table
    decreases rows
  {
    if rows == [] then map[]
    else One(rows[0], chain) + Last(rows[1..], chain)
  }

  /** A batch leaves in each chain the last content it has for a key, and the rest as it was. */
  lemma {:induction false} WriteMerges(data: Data, rows: seq<Stored>, chain: Chain)
    ensures Of(Write(data, rows), chain) == Of(data, chain) + Last(rows, chain)
    decreases rows
  {
    if rows != [] {
      WriteMerges(Put(data, rows[0]), rows[1..], chain);
      PutMerges(data, rows[0], chain);
      MergeAssociates(Of(data, chain), One(rows[0], chain), Last(rows[1..], chain));
    } else {
      assert Of(data, chain) + map[] == Of(data, chain);
    }
  }

  lemma PutMerges(data: Data, r: Stored, chain: Chain)
    ensures Of(Put(data, r), chain) == Of(data, chain) + One(r, chain)
  {
  }

  lemma MergeAssociates(a: Table, b: Table, c: Table)
    ensures (a + b) + c == a + (b + c)
  {
  }

  lemma {:induction false} LastNone(rows: seq<Stored>, chain: Chain)
    ensures Last(rows, chain) == map[] <==> forall i :: 0 <= i < |rows| ==> rows[i].chain != chain
    decreases rows
  {
    if rows != [] {
      LastNone(rows[1..], chain);
      assert forall i :: 1 <= i < |rows| ==> rows[i] == rows[1..][i - 1];
      if rows[0].chain == chain {
        assert rows[0].key in Last(rows, chain);
      } else {
        assert Last(rows, chain) == Last(rows[1..], chain);
      }
    }
  }

  lemma WriteElsewhere(data: Data, rows: seq<Stored>, chain: Chain)
    requires forall i :: 0 <= i < |rows| ==> rows[i].chain != chain
    ensures Of(Write(data, rows), chain) == Of(data, chain)
  {
    WriteMerges(data, rows, chain);
    LastNone(rows, chain);
  }

  /** A cached answer and the instant it expires. */
  type Cache = map<Key, (real, Answer)>

  function Invalidated(cache: Cache, chain: Chain): Cache { cache - set k | k in cache && k.chain == chain }

  ghost predicate AllCurrent(query: Query, data: Data, cache: Cache)
  {
    forall k :: k in cache ==> cache[k].1 == Ask(query, data, k)
  }

  /** A batch leaves no cached answer out of date, whatever the query, the data and the cache. */
  ghost predicate KeepsCurrent(rows: seq<Stored>)
    requires rows != []
  {
    forall query: Query, data: Data, cache: Cache :: AllCurrent(query, data, cache) ==>
      AllCurrent(query, Write(data, rows), Invalidated(cache, rows[0].chain))
  }

  /** Only the chain of the first row is invalidated, so that is the case exactly for the batches of a
      single chain. */
  lemma BatchKeepsCurrentIff(rows: seq<Stored>)
    requires rows != []
    ensures KeepsCurrent(rows) <==> forall i :: 0 <= i < |rows| ==> rows[i].chain == rows[0].chain
  {
    if forall i :: 0 <= i < |rows| ==> rows[i].chain == rows[0].chain {
      forall query: Query, data: Data, cache: Cache | AllCurrent(query, data, cache)
        ensures AllCurrent(query, Write(data, rows), Invalidated(cache, rows[0].chain))
      {
        OneChainKeepsCurrent(query, data, cache, rows);
      }
    } else {
      var i :| 0 <= i < |rows| && rows[i].chain != rows[0].chain;
      OtherChainOutdates(rows, i);
    }
  }

  lemma OneChainKeepsCurrent(query: Query, data: Data, cache: Cache, rows: seq<Stored>)
    requires rows != [] && forall i :: 0 <= i < |rows| ==> rows[i].chain == rows[0].chain
    requires AllCurrent(query, data, cache)
    ensures AllCurrent(query, Write(data, rows), Invalidated(cache, rows[0].chain))
  {
    forall k | k in cache && k.chain != rows[0].chain ensures Ask(query, Write(data, rows), k) == Ask(query, data, k) {
      WriteElsewhere(data, rows, k.chain);
    }
  }

  lemma OtherChainOutdates(rows: seq<Stored>, i: nat)
    requires i < |rows| && rows[i].chain != rows[0].chain
    ensures !KeepsCurrent(rows)
  {
    var key := Key(rows[i].chain, None, 20);
    var query: Query := (table: Table, tier: Option<string>, limit: int) => if table == map[] then [] else ["new"];
    var cache: Cache := map[key := (3.0, [])];
    WriteMerges(map[], rows, key.chain);
    LastNone(rows, key.chain);
    assert Of(Write(map[], rows), key.chain) != map[];
    assert AllCurrent(query, map[], cache);
    assert key in Invalidated(cache, rows[0].chain);
    assert !AllCurrent(query, Write(map[], rows), Invalidated(cache, rows[0].chain));
  }

  /** Calls made one at a time: every cached answer, expired or not, is what the query gives now. */
  class LatestCandidates {
    const ttlSeconds: real
    const query: Query
    var data: Data
    var cache: Cache

    ghost predicate Coherent()
      reads this
    {
      && AllCurrent(query, data, cache)
      && (ttlSeconds <= 0.0 ==> cache == map[])
    }

    constructor (ttlSeconds: real, query: Query)
      ensures this.ttlSeconds == MaxReal(0.0, ttlSeconds) && this.query == query
      ensures data == map[] && cache == map[] && Coherent()
    {
      this.ttlSeconds, this.query := MaxReal(0.0, ttlSeconds), query;
      data, cache := map[], map[];
    }

    /** The clock is read again when the answer is stored. */
    method ListLatestCandidates(key: Key, now: real, later: real) returns (rows: Answer)
      requires Coherent()
      modifies this`cache
      ensures Coherent() && rows == Ask(query, data, key)
      ensures cache == if ttlSeconds <= 0.0 || (key in old(cache) && old(cache)[key].0 > now) then old(cache)
                       else old(cache)[key := (later + ttlSeconds, rows)]
    {
      if ttlSeconds > 0.0 && key in cache && cache[key].0 > now {
        return cache[key].1;
      }
      rows := query(Of(data, key.chain), key.tier, key.limit);
      if ttlSeconds > 0.0 {
        cache := cache[key := (later + ttlSeconds, rows)];
      }
    }

    method SaveScoresAndCandidates(rows: seq<Stored>)
      modifies this
      ensures data == Write(old(data), rows)
      ensures cache == if rows == [] || ttlSeconds <= 0.0 then old(cache) else Invalidated(old(cache), rows[0].chain)
      ensures (old(Coherent()) && forall i :: 0 <= i < |rows| ==> rows[i].chain == rows[0].chain)
              ==> Coherent()
    {
      if rows == [] {
        return;
      }
      ghost var before := data;
      data := Write(data, rows);
      if ttlSeconds > 0.0 {
        cache := Invalidated(cache, rows[0].chain);
      }
      if forall i :: 0 <= i < |rows| ==> rows[i].chain == rows[0].chain {
        forall k | k in cache && k.chain != rows[0].chain ensures Ask(query, data, k) == Ask(query, before, k) {
          WriteElsewhere(before, rows, k.chain);
        }
      }
    }
  }

  // ----- Any interleaving -----

  type Task = nat

  /** A reader between its failed lookup and its store: not yet answered by the database, or answered. */
  datatype Reading = Asking(key: Key) | Answered(key: Key, rows: Answer, step: nat)

  /** `asked` holds every answer the database gave; `stores` every answer put into the cache, and when;
      `steps` counts the events, and `sources` tells for each cached answer by which of them it was given. */
  datatype World = World(now: real, data: Data, cache: Cache, tasks: map<Task, Reading>,
                         asked: set<(Key, Answer)>, stores: set<(Key, Answer, real)>, steps: nat, sources: map<Key, nat>)

  const START := World(0.0, map[], map[], map[], {}, {}, 0, map[])

  datatype Event =
    | Wait(seconds: real)
    | Miss(task: Task, key: Key)
    | AskDatabase(task: Task)
    | Store(task: Task)
    | Invalidate(chain: Chain)
    | CommitRows(rows: seq<Stored>)

  ghost predicate Enabled(w: World, e: Event)
  {
    match e
    case Wait(seconds) => seconds >= 0.0
    case Miss(task, key) => task !in w.tasks && !(key in w.cache && w.cache[key].0 > w.now)
    case AskDatabase(task) => task in w.tasks && w.tasks[task].Asking?
    case Store(task) => task in w.tasks && w.tasks[task].Answered?
    case Invalidate(_) => true
    case CommitRows(_) => true
  }

  function Next(query: Query, ttl: real, w: World, e: Event): World
    requires Enabled(w, e)
  {
    Effect(query, ttl, w, e).(steps := w.steps + 1)
  }

  function Effect(query: Query, ttl: real, w: World, e: Event): World
    requires Enabled(w, e)
  {
    match e
    case Wait(seconds) => w.(now := w.now + seconds)
    case Miss(task, key) => w.(tasks := w.tasks[task := Asking(key)])
    case AskDatabase(task) =>
      var key := w.tasks[task].key;
      var rows := Ask(query, w.data, key);
      w.(tasks := w.tasks[task := Answered(key, rows, w.steps)], asked := w.asked + {(key, rows)})
    case Store(task) =>
      var r := w.tasks[task];
      w.(cache := w.cache[r.key := (w.now + ttl, r.rows)], tasks := w.tasks - {task},
         stores := w.stores + {(r.key, r.rows, w.now)}, sources := w.sources[r.key := r.step])
    case Invalidate(chain) => w.(cache := Invalidated(w.cache, chain))
    case CommitRows(rows) => w.(data := Write(w.data, rows))
  }

  ghost predicate Behaves(query: Query, ttl: real, w: World, events: seq<Event>)
    decreases events
  {
    events == [] || (Enabled(w, events[0]) && Behaves(query, ttl, Next(query, ttl, w, events[0]), events[1..]))
  }

  ghost function After(query: Query, ttl: real, w: World, events: seq<Event>): World
    requires Behaves(query, ttl, w, events)
    decreases events
  {
    if events == [] then w else After(query, ttl, Next(query, ttl, w, events[0]), events[1..])
  }

  ghost predicate Sourced(w: World, ttl: real)
  {
    && (forall k :: k in w.cache ==> (k, w.cache[k].1, w.cache[k].0 - ttl) in w.stores && (k, w.cache[k].1) in w.asked)
    && (forall t :: t in w.tasks && w.tasks[t].Answered? ==> (w.tasks[t].key, w.tasks[t].rows) in w.asked)
    && (forall x :: x in w.stores ==> x.2 <= w.now)
  }

  lemma StepSourced(query: Query, ttl: real, w: World, e: Event)
    requires Sourced(w, ttl) && Enabled(w, e)
    ensures Sourced(Next(query, ttl, w, e), ttl)
  {
  }

  lemma {:induction false} AlwaysSourced(query: Query, ttl: real, w: World, events: seq<Event>)
    requires Sourced(w, ttl) && Behaves(query, ttl, w, events)
    ensures Sourced(After(query, ttl, w, events), ttl)
    decreases events
  {
    if events != [] {
      StepSourced(query, ttl, w, events[0]);
      AlwaysSourced(query, ttl, Next(query, ttl, w, events[0]), events[1..]);
    }
  }

  /** Whatever readers, writers and invalidations interleave, an answer served from the cache is one
      the database gave to that very query, and it was stored less than a lifetime ago. */
  lemma ServedAnswerIsRecent(query: Query, ttl: real, events: seq<Event>, key: Key)
    requires Behaves(query, ttl, START, events)
    ensures var w := After(query, ttl, START, events);
      key in w.cache && w.cache[key].0 > w.now ==>
        && (key, w.cache[key].1) in w.asked
        && exists at :: (key, w.cache[key].1, at) in w.stores && at <= w.now < at + ttl
  {
    AlwaysSourced(query, ttl, START, events);
    var w := After(query, ttl, START, events);
    if key in w.cache && w.cache[key].0 > w.now {
      assert (key, w.cache[key].1, w.cache[key].0 - ttl) in w.stores;
    }
  }

  // What makes a cached answer out of date.

  /** The data after a sequence of events: only commits change it. */
  function DataAfter(events: seq<Event>): Data
    decreases events
  {
    if events == [] then map[]
    else
      var before, e := DataAfter(events[..|events| - 1]), events[|events| - 1];
      if e.CommitRows? then Write(before, e.rows) else before
  }

  ghost predicate GivenBy(query: Query, past: seq<Event>, step: nat, key: Key, rows: Answer)
  {
    step < |past| && past[step].AskDatabase? && rows == Ask(query, DataAfter(past[..step]), key)
  }

  /** Every answer, under way or cached, is the one the database gave at the step remembered for it. */
  ghost predicate Traced(query: Query, past: seq<Event>, w: World)
  {
    && w.steps == |past| && w.data == DataAfter(past) && w.cache.Keys <= w.sources.Keys
    && (forall t :: t in w.tasks && w.tasks[t].Answered? ==> GivenBy(query, past, w.tasks[t].step, w.tasks[t].key, w.tasks[t].rows))
    && (forall k :: k in w.cache ==> GivenBy(query, past, w.sources[k], k, w.cache[k].1))
  }

  lemma GivenLater(query: Query, past: seq<Event>, e: Event, step: nat, key: Key, rows: Answer)
    requires GivenBy(query, past, step, key, rows)
    ensures GivenBy(query, past + [e], step, key, rows)
  {
    assert (past + [e])[..step] == past[..step];
  }

  lemma StepTraced(query: Query, ttl: real, past: seq<Event>, w: World, e: Event)
    requires Traced(query, past, w) && Enabled(w, e)
    ensures Traced(query, past + [e], Next(query, ttl, w, e))
  {
    assert (past + [e])[..|past|] == past;
    forall t | t in w.tasks && w.tasks[t].Answered?
      ensures GivenBy(query, past + [e], w.tasks[t].step, w.tasks[t].key, w.tasks[t].rows)
    {
      GivenLater(query, past, e, w.tasks[t].step, w.tasks[t].key, w.tasks[t].rows);
    }
    forall k | k in w.cache ensures GivenBy(query, past + [e], w.sources[k], k, w.cache[k].1) {
      GivenLater(query, past, e, w.sources[k], k, w.cache[k].1);
    }
  }

  lemma {:induction false} AlwaysTraced(query: Query, ttl: real, past: seq<Event>, w: World, events: seq<Event>)
    requires Traced(query, past, w) && Behaves(query, ttl, w, events)
    ensures Traced(query, past + events, After(query, ttl, w, events))
    decreases events
  {
    if events == [] {
      assert past + [] == past;
    } else {
      StepTraced(query, ttl, past, w, events[0]);
      assert past + events == (past + [events[0]]) + events[1..];
      AlwaysTraced(query, ttl, past + [events[0]], Next(query, ttl, w, events[0]), events[1..]);
    }
  }

  /** The last content the events commit for each key of the chain. */
  function Committed(events: seq<Event>, chain: Chain): Table
    decreases events
  {
    if events == [] then map[]
    else
      var before, e := Committed(events[..|events| - 1], chain), events[|events| - 1];
      if e.CommitRows? then before + Last(e.rows, chain) else before
  }

  lemma {:induction false} DataMerges(events: seq<Event>, step: nat, chain: Chain)
    requires step <= |events|
    ensures Of(DataAfter(events), chain) == Of(DataAfter(events[..step]), chain) + Committed(events[step..], chain)
    decreases events
  {
    if step == |events| {
      assert events[..step] == events && events[step..] == [];
    } else {
      var n := |events| - 1;
      var before, e := events[..n], events[n];
      DataMerges(before, step, chain);
      assert before[..step] == events[..step];
      assert events[step..][..n - step] == before[step..] && events[step..][n - step] == e;
      if e.CommitRows? {
        WriteMerges(DataAfter(before), e.rows, chain);
        MergeAssociates(Of(DataAfter(events[..step]), chain), Committed(before[step..], chain), Last(e.rows, chain));
      }
    }
  }

  ghost predicate Holds(table: Table, rows: Table)
  {
    forall k :: k in rows ==> k in table && table[k] == rows[k]
  }

  lemma MergeUnchangedIff(table: Table, rows: Table)
    ensures table + rows == table <==> Holds(table, rows)
  {
    if table + rows == table {
      forall k | k in rows ensures k in table && table[k] == rows[k] {
        assert (table + rows)[k] == rows[k];
      }
    }
  }

  /** Under any interleaving, a cached answer is the one the database gave at some step of the run, and it
      is current, whatever the query, exactly when for each key of its chain that was committed since that
      step the last content committed is what the tables held then. */
  lemma EntryCurrentIff(query: Query, ttl: real, events: seq<Event>, key: Key)
    requires Behaves(query, ttl, START, events) && key in After(query, ttl, START, events).cache
    ensures var w := After(query, ttl, START, events);
      && key in w.sources
      && (var step := w.sources[key];
          && GivenBy(query, events, step, key, w.cache[key].1)
          && (AlikeForAll(DataAfter(events[..step]), w.data, key)
              <==> Holds(Of(DataAfter(events[..step]), key.chain), Committed(events[step..], key.chain))))
  {
    AlwaysTraced(query, ttl, [], START, events);
    assert [] + events == events;
    var w := After(query, ttl, START, events);
    var step := w.sources[key];
    var given := DataAfter(events[..step]);
    DataMerges(events, step, key.chain);
    MergeUnchangedIff(Of(given, key.chain), Committed(events[step..], key.chain));
    AlikeForAllIff(given, w.data, key);
  }

  ghost predicate AlikeForAll(a: Data, b: Data, key: Key)
  {
    forall q: Query :: Ask(q, a, key) == Ask(q, b, key)
  }

  lemma AlikeForAllIff(a: Data, b: Data, key: Key)
    ensures AlikeForAll(a, b, key) <==> Of(a, key.chain) == Of(b, key.chain)
  {
    if Of(a, key.chain) != Of(b, key.chain) {
      var q: Query := (table: Table, tier: Option<string>, limit: int) => if table == Of(a, key.chain) then ["a"] else [];
      assert Ask(q, a, key) != Ask(q, b, key);
    }
  }

  /** A reader that asked before a write and stores after it leaves an answer the database would no
      longer give, although the writer invalidated the chain. */
  lemma LateStoreIsStale()
    ensures
      var query: Query := (table: Table, tier: Option<string>, limit: int) => if table == map[] then [] else ["new"];
      var key := Key("bsc", None, 20);
      var w1 := Next(query, 3.0, START, Miss(0, key));
      && Enabled(w1, AskDatabase(0))
      && (var w2 := Next(query, 3.0, w1, AskDatabase(0));
          var w3 := Next(query, 3.0, w2, CommitRows([Stored("bsc", "x", "A")]));
          var w4 := Next(query, 3.0, w3, Invalidate("bsc"));
          && Enabled(w4, Store(0))
          && (var w5 := Next(query, 3.0, w4, Store(0));
              key in w5.cache && w5.cache[key].0 > w5.now && w5.cache[key].1 != Ask(query, w5.data, key)))
  {
    WriteMerges(map[], [Stored("bsc", "x", "A")], "bsc");
    LastNone([Stored("bsc", "x", "A")], "bsc");
  }
}

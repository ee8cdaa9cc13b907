/** src/ingestion/resilience/cache_store.py: the in-process response cache (least recently used
    entry first, each with an expiry instant) in front of an optional Redis. The lock makes each
    access atomic; awaits lie between a local miss, the Redis read and the local refill. */
module ResponseCache {
  import opened Common

  type Url = string
  type Payload = string

  /** A cached answer and the instant it expires. */
  datatype Entry = Entry(url: Url, expireAt: real, payload: Payload)

  datatype Settings = Settings(ttl: real, maxEntries: nat) {
    ghost predicate Valid() { ttl > 0.0 && maxEntries >= 1 }
  }

  // ----- The ordered dictionary, oldest entry first -----

  function Keys(c: seq<Entry>): set<Url>
    decreases c
  {
    if c == [] then {} else {c[0].url} + Keys(c[1..])
  }

  ghost predicate NoDup(c: seq<Entry>)
  {
    forall i, j :: 0 <= i < j < |c| ==> c[i].url != c[j].url
  }

  /** Where the entry of `url` is, or one past the end. */
  function Find(c: seq<Entry>, url: Url): (i: nat)
    ensures i <= |c| && (i < |c| ==> c[i].url == url)
    ensures forall j :: 0 <= j < i ==> c[j].url != url
    ensures i < |c| <==> url in Keys(c)
    decreases c
  {
    if c == [] || c[0].url == url then 0
    else
      var i := Find(c[1..], url);
      assert forall j :: 1 <= j < |c| ==> c[j] == c[1..][j - 1];
      i + 1
  }

  function Pop(c: seq<Entry>, url: Url): seq<Entry>
    decreases c
  {
    if c == [] then []
    else if c[0].url == url then c[1..]
    else [c[0]] + Pop(c[1..], url)
  }

  function Compact(c: seq<Entry>, maxEntries: nat): seq<Entry>
  {
    if |c| > maxEntries then c[|c| - maxEntries..] else c
  }

  // ----- Accesses -----

  datatype Access =
    | Get(url: Url, at: real)
    | Set(url: Url, payload: Payload, at: real)
    /** What a Redis read brought back is stored locally at `at`. */
    | Fill(url: Url, payload: Payload, at: real)

  function Lookup(c: seq<Entry>, url: Url, now: real): Option<Payload>
  {
    var i := Find(c, url);
    if i < |c| && c[i].expireAt > now then Some(c[i].payload) else None
  }

  function Step(s: Settings, c: seq<Entry>, a: Access): seq<Entry>
  {
    match a
    case Get(url, now) =>
      var i := Find(c, url);
      if i == |c| then c
      else if c[i].expireAt <= now then Pop(c, url)
      else Pop(c, url) + [c[i]]
    case Set(url, payload, now) =>
      Compact(Pop(c, url) + [Entry(url, now + s.ttl, payload)], s.maxEntries)
    case Fill(url, payload, now) =>
      // assigning to a key that is present keeps its place in the order
      var i := Find(c, url);
      if i < |c| then c[i := Entry(url, now + s.ttl, payload)]
      else Compact(c + [Entry(url, now + s.ttl, payload)], s.maxEntries)
  }

  /** The cache after a history of accesses. */
  function Run(s: Settings, c: seq<Entry>, history: seq<Access>): seq<Entry>
    decreases history
  {
    if history == [] then c else Step(s, Run(s, c, history[..|history| - 1]), history[|history| - 1])
  }

  lemma RunSnoc(s: Settings, c: seq<Entry>, history: seq<Access>, a: Access)
    ensures Run(s, c, history + [a]) == Step(s, Run(s, c, history), a)
  {
    assert (history + [a])[..|history|] == history;
  }

  ghost predicate WellFormed(s: Settings, c: seq<Entry>)
  {
    NoDup(c) && |c| <= s.maxEntries
  }

  lemma {:induction false} InKeys(c: seq<Entry>, url: Url)
    ensures url in Keys(c) <==> exists i :: 0 <= i < |c| && c[i].url == url
    decreases c
  {
    if c != [] {
      InKeys(c[1..], url);
      if i :| 0 <= i < |c| && c[i].url == url {
        if i > 0 { assert c[1..][i - 1].url == url; }
      }
      if i :| 0 <= i < |c[1..]| && c[1..][i].url == url { assert c[i + 1].url == url; }
    }
  }

  lemma {:induction false} KeysConcat(c: seq<Entry>, d: seq<Entry>)
    ensures Keys(c + d) == Keys(c) + Keys(d)
    decreases c
  {
    if c == [] {
      assert c + d == d;
    } else {
      assert (c + d)[1..] == c[1..] + d;
      KeysConcat(c[1..], d);
    }
  }

  lemma {:induction false} KeysCount(c: seq<Entry>)
    requires NoDup(c)
    ensures |Keys(c)| == |c|
    decreases c
  {
    if c != [] {
      KeysCount(c[1..]);
      InKeys(c[1..], c[0].url);
    }
  }

  lemma ConsNoDup(e: Entry, c: seq<Entry>)
    requires NoDup(c) && forall k :: 0 <= k < |c| ==> c[k].url != e.url
    ensures NoDup([e] + c)
  {
  }

  lemma {:induction false} PopFacts(c: seq<Entry>, url: Url)
    requires NoDup(c)
    ensures var p := Pop(c, url);
      && NoDup(p) && url !in Keys(p)
      && (forall k :: 0 <= k < |p| ==> p[k] in c && p[k].url != url)
      && |p| == if url in Keys(c) then |c| - 1 else |c|
    decreases c
  {
    InKeys(Pop(c, url), url);
    if c != [] {
      var rest := c[1..];
      PopFacts(rest, url);
      InKeys(rest, url);
      assert forall k :: 0 <= k < |rest| ==> rest[k] == c[k + 1];
      if c[0].url != url {
        ConsNoDup(c[0], Pop(rest, url));
        forall k | 0 <= k < |Pop(c, url)| ensures Pop(c, url)[k] in c && Pop(c, url)[k].url != url {
          if k > 0 { assert Pop(c, url)[k] == Pop(rest, url)[k - 1]; }
        }
      }
    }
  }

  lemma StepWellFormed(s: Settings, c: seq<Entry>, a: Access)
    requires s.Valid() && WellFormed(s, c)
    ensures WellFormed(s, Step(s, c, a))
  {
    match a {
      case Get(url, now) =>
        PopWellFormed(c, url);
        if Find(c, url) < |c| { AppendWellFormed(Pop(c, url), c[Find(c, url)]); }
      case Set(url, payload, now) =>
        PopWellFormed(c, url);
        AddWellFormed(s, Pop(c, url), Entry(url, now + s.ttl, payload));
      case Fill(url, payload, now) =>
        if Find(c, url) == |c| { AddWellFormed(s, c, Entry(url, now + s.ttl, payload)); }
    }
  }

  lemma PopWellFormed(c: seq<Entry>, url: Url)
    requires NoDup(c)
    ensures NoDup(Pop(c, url)) && forall k :: 0 <= k < |Pop(c, url)| ==> Pop(c, url)[k].url != url
    ensures |Pop(c, url)| == if url in Keys(c) then |c| - 1 else |c|
  {
    PopFacts(c, url);
  }

  lemma AppendWellFormed(c: seq<Entry>, e: Entry)
    requires NoDup(c) && forall k :: 0 <= k < |c| ==> c[k].url != e.url
    ensures NoDup(c + [e])
  {
  }

  lemma AddWellFormed(s: Settings, c: seq<Entry>, e: Entry)
    requires NoDup(c) && forall k :: 0 <= k < |c| ==> c[k].url != e.url
    ensures WellFormed(s, Compact(c + [e], s.maxEntries))
  {
  }

  /** The cache never outgrows its limit and never holds a URL twice. */
  lemma {:induction false} SizeBounded(s: Settings, c: seq<Entry>, history: seq<Access>)
    requires s.Valid() && WellFormed(s, c)
    ensures WellFormed(s, Run(s, c, history))
    decreases history
  {
    if history != [] {
      SizeBounded(s, c, history[..|history| - 1]);
      StepWellFormed(s, Run(s, c, history[..|history| - 1]), history[|history| - 1]);
    }
  }

  /** Compacting after every refill is compacting only when it adds an entry. */
  lemma RefillFits(s: Settings, history: seq<Access>, url: Url, payload: Payload, now: real)
    requires s.Valid()
    ensures var c := Run(s, [], history); var i, e := Find(c, url), Entry(url, now + s.ttl, payload);
      Compact(if i < |c| then c[i := e] else c + [e], s.maxEntries) == Run(s, [], history + [Fill(url, payload, now)])
  {
    SizeBounded(s, [], history);
    RunSnoc(s, [], history, Fill(url, payload, now));
  }

  // ----- What a hit returns -----

  /** The payload last stored under `url`, and when. */
  function LastWrite(history: seq<Access>, url: Url): Option<(Payload, real)>
    decreases history
  {
    if history == [] then None
    else
      var a := history[|history| - 1];
      if !a.Get? && a.url == url then Some((a.payload, a.at)) else LastWrite(history[..|history| - 1], url)
  }

  /** Every entry is the last one stored under its URL. */
  ghost predicate Explained(s: Settings, c: seq<Entry>, history: seq<Access>)
  {
    forall i :: 0 <= i < |c| ==> LastWrite(history, c[i].url) == Some((c[i].payload, c[i].expireAt - s.ttl))
  }

  lemma StepExplained(s: Settings, c: seq<Entry>, history: seq<Access>, a: Access)
    requires s.Valid() && WellFormed(s, c) && Explained(s, c, history)
    ensures Explained(s, Step(s, c, a), history + [a])
  {
    var n := Step(s, c, a);
    forall k | 0 <= k < |n|
      ensures LastWrite(history + [a], n[k].url) == Some((n[k].payload, n[k].expireAt - s.ttl))
    {
      LastWriteSnoc(history, a, n[k].url);
      StepEntries(s, c, a, k);
      if n[k] in c {
        var i :| 0 <= i < |c| && c[i] == n[k];
        assert LastWrite(history, c[i].url) == Some((c[i].payload, c[i].expireAt - s.ttl));
      }
    }
  }

  lemma LastWriteSnoc(history: seq<Access>, a: Access, url: Url)
    ensures LastWrite(history + [a], url) ==
            if !a.Get? && a.url == url then Some((a.payload, a.at)) else LastWrite(history, url)
  {
    assert (history + [a])[..|history|] == history;
  }

  /** An entry after one access is the one just stored, or was there before. */
  lemma StepEntries(s: Settings, c: seq<Entry>, a: Access, k: nat)
    requires s.Valid() && WellFormed(s, c) && k < |Step(s, c, a)|
    ensures var e := Step(s, c, a)[k];
      if !a.Get? && e.url == a.url then e == Entry(a.url, a.at + s.ttl, a.payload) else e in c
  {
    PopFacts(c, a.url);
    InKeys(c, a.url);
  }

  lemma {:induction false} RunExplained(s: Settings, history: seq<Access>)
    requires s.Valid()
    ensures WellFormed(s, Run(s, [], history)) && Explained(s, Run(s, [], history), history)
    decreases history
  {
    SizeBounded(s, [], history);
    if history != [] {
      var h, a := history[..|history| - 1], history[|history| - 1];
      RunExplained(s, h);
      StepExplained(s, Run(s, [], h), h, a);
      assert h + [a] == history;
    }
  }

  /** A local hit returns the payload last stored under the URL, less than `ttl` ago. */
  lemma HitIsLastWrite(s: Settings, history: seq<Access>, url: Url, now: real)
    requires s.Valid()
    ensures match Lookup(Run(s, [], history), url, now)
            case None => true
            case Some(payload) =>
              var last := LastWrite(history, url);
              last.Some? && last.value.0 == payload && now < last.value.1 + s.ttl
  {
    RunExplained(s, history);
    var c := Run(s, [], history);
    var i := Find(c, url);
    if i < |c| && c[i].expireAt > now {
      assert LastWrite(history, c[i].url) == Some((c[i].payload, c[i].expireAt - s.ttl));
    }
  }

  // ----- What survives -----

  function Touched(history: seq<Access>): set<Url>
  {
    set i | 0 <= i < |history| :: history[i].url
  }

  lemma PopCons(e: Entry, c: seq<Entry>, url: Url)
    ensures Pop([e] + c, url) == if e.url == url then c else [e] + Pop(c, url)
  {
    assert ([e] + c)[1..] == c;
  }

  lemma {:induction false} PopConcat(c: seq<Entry>, d: seq<Entry>, url: Url)
    ensures Pop(c + d, url) == if url in Keys(c) then Pop(c, url) + d else c + Pop(d, url)
    decreases c
  {
    if c == [] {
      assert c + d == d;
      assert c + Pop(d, url) == Pop(d, url);
    } else {
      var e, t := c[0], c[1..];
      PopCons(e, t + d, url);
      assert c + d == [e] + (t + d);
      if e.url != url {
        PopConcat(t, d, url);
        if url in Keys(t) {
          assert [e] + (Pop(t, url) + d) == ([e] + Pop(t, url)) + d;
        } else {
          assert [e] + (t + Pop(d, url)) == c + Pop(d, url);
        }
      }
    }
  }

  lemma PopSplit(x: seq<Entry>, e: Entry, y: seq<Entry>, url: Url)
    requires url != e.url
    ensures Pop(x + [e] + y, url) == if url in Keys(x) then Pop(x, url) + [e] + y else x + [e] + Pop(y, url)
  {
    KeysConcat(x, [e]);
    PopConcat(x + [e], y, url);
    PopConcat(x, [e], url);
  }

  /** Accesses to other URLs can only move or add their own key behind an entry. */
  lemma StepKeeps(s: Settings, x: seq<Entry>, e: Entry, y: seq<Entry>, a: Access)
    returns (x': seq<Entry>, y': seq<Entry>)
    requires s.Valid() && WellFormed(s, x + [e] + y) && a.url != e.url
    requires |Keys(y) + {a.url}| < s.maxEntries
    ensures Step(s, x + [e] + y, a) == x' + [e] + y'
    ensures Keys(y') <= Keys(y) + {a.url}
  {
    match a {
      case Get(_, _) => x', y' := GetKeeps(s, x, e, y, a);
      case Set(_, _, _) => x', y' := SetKeeps(s, x, e, y, a);
      case Fill(_, _, _) => x', y' := FillKeeps(s, x, e, y, a);
    }
  }

  lemma SetKeeps(s: Settings, x: seq<Entry>, e: Entry, y: seq<Entry>, a: Access)
    returns (x': seq<Entry>, y': seq<Entry>)
    requires s.Valid() && NoDup(x + [e] + y) && a.Set? && a.url != e.url
    requires |Keys(y) + {a.url}| < s.maxEntries
    ensures Step(s, x + [e] + y, a) == x' + [e] + y'
    ensures Keys(y') <= Keys(y) + {a.url}
  {
    var px, py := PopKeeps(x, e, y, a.url);
    PopUnique(x + [e] + y, a.url);
    x', y' := AppendKeeps(s, px, e, py, Entry(a.url, a.at + s.ttl, a.payload), Keys(y) + {a.url});
  }

  lemma PopUnique(c: seq<Entry>, url: Url)
    requires NoDup(c)
    ensures NoDup(Pop(c, url)) && url !in Keys(Pop(c, url))
  {
    PopFacts(c, url);
  }

  lemma PopKeeps(x: seq<Entry>, e: Entry, y: seq<Entry>, url: Url) returns (x': seq<Entry>, y': seq<Entry>)
    requires url != e.url
    ensures Pop(x + [e] + y, url) == x' + [e] + y' && Keys(y') <= Keys(y)
  {
    PopSplit(x, e, y, url);
    PopKeys(y, url);
    if url in Keys(x) {
      x', y' := Pop(x, url), y;
    } else {
      x', y' := x, Pop(y, url);
    }
  }

  lemma GetKeeps(s: Settings, x: seq<Entry>, e: Entry, y: seq<Entry>, a: Access)
    returns (x': seq<Entry>, y': seq<Entry>)
    requires a.Get? && a.url != e.url
    ensures Step(s, x + [e] + y, a) == x' + [e] + y'
    ensures Keys(y') <= Keys(y) + {a.url}
  {
    var c := x + [e] + y;
    var i := Find(c, a.url);
    if i == |c| {
      x', y' := x, y;
    } else {
      var px, py := PopKeeps(x, e, y, a.url);
      if c[i].expireAt <= a.at {
        x', y' := px, py;
      } else {
        x', y' := px, py + [c[i]];
        KeysConcat(py, [c[i]]);
        assert px + [e] + py + [c[i]] == px + [e] + y';
      }
    }
  }

  lemma AppendKeeps(s: Settings, x: seq<Entry>, e: Entry, y: seq<Entry>, stored: Entry, keys: set<Url>)
    returns (x': seq<Entry>, y': seq<Entry>)
    requires s.Valid() && NoDup(x + [e] + y) && stored.url !in Keys(x + [e] + y)
    requires Keys(y) + {stored.url} <= keys && |keys| < s.maxEntries
    ensures Compact(x + [e] + y + [stored], s.maxEntries) == x' + [e] + y'
    ensures Keys(y') <= keys
  {
    y' := y + [stored];
    KeysConcat(y, [stored]);
    KeysConcat(x + [e], y);
    InKeys(y, stored.url);
    assert NoDup(y) by {
      assert forall k :: 0 <= k < |y| ==> (x + [e] + y)[|x| + 1 + k] == y[k];
    }
    assert x + [e] + y + [stored] == x + [e] + y';
    x' := Shorten(s, x, e, y', keys);
  }

  lemma FillKeeps(s: Settings, x: seq<Entry>, e: Entry, y: seq<Entry>, a: Access)
    returns (x': seq<Entry>, y': seq<Entry>)
    requires s.Valid() && WellFormed(s, x + [e] + y) && a.Fill? && a.url != e.url
    requires |Keys(y) + {a.url}| < s.maxEntries
    ensures Step(s, x + [e] + y, a) == x' + [e] + y'
    ensures Keys(y') <= Keys(y) + {a.url}
  {
    var c := x + [e] + y;
    var i := Find(c, a.url);
    var stored := Entry(a.url, a.at + s.ttl, a.payload);
    if i < |c| {
      x', y' := if i < |x| then x[i := stored] else x, if i < |x| then y else y[i - |x| - 1 := stored];
      ReplaceKeys(y, y');
    } else {
      x', y' := AppendKeeps(s, x, e, y, stored, Keys(y) + {a.url});
    }
  }

  /** Compaction cuts in front of an entry that has fewer than `maxEntries` others behind it. */
  lemma Shorten(s: Settings, x: seq<Entry>, e: Entry, y: seq<Entry>, keys: set<Url>) returns (x': seq<Entry>)
    requires s.Valid() && NoDup(y) && Keys(y) <= keys && |keys| < s.maxEntries
    ensures Compact(x + [e] + y, s.maxEntries) == x' + [e] + y
  {
    KeysCount(y);
    SubsetSize(Keys(y), keys);
    var wide := x + [e] + y;
    x' := if |wide| > s.maxEntries then x[|wide| - s.maxEntries..] else x;
  }

  lemma {:induction false} PopKeys(c: seq<Entry>, url: Url)
    ensures Keys(Pop(c, url)) <= Keys(c)
    decreases c
  {
    if c != [] && c[0].url != url {
      PopKeys(c[1..], url);
      assert Pop(c, url)[1..] == Pop(c[1..], url);
    }
  }

  lemma {:induction false} ReplaceKeys(c: seq<Entry>, d: seq<Entry>)
    requires |c| == |d| && forall k :: 0 <= k < |c| ==> c[k].url == d[k].url
    ensures Keys(c) == Keys(d)
    decreases c
  {
    if c != [] {
      ReplaceKeys(c[1..], d[1..]);
    }
  }

  /** The other URLs asked for. */
  function Others(history: seq<Access>, url: Url): set<Url> { Touched(history) - {url} }

  lemma OthersSnoc(history: seq<Access>, a: Access, url: Url)
    ensures Others(history + [a], url) == if a.url == url then Others(history, url) else Others(history, url) + {a.url}
  {
    var all := history + [a];
    assert all[|history|].url in Touched(all);
    forall u | u in Touched(history) ensures u in Touched(all) {
      var i :| 0 <= i < |history| && history[i].url == u;
      assert all[i].url == u;
    }
  }

  /** The entry itself is only read, and only while it lives. */
  ghost predicate OnlyRead(history: seq<Access>, e: Entry)
  {
    forall i :: 0 <= i < |history| && history[i].url == e.url ==> history[i].Get? && history[i].at < e.expireAt
  }

  lemma NotBefore(x: seq<Entry>, e: Entry, y: seq<Entry>)
    requires NoDup(x + [e] + y)
    ensures e.url !in Keys(x)
  {
    InKeys(x, e.url);
    forall i | 0 <= i < |x| ensures x[i].url != e.url {
      assert (x + [e] + y)[i] == x[i] && (x + [e] + y)[|x|] == e;
    }
  }

  /** A hit moves the entry to the end. */
  lemma HitMoves(s: Settings, x: seq<Entry>, e: Entry, y: seq<Entry>, a: Access)
    requires NoDup(x + [e] + y) && a.Get? && a.url == e.url && a.at < e.expireAt
    ensures Step(s, x + [e] + y, a) == (x + y) + [e] + []
  {
    var c := x + [e] + y;
    FoundAt(c, x, e, y);
    NotBefore(x, e, y);
    assert c == x + ([e] + y);
    PopConcat(x, [e] + y, e.url);
    PopCons(e, y, e.url);
  }

  /** An entry stays as it is while fewer than `maxEntries` other URLs are asked for, whether it is read
      in between or not: only the least recently used entry is ever evicted. */
  lemma {:induction false} RecentEntrySurvives(s: Settings, x: seq<Entry>, e: Entry, y: seq<Entry>, history: seq<Access>)
    returns (x': seq<Entry>, y': seq<Entry>)
    requires s.Valid() && WellFormed(s, x + [e] + y) && OnlyRead(history, e)
    requires |Keys(y) + Others(history, e.url)| < s.maxEntries
    ensures Run(s, x + [e] + y, history) == x' + [e] + y'
    ensures Keys(y') <= Keys(y) + Others(history, e.url)
    decreases history
  {
    x', y' := x, y;
    if history != [] {
      var h, a := history[..|history| - 1], history[|history| - 1];
      assert history == h + [a];
      OthersSnoc(h, a, e.url);
      SubsetSize(Keys(y) + Others(h, e.url), Keys(y) + Others(history, e.url));
      x', y' := RecentEntrySurvives(s, x, e, y, h);
      SizeBounded(s, x + [e] + y, h);
      if a.url == e.url {
        HitMoves(s, x', e, y', a);
        x', y' := x' + y', [];
      } else {
        SubsetSize(Keys(y') + {a.url}, Keys(y) + Others(history, e.url));
        x', y' := StepKeeps(s, x', e, y', a);
      }
    }
  }

  /** A payload just stored is a hit for `ttl` seconds, however often it is read in the meantime, unless
      `maxEntries` other URLs came by; afterwards it is none. */
  lemma {:induction false} StoredIsHit(s: Settings, before: seq<Access>, url: Url, payload: Payload, at: real, after: seq<Access>, now: real)
    requires s.Valid() && |Others(after, url)| < s.maxEntries
    requires forall i :: 0 <= i < |after| && after[i].url == url ==> after[i].Get? && after[i].at <= now
    ensures Lookup(Run(s, Run(s, [], before + [Set(url, payload, at)]), after), url, now)
            == if now < at + s.ttl then Some(payload) else None
  {
    if now < at + s.ttl {
      LivingIsHit(s, before, Set(url, payload, at), after, now);
    } else {
      ExpiredIsNone(s, before, Set(url, payload, at), after, now);
    }
  }

  lemma LivingIsHit(s: Settings, before: seq<Access>, a: Access, after: seq<Access>, now: real)
    requires s.Valid() && a.Set? && |Others(after, a.url)| < s.maxEntries && now < a.at + s.ttl
    requires OnlyRead(after, Entry(a.url, a.at + s.ttl, a.payload))
    ensures Lookup(Run(s, Run(s, [], before + [a]), after), a.url, now) == Some(a.payload)
  {
    RunSnoc(s, [], before, a);
    SizeBounded(s, [], before + [a]);
    var e, c := Entry(a.url, a.at + s.ttl, a.payload), Run(s, [], before + [a]);
    var x := SetIsLast(s, Run(s, [], before), a);
    assert Keys([]) + Others(after, a.url) == Others(after, a.url);
    var x', y' := RecentEntrySurvives(s, x, e, [], after);
    SizeBounded(s, c, after);
    FoundAt(Run(s, c, after), x', e, y');
  }

  lemma ExpiredIsNone(s: Settings, before: seq<Access>, a: Access, after: seq<Access>, now: real)
    requires s.Valid() && a.Set? && now >= a.at + s.ttl
    requires forall i :: 0 <= i < |after| && after[i].url == a.url ==> after[i].Get?
    ensures Lookup(Run(s, Run(s, [], before + [a]), after), a.url, now) == None
  {
    var history := before + [a] + after;
    RunConcat(s, [], before + [a], after);
    LastWriteSnoc(before, a, a.url);
    LastWriteStays(before + [a], after, a.url);
    assert LastWrite(history, a.url) == Some((a.payload, a.at));
    HitIsLastWrite(s, history, a.url, now);
  }

  lemma {:induction false} RunConcat(s: Settings, c: seq<Entry>, a: seq<Access>, b: seq<Access>)
    ensures Run(s, Run(s, c, a), b) == Run(s, c, a + b)
    decreases b
  {
    if b == [] {
      assert a + b == a;
    } else {
      var n := |b| - 1;
      RunConcat(s, c, a, b[..n]);
      RunSnoc(s, c, a + b[..n], b[n]);
      assert (a + b[..n]) + [b[n]] == a + b;
    }
  }

  lemma {:induction false} LastWriteStays(history: seq<Access>, after: seq<Access>, url: Url)
    requires forall i :: 0 <= i < |after| && after[i].url == url ==> after[i].Get?
    ensures LastWrite(history + after, url) == LastWrite(history, url)
    decreases after
  {
    if after == [] {
      assert history + after == history;
    } else {
      var n := |after| - 1;
      LastWriteStays(history, after[..n], url);
      LastWriteSnoc(history + after[..n], after[n], url);
      assert (history + after[..n]) + [after[n]] == history + after;
    }
  }

  lemma SetIsLast(s: Settings, c: seq<Entry>, a: Access) returns (x: seq<Entry>)
    requires a.Set? && s.Valid()
    ensures Step(s, c, a) == x + [Entry(a.url, a.at + s.ttl, a.payload)] + []
  {
    var n := Step(s, c, a);
    x := n[..|n| - 1];
  }

  lemma FoundAt(c: seq<Entry>, x: seq<Entry>, e: Entry, y: seq<Entry>)
    requires c == x + [e] + y && NoDup(c)
    ensures Find(c, e.url) == |x| && c[|x|] == e
  {
    assert c[|x|] == e;
    InKeys(c, e.url);
  }

  // ----- The order is the order of use -----

  /** The last access of a non-empty history is a use: a store, a hit, or a refill of an absent key. */
  ghost predicate LastIsUse(s: Settings, history: seq<Access>)
    requires history != []
  {
    var c, a := Run(s, [], history[..|history| - 1]), history[|history| - 1];
    match a
    case Get(url, now) => Lookup(c, url, now).Some?
    case Set(_, _, _) => true
    case Fill(url, _, _) => url !in Keys(c)
  }

  /** The position in the history of the last use of `url`, or -1. */
  ghost function LastUse(s: Settings, history: seq<Access>, url: Url): int
    ensures -1 <= LastUse(s, history, url) < |history|
    decreases history
  {
    if history == [] then -1
    else if history[|history| - 1].url == url && LastIsUse(s, history) then |history| - 1
    else LastUse(s, history[..|history| - 1], url)
  }

  /** Each entry was last used before the next one. */
  ghost predicate InUseOrder(s: Settings, history: seq<Access>, c: seq<Entry>)
    decreases c
  {
    |c| <= 1 || (LastUse(s, history, c[0].url) < LastUse(s, history, c[1].url) && InUseOrder(s, history, c[1..]))
  }

  lemma {:induction false} EarlierIsLessRecent(s: Settings, history: seq<Access>, c: seq<Entry>, i: nat, j: nat)
    requires InUseOrder(s, history, c) && i < j < |c|
    ensures LastUse(s, history, c[i].url) < LastUse(s, history, c[j].url)
    decreases c
  {
    if i > 0 {
      EarlierIsLessRecent(s, history, c[1..], i - 1, j - 1);
    } else if j > 1 {
      EarlierIsLessRecent(s, history, c[1..], 0, j - 1);
    }
  }

  lemma {:induction false} PopOrdered(s: Settings, history: seq<Access>, c: seq<Entry>, url: Url)
    requires InUseOrder(s, history, c)
    ensures InUseOrder(s, history, Pop(c, url))
    decreases c
  {
    if c != [] && c[0].url != url {
      PopOrdered(s, history, c[1..], url);
      assert Pop(c, url)[1..] == Pop(c[1..], url);
      assert |c| > 2 ==> c[1..][1..][0] == c[2];
    }
  }

  lemma LastUseSnoc(s: Settings, history: seq<Access>, a: Access, url: Url)
    ensures LastUse(s, history + [a], url) ==
            if a.url == url && LastIsUse(s, history + [a]) then |history| else LastUse(s, history, url)
    ensures LastIsUse(s, history + [a]) <==>
            a.Set? || (a.Get? && Lookup(Run(s, [], history), a.url, a.at).Some?)
            || (a.Fill? && a.url !in Keys(Run(s, [], history)))
  {
    assert (history + [a])[..|history|] == history;
  }

  lemma {:induction false} AppendOrdered(s: Settings, history: seq<Access>, a: Access, p: seq<Entry>, e: Entry)
    requires InUseOrder(s, history, p) && e.url == a.url && LastIsUse(s, history + [a])
    requires forall k :: 0 <= k < |p| ==> p[k].url != a.url
    ensures InUseOrder(s, history + [a], p + [e])
    decreases p
  {
    if p != [] {
      assert (p + [e])[1..] == p[1..] + [e];
      AppendOrdered(s, history, a, p[1..], e);
      LastUseSnoc(s, history, a, p[0].url);
      LastUseSnoc(s, history, a, (p + [e])[1].url);
    }
  }

  lemma {:induction false} UnusedKeepsOrder(s: Settings, history: seq<Access>, a: Access, c: seq<Entry>)
    requires InUseOrder(s, history, c) && !LastIsUse(s, history + [a])
    ensures InUseOrder(s, history + [a], c)
    decreases c
  {
    if |c| > 1 {
      UnusedKeepsOrder(s, history, a, c[1..]);
      LastUseSnoc(s, history, a, c[0].url);
      LastUseSnoc(s, history, a, c[1].url);
    }
  }

  lemma {:induction false} SameKeysKeepOrder(s: Settings, history: seq<Access>, c: seq<Entry>, d: seq<Entry>)
    requires InUseOrder(s, history, c) && |c| == |d| && forall k :: 0 <= k < |c| ==> c[k].url == d[k].url
    ensures InUseOrder(s, history, d)
    decreases c
  {
    if |c| > 1 {
      SameKeysKeepOrder(s, history, c[1..], d[1..]);
    }
  }

  lemma {:induction false} CutKeepsOrder(s: Settings, history: seq<Access>, c: seq<Entry>, maxEntries: nat)
    requires InUseOrder(s, history, c)
    ensures InUseOrder(s, history, Compact(c, maxEntries))
    decreases c
  {
    if |c| > maxEntries {
      CutKeepsOrder(s, history, c[1..], maxEntries);
      assert Compact(c[1..], maxEntries) == Compact(c, maxEntries);
    }
  }

  lemma PopLacks(c: seq<Entry>, url: Url)
    requires NoDup(c)
    ensures forall k :: 0 <= k < |Pop(c, url)| ==> Pop(c, url)[k].url != url
  {
    PopFacts(c, url);
  }

  lemma KeysLack(c: seq<Entry>, url: Url)
    requires url !in Keys(c)
    ensures forall k :: 0 <= k < |c| ==> c[k].url != url
  {
    InKeys(c, url);
  }

  lemma GetOrdered(s: Settings, history: seq<Access>, c: seq<Entry>, a: Access)
    requires a.Get? && NoDup(c) && InUseOrder(s, history, c) && c == Run(s, [], history)
    ensures InUseOrder(s, history + [a], Step(s, c, a))
  {
    LastUseSnoc(s, history, a, a.url);
    PopLacks(c, a.url);
    PopOrdered(s, history, c, a.url);
    if LastIsUse(s, history + [a]) {
      AppendOrdered(s, history, a, Pop(c, a.url), c[Find(c, a.url)]);
    } else {
      UnusedKeepsOrder(s, history, a, Step(s, c, a));
    }
  }

  lemma StoringIsUse(s: Settings, history: seq<Access>, a: Access)
    requires !a.Get?
    ensures LastIsUse(s, history + [a]) <==> a.Set? || a.url !in Keys(Run(s, [], history))
  {
    LastUseSnoc(s, history, a, a.url);
  }

  lemma RefillKeepsKeys(s: Settings, c: seq<Entry>, a: Access)
    requires a.Fill? && a.url in Keys(c)
    ensures |Step(s, c, a)| == |c| && forall k :: 0 <= k < |c| ==> Step(s, c, a)[k].url == c[k].url
  {
  }

  lemma FillOrdered(s: Settings, history: seq<Access>, c: seq<Entry>, a: Access)
    requires a.Fill? && InUseOrder(s, history, c) && c == Run(s, [], history)
    ensures InUseOrder(s, history + [a], Step(s, c, a))
  {
    StoringIsUse(s, history, a);
    if a.url in Keys(c) {
      RefillOrdered(s, history, c, a);
    } else {
      NewFillOrdered(s, history, c, a);
    }
  }

  lemma NewFillOrdered(s: Settings, history: seq<Access>, c: seq<Entry>, a: Access)
    requires a.Fill? && a.url !in Keys(c) && InUseOrder(s, history, c) && LastIsUse(s, history + [a])
    ensures InUseOrder(s, history + [a], Step(s, c, a))
  {
    KeysLack(c, a.url);
    StoreOrdered(s, history, a, c);
    NewFill(s, c, a);
  }

  lemma NewFill(s: Settings, c: seq<Entry>, a: Access)
    requires a.Fill? && a.url !in Keys(c)
    ensures Step(s, c, a) == Compact(c + [Entry(a.url, a.at + s.ttl, a.payload)], s.maxEntries)
  {
  }

  lemma RefillOrdered(s: Settings, history: seq<Access>, c: seq<Entry>, a: Access)
    requires a.Fill? && a.url in Keys(c) && InUseOrder(s, history, c) && !LastIsUse(s, history + [a])
    ensures InUseOrder(s, history + [a], Step(s, c, a))
  {
    UnusedKeepsOrder(s, history, a, c);
    RefillKeepsKeys(s, c, a);
    SameKeysKeepOrder(s, history + [a], c, Step(s, c, a));
  }

  lemma StoreOrdered(s: Settings, history: seq<Access>, a: Access, p: seq<Entry>)
    requires !a.Get? && InUseOrder(s, history, p) && LastIsUse(s, history + [a])
    requires forall k :: 0 <= k < |p| ==> p[k].url != a.url
    ensures InUseOrder(s, history + [a], Compact(p + [Entry(a.url, a.at + s.ttl, a.payload)], s.maxEntries))
  {
    var e := Entry(a.url, a.at + s.ttl, a.payload);
    AppendOrdered(s, history, a, p, e);
    CutKeepsOrder(s, history + [a], p + [e], s.maxEntries);
  }

  lemma SetOrdered(s: Settings, history: seq<Access>, c: seq<Entry>, a: Access)
    requires a.Set? && NoDup(c) && InUseOrder(s, history, c)
    ensures InUseOrder(s, history + [a], Step(s, c, a))
  {
    StoringIsUse(s, history, a);
    PopLacks(c, a.url);
    PopOrdered(s, history, c, a.url);
    StoreOrdered(s, history, a, Pop(c, a.url));
  }

  lemma StepOrdered(s: Settings, history: seq<Access>, c: seq<Entry>, a: Access)
    requires NoDup(c) && InUseOrder(s, history, c) && c == Run(s, [], history)
    ensures InUseOrder(s, history + [a], Step(s, c, a))
  {
    match a {
      case Get(_, _) => GetOrdered(s, history, c, a);
      case Fill(_, _, _) => FillOrdered(s, history, c, a);
      case Set(_, _, _) => SetOrdered(s, history, c, a);
    }
  }

  lemma {:induction false} RunOrdered(s: Settings, history: seq<Access>)
    requires s.Valid()
    ensures InUseOrder(s, history, Run(s, [], history))
    decreases history
  {
    if history != [] {
      var h, a := history[..|history| - 1], history[|history| - 1];
      RunOrdered(s, h);
      SizeBounded(s, [], h);
      StepOrdered(s, h, Run(s, [], h), a);
      assert h + [a] == history;
    }
  }

  /** The entries stand in the order of their last use, whatever was stored, read and refilled: what
      eviction removes, the first entry, is the least recently used one. */
  lemma OrderIsRecency(s: Settings, history: seq<Access>, i: nat, j: nat)
    requires s.Valid() && i < j < |Run(s, [], history)|
    ensures var c := Run(s, [], history); LastUse(s, history, c[i].url) < LastUse(s, history, c[j].url)
  {
    RunOrdered(s, history);
    EarlierIsLessRecent(s, history, Run(s, [], history), i, j);
  }

  /** After a read the URL is held exactly if the read was a hit: an expired entry goes when it is asked for.
      Other URLs are held as before. */
  lemma ReadKeepsIff(s: Settings, history: seq<Access>, url: Url, now: real, other: Url)
    requires s.Valid()
    ensures var c, n := Run(s, [], history), Run(s, [], history + [Get(url, now)]);
      && (url in Keys(n) <==> Lookup(c, url, now).Some?)
      && (other != url ==> (other in Keys(n) <==> other in Keys(c)))
  {
    var c := Run(s, [], history);
    SizeBounded(s, [], history);
    RunSnoc(s, [], history, Get(url, now));
    PopFacts(c, url);
    var i := Find(c, url);
    if i < |c| {
      PopKeysExactly(c, url);
      KeysConcat(Pop(c, url), [c[i]]);
    }
  }

  lemma {:induction false} PopKeysExactly(c: seq<Entry>, url: Url)
    requires NoDup(c)
    ensures Keys(Pop(c, url)) == Keys(c) - {url}
    decreases c
  {
    if c != [] {
      PopKeysExactly(c[1..], url);
      InKeys(c[1..], c[0].url);
    }
  }

  // ----- Through Redis -----

  type Task = nat

  /** A payload in Redis: when it was handed to `set`, and when Redis stored it. */
  datatype RedisEntry = RedisEntry(payload: Payload, setAt: real, storedAt: real)

  /** What one task read from Redis, and when. */
  datatype RedisRead = RedisRead(url: Url, entry: RedisEntry, readAt: real)

  /** Local caches are independent of each other; this is one of them and the Redis it shares. `written`
      holds what was handed to `set`, and when. */
  datatype World = World(cache: seq<Entry>, redis: map<Url, RedisEntry>, pendingReads: map<Task, RedisRead>,
                         written: set<(Url, Payload, real)>)

  /** `set` stores locally at once and then awaits Redis: `Publish` is the later half. */
  datatype Action =
    | Locally(access: Access)
    | Publish(url: Url, payload: Payload, setAt: real, at: real)
    | ReadRedis(task: Task, url: Url, at: real)
    | Refill(task: Task, at: real)

  function RedisTtl(s: Settings): real { MaxInt(1, s.ttl.Floor) as real }

  function Act(s: Settings, w: World, a: Action): World
  {
    match a
    case Locally(access) =>
      w.(cache := Step(s, w.cache, access),
         written := if access.Set? then w.written + {(access.url, access.payload, access.at)} else w.written)
    case Publish(url, payload, setAt, at) =>
      w.(redis := w.redis[url := RedisEntry(payload, setAt, at)], written := w.written + {(url, payload, setAt)})
    case ReadRedis(task, url, at) =>
      if url in w.redis && at < w.redis[url].storedAt + RedisTtl(s) then
        w.(pendingReads := w.pendingReads[task := RedisRead(url, w.redis[url], at)])
      else w
    case Refill(task, at) =>
      if task in w.pendingReads then
        w.(cache := Step(s, w.cache, Fill(w.pendingReads[task].url, w.pendingReads[task].entry.payload, at)),
           pendingReads := w.pendingReads - {task})
      else w
  }

  /** How long Redis takes at most to store what was set, and a task to store locally what it read. */
  datatype Delays = Delays(publish: real, refill: real) {

    ghost predicate Valid() { publish >= 0.0 && refill >= 0.0 }
  }

  function InstantOf(a: Action): real { if a.Locally? then a.access.at else a.at }

  /** The delays are kept. Local accesses are gets and sets. */
  ghost predicate Proper(w: World, a: Action, d: Delays)
  {
    match a
    case Locally(access) => !access.Fill?
    case Publish(_, _, setAt, at) => setAt <= at <= setAt + d.publish
    case Refill(task, at) => task in w.pendingReads ==> at <= w.pendingReads[task].readAt + d.refill
    case _ => true
  }

  /** A run on one clock, starting at `start`, that keeps the delays. */
  ghost predicate AllProper(s: Settings, w: World, start: real, actions: seq<Action>, d: Delays)
    decreases actions
  {
    actions == []
    || (start <= InstantOf(actions[0]) && Proper(w, actions[0], d)
        && AllProper(s, Act(s, w, actions[0]), InstantOf(actions[0]), actions[1..], d))
  }

  function EndOf(start: real, actions: seq<Action>): real
  {
    if actions == [] then start else InstantOf(actions[|actions| - 1])
  }

  function Acts(s: Settings, w: World, actions: seq<Action>): World
    decreases actions
  {
    if actions == [] then w else Acts(s, Act(s, w, actions[0]), actions[1..])
  }

  ghost predicate Aged(w: World, e: Entry, bound: real)
  {
    exists at :: (e.url, e.payload, at) in w.written && e.expireAt <= at + bound
  }

  /** The lifetime, the lifetime in whole seconds but at least one, and the two delays. */
  function LongestAge(s: Settings, d: Delays): real
  {
    s.ttl + (if s.ttl < 1.0 then 1.0 else s.ttl.Floor as real) + d.publish + d.refill
  }

  ghost predicate WorldInv(s: Settings, w: World, d: Delays)
  {
    && WellFormed(s, w.cache)
    && (forall u :: u in w.redis ==> Kept(w, d, u, w.redis[u]))
    && (forall t :: t in w.pendingReads ==>
          var r := w.pendingReads[t];
          Kept(w, d, r.url, r.entry) && r.readAt < r.entry.storedAt + RedisTtl(s))
    && (forall e :: e in w.cache ==> Aged(w, e, LongestAge(s, d)))
  }

  ghost predicate Kept(w: World, d: Delays, url: Url, e: RedisEntry)
  {
    (url, e.payload, e.setAt) in w.written && e.storedAt <= e.setAt + d.publish
  }

  lemma ActKeepsInv(s: Settings, w: World, a: Action, d: Delays)
    requires s.Valid() && d.Valid() && WorldInv(s, w, d) && Proper(w, a, d)
    ensures WorldInv(s, Act(s, w, a), d)
  {
    var n, bound := Act(s, w, a), LongestAge(s, d);
    match a {
      case Publish(_, _, _, _) =>
      case ReadRedis(_, _, _) =>
      case Locally(access) => StepWellFormed(s, w.cache, access);
      case Refill(task, at) =>
        if task in w.pendingReads { StepWellFormed(s, w.cache, Fill(w.pendingReads[task].url, w.pendingReads[task].entry.payload, at)); }
    }
    forall e | e in n.cache ensures Aged(n, e, bound) {
      if e in w.cache {
        var at :| (e.url, e.payload, at) in w.written && e.expireAt <= at + bound;
        assert (e.url, e.payload, at) in n.written;
      } else {
        var k :| 0 <= k < |n.cache| && n.cache[k] == e;
        match a {
          case Locally(access) =>
            StepEntries(s, w.cache, access, k);
            assert (access.url, access.payload, access.at) in n.written;
          case Refill(task, at) =>
            var r := w.pendingReads[task];
            StepEntries(s, w.cache, Fill(r.url, r.entry.payload, at), k);
            assert (r.url, r.entry.payload, r.entry.setAt) in n.written;
          case _ =>
        }
      }
    }
  }

  const EMPTY := World([], map[], map[], {})

  lemma {:induction false} ActsKeepInv(s: Settings, w: World, start: real, actions: seq<Action>, d: Delays)
    requires s.Valid() && d.Valid() && WorldInv(s, w, d) && AllProper(s, w, start, actions, d)
    ensures WorldInv(s, Acts(s, w, actions), d)
    decreases actions
  {
    if actions != [] {
      ActKeepsInv(s, w, actions[0], d);
      ActsKeepInv(s, Act(s, w, actions[0]), InstantOf(actions[0]), actions[1..], d);
    }
  }

  /** A hit on `url` at `now` returns a payload that was handed to `set` less than `age` ago. */
  ghost predicate YoungerThan(w: World, url: Url, now: real, age: real)
  {
    Lookup(w.cache, url, now).Some? ==>
      exists at :: (url, Lookup(w.cache, url, now).value, at) in w.written && now < at + age
  }

  /** Under any interleaving of local accesses, Redis writes, Redis reads and refills, a hit is younger than
      the two lifetimes (the local one and the one in Redis) and the two delays together. */
  lemma HitAge(s: Settings, actions: seq<Action>, d: Delays, url: Url, now: real)
    requires s.Valid() && d.Valid() && AllProper(s, EMPTY, 0.0, actions, d)
    ensures YoungerThan(Acts(s, EMPTY, actions), url, now, LongestAge(s, d))
  {
    ActsKeepInv(s, EMPTY, 0.0, actions, d);
    var w := Acts(s, EMPTY, actions);
    var i := Find(w.cache, url);
    if i < |w.cache| && w.cache[i].expireAt > now {
      assert w.cache[i] in w.cache;
      assert Aged(w, w.cache[i], LongestAge(s, d));
    }
  }

  /** Every hit of every run that keeps the delays is younger than `bound`. */
  ghost predicate BoundsAges(s: Settings, d: Delays, bound: real)
  {
    forall actions, url, now :: AllProper(s, EMPTY, 0.0, actions, d) && EndOf(0.0, actions) <= now ==>
      YoungerThan(Acts(s, EMPTY, actions), url, now, bound)
  }

  /** And that bound is sharp: any other bound, among them the two lifetimes alone, holds for every run
      exactly when it is not smaller. */
  lemma AgeBoundIff(s: Settings, d: Delays, bound: real)
    requires s.Valid() && d.Valid()
    ensures BoundsAges(s, d, bound) <==> bound >= LongestAge(s, d)
  {
    if bound >= LongestAge(s, d) {
      forall actions, url, now | AllProper(s, EMPTY, 0.0, actions, d) && EndOf(0.0, actions) <= now
        ensures YoungerThan(Acts(s, EMPTY, actions), url, now, bound)
      {
        HitAge(s, actions, d, url, now);
        assert YoungerThan(Acts(s, EMPTY, actions), url, now, LongestAge(s, d));
      }
    } else {
      var e := MinReal((LongestAge(s, d) - bound) / 4.0, MinReal(RedisTtl(s), s.ttl) / 2.0);
      var readAt := d.publish + RedisTtl(s) - e;
      var actions := LateRefill(s, d, readAt);
      assert !YoungerThan(Acts(s, EMPTY, actions), "u", readAt + d.refill + s.ttl - e, bound);
    }
  }

  /** The two lifetimes alone bound the age of every hit only if Redis and the refill take no time. */
  lemma LifetimesBoundIff(s: Settings, d: Delays)
    requires s.Valid() && d.Valid()
    ensures BoundsAges(s, d, s.ttl + MaxReal(1.0, s.ttl.Floor as real)) <==> d.publish == 0.0 && d.refill == 0.0
  {
    AgeBoundIff(s, d, s.ttl + MaxReal(1.0, s.ttl.Floor as real));
  }

  /** Set at zero, stored by Redis and refilled as late as the delays allow. */
  lemma LateRefill(s: Settings, d: Delays, readAt: real) returns (actions: seq<Action>)
    requires s.Valid() && d.Valid() && d.publish <= readAt < d.publish + RedisTtl(s)
    ensures AllProper(s, EMPTY, 0.0, actions, d) && EndOf(0.0, actions) == readAt + d.refill
    ensures Acts(s, EMPTY, actions).cache == [Entry("u", readAt + d.refill + s.ttl, "p")]
    ensures Acts(s, EMPTY, actions).written == {("u", "p", 0.0)}
  {
    actions := [Publish("u", "p", 0.0, d.publish), ReadRedis(0, "u", readAt), Refill(0, readAt + d.refill)];
    var w1 := Act(s, EMPTY, actions[0]);
    var w2 := Act(s, w1, actions[1]);
    var w3 := Act(s, w2, actions[2]);
    assert w3.cache == [Entry("u", readAt + d.refill + s.ttl, "p")];
    assert actions[1..][1..] == actions[2..] && actions[2..][1..] == [];
    assert AllProper(s, w2, readAt, actions[2..], d) && Acts(s, w2, actions[2..]) == w3;
    assert AllProper(s, w1, d.publish, actions[1..], d) && Acts(s, w1, actions[1..]) == w3;
  }

  // ----- The store itself -----

  class ResponseCacheStore {
    const ttlSeconds: real
    const maxEntries: nat
    var responseCache: seq<Entry>
    ghost var history: seq<Access>

    ghost function Limits(): Settings { Settings(ttlSeconds, maxEntries) }

    ghost predicate Valid()
      reads this
    {
      ttlSeconds >= 0.0 && maxEntries >= 1 && responseCache == Run(Limits(), [], history)
    }

    constructor (ttlSeconds: real, maxEntries: int)
      ensures Valid() && history == []
      ensures this.ttlSeconds == MaxReal(0.0, ttlSeconds) && this.maxEntries == MaxInt(1, maxEntries)
    {
      this.ttlSeconds, this.maxEntries := MaxReal(0.0, ttlSeconds), MaxInt(1, maxEntries);
      responseCache, history := [], [];
    }

    /** The part of `get` before Redis is asked. */
    method GetLocal(url: Url, now: real) returns (payload: Option<Payload>)
      requires Valid()
      modifies this
      ensures Valid()
      ensures ttlSeconds == 0.0 ==> payload == None && history == old(history)
      ensures ttlSeconds > 0.0 ==>
                history == old(history) + [Access.Get(url, now)] && payload == Lookup(old(responseCache), url, now)
    {
      if ttlSeconds <= 0.0 {
        return None;
      }
      RunSnoc(Limits(), [], history, Access.Get(url, now));
      history := history + [Access.Get(url, now)];
      var i := Find(responseCache, url);
      if i == |responseCache| {
        payload := None;
      } else if responseCache[i].expireAt <= now {
        responseCache := Pop(responseCache, url);
        payload := None;
      } else {
        var entry := responseCache[i];
        responseCache := Pop(responseCache, url);
        responseCache := responseCache + [entry];
        payload := Some(entry.payload);
      }
    }

    method SetLocal(url: Url, payload: Payload, now: real)
      requires Valid()
      modifies this
      ensures Valid()
      ensures history == if ttlSeconds == 0.0 then old(history) else old(history) + [Access.Set(url, payload, now)]
    {
      if ttlSeconds <= 0.0 {
        return;
      }
      RunSnoc(Limits(), [], history, Access.Set(url, payload, now));
      history := history + [Access.Set(url, payload, now)];
      responseCache := Pop(responseCache, url);
      responseCache := responseCache + [Entry(url, now + ttlSeconds, payload)];
      CompactLocked();
    }

    /** The part of `get` after Redis had an answer. */
    method FillLocal(url: Url, payload: Payload, now: real)
      requires Valid() && ttlSeconds > 0.0
      modifies this
      ensures Valid() && history == old(history) + [Access.Fill(url, payload, now)]
    {
      RefillFits(Limits(), history, url, payload, now);
      history := history + [Access.Fill(url, payload, now)];
      var i := Find(responseCache, url);
      var entry := Entry(url, now + ttlSeconds, payload);
      responseCache := if i < |responseCache| then responseCache[i := entry] else responseCache + [entry];
      CompactLocked();
    }

    method CompactLocked()
      modifies this`responseCache
      ensures responseCache == Compact(old(responseCache), maxEntries)
    {
      while |responseCache| > maxEntries
        invariant responseCache == old(responseCache)
                  || (maxEntries <= |responseCache| < |old(responseCache)|
                      && responseCache == old(responseCache)[|old(responseCache)| - |responseCache|..])
        decreases |responseCache|
      {
        responseCache := responseCache[1..];
      }
    }
  }
}

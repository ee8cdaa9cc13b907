/** src/ingestion/fallback/fallback_source_chain.py: market ticks from the first source, in priority
    order, that has them. What a source would answer when asked is an input. */
module FallbackMerge {
  import opened Common

  datatype Tick = Tick(token: string, content: string)

  datatype Source = Rows(rows: seq<Tick>) | Fails(reason: string, trace: string)

  datatype Reason = AllSourcesFailed | IncompleteFallback

  datatype Outcome = Ticks(rows: seq<Tick>) | FetchError(reason: Reason, missing: seq<string>, trace: string)

  // ----- The reference: for each token, the first row of the first source that offers one -----

  function FirstIn(rows: seq<Tick>, token: string): Option<Tick>
    decreases rows
  {
    if rows == [] then None
    else if rows[0].token == token then Some(rows[0])
    else FirstIn(rows[1..], token)
  }

  function FirstOffer(sources: seq<Source>, token: string): Option<Tick>
    decreases sources
  {
    if sources == [] then None
    else if sources[0].Rows? && FirstIn(sources[0].rows, token).Some? then FirstIn(sources[0].rows, token)
    else FirstOffer(sources[1..], token)
  }

  /** A token has an offer exactly when some source that does not fail has a row for it. */
  lemma {:induction false} OfferedIff(sources: seq<Source>, token: string)
    ensures FirstOffer(sources, token).Some?
            <==> exists i, j :: 0 <= i < |sources| && sources[i].Rows? && 0 <= j < |sources[i].rows|
                                && sources[i].rows[j].token == token
    ensures FirstOffer(sources, token).Some? ==> FirstOffer(sources, token).value.token == token
    decreases sources
  {
    if sources != [] {
      OfferedIff(sources[1..], token);
      if sources[0].Rows? { FirstInIff(sources[0].rows, token); }
      if i, j :| 0 <= i < |sources[1..]| && sources[1..][i].Rows? && 0 <= j < |sources[1..][i].rows|
                 && sources[1..][i].rows[j].token == token {
        assert sources[i + 1].rows[j].token == token;
      }
      if i, j :| 0 <= i < |sources| && sources[i].Rows? && 0 <= j < |sources[i].rows| && sources[i].rows[j].token == token {
        if i > 0 { assert sources[1..][i - 1].rows[j].token == token; }
      }
    }
  }

  lemma {:induction false} FirstInIff(rows: seq<Tick>, token: string)
    ensures FirstIn(rows, token).Some? <==> exists j :: 0 <= j < |rows| && rows[j].token == token
    ensures FirstIn(rows, token).Some? ==> FirstIn(rows, token).value.token == token
    decreases rows
  {
    if rows != [] {
      FirstInIff(rows[1..], token);
      if j :| 0 <= j < |rows[1..]| && rows[1..][j].token == token { assert rows[j + 1].token == token; }
      if j :| 0 <= j < |rows| && rows[j].token == token {
        if j > 0 { assert rows[1..][j - 1].token == token; }
      }
    }
  }

  /** Row `j` is the first of its source for the token. */
  ghost predicate FirstRow(rows: seq<Tick>, token: string, j: int)
  {
    0 <= j < |rows| && rows[j].token == token && forall k :: 0 <= k < j ==> rows[k].token != token
  }

  /** Source `i` is the first one that has a row of the token and does not fail. */
  ghost predicate FirstSource(sources: seq<Source>, token: string, i: int)
  {
    && 0 <= i < |sources| && sources[i].Rows? && (exists j :: FirstRow(sources[i].rows, token, j))
    && forall k :: 0 <= k < i && sources[k].Rows? ==> forall j :: 0 <= j < |sources[k].rows| ==> sources[k].rows[j].token != token
  }

  /** What the reference offers is the first row of the first source that has one. */
  lemma {:induction false} OfferIs(sources: seq<Source>, token: string, i: nat, j: nat)
    requires FirstSource(sources, token, i) && FirstRow(sources[i].rows, token, j)
    ensures FirstOffer(sources, token) == Some(sources[i].rows[j])
    decreases sources
  {
    if i == 0 {
      FirstInIs(sources[0].rows, token, j);
    } else {
      if sources[0].Rows? { FirstInIff(sources[0].rows, token); }
      assert forall k :: 0 <= k < |sources[1..]| ==> sources[1..][k] == sources[k + 1];
      OfferIs(sources[1..], token, i - 1, j);
    }
  }

  lemma {:induction false} FirstInIs(rows: seq<Tick>, token: string, j: nat)
    requires FirstRow(rows, token, j)
    ensures FirstIn(rows, token) == Some(rows[j])
    decreases rows
  {
    if j > 0 {
      assert forall k :: 0 <= k < |rows[1..]| ==> rows[1..][k] == rows[k + 1];
      FirstInIs(rows[1..], token, j - 1);
    }
  }

  lemma {:induction false} FirstInSnoc(rows: seq<Tick>, row: Tick, token: string)
    ensures FirstIn(rows + [row], token)
            == if FirstIn(rows, token).Some? then FirstIn(rows, token) else if row.token == token then Some(row) else None
    decreases rows
  {
    if rows == [] {
      assert [] + [row] == [row];
    } else {
      assert (rows + [row])[1..] == rows[1..] + [row];
      FirstInSnoc(rows[1..], row, token);
    }
  }

  lemma {:induction false} FirstOfferConcat(a: seq<Source>, b: seq<Source>, token: string)
    ensures FirstOffer(a + b, token) == if FirstOffer(a, token).Some? then FirstOffer(a, token) else FirstOffer(b, token)
    decreases a
  {
    if a == [] {
      assert a + b == b;
    } else {
      assert (a + b)[1..] == a[1..] + b;
      FirstOfferConcat(a[1..], b, token);
    }
  }

  function TokenId(chain: string, lower: string -> string, symbol: string): string { chain + "_" + lower(symbol) }

  function Tokens(chain: string, lower: string -> string, symbols: seq<string>): seq<string>
  {
    seq(|symbols|, i requires 0 <= i < |symbols| => TokenId(chain, lower, symbols[i]))
  }

  /** The dictionary agrees with the reference about the sources asked so far. */
  ghost predicate Agrees(byToken: map<string, Tick>, sources: seq<Source>)
  {
    forall t :: FirstOffer(sources, t) == if t in byToken then Some(byToken[t]) else None
  }

  predicate Failed(sources: seq<Source>)
  {
    exists i :: 0 <= i < |sources| && sources[i].Fails?
  }

  /** No source that does not fail offers anything at all. */
  predicate NothingOffered(sources: seq<Source>)
  {
    forall i :: 0 <= i < |sources| && sources[i].Rows? ==> sources[i].rows == []
  }

  ghost predicate Missing(sources: seq<Source>, tokens: seq<string>)
  {
    exists i :: 0 <= i < |tokens| && FirstOffer(sources, tokens[i]).None?
  }

  /** Although the loop stops asking as soon as it has every symbol, the rows line up with the symbols
      and are the reference's; it fails exactly when some symbol is offered by no source, and blames
      all sources exactly when, besides, one failed and the others had nothing. */
  method FetchMarketTicks(chain: string, lower: string -> string, symbols: seq<string>, sources: seq<Source>)
    returns (outcome: Outcome)
    ensures var tokens := Tokens(chain, lower, symbols);
      && (outcome.FetchError? <==> Missing(sources, tokens))
      && (outcome.Ticks? ==>
            && |outcome.rows| == |symbols|
            && (forall i :: 0 <= i < |symbols| ==> Some(outcome.rows[i]) == FirstOffer(sources, tokens[i])))
      && (outcome.FetchError? ==>
            && (outcome.reason == AllSourcesFailed <==> Failed(sources) && NothingOffered(sources))
            && (forall i :: 0 <= i < |symbols| && FirstOffer(sources, tokens[i]).None? ==> symbols[i] in outcome.missing)
            && (forall s :: s in outcome.missing ==> exists i :: 0 <= i < |symbols| && symbols[i] == s && FirstOffer(sources, tokens[i]).None?))
  {
    var tokens := Tokens(chain, lower, symbols);
    var byToken: map<string, Tick> := map[];
    var failed, trace := false, "fallback-missing";
    var index := 0;
    while index < |sources| && exists i :: 0 <= i < |tokens| && tokens[i] !in byToken
      invariant 0 <= index <= |sources|
      invariant Agrees(byToken, sources[..index])
      invariant failed <==> Failed(sources[..index])
      invariant byToken == map[] <==> NothingOffered(sources[..index])
      decreases |sources| - index
    {
      var source := sources[index];
      assert sources[..index + 1] == sources[..index] + [source];
      ghost var before := byToken;
      match source {
        case Fails(_, t) =>
          failed, trace := true, t;
          Extended(byToken, byToken, sources[..index], source);
          assert sources[..index + 1][index].Fails?;
        case Rows(rows) =>
          byToken := SetDefaults(byToken, rows);
          Extended(before, byToken, sources[..index], source);
          NothingSnoc(sources[..index], source);
          FailedSnoc(sources[..index], source);
      }
      if source.Fails? { NothingSnoc(sources[..index], source); }
      index := index + 1;
    }
    assert sources[..index] + sources[index..] == sources;
    forall t | t in byToken ensures FirstOffer(sources, t) == Some(byToken[t]) {
      FirstOfferConcat(sources[..index], sources[index..], t);
    }
    if exists i :: 0 <= i < |tokens| && tokens[i] !in byToken {
      assert sources[..index] == sources;
      var missing := MissingSymbols(tokens, symbols, byToken);
      forall s | s in missing ensures exists i :: 0 <= i < |symbols| && symbols[i] == s && FirstOffer(sources, tokens[i]).None? {
        var i :| 0 <= i < |symbols| && symbols[i] == s && tokens[i] !in byToken;
        assert FirstOffer(sources, tokens[i]).None?;
      }
      return FetchError(if failed && byToken == map[] then AllSourcesFailed else IncompleteFallback, missing, trace);
    }
    return Ticks(seq(|tokens|, i requires 0 <= i < |tokens| && tokens[i] in byToken => byToken[tokens[i]]));
  }

  method MissingSymbols(tokens: seq<string>, symbols: seq<string>, byToken: map<string, Tick>) returns (missing: seq<string>)
    requires |tokens| == |symbols|
    ensures forall i :: 0 <= i < |symbols| && tokens[i] !in byToken ==> symbols[i] in missing
    ensures forall s :: s in missing ==> exists i :: 0 <= i < |symbols| && symbols[i] == s && tokens[i] !in byToken
  {
    missing := [];
    for i := 0 to |symbols|
      invariant forall j :: 0 <= j < i && tokens[j] !in byToken ==> symbols[j] in missing
      invariant forall s :: s in missing ==> exists j :: 0 <= j < |symbols| && symbols[j] == s && tokens[j] !in byToken
    {
      if tokens[i] !in byToken {
        missing := missing + [symbols[i]];
      }
    }
  }

  /** `setdefault`: a token that is present keeps its row. */
  method SetDefaults(byToken: map<string, Tick>, rows: seq<Tick>) returns (merged: map<string, Tick>)
    ensures forall t :: (if t in merged then Some(merged[t]) else None)
                        == if t in byToken then Some(byToken[t]) else FirstIn(rows, t)
    ensures merged == map[] <==> byToken == map[] && rows == []
  {
    merged := byToken;
    var j := 0;
    while j < |rows|
      invariant 0 <= j <= |rows|
      invariant forall t :: (if t in merged then Some(merged[t]) else None)
                            == if t in byToken then Some(byToken[t]) else FirstIn(rows[..j], t)
      invariant merged == map[] <==> byToken == map[] && j == 0
    {
      assert rows[..j + 1] == rows[..j] + [rows[j]];
      forall t ensures FirstIn(rows[..j + 1], t)
        == if FirstIn(rows[..j], t).Some? then FirstIn(rows[..j], t) else if rows[j].token == t then Some(rows[j]) else None
      {
        FirstInSnoc(rows[..j], rows[j], t);
      }
      if rows[j].token !in merged {
        merged := merged[rows[j].token := rows[j]];
      }
      assert rows[j].token in merged;
      j := j + 1;
    }
    assert rows[..j] == rows;
  }

  lemma Extended(before: map<string, Tick>, after: map<string, Tick>, sources: seq<Source>, source: Source)
    requires Agrees(before, sources)
    requires forall t :: (if t in after then Some(after[t]) else None)
               == if t in before then Some(before[t]) else if source.Rows? then FirstIn(source.rows, t) else None
    ensures Agrees(after, sources + [source])
  {
    forall t ensures FirstOffer(sources + [source], t) == if t in after then Some(after[t]) else None {
      FirstOfferConcat(sources, [source], t);
      assert FirstOffer([source], t) == if source.Rows? then FirstIn(source.rows, t) else None;
    }
  }

  lemma FailedSnoc(sources: seq<Source>, source: Source)
    ensures Failed(sources + [source]) <==> Failed(sources) || source.Fails?
  {
    var all := sources + [source];
    if i :| 0 <= i < |sources| && sources[i].Fails? { assert all[i].Fails?; }
    if source.Fails? { assert all[|sources|].Fails?; }
  }

  lemma NothingSnoc(sources: seq<Source>, source: Source)
    ensures NothingOffered(sources + [source]) <==> NothingOffered(sources) && (source.Rows? ==> source.rows == [])
  {
    var all := sources + [source];
    if NothingOffered(all) {
      forall i | 0 <= i < |sources| && sources[i].Rows? ensures sources[i].rows == [] { assert all[i] == sources[i]; }
      assert all[|sources|] == source;
    }
  }
}

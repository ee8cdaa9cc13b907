/** src/backtest/attribution.py: trades grouped by a key, one bucket per key, best bucket first. */
module Attribution {
  import opened Common
  import StableSort

  datatype Bucket = Bucket(key: string, tradeCount: nat, net: real, winRate: real)

  function WinCount(net: seq<real>): nat
    decreases net
  {
    if net == [] then 0 else (if net[0] > 0.0 then 1 else 0) + WinCount(net[1..])
  }

  /** The results of the trades with one key, in their order. */
  function ItemsOf(key: string, keys: seq<string>, net: seq<real>): seq<real>
    requires |keys| == |net|
    decreases keys
  {
    if keys == [] then [] else (if keys[0] == key then [net[0]] else []) + ItemsOf(key, keys[1..], net[1..])
  }

  function BucketOf(key: string, items: seq<real>): Bucket
  {
    Bucket(key, |items|, Sum(items), if items == [] then 0.0 else WinCount(items) as real / |items| as real)
  }

  function BucketsOf(order: seq<string>, keys: seq<string>, net: seq<real>): seq<Bucket>
    requires |keys| == |net|
    decreases order
  {
    if order == [] then [] else [BucketOf(order[0], ItemsOf(order[0], keys, net))] + BucketsOf(order[1..], keys, net)
  }

  /** The keys in the order of their first appearance. */
  function FirstKeys(keys: seq<string>): seq<string>
    decreases keys
  {
    if keys == [] then []
    else
      var before := FirstKeys(keys[..|keys| - 1]);
      if keys[|keys| - 1] in before then before else before + [keys[|keys| - 1]]
  }

  lemma {:induction false} ItemsSnoc(key: string, keys: seq<string>, net: seq<real>, k: string, x: real)
    requires |keys| == |net|
    ensures ItemsOf(key, keys + [k], net + [x]) == ItemsOf(key, keys, net) + if k == key then [x] else []
    decreases keys
  {
    if keys != [] {
      assert (keys + [k])[1..] == keys[1..] + [k] && (net + [x])[1..] == net[1..] + [x];
      ItemsSnoc(key, keys[1..], net[1..], k, x);
      var head, rest, tail := if keys[0] == key then [net[0]] else [], ItemsOf(key, keys[1..], net[1..]), if k == key then [x] else [];
      assert ItemsOf(key, keys + [k], net + [x]) == head + (rest + tail) == (head + rest) + tail;
    }
  }

  lemma {:induction false} FirstKeysFacts(keys: seq<string>)
    ensures forall k :: k in FirstKeys(keys) <==> k in keys
    ensures forall i, j :: 0 <= i < j < |FirstKeys(keys)| ==> FirstKeys(keys)[i] != FirstKeys(keys)[j]
    decreases keys
  {
    if keys != [] {
      var n := |keys| - 1;
      FirstKeysFacts(keys[..n]);
      assert keys == keys[..n] + [keys[n]];
    }
  }

  /** Keys stand in the order of their first appearance: later trades only add keys behind. */
  lemma {:induction false} FirstKeysGrow(keys: seq<string>, n: nat)
    requires n <= |keys|
    ensures FirstKeys(keys[..n]) <= FirstKeys(keys)
    decreases keys
  {
    if n == |keys| {
      assert keys[..n] == keys;
    } else {
      FirstKeysGrow(keys[..|keys| - 1], n);
      assert keys[..|keys| - 1][..n] == keys[..n];
    }
  }

  method Aggregate(keys: seq<string>, net: seq<real>) returns (rows: seq<Bucket>)
    requires |keys| == |net|
    ensures rows == StableSort.Sorted(BucketsOf(FirstKeys(keys), keys, net), (b: Bucket) => b.net)
  {
    var groups, order := GroupBy(keys, net);
    rows := [];
    var j := 0;
    while j < |order|
      invariant 0 <= j <= |order| && rows == BucketsOf(order[..j], keys, net)
    {
      BucketsSnoc(order, j, keys, net);
      rows := rows + [BucketOf(order[j], groups[order[j]])];
      j := j + 1;
    }
    assert order[..j] == order;
    rows := StableSort.Sorted(rows, (b: Bucket) => b.net);
  }

  /** Each key seen so far holds the results of its trades, and the keys stand in order of appearance. */
  ghost predicate Grouped(groups: map<string, seq<real>>, order: seq<string>, keys: seq<string>, net: seq<real>)
    requires |keys| == |net|
  {
    && order == FirstKeys(keys) && (forall k :: k in groups <==> k in order)
    && forall k :: k in groups ==> groups[k] == ItemsOf(k, keys, net)
  }

  lemma GroupedSnoc(groups: map<string, seq<real>>, order: seq<string>, keys: seq<string>, net: seq<real>, k: string, x: real)
    requires |keys| == |net| && Grouped(groups, order, keys, net)
    ensures if k in groups then Grouped(groups[k := groups[k] + [x]], order, keys + [k], net + [x])
            else Grouped(groups[k := [x]], order + [k], keys + [k], net + [x])
  {
    assert (keys + [k])[..|keys|] == keys;
    FirstKeysFacts(keys);
    ItemsSnoc(k, keys, net, k, x);
    forall q | q in groups ensures ItemsOf(q, keys + [k], net + [x]) == groups[q] + if k == q then [x] else [] {
      ItemsSnoc(q, keys, net, k, x);
    }
    if k !in groups {
      NoItems(k, keys, net);
    }
  }

  /** The dictionary of lists, and the order in which its keys were inserted. */
  method GroupBy(keys: seq<string>, net: seq<real>) returns (groups: map<string, seq<real>>, order: seq<string>)
    requires |keys| == |net|
    ensures order == FirstKeys(keys)
    ensures forall k :: k in order ==> k in groups && groups[k] == ItemsOf(k, keys, net)
  {
    groups, order := map[], [];
    var i := 0;
    while i < |keys|
      invariant 0 <= i <= |keys| && Grouped(groups, order, keys[..i], net[..i])
    {
      var k := keys[i];
      assert keys[..i + 1] == keys[..i] + [k] && net[..i + 1] == net[..i] + [net[i]];
      GroupedSnoc(groups, order, keys[..i], net[..i], k, net[i]);
      if k !in groups {
        order := order + [k];
        groups := groups[k := [net[i]]];
      } else {
        groups := groups[k := groups[k] + [net[i]]];
      }
      i := i + 1;
    }
    assert keys[..i] == keys && net[..i] == net;
  }

  lemma {:induction false} NoItems(key: string, keys: seq<string>, net: seq<real>)
    requires |keys| == |net| && key !in keys
    ensures ItemsOf(key, keys, net) == []
    decreases keys
  {
    if keys != [] {
      NoItems(key, keys[1..], net[1..]);
    }
  }

  lemma {:induction false} BucketsSnoc(order: seq<string>, j: nat, keys: seq<string>, net: seq<real>)
    requires |keys| == |net| && j < |order|
    ensures BucketsOf(order[..j + 1], keys, net)
            == BucketsOf(order[..j], keys, net) + [BucketOf(order[j], ItemsOf(order[j], keys, net))]
    decreases j
  {
    if j == 0 {
      assert order[..1] == [order[0]];
    } else {
      assert order[..j + 1][1..] == order[1..][..j] && order[..j][1..] == order[1..][..j - 1];
      BucketsSnoc(order[1..], j - 1, keys, net);
    }
  }

  // ----- What a bucket holds -----

  ghost function Places(key: string, keys: seq<string>): set<int> { set i | 0 <= i < |keys| && keys[i] == key }

  ghost function Winners(key: string, keys: seq<string>, net: seq<real>): set<int>
    requires |keys| == |net|
  {
    set i | 0 <= i < |keys| && keys[i] == key && net[i] > 0.0
  }

  lemma {:induction false} WinCountSnoc(net: seq<real>, x: real)
    ensures WinCount(net + [x]) == WinCount(net) + if x > 0.0 then 1 else 0
    decreases net
  {
    if net == [] {
      assert [] + [x] == [x];
    } else {
      assert (net + [x])[1..] == net[1..] + [x];
      WinCountSnoc(net[1..], x);
    }
  }

  lemma PlacesSnoc(key: string, keys: seq<string>, k: string)
    ensures |Places(key, keys + [k])| == |Places(key, keys)| + if k == key then 1 else 0
  {
    assert Places(key, keys + [k]) == Places(key, keys) + if k == key then {|keys|} else {};
  }

  lemma WinnersSnoc(key: string, keys: seq<string>, net: seq<real>, k: string, x: real)
    requires |keys| == |net|
    ensures |Winners(key, keys + [k], net + [x])| == |Winners(key, keys, net)| + if k == key && x > 0.0 then 1 else 0
  {
    var ks, xs := keys + [k], net + [x];
    forall i | i in Winners(key, ks, xs) ensures i in Winners(key, keys, net) || (i == |keys| && k == key && x > 0.0) {
    }
    assert Winners(key, ks, xs) == Winners(key, keys, net) + if k == key && x > 0.0 then {|keys|} else {};
  }

  lemma {:induction false} ItemsCounted(key: string, keys: seq<string>, net: seq<real>)
    requires |keys| == |net|
    ensures |ItemsOf(key, keys, net)| == |Places(key, keys)|
    ensures WinCount(ItemsOf(key, keys, net)) == |Winners(key, keys, net)|
    decreases keys
  {
    if keys != [] {
      var n := |keys| - 1;
      ItemsCounted(key, keys[..n], net[..n]);
      ItemsSnoc(key, keys[..n], net[..n], keys[n], net[n]);
      WinCountSnoc(ItemsOf(key, keys[..n], net[..n]), net[n]);
      PlacesSnoc(key, keys[..n], keys[n]);
      WinnersSnoc(key, keys[..n], net[..n], keys[n], net[n]);
      assert ItemsOf(key, keys[..n], net[..n]) + [] == ItemsOf(key, keys[..n], net[..n]);
      assert keys == keys[..n] + [keys[n]] && net == net[..n] + [net[n]];
    }
  }

  /** A bucket counts exactly the trades with its key, and its win rate is the share of those that won. */
  lemma BucketHolds(key: string, keys: seq<string>, net: seq<real>)
    requires |keys| == |net|
    ensures var b := BucketOf(key, ItemsOf(key, keys, net));
      && b.key == key && b.tradeCount == |Places(key, keys)|
      && IsShare(b.winRate, b.tradeCount as real, |Winners(key, keys, net)| as real)
  {
    ItemsCounted(key, keys, net);
    var b := BucketOf(key, ItemsOf(key, keys, net));
    if b.tradeCount > 0 {
      RateOf(WinCount(ItemsOf(key, keys, net)) as real, b.tradeCount as real, b.winRate);
    } else {
      assert ItemsOf(key, keys, net) == [];
    }
  }

  // ----- Conservation -----

  function Counts(rows: seq<Bucket>): nat
    decreases rows
  {
    if rows == [] then 0 else rows[0].tradeCount + Counts(rows[1..])
  }

  function Total(rows: seq<Bucket>): real
    decreases rows
  {
    if rows == [] then 0.0 else rows[0].net + Total(rows[1..])
  }

  lemma {:induction false} InsertTotals(b: Bucket, rows: seq<Bucket>, key: Bucket -> real)
    ensures Counts(StableSort.Insert(b, rows, key)) == b.tradeCount + Counts(rows)
    ensures Total(StableSort.Insert(b, rows, key)) == b.net + Total(rows)
    decreases rows
  {
    if rows == [] || key(rows[0]) <= key(b) {
      assert ([b] + rows)[1..] == rows;
    } else {
      InsertTotals(b, rows[1..], key);
      assert StableSort.Insert(b, rows, key)[1..] == StableSort.Insert(b, rows[1..], key);
    }
  }

  lemma {:induction false} SortTotals(rows: seq<Bucket>, key: Bucket -> real)
    ensures Counts(StableSort.Sorted(rows, key)) == Counts(rows)
    ensures Total(StableSort.Sorted(rows, key)) == Total(rows)
    decreases rows
  {
    if rows != [] {
      SortTotals(rows[1..], key);
      InsertTotals(rows[0], StableSort.Sorted(rows[1..], key), key);
    }
  }

  /** One more trade adds to exactly one bucket, if its key is among the distinct keys of `order`. */
  lemma {:induction false} OneMore(order: seq<string>, keys: seq<string>, net: seq<real>, k: string, x: real)
    requires |keys| == |net| && forall i, j :: 0 <= i < j < |order| ==> order[i] != order[j]
    ensures Counts(BucketsOf(order, keys + [k], net + [x])) == Counts(BucketsOf(order, keys, net)) + if k in order then 1 else 0
    ensures Total(BucketsOf(order, keys + [k], net + [x])) == Total(BucketsOf(order, keys, net)) + if k in order then x else 0.0
    decreases order
  {
    if order != [] {
      var o, rest := order[0], order[1..];
      assert forall j :: 0 <= j < |rest| ==> rest[j] == order[j + 1];
      OneMore(rest, keys, net, k, x);
      ItemsSnoc(o, keys, net, k, x);
      var items := ItemsOf(o, keys, net);
      assert order == [o] + rest;
      if k == o {
        SumSnoc(items, x);
        assert k !in rest;
      } else {
        assert items + [] == items;
      }
    }
  }

  lemma {:induction false} NewBucketEmpty(order: seq<string>, k: string, keys: seq<string>, net: seq<real>)
    requires |keys| == |net| && k !in keys
    ensures Counts(BucketsOf(order + [k], keys, net)) == Counts(BucketsOf(order, keys, net))
    ensures Total(BucketsOf(order + [k], keys, net)) == Total(BucketsOf(order, keys, net))
    decreases order
  {
    NoItems(k, keys, net);
    if order == [] {
      assert [] + [k] == [k];
      assert BucketsOf([k], keys, net) == [BucketOf(k, [])];
    } else {
      assert (order + [k])[1..] == order[1..] + [k];
      NewBucketEmpty(order[1..], k, keys, net);
    }
  }

  lemma {:induction false} BucketsConserve(keys: seq<string>, net: seq<real>)
    requires |keys| == |net|
    ensures Counts(BucketsOf(FirstKeys(keys), keys, net)) == |net|
    ensures Total(BucketsOf(FirstKeys(keys), keys, net)) == Sum(net)
    decreases keys
  {
    if keys != [] {
      var n := |keys| - 1;
      var k, x, ks, xs := keys[n], net[n], keys[..n], net[..n];
      assert keys == ks + [k] && net == xs + [x];
      BucketsConserve(ks, xs);
      FirstKeysFacts(ks);
      FirstKeysFacts(keys);
      if k !in FirstKeys(ks) { NewBucketEmpty(FirstKeys(ks), k, ks, xs); }
      OneMore(FirstKeys(keys), ks, xs, k, x);
      SumSnoc(xs, x);
    }
  }

  /** However the trades are keyed, the buckets hold all of them and all of their result, best
      bucket first, and each key has one bucket. */
  lemma AttributionConserves(keys: seq<string>, net: seq<real>)
    requires |keys| == |net|
    ensures var rows := StableSort.Sorted(BucketsOf(FirstKeys(keys), keys, net), (b: Bucket) => b.net);
      && Counts(rows) == |net| && Total(rows) == Sum(net)
      && |rows| == |FirstKeys(keys)|
      && StableSort.Descending(rows, (b: Bucket) => b.net)
  {
    var key := (b: Bucket) => b.net;
    BucketsConserve(keys, net);
    SortTotals(BucketsOf(FirstKeys(keys), keys, net), key);
    StableSort.SortedFacts(BucketsOf(FirstKeys(keys), keys, net), key);
    BucketsLength(FirstKeys(keys), keys, net);
  }

  lemma {:induction false} BucketsLength(order: seq<string>, keys: seq<string>, net: seq<real>)
    requires |keys| == |net|
    ensures |BucketsOf(order, keys, net)| == |order|
    decreases order
  {
    if order != [] {
      BucketsLength(order[1..], keys, net);
    }
  }
}

/** The statistics page (public/stats/js/stats-app.js): the sold-items table
    sorted by quantity, the hourly buckets behind the two line charts, and the
    charts' vertical scale and horizontal step. Transaction timestamps are taken to
    be the ISO strings the cashier screens store. */
module Stats {
  import opened Wrappers
  import opened Models

  // ─── Ordering strings ───────────────────────────────────────────────────────

  /** `a <= b` in the order `Array.prototype.sort` uses for strings, character by
      character. */
  predicate StrLeq(a: string, b: string)
  {
    a == [] || (b != [] && (a[0] < b[0] || (a[0] == b[0] && StrLeq(a[1..], b[1..]))))
  }

  lemma {:induction false} StrLeqTotal(a: string, b: string)
    ensures StrLeq(a, b) || StrLeq(b, a)
  {
    if a != [] && b != [] && a[0] == b[0] {
      StrLeqTotal(a[1..], b[1..]);
    }
  }

  lemma {:induction false} StrLeqAntisymmetric(a: string, b: string)
    requires StrLeq(a, b) && StrLeq(b, a)
    ensures a == b
  {
    if a != [] && b != [] {
      StrLeqAntisymmetric(a[1..], b[1..]);
      assert a == [a[0]] + a[1..] && b == [b[0]] + b[1..];
    }
  }

  lemma {:induction false} StrLeqTransitive(a: string, b: string, c: string)
    requires StrLeq(a, b) && StrLeq(b, c)
    ensures StrLeq(a, c)
  {
    if a != [] && b != [] && c != [] && a[0] == b[0] && b[0] == c[0] {
      StrLeqTransitive(a[1..], b[1..], c[1..]);
    }
  }

  predicate SortedStrings(s: seq<string>)
  {
    forall i, j :: 0 <= i < j < |s| ==> StrLeq(s[i], s[j])
  }

  /** A string no greater than the head of a sorted list can go in front of it. */
  lemma PrependString(y: string, s: seq<string>)
    requires SortedStrings(s)
    requires s == [] || StrLeq(y, s[0])
    ensures SortedStrings([y] + s)
  {
    var r := [y] + s;
    forall i, j | 0 <= i < j < |r| ensures StrLeq(r[i], r[j]) {
      if i == 0 && j > 1 {
        StrLeqTransitive(y, s[0], s[j - 1]);
      }
    }
  }

  /** Inserting into a sorted list, before the first greater string. */
  function InsertString(x: string, s: seq<string>): (r: seq<string>)
    requires SortedStrings(s)
    ensures multiset(r) == multiset(s) + multiset{x}
    ensures |r| == |s| + 1 && (r[0] == x || (s != [] && r[0] == s[0]))
    ensures SortedStrings(r)
  {
    if s == [] || StrLeq(x, s[0]) then
      PrependString(x, s);
      [x] + s
    else
      StrLeqTotal(x, s[0]);
      var rest := InsertString(x, s[1..]);
      assert s == [s[0]] + s[1..];
      PrependString(s[0], rest);
      [s[0]] + rest
  }

  /** `keys.sort()`: the same strings, in ascending order. */
  function SortStrings(s: seq<string>): (r: seq<string>)
    ensures multiset(r) == multiset(s)
    ensures SortedStrings(r)
  {
    if s == [] then []
    else
      assert s == [s[0]] + s[1..];
      InsertString(s[0], SortStrings(s[1..]))
  }

  // ─── Hour buckets ───────────────────────────────────────────────────────────

  /** `toISOString().slice(0, 13)`: date and hour, "YYYY-MM-DDTHH". */
  function HourKey(timestamp: string): (k: string)
    ensures |k| <= 13 && |k| <= |timestamp| && k == timestamp[..|k|]
    ensures |timestamp| >= 13 ==> |k| == 13
    ensures |timestamp| < 13 ==> k == timestamp
  {
    if |timestamp| <= 13 then timestamp else timestamp[..13]
  }

  /** `key.slice(11) + ':00'`: the hour, as "HH:00". */
  function HourLabel(key: string): (l: string)
    ensures |key| >= 11 ==> l == key[11..] + ":00"
    ensures |key| < 11 ==> l == ":00"
  {
    (if |key| >= 11 then key[11..] else "") + ":00"
  }

  /** For an ISO timestamp the label is its hour, characters 11 and 12. */
  lemma LabelOfTimestamp(timestamp: string)
    requires |timestamp| >= 13
    ensures HourLabel(HourKey(timestamp)) == timestamp[11..13] + ":00"
  {
  }

  /** One entry of `hourMap`. */
  datatype Bucket = Bucket(title: string, count: nat, amount: Cents)

  /** `hourMap` as its keys and entries in insertion order. */
  type HourMap = seq<(string, Bucket)>

  /** The position of key `k`, or -1. */
  function BucketIndex(m: HourMap, k: string): (i: int)
    ensures -1 <= i < |m|
    ensures i >= 0 ==> m[i].0 == k && forall j :: 0 <= j < i ==> m[j].0 != k
    ensures i < 0 ==> forall j :: 0 <= j < |m| ==> m[j].0 != k
  {
    if m == [] then -1
    else
      var i := BucketIndex(m[..|m| - 1], k);
      if i >= 0 then i else if m[|m| - 1].0 == k then |m| - 1 else -1
  }

  /** One step of the `forEach`: the transaction's hour gets a bucket if it has none
      yet, then one more transaction and its total. */
  function AddToHour(m: HourMap, tx: Transaction): (r: HourMap)
  {
    var k := HourKey(tx.timestamp);
    var j := BucketIndex(m, k);
    if j < 0 then m + [(k, Bucket(HourLabel(k), 1, tx.total))]
    else m[j := (k, m[j].1.(count := m[j].1.count + 1, amount := m[j].1.amount + tx.total))]
  }

  /** The buckets after the given transactions. */
  function HourMapOf(txs: seq<Transaction>): HourMap
  {
    if txs == [] then [] else AddToHour(HourMapOf(txs[..|txs| - 1]), txs[|txs| - 1])
  }

  /** The bucketing loop of `renderCharts`. */
  method BucketByHour(txs: seq<Transaction>) returns (hourMap: HourMap)
    ensures hourMap == HourMapOf(txs)
  {
    hourMap := [];
    for i := 0 to |txs|
      invariant hourMap == HourMapOf(txs[..i])
    {
      assert txs[..i + 1][..i] == txs[..i];
      hourMap := AddToHour(hourMap, txs[i]);
    }
    assert txs[..|txs|] == txs;
  }

  /** How many transactions fall into hour `k`, and their total. */
  function CountIn(txs: seq<Transaction>, k: string): nat
  {
    if txs == [] then 0
    else CountIn(txs[..|txs| - 1], k) + (if HourKey(txs[|txs| - 1].timestamp) == k then 1 else 0)
  }

  function AmountIn(txs: seq<Transaction>, k: string): Cents
  {
    if txs == [] then 0
    else AmountIn(txs[..|txs| - 1], k) + (if HourKey(txs[|txs| - 1].timestamp) == k then txs[|txs| - 1].total else 0)
  }

  /** A transaction in another hour leaves the lookup of hour `k` as it was. */
  lemma AddToOtherHour(m: HourMap, tx: Transaction, k: string)
    requires HourKey(tx.timestamp) != k
    ensures BucketIndex(AddToHour(m, tx), k) == BucketIndex(m, k)
    ensures BucketIndex(m, k) >= 0 ==> AddToHour(m, tx)[BucketIndex(m, k)] == m[BucketIndex(m, k)]
  {
    var key := HourKey(tx.timestamp);
    var j0 := BucketIndex(m, key);
    var i := BucketIndex(m, k);
    if j0 < 0 {
      var e := (key, Bucket(HourLabel(key), 1, tx.total));
      assert AddToHour(m, tx) == m + [e];
      BucketIndexAppend(m, e, k);
      assert i >= 0 ==> (m + [e])[i] == m[i];
    } else {
      var b := m[j0].1;
      var e := (key, b.(count := b.count + 1, amount := b.amount + tx.total));
      assert AddToHour(m, tx) == m[j0 := e];
      BucketIndexUpdate(m, j0, e, k);
      assert i >= 0 ==> i != j0 && m[j0 := e][i] == m[i];
    }
  }

  /** A transaction in hour `k` adds itself to that hour's bucket, which is created
      when it is missing. */
  lemma AddToSameHour(m: HourMap, tx: Transaction, k: string)
    requires HourKey(tx.timestamp) == k
    ensures var r := AddToHour(m, tx); var j := BucketIndex(m, k);
      && BucketIndex(r, k) >= 0
      && r[BucketIndex(r, k)].1 == if j >= 0 then m[j].1.(count := m[j].1.count + 1, amount := m[j].1.amount + tx.total)
                                   else Bucket(HourLabel(k), 1, tx.total)
  {
    var j0 := BucketIndex(m, k);
    if j0 < 0 {
      BucketIndexAppend(m, (k, Bucket(HourLabel(k), 1, tx.total)), k);
    } else {
      var b := m[j0].1;
      BucketIndexUpdate(m, j0, (k, b.(count := b.count + 1, amount := b.amount + tx.total)), k);
    }
  }

  /** A bucket exists exactly for the hours some transaction falls into, under its
      label, with the number of those transactions and the sum of their totals. */
  lemma {:induction false} HourMapBuckets(txs: seq<Transaction>, k: string)
    ensures var m := HourMapOf(txs); var j := BucketIndex(m, k);
      && (j >= 0 <==> CountIn(txs, k) > 0)
      && (j >= 0 ==> m[j].1 == Bucket(HourLabel(k), CountIn(txs, k), AmountIn(txs, k)))
      && (j < 0 ==> AmountIn(txs, k) == 0)
  {
    if txs != [] {
      var init := txs[..|txs| - 1];
      var tx := txs[|txs| - 1];
      HourMapBuckets(init, k);
      assert HourMapOf(txs) == AddToHour(HourMapOf(init), tx);
      if HourKey(tx.timestamp) == k {
        assert CountIn(txs, k) == CountIn(init, k) + 1 && AmountIn(txs, k) == AmountIn(init, k) + tx.total;
        AddToSameHour(HourMapOf(init), tx, k);
      } else {
        assert CountIn(txs, k) == CountIn(init, k) && AmountIn(txs, k) == AmountIn(init, k);
        AddToOtherHour(HourMapOf(init), tx, k);
      }
    }
  }

  lemma BucketIndexAppend(m: HourMap, e: (string, Bucket), k: string)
    ensures BucketIndex(m + [e], k) == if BucketIndex(m, k) >= 0 then BucketIndex(m, k) else if e.0 == k then |m| else -1
  {
    assert (m + [e])[..|m|] == m;
  }

  /** Replacing an entry by one with the same key leaves every lookup where it was. */
  lemma BucketIndexUpdate(m: HourMap, j: int, e: (string, Bucket), k: string)
    requires 0 <= j < |m| && e.0 == m[j].0
    ensures BucketIndex(m[j := e], k) == BucketIndex(m, k)
  {
    var r := m[j := e];
    var a := BucketIndex(m, k);
    var b := BucketIndex(r, k);
    assert forall i :: 0 <= i < |m| ==> r[i].0 == m[i].0;
    if a >= 0 && b >= 0 {
      assert a == b;
    }
  }

  /** The sum of the bucket counts, and of the bucket amounts. */
  function CountSum(m: HourMap): int
  {
    if m == [] then 0 else CountSum(m[..|m| - 1]) + m[|m| - 1].1.count
  }

  function AmountSum(m: HourMap): int
  {
    if m == [] then 0 else AmountSum(m[..|m| - 1]) + m[|m| - 1].1.amount
  }

  /** Raising one entry's count and amount raises the sums by as much. */
  lemma {:induction false} SumsUpdate(m: HourMap, j: int, e: (string, Bucket))
    requires 0 <= j < |m|
    ensures CountSum(m[j := e]) == CountSum(m) - m[j].1.count + e.1.count
    ensures AmountSum(m[j := e]) == AmountSum(m) - m[j].1.amount + e.1.amount
    decreases |m|
  {
    var r := m[j := e];
    assert r[..|r| - 1] == if j == |m| - 1 then m[..|m| - 1] else m[..|m| - 1][j := e];
    if j < |m| - 1 {
      SumsUpdate(m[..|m| - 1], j, e);
    }
  }

  /** One transaction adds one to the count sum and its total to the amount sum. */
  lemma AddToHourSums(m: HourMap, tx: Transaction)
    ensures CountSum(AddToHour(m, tx)) == CountSum(m) + 1
    ensures AmountSum(AddToHour(m, tx)) == AmountSum(m) + tx.total
  {
    var key := HourKey(tx.timestamp);
    var j0 := BucketIndex(m, key);
    if j0 < 0 {
      var r := m + [(key, Bucket(HourLabel(key), 1, tx.total))];
      assert r[..|r| - 1] == m;
    } else {
      var b := m[j0].1;
      SumsUpdate(m, j0, (key, b.(count := b.count + 1, amount := b.amount + tx.total)));
    }
  }

  /** Each transaction is counted in exactly one bucket: the counts add up to the
      number of transactions and the amounts to the revenue. */
  lemma {:induction false} HourMapSums(txs: seq<Transaction>)
    ensures CountSum(HourMapOf(txs)) == |txs|
    ensures AmountSum(HourMapOf(txs)) == Revenue(txs)
  {
    if txs != [] {
      var init := txs[..|txs| - 1];
      HourMapSums(init);
      AddToHourSums(HourMapOf(init), txs[|txs| - 1]);
    }
  }

  /** No hour has two buckets. */
  predicate DistinctHours(m: HourMap)
  {
    forall i, j :: 0 <= i < j < |m| ==> m[i].0 != m[j].0
  }

  lemma {:induction false} HourMapDistinct(txs: seq<Transaction>)
    ensures DistinctHours(HourMapOf(txs))
  {
    if txs != [] {
      HourMapDistinct(txs[..|txs| - 1]);
    }
  }

  // ─── Chart series ───────────────────────────────────────────────────────────

  /** A point of a line chart: its x label and its value. */
  datatype Point = Point(title: string, value: real)

  /** `Object.keys(hourMap)`. */
  function Keys(m: HourMap): (r: seq<string>)
    ensures |r| == |m| && forall i :: 0 <= i < |m| ==> r[i] == m[i].0
  {
    seq(|m|, i requires 0 <= i < |m| => m[i].0)
  }

  /** Every key of the sorted key list has its bucket. */
  lemma SortedKeysFound(m: HourMap, keys: seq<string>)
    requires multiset(keys) == multiset(Keys(m))
    ensures forall i :: 0 <= i < |keys| ==> BucketIndex(m, keys[i]) >= 0
  {
    forall i | 0 <= i < |keys|
      ensures BucketIndex(m, keys[i]) >= 0
    {
      assert keys[i] in multiset(keys);
      assert keys[i] in Keys(m);
    }
  }

  /** `keys.map(key => ({label, value: count}))`. */
  function CountSeries(m: HourMap, keys: seq<string>): (r: seq<Point>)
    requires forall i :: 0 <= i < |keys| ==> BucketIndex(m, keys[i]) >= 0
    ensures |r| == |keys|
  {
    seq(|keys|, i requires 0 <= i < |keys| =>
      Point(m[BucketIndex(m, keys[i])].1.title, m[BucketIndex(m, keys[i])].1.count as real))
  }

  /** `keys.map(key => ({label, value: amount}))`, the amount in euros. */
  function AmountSeries(m: HourMap, keys: seq<string>): (r: seq<Point>)
    requires forall i :: 0 <= i < |keys| ==> BucketIndex(m, keys[i]) >= 0
    ensures |r| == |keys|
  {
    seq(|keys|, i requires 0 <= i < |keys| =>
      Point(m[BucketIndex(m, keys[i])].1.title, m[BucketIndex(m, keys[i])].1.amount as real / 100.0))
  }

  /** The two series `renderCharts` draws, `None` where it shows the "no
      transactions" hint instead: transactions per hour, and revenue per hour in
      euros, both in ascending key order. */
  function Charts(txs: seq<Transaction>): (r: Option<(seq<Point>, seq<Point>)>)
    ensures r.None? <==> txs == []
  {
    if txs == [] then None
    else
      var m := HourMapOf(txs);
      var keys := SortStrings(Keys(m));
      SortedKeysFound(m, keys);
      Some((CountSeries(m, keys), AmountSeries(m, keys)))
  }

  /** The hours of the charts: the sorted keys are exactly the hours some
      transaction falls into, each once, in strictly ascending order. */
  lemma ChartHours(txs: seq<Transaction>)
    ensures var keys := SortStrings(Keys(HourMapOf(txs)));
      && |keys| == |HourMapOf(txs)|
      && (forall k :: k in keys <==> CountIn(txs, k) > 0)
      && forall i, j :: 0 <= i < j < |keys| ==> StrLeq(keys[i], keys[j]) && keys[i] != keys[j]
  {
    var m := HourMapOf(txs);
    var keys := SortStrings(Keys(m));
    HourMapDistinct(txs);
    assert |keys| == |m| by {
      assert |multiset(keys)| == |multiset(Keys(m))|;
    }
    forall k
      ensures k in keys <==> CountIn(txs, k) > 0
    {
      HourMapBuckets(txs, k);
      assert k in keys <==> k in multiset(Keys(m));
      if BucketIndex(m, k) >= 0 {
        assert Keys(m)[BucketIndex(m, k)] == k;
      }
    }
    forall i, j | 0 <= i < j < |keys|
      ensures keys[i] != keys[j]
    {
      DistinctKeysOnce(m, keys, i, j);
    }
  }

  /** The chart points: both series carry the hour labels, the count series the
      number of transactions in that hour, the amount series their total in
      euros. */
  lemma ChartPoints(txs: seq<Transaction>)
    requires txs != []
    ensures var keys := SortStrings(Keys(HourMapOf(txs)));
      && |Charts(txs).value.0| == |Charts(txs).value.1| == |keys|
      && forall i :: 0 <= i < |keys| ==>
           && Charts(txs).value.0[i] == Point(HourLabel(keys[i]), CountIn(txs, keys[i]) as real)
           && Charts(txs).value.1[i] == Point(HourLabel(keys[i]), AmountIn(txs, keys[i]) as real / 100.0)
  {
    var m := HourMapOf(txs);
    var keys := SortStrings(Keys(m));
    SortedKeysFound(m, keys);
    forall i | 0 <= i < |keys|
      ensures CountSeries(m, keys)[i] == Point(HourLabel(keys[i]), CountIn(txs, keys[i]) as real)
      ensures AmountSeries(m, keys)[i] == Point(HourLabel(keys[i]), AmountIn(txs, keys[i]) as real / 100.0)
    {
      SeriesPoint(txs, keys, i);
    }
  }

  /** One point of each series, read from the hour's bucket. */
  lemma SeriesPoint(txs: seq<Transaction>, keys: seq<string>, i: int)
    requires forall k :: 0 <= k < |keys| ==> BucketIndex(HourMapOf(txs), keys[k]) >= 0
    requires 0 <= i < |keys|
    ensures CountSeries(HourMapOf(txs), keys)[i] == Point(HourLabel(keys[i]), CountIn(txs, keys[i]) as real)
    ensures AmountSeries(HourMapOf(txs), keys)[i] == Point(HourLabel(keys[i]), AmountIn(txs, keys[i]) as real / 100.0)
  {
    HourMapBuckets(txs, keys[i]);
  }

  /** The sorted keys of buckets with distinct hours repeat no key. */
  lemma DistinctKeysOnce(m: HourMap, keys: seq<string>, i: int, j: int)
    requires DistinctHours(m) && multiset(keys) == multiset(Keys(m))
    requires 0 <= i < j < |keys|
    ensures keys[i] != keys[j]
  {
    KeysOnce(m, keys[i]);
    TwoOccurrences(keys, i, j);
  }

  /** Two positions holding the same string count twice in the multiset. */
  lemma TwoOccurrences(keys: seq<string>, i: int, j: int)
    requires 0 <= i < j < |keys|
    ensures keys[i] == keys[j] ==> multiset(keys)[keys[i]] >= 2
  {
    assert keys == keys[..j] + keys[j..];
    assert keys[i] in keys[..j];
    assert keys[j] in keys[j..];
  }

  lemma {:induction false} KeysOnce(m: HourMap, k: string)
    requires DistinctHours(m)
    ensures multiset(Keys(m))[k] <= 1
  {
    if m != [] {
      var init := m[..|m| - 1];
      KeysOnce(init, k);
      assert Keys(m) == Keys(init) + [m[|m| - 1].0];
      if m[|m| - 1].0 == k {
        assert k !in Keys(init) by {
          forall i | 0 <= i < |init| ensures Keys(init)[i] != k {
            assert init[i] == m[i];
          }
        }
      }
    }
  }

  // ─── Chart scale ────────────────────────────────────────────────────────────

  /** Width of the plotting area: 600 minus the left and right padding. */
  const InnerWidth: real := 600.0 - 36.0 - 12.0

  /** `data.reduce((m, d) => d.value > m ? d.value : m, acc)`. */
  function LargestFrom(data: seq<Point>, acc: real): (m: real)
    ensures m >= acc && forall i :: 0 <= i < |data| ==> m >= data[i].value
    ensures m == acc || exists i :: 0 <= i < |data| && m == data[i].value
  {
    if data == [] then acc
    else
      var m := LargestFrom(data[1..], if data[0].value > acc then data[0].value else acc);
      assert forall i :: 1 <= i < |data| ==> data[i] == data[1..][i - 1];
      m
  }

  /** `maxVal = Math.max(1, …reduce from 0)`: the top of the vertical scale is at
      least 1 and at least every value, and is 1 or one of the values. */
  function MaxVal(data: seq<Point>): (r: real)
    ensures r >= 1.0 && forall i :: 0 <= i < |data| ==> r >= data[i].value
    ensures r == 1.0 || exists i :: 0 <= i < |data| && r == data[i].value
  {
    var m := LargestFrom(data, 0.0);
    if m > 1.0 then m else 1.0
  }

  /** `xStep`: the horizontal distance between points; the points span the full
      width when there are two or more, and a single point gets step 0. */
  function XStep(n: nat): (step: real)
    ensures n > 1 ==> step * (n - 1) as real == InnerWidth && step > 0.0
    ensures n <= 1 ==> step == 0.0
  {
    if n > 1 then InnerWidth / (n - 1) as real else 0.0
  }

  // ─── Items table ────────────────────────────────────────────────────────────

  predicate ByQuantityDescending(s: seq<Sold>)
  {
    forall i, j :: 0 <= i < j < |s| ==> s[i].quantity >= s[j].quantity
  }

  /** An entry with at least the quantity of the head of a sorted list can go in
      front of it. */
  lemma PrependByQuantity(y: Sold, s: seq<Sold>)
    requires ByQuantityDescending(s)
    requires s == [] || y.quantity >= s[0].quantity
    ensures ByQuantityDescending([y] + s)
  {
    var r := [y] + s;
    forall i, j | 0 <= i < j < |r| ensures r[i].quantity >= r[j].quantity {
      if i == 0 && j > 1 {
        assert s[0].quantity >= s[j - 1].quantity;
      }
    }
  }

  /** Inserting into a list sorted by quantity, descending, before the first entry
      with no larger quantity. */
  function InsertByQuantity(x: Sold, s: seq<Sold>): (r: seq<Sold>)
    requires ByQuantityDescending(s)
    ensures multiset(r) == multiset(s) + multiset{x}
    ensures |r| == |s| + 1 && (r[0] == x || (s != [] && r[0] == s[0]))
    ensures ByQuantityDescending(r)
  {
    if s == [] || x.quantity >= s[0].quantity then
      PrependByQuantity(x, s);
      [x] + s
    else
      var rest := InsertByQuantity(x, s[1..]);
      assert s == [s[0]] + s[1..];
      PrependByQuantity(s[0], rest);
      [s[0]] + rest
  }

  /** `Object.values(sold).sort((a, b) => b.quantity - a.quantity)`: the same
      entries, by quantity, largest first. */
  function SortByQuantity(s: seq<Sold>): (r: seq<Sold>)
    ensures multiset(r) == multiset(s)
    ensures ByQuantityDescending(r)
  {
    if s == [] then []
    else
      assert s == [s[0]] + s[1..];
      InsertByQuantity(s[0], SortByQuantity(s[1..]))
  }
}

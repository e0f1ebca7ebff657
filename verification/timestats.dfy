/** The per-key time series behind the path, header and query-parameter
    screens: rows of `(key columns, minute timestamp, count)` from one of
    the `*_time_stats` tables become, per key, a total and the non-zero
    one-minute buckets of a window, and the keys are listed by total, then
    by most recent activity, both descending. The rows are the database
    query's result, taken as given in the query's order; the clock is a
    parameter. */
module TimeStats {
  import opened Wrappers
  import Sorting

  const MinuteMs: int := 60000

  /** The values of a table's key columns, e.g. `(method, path)`. */
  type Key = seq<string>

  /** A row of a time-stats table: the key columns, the time in
      milliseconds, and the count. */
  datatype Row = Row(key: Key, time: int, count: int)

  /** `(t // 60000) * 60000`: the start of the minute holding `t` (floor
      division, which Dafny's `/` is for a positive divisor). */
  function Truncate(t: int): (r: int)
    ensures r <= t < r + MinuteMs
    ensures r % MinuteMs == 0
  {
    (t / MinuteMs) * MinuteMs
  }

  /** The `window` one-minute buckets ending with the current minute. */
  function Buckets(nowMs: int, window: int): (r: seq<int>)
    ensures |r| == if window > 0 then window else 0
    ensures forall i :: 0 <= i < |r| ==> r[i] % MinuteMs == 0
    ensures forall i, j :: 0 <= i < j < |r| ==> r[i] < r[j]
    ensures |r| > 0 ==> r[|r| - 1] == Truncate(nowMs)
  {
    var start := Truncate(nowMs) - (window - 1) * MinuteMs;
    seq(if window > 0 then window else 0, i => start + i * MinuteMs)
  }

  // ---------------------------------------------------------------------
  // Reference sums

  predicate HasKey(rows: seq<Row>, k: Key) {
    exists i :: 0 <= i < |rows| && rows[i].key == k
  }

  /** The sum of the counts of the rows for `k`. */
  function Total(rows: seq<Row>, k: Key): int {
    if |rows| == 0 then 0
    else Total(rows[..|rows| - 1], k) + (if rows[|rows| - 1].key == k then rows[|rows| - 1].count else 0)
  }

  /** The sum of the counts of the rows for `k` whose minute is `b`. */
  function InBucket(rows: seq<Row>, k: Key, b: int): int {
    if |rows| == 0 then 0
    else
      var last := rows[|rows| - 1];
      InBucket(rows[..|rows| - 1], k, b) + (if last.key == k && Truncate(last.time) == b then last.count else 0)
  }

  // ---------------------------------------------------------------------
  // The accumulation loop

  datatype Acc = Acc(series: map<int, int>, total: int)

  /** `dict.fromkeys(time_buckets, 0)`. */
  function ZeroBuckets(buckets: seq<int>): (r: map<int, int>)
    ensures r.Keys == set b | b in buckets
    ensures forall b :: b in r ==> r[b] == 0
  {
    map b | b in buckets :: 0
  }

  /** One row of the loop: create the key's entry on first sight, add the
      count to its total, and to its bucket when the row's minute is one of
      the window's. */
  function Step(acc: map<Key, Acc>, row: Row, buckets: seq<int>): map<Key, Acc> {
    var a := if row.key in acc then acc[row.key] else Acc(ZeroBuckets(buckets), 0);
    var t := Truncate(row.time);
    var series := if t in a.series then a.series[t := a.series[t] + row.count] else a.series;
    acc[row.key := Acc(series, a.total + row.count)]
  }

  function Accumulate(rows: seq<Row>, buckets: seq<int>): map<Key, Acc> {
    if |rows| == 0 then map[]
    else Step(Accumulate(rows[..|rows| - 1], buckets), rows[|rows| - 1], buckets)
  }

  /** The loop computes, for every key it saw, the reference total and the
      reference count of every bucket, and sees exactly the keys of the rows. */
  lemma {:induction false} AccumulateSums(rows: seq<Row>, buckets: seq<int>, k: Key)
    ensures k in Accumulate(rows, buckets) <==> HasKey(rows, k)
    ensures k in Accumulate(rows, buckets) ==>
      && Accumulate(rows, buckets)[k].total == Total(rows, k)
      && Accumulate(rows, buckets)[k].series.Keys == (set b | b in buckets)
      && forall b :: b in buckets ==> Accumulate(rows, buckets)[k].series[b] == InBucket(rows, k, b)
    decreases |rows|
  {
    if |rows| > 0 {
      var init, last := rows[..|rows| - 1], rows[|rows| - 1];
      AccumulateSums(init, buckets, k);
      HasKeySnoc(init, last, k);
      assert rows == init + [last];
      if !HasKey(init, k) {
        NoKeyNoPoints(init, k);
      }
      if k == last.key {
        StepSums(Accumulate(init, buckets), last, buckets, Total(init, k), k, init);
      }
    }
  }

  /** The step for the row's own key, given the sums so far. */
  lemma StepSums(acc: map<Key, Acc>, row: Row, buckets: seq<int>, total: int, k: Key, init: seq<Row>)
    requires k == row.key
    requires k in acc ==> acc[k].total == total
    requires k in acc ==> acc[k].series.Keys == (set b | b in buckets)
    requires k in acc ==> forall b :: b in buckets ==> acc[k].series[b] == InBucket(init, k, b)
    requires k !in acc ==> total == 0 && forall b :: InBucket(init, k, b) == 0
    ensures var a := Step(acc, row, buckets)[k];
      && a.total == total + row.count
      && a.series.Keys == (set b | b in buckets)
      && forall b :: b in buckets ==> a.series[b] == InBucket(init, k, b) + (if Truncate(row.time) == b then row.count else 0)
  {
  }

  lemma HasKeySnoc(init: seq<Row>, last: Row, k: Key)
    ensures HasKey(init + [last], k) <==> HasKey(init, k) || last.key == k
  {
    var rows := init + [last];
    if HasKey(init, k) {
      var i :| 0 <= i < |init| && init[i].key == k;
      assert rows[i] == init[i];
    }
    if HasKey(rows, k) {
      var i :| 0 <= i < |rows| && rows[i].key == k;
      if i < |init| {
        assert rows[i] == init[i];
      }
    }
    assert rows[|init|] == last;
  }

  /** The keys in the order the loop first sees them, which is the order of
      the result dictionary before sorting. */
  function Keys(rows: seq<Row>): (r: seq<Key>)
    ensures forall i, j :: 0 <= i < j < |r| ==> r[i] != r[j]
    ensures forall k :: k in r <==> HasKey(rows, k)
  {
    if |rows| == 0 then []
    else
      var init, last := rows[..|rows| - 1], rows[|rows| - 1];
      var ks := Keys(init);
      HasKeysSnoc(init, last);
      if last.key in ks then ks else ks + [last.key]
  }

  lemma HasKeysSnoc(init: seq<Row>, last: Row)
    requires |init| >= 0
    ensures forall k :: HasKey(init + [last], k) <==> HasKey(init, k) || last.key == k
  {
    forall k
      ensures HasKey(init + [last], k) <==> HasKey(init, k) || last.key == k
    {
      HasKeySnoc(init, last, k);
    }
  }

  // ---------------------------------------------------------------------
  // Recency and the reported series

  /** The loop over a key's buckets that keeps the latest bucket with a
      positive count, starting from 0. */
  function MostRecent(series: map<int, int>, buckets: seq<int>): (r: int)
    ensures r >= 0
    ensures r == 0 || (r in buckets && r in series && series[r] > 0)
    ensures forall b :: b in buckets && b in series && series[b] > 0 ==> b <= r
  {
    if |buckets| == 0 then 0
    else
      var m := MostRecent(series, buckets[..|buckets| - 1]);
      var b := buckets[|buckets| - 1];
      assert forall x :: x in buckets ==> x in buckets[..|buckets| - 1] || x == b;
      if b in series && series[b] > 0 && b > m then b else m
  }

  /** The key's non-zero buckets, as `(timestamp, count)` in bucket order. */
  function NonZero(series: map<int, int>, buckets: seq<int>): (r: seq<(int, int)>)
    ensures forall p :: p in r <==> p.0 in buckets && p.0 in series && series[p.0] == p.1 && p.1 > 0
    ensures (forall i, j :: 0 <= i < j < |buckets| ==> buckets[i] < buckets[j]) ==>
      forall i, j :: 0 <= i < j < |r| ==> r[i].0 < r[j].0
  {
    if |buckets| == 0 then []
    else
      var rest := NonZero(series, buckets[1..]);
      var b := buckets[0];
      assert forall x :: x in buckets <==> x == b || x in buckets[1..];
      NonZeroHead(series, buckets, rest);
      if b in series && series[b] > 0 then [(b, series[b])] + rest else rest
  }

  lemma NonZeroHead(series: map<int, int>, buckets: seq<int>, rest: seq<(int, int)>)
    requires |buckets| > 0
    requires forall p :: p in rest ==> p.0 in buckets[1..]
    requires (forall i, j :: 0 <= i < j < |buckets[1..]| ==> buckets[1..][i] < buckets[1..][j]) ==>
      forall i, j :: 0 <= i < j < |rest| ==> rest[i].0 < rest[j].0
    ensures (forall i, j :: 0 <= i < j < |buckets| ==> buckets[i] < buckets[j]) ==>
      && (forall i, j :: 0 <= i < j < |rest| ==> rest[i].0 < rest[j].0)
      && (forall p :: p in rest ==> buckets[0] < p.0)
  {
    if forall i, j :: 0 <= i < j < |buckets| ==> buckets[i] < buckets[j] {
      forall p | p in rest
        ensures buckets[0] < p.0
      {
        var j :| 0 <= j < |buckets[1..]| && buckets[1..][j] == p.0;
        assert buckets[j + 1] == p.0;
      }
    }
  }

  /** One key of the result. */
  datatype KeyStats = KeyStats(key: Key, series: seq<(int, int)>, total: int)

  /** The key's most recent active minute, 0 for a key the loop never saw. */
  function Recency(acc: map<Key, Acc>, buckets: seq<int>, k: Key): int {
    if k in acc then MostRecent(acc[k].series, buckets) else 0
  }

  /** The sort key, negated so that an ascending stable sort is Python's
      `sorted(..., reverse=True)`, which keeps equal keys in input order. */
  function RankOf(acc: map<Key, Acc>, buckets: seq<int>): Key -> Sorting.Rank {
    k => (-(if k in acc then acc[k].total else 0), -Recency(acc, buckets, k))
  }

  /** What the result holds for one key. */
  function Report(acc: map<Key, Acc>, buckets: seq<int>, k: Key): KeyStats
    requires k in acc
  {
    KeyStats(k, NonZero(acc[k].series, buckets), acc[k].total)
  }

  /** `get_time_series_with_totals` on the rows the window's query returned. */
  function WithTotals(rows: seq<Row>, nowMs: int, window: int): (r: seq<KeyStats>)
    ensures |r| == |Keys(rows)|
  {
    var buckets := Buckets(nowMs, window);
    var acc := Accumulate(rows, buckets);
    var sorted := Ranked(rows, buckets);
    seq(|sorted|, i requires 0 <= i < |sorted| => Report(acc, buckets, sorted[i]))
  }

  /** The keys in the order of the result. */
  function Ranked(rows: seq<Row>, buckets: seq<int>): (r: seq<Key>)
    ensures multiset(r) == multiset(Keys(rows))
    ensures forall i :: 0 <= i < |r| ==> r[i] in Accumulate(rows, buckets)
  {
    var sorted := Sorting.SortBy(Keys(rows), RankOf(Accumulate(rows, buckets), buckets));
    SortedKeysKnown(rows, buckets, sorted);
    sorted
  }

  lemma SortedKeysKnown(rows: seq<Row>, buckets: seq<int>, sorted: seq<Key>)
    requires sorted == Sorting.SortBy(Keys(rows), RankOf(Accumulate(rows, buckets), buckets))
    ensures forall i :: 0 <= i < |sorted| ==> sorted[i] in Accumulate(rows, buckets) && HasKey(rows, sorted[i])
  {
    forall i | 0 <= i < |sorted|
      ensures sorted[i] in Accumulate(rows, buckets) && HasKey(rows, sorted[i])
    {
      assert sorted[i] in multiset(Keys(rows));
      AccumulateSums(rows, buckets, sorted[i]);
    }
  }

  /** A key's report holds the sum of its counts and exactly its positive
      in-window buckets, oldest first. */
  lemma ReportCorrect(rows: seq<Row>, nowMs: int, window: int, k: Key)
    requires HasKey(rows, k)
    ensures var buckets := Buckets(nowMs, window);
      var acc := Accumulate(rows, buckets);
      k in acc
      && Report(acc, buckets, k).total == Total(rows, k)
      && (forall p :: p in Report(acc, buckets, k).series <==> p.0 in buckets && p.1 == InBucket(rows, k, p.0) && p.1 > 0)
      && (forall a, b :: 0 <= a < b < |Report(acc, buckets, k).series| ==> Report(acc, buckets, k).series[a].0 < Report(acc, buckets, k).series[b].0)
  {
    AccumulateSums(rows, Buckets(nowMs, window), k);
  }

  /** The result lists the sorted keys' reports, in the sorted order. */
  lemma WithTotalsShape(rows: seq<Row>, nowMs: int, window: int)
    ensures var buckets := Buckets(nowMs, window);
      var acc := Accumulate(rows, buckets);
      var sorted := Ranked(rows, buckets);
      var r := WithTotals(rows, nowMs, window);
      |r| == |sorted| && forall i :: 0 <= i < |r| ==> sorted[i] in acc && r[i] == Report(acc, buckets, sorted[i])
  {
  }

  /** Each key of the rows is reported, and only those. */
  lemma WithTotalsCovers(rows: seq<Row>, nowMs: int, window: int, k: Key)
    ensures var r := WithTotals(rows, nowMs, window);
      HasKey(rows, k) <==> exists i :: 0 <= i < |r| && r[i].key == k
  {
    var sorted := Ranked(rows, Buckets(nowMs, window));
    var r := WithTotals(rows, nowMs, window);
    WithTotalsShape(rows, nowMs, window);
    if HasKey(rows, k) {
      var i := InPermutation(Keys(rows), sorted, k);
      assert r[i].key == k;
    }
    if exists i :: 0 <= i < |r| && r[i].key == k {
      var i :| 0 <= i < |r| && r[i].key == k;
      var j := InPermutation(sorted, Keys(rows), sorted[i]);
    }
  }

  /** Where an element of `a` sits in a permutation `b` of it. */
  lemma InPermutation<T>(a: seq<T>, b: seq<T>, x: T) returns (i: nat)
    requires multiset(a) == multiset(b) && x in a
    ensures i < |b| && b[i] == x
  {
    assert x in multiset(a);
    assert x in multiset(b);
    i :| 0 <= i < |b| && b[i] == x;
  }

  /** No key is reported twice, and each report is its key's. */
  lemma WithTotalsDistinct(rows: seq<Row>, nowMs: int, window: int)
    ensures var r := WithTotals(rows, nowMs, window);
      var acc := Accumulate(rows, Buckets(nowMs, window));
      && (forall i, j :: 0 <= i < j < |r| ==> r[i].key != r[j].key)
      && (forall i :: 0 <= i < |r| ==> r[i].key in acc && r[i] == Report(acc, Buckets(nowMs, window), r[i].key))
  {
    var sorted := Ranked(rows, Buckets(nowMs, window));
    WithTotalsShape(rows, nowMs, window);
    DistinctSurvivesPermutation(Keys(rows), sorted);
  }

  /** A permutation of a duplicate-free list is duplicate-free. */
  lemma DistinctSurvivesPermutation<T>(a: seq<T>, b: seq<T>)
    requires forall i, j :: 0 <= i < j < |a| ==> a[i] != a[j]
    requires multiset(a) == multiset(b)
    ensures forall i, j :: 0 <= i < j < |b| ==> b[i] != b[j]
  {
    forall x | x in multiset(a)
      ensures multiset(a)[x] == 1
    {
      var i :| 0 <= i < |a| && a[i] == x;
      assert a == a[..i] + [x] + a[i + 1..];
      assert x !in a[..i] && x !in a[i + 1..];
    }
    forall i, j | 0 <= i < j < |b|
      ensures b[i] != b[j]
    {
      TwiceCountsTwice(b, i, j);
    }
  }

  lemma TwiceCountsTwice<T>(b: seq<T>, i: nat, j: nat)
    requires i < j < |b|
    ensures b[i] == b[j] ==> multiset(b)[b[i]] >= 2
  {
    assert b == b[..i] + [b[i]] + b[i + 1..];
    assert b[i + 1..][j - i - 1] == b[j];
  }

  /** The keys come by total, descending, and among equal totals by most
      recent activity, descending; keys equal on both keep the order in
      which the rows first showed them. */
  lemma WithTotalsOrder(rows: seq<Row>, nowMs: int, window: int)
    ensures var r := WithTotals(rows, nowMs, window);
      var buckets := Buckets(nowMs, window);
      var acc := Accumulate(rows, buckets);
      forall i, j :: 0 <= i < j < |r| ==>
        || r[i].total > r[j].total
        || (r[i].total == r[j].total && Recency(acc, buckets, r[i].key) >= Recency(acc, buckets, r[j].key))
  {
    var buckets := Buckets(nowMs, window);
    var acc := Accumulate(rows, buckets);
    var sorted := Sorting.SortBy(Keys(rows), RankOf(acc, buckets));
    WithTotalsShape(rows, nowMs, window);
    Sorting.SortByCorrect(Keys(rows), RankOf(acc, buckets));
    var r := WithTotals(rows, nowMs, window);
    forall i, j | 0 <= i < j < |r|
      ensures || r[i].total > r[j].total
              || (r[i].total == r[j].total && Recency(acc, buckets, r[i].key) >= Recency(acc, buckets, r[j].key))
    {
      assert Sorting.RankLe(RankOf(acc, buckets)(sorted[i]), RankOf(acc, buckets)(sorted[j]));
    }
  }

  /** Keys equal on total and recency keep the order in which the rows
      first showed them. */
  lemma WithTotalsTies(rows: seq<Row>, nowMs: int, window: int, rank: Sorting.Rank)
    ensures var buckets := Buckets(nowMs, window);
      var acc := Accumulate(rows, buckets);
      Sorting.WithRank(Ranked(rows, buckets), RankOf(acc, buckets), rank) == Sorting.WithRank(Keys(rows), RankOf(acc, buckets), rank)
  {
    var buckets := Buckets(nowMs, window);
    Sorting.SortByCorrect(Keys(rows), RankOf(Accumulate(rows, buckets), buckets));
  }

  // ---------------------------------------------------------------------
  // An explicit range

  /** One key of the range result: its rows as `(time, count)` in query
      order, and their total. */
  datatype RangeStats = RangeStats(key: Key, points: seq<(int, int)>, total: int)

  /** The rows for `k`, as points, in order. */
  function Points(rows: seq<Row>, k: Key): seq<(int, int)> {
    if |rows| == 0 then []
    else Points(rows[..|rows| - 1], k) + (if rows[|rows| - 1].key == k then [(rows[|rows| - 1].time, rows[|rows| - 1].count)] else [])
  }

  /** The loop of `get_time_series_for_range`: append the row to its key's
      series and add its count to the key's total. */
  function AccumulateRange(rows: seq<Row>): map<Key, (seq<(int, int)>, int)> {
    if |rows| == 0 then map[]
    else
      var acc := AccumulateRange(rows[..|rows| - 1]);
      var row := rows[|rows| - 1];
      var (pts, total) := if row.key in acc then acc[row.key] else ([], 0);
      acc[row.key := (pts + [(row.time, row.count)], total + row.count)]
  }

  lemma {:induction false} AccumulateRangeIsReference(rows: seq<Row>, k: Key)
    ensures k in AccumulateRange(rows) <==> HasKey(rows, k)
    ensures k in AccumulateRange(rows) ==> AccumulateRange(rows)[k] == (Points(rows, k), Total(rows, k))
    decreases |rows|
  {
    if |rows| > 0 {
      var init, last := rows[..|rows| - 1], rows[|rows| - 1];
      AccumulateRangeIsReference(init, k);
      HasKeySnoc(init, last, k);
      assert rows == init + [last];
      if !HasKey(init, k) {
        NoKeyNoPoints(init, k);
      }
      var before := AccumulateRange(init);
      assert AccumulateRange(rows) == before[last.key := (
        (if last.key in before then before[last.key].0 else []) + [(last.time, last.count)],
        (if last.key in before then before[last.key].1 else 0) + last.count)];
      assert Total(rows, k) == Total(init, k) + (if last.key == k then last.count else 0);
      if last.key != k {
        assert Points(rows, k) == Points(init, k) + [] == Points(init, k);
        assert k in AccumulateRange(rows) <==> k in before;
        assert k in before ==> AccumulateRange(rows)[k] == before[k];
      } else {
        assert Points(rows, k) == Points(init, k) + [(last.time, last.count)];
      }
    }
  }

  lemma {:induction false} NoKeyNoPoints(rows: seq<Row>, k: Key)
    requires !HasKey(rows, k)
    ensures Points(rows, k) == [] && Total(rows, k) == 0
    ensures forall b :: InBucket(rows, k, b) == 0
    decreases |rows|
  {
    if |rows| > 0 {
      var init, last := rows[..|rows| - 1], rows[|rows| - 1];
      assert rows == init + [last];
      HasKeySnoc(init, last, k);
      NoKeyNoPoints(init, k);
    }
  }

  function RangeRank(acc: map<Key, (seq<(int, int)>, int)>): Key -> Sorting.Rank {
    k => if k in acc then (-acc[k].1, 0) else (0, 0)
  }

  /** `get_time_series_for_range` on the rows the range's query returned. */
  function ForRange(rows: seq<Row>): (r: seq<RangeStats>)
    ensures |r| == |Keys(rows)|
  {
    var acc := AccumulateRange(rows);
    var sorted := RangeRanked(rows);
    seq(|sorted|, i requires 0 <= i < |sorted| => RangeStats(sorted[i], acc[sorted[i]].0, acc[sorted[i]].1))
  }

  /** The keys in the order of the range result. */
  function RangeRanked(rows: seq<Row>): (r: seq<Key>)
    ensures multiset(r) == multiset(Keys(rows))
    ensures forall i :: 0 <= i < |r| ==> r[i] in AccumulateRange(rows)
  {
    var sorted := Sorting.SortBy(Keys(rows), RangeRank(AccumulateRange(rows)));
    forall i | 0 <= i < |sorted|
      ensures sorted[i] in AccumulateRange(rows)
    {
      assert sorted[i] in multiset(Keys(rows));
      AccumulateRangeIsReference(rows, sorted[i]);
    }
    sorted
  }

  /** Each key's series is its rows in query order, with their sum. */
  lemma ForRangeContents(rows: seq<Row>)
    ensures var r := ForRange(rows);
      forall i :: 0 <= i < |r| ==> HasKey(rows, r[i].key) && r[i].points == Points(rows, r[i].key) && r[i].total == Total(rows, r[i].key)
  {
    var sorted := RangeRanked(rows);
    var r := ForRange(rows);
    forall i | 0 <= i < |r|
      ensures HasKey(rows, r[i].key) && r[i].points == Points(rows, r[i].key) && r[i].total == Total(rows, r[i].key)
    {
      AccumulateRangeIsReference(rows, sorted[i]);
    }
  }

  /** The keys come by total, descending (ties: `ForRangeTies`). */
  lemma ForRangeOrder(rows: seq<Row>)
    ensures var r := ForRange(rows);
      forall i, j :: 0 <= i < j < |r| ==> r[i].total >= r[j].total
  {
    var acc := AccumulateRange(rows);
    var sorted := RangeRanked(rows);
    Sorting.SortByCorrect(Keys(rows), RangeRank(acc));
    var r := ForRange(rows);
    forall i, j | 0 <= i < j < |r|
      ensures r[i].total >= r[j].total
    {
      assert Sorting.RankLe(RangeRank(acc)(sorted[i]), RangeRank(acc)(sorted[j]));
    }
  }

  /** Keys with equal totals keep the order in which the rows first showed
      them: among the keys of total `t`, the result lists them as `Keys` does. */
  lemma ForRangeTies(rows: seq<Row>, t: int)
    ensures var acc := AccumulateRange(rows);
      var r := ForRange(rows);
      var keys := seq(|r|, i requires 0 <= i < |r| => r[i].key);
      Sorting.WithRank(keys, RangeRank(acc), (-t, 0)) == Sorting.WithRank(Keys(rows), RangeRank(acc), (-t, 0))
  {
    var acc := AccumulateRange(rows);
    var r := ForRange(rows);
    assert seq(|r|, i requires 0 <= i < |r| => r[i].key) == RangeRanked(rows);
    Sorting.SortByCorrect(Keys(rows), RangeRank(acc));
  }

  /** Every key of the rows has an entry. */
  lemma ForRangeCovers(rows: seq<Row>, k: Key)
    requires HasKey(rows, k)
    ensures var r := ForRange(rows);
      exists i :: 0 <= i < |r| && r[i].key == k
  {
    var r := ForRange(rows);
    var i := InPermutation(Keys(rows), RangeRanked(rows), k);
    assert r[i].key == k;
  }
}

/** A service's headline numbers for the dashboard: the counters of its
    `service_stats` row, the response statuses classified as success,
    redirect and error, flag totals, and the change since the previous
    refresh. The database answers are inputs, one per query, in the order
    the queries return them. */
module ServiceStats {
  import opened Wrappers

  /** The seven counters of a `service_stats` row. */
  datatype Counters = Counters(
    totalRequests: int, blockedRequests: int, totalResponses: int, blockedResponses: int,
    flagsWritten: int, flagsRetrieved: int, flagsBlocked: int)

  /** A `tcp_stats` row. The average duration is a floating-point column;
      here it is an integer, since nothing below computes with it. */
  datatype TcpRow = TcpRow(connections: int, bytesIn: int, bytesOut: int, avgDurationMs: int, flagsFound: int)

  /** An alert as `(description, created)`. */
  type Alert = (string, int)

  /** The answers to the queries of `get_current_stats`, in order. */
  datatype Answers = Answers(
    counters: Option<Counters>,
    statusRows: seq<(int, int)>,
    uniquePaths: int,
    alertsCount: int,
    recentAlerts: seq<Alert>,
    headerStats: Option<(int, int)>,
    tcp: Option<TcpRow>)

  /** The result of `get_current_stats`, one field per key, in the order
      of the returned dictionary. */
  datatype Stats = Stats(
    totalRequests: int, blockedRequests: int, totalResponses: int, blockedResponses: int,
    errorResponses: int, successResponses: int, redirectResponses: int,
    statusCounts: seq<(int, int)>,
    uniquePaths: int, alertsCount: int, recentAlerts: seq<Alert>,
    flagsWritten: int, flagsRetrieved: int, flagsBlocked: int, totalFlags: int,
    uniqueHeaders: int, uniqueHeaderValues: int,
    tcpStats: Option<TcpRow>)

  // ---------------------------------------------------------------------
  // dict(rows) on (status, count) pairs

  function StatusesOf(d: seq<(int, int)>): seq<int> {
    seq(|d|, i requires 0 <= i < |d| => d[i].0)
  }

  predicate DistinctStatuses(d: seq<(int, int)>) {
    forall i, j :: 0 <= i < j < |d| ==> d[i].0 != d[j].0
  }

  /** `d.get(status, 0)`. */
  function CountOf(d: seq<(int, int)>, status: int): int {
    if |d| == 0 then 0
    else if d[0].0 == status then d[0].1
    else CountOf(d[1..], status)
  }

  /** The count the last row for `status` gives, 0 without one. */
  function LastCount(rows: seq<(int, int)>, status: int): int {
    if |rows| == 0 then 0
    else if rows[|rows| - 1].0 == status then rows[|rows| - 1].1
    else LastCount(rows[..|rows| - 1], status)
  }

  /** `d[status] = count`: overwrite in place, or append a new key. */
  function Put(d: seq<(int, int)>, status: int, count: int): (r: seq<(int, int)>)
    ensures StatusesOf(r) == if status in StatusesOf(d) then StatusesOf(d) else StatusesOf(d) + [status]
  {
    if |d| == 0 then [(status, count)]
    else if d[0].0 == status then
      assert StatusesOf(d)[0] == status;
      assert StatusesOf([(status, count)] + d[1..]) == StatusesOf(d);
      [(status, count)] + d[1..]
    else
      var rest := Put(d[1..], status, count);
      assert StatusesOf(d) == [d[0].0] + StatusesOf(d[1..]);
      assert StatusesOf([d[0]] + rest) == [d[0].0] + StatusesOf(rest);
      [d[0]] + rest
  }

  lemma {:induction false} PutLookup(d: seq<(int, int)>, status: int, count: int, s: int)
    ensures CountOf(Put(d, status, count), s) == if s == status then count else CountOf(d, s)
    decreases |d|
  {
    if |d| > 0 && d[0].0 != status {
      PutLookup(d[1..], status, count, s);
      assert ([d[0]] + Put(d[1..], status, count))[1..] == Put(d[1..], status, count);
    } else if |d| > 0 {
      assert ([(status, count)] + d[1..])[1..] == d[1..];
    }
  }

  lemma {:induction false} PutDistinct(d: seq<(int, int)>, status: int, count: int)
    requires DistinctStatuses(d)
    ensures DistinctStatuses(Put(d, status, count))
    decreases |d|
  {
    var r := Put(d, status, count);
    var ks := StatusesOf(r);
    assert forall i :: 0 <= i < |r| ==> r[i].0 == ks[i];
    if status in StatusesOf(d) {
      assert ks == StatusesOf(d);
      forall i, j | 0 <= i < j < |r|
        ensures r[i].0 != r[j].0
      {
        assert StatusesOf(d)[i] == d[i].0 && StatusesOf(d)[j] == d[j].0;
      }
    } else {
      forall i, j | 0 <= i < j < |r|
        ensures r[i].0 != r[j].0
      {
        assert StatusesOf(d)[i] == d[i].0;
        if j < |d| {
          assert StatusesOf(d)[j] == d[j].0;
        }
      }
    }
  }

  /** `dict(rows)`: keys in first-appearance order, the last value for each. */
  function DictOf(rows: seq<(int, int)>): (r: seq<(int, int)>)
    ensures DistinctStatuses(r)
  {
    if |rows| == 0 then []
    else
      var init := DictOf(rows[..|rows| - 1]);
      PutDistinct(init, rows[|rows| - 1].0, rows[|rows| - 1].1);
      Put(init, rows[|rows| - 1].0, rows[|rows| - 1].1)
  }

  predicate HasStatus(rows: seq<(int, int)>, s: int) {
    exists i :: 0 <= i < |rows| && rows[i].0 == s
  }

  /** The dictionary's statuses are those of the rows. */
  lemma {:induction false} DictOfStatuses(rows: seq<(int, int)>, s: int)
    ensures s in StatusesOf(DictOf(rows)) <==> HasStatus(rows, s)
    decreases |rows|
  {
    if |rows| > 0 {
      var init, last := rows[..|rows| - 1], rows[|rows| - 1];
      DictOfStatuses(init, s);
      HasStatusSnoc(init, last, s);
      assert rows == init + [last];
    }
  }

  lemma HasStatusSnoc(init: seq<(int, int)>, last: (int, int), s: int)
    ensures HasStatus(init + [last], s) <==> HasStatus(init, s) || last.0 == s
  {
    var rows := init + [last];
    if HasStatus(init, s) {
      var i :| 0 <= i < |init| && init[i].0 == s;
      assert rows[i] == init[i];
    }
    if HasStatus(rows, s) {
      var i :| 0 <= i < |rows| && rows[i].0 == s;
      if i < |init| {
        assert rows[i] == init[i];
      }
    }
    assert rows[|init|] == last;
  }

  /** Each status gets the count of its last row. */
  lemma {:induction false} DictOfLastWins(rows: seq<(int, int)>, s: int)
    ensures CountOf(DictOf(rows), s) == LastCount(rows, s)
    decreases |rows|
  {
    if |rows| > 0 {
      var init, last := rows[..|rows| - 1], rows[|rows| - 1];
      DictOfLastWins(init, s);
      PutLookup(DictOf(init), last.0, last.1, s);
    }
  }

  // ---------------------------------------------------------------------
  // Status classification

  datatype Class = Ok2xx | Redirect3xx | Error4xx | Other

  /** Error is 400 and above, success 200..299, redirect 300..399; the rest,
      such as the -1 of an unparsable status, is in no class. */
  function ClassOf(status: int): Class {
    if status >= 400 then Error4xx
    else if 200 <= status < 300 then Ok2xx
    else if 300 <= status < 400 then Redirect3xx
    else Other
  }

  /** The sum of the counts of the statuses in class `c`. */
  function SumClass(d: seq<(int, int)>, c: Class): int {
    if |d| == 0 then 0
    else (if ClassOf(d[0].0) == c then d[0].1 else 0) + SumClass(d[1..], c)
  }

  function SumAll(d: seq<(int, int)>): int {
    if |d| == 0 then 0 else d[0].1 + SumAll(d[1..])
  }

  /** Every count is in exactly one class, so the classes partition the
      total, and the unclassified remainder is what errors, successes and
      redirects leave out. */
  lemma {:induction false} ClassesPartition(d: seq<(int, int)>)
    ensures SumClass(d, Error4xx) + SumClass(d, Ok2xx) + SumClass(d, Redirect3xx) + SumClass(d, Other) == SumAll(d)
    decreases |d|
  {
    if |d| > 0 {
      ClassesPartition(d[1..]);
    }
  }

  /** A list with only classified statuses, such as real HTTP responses
      from 200 up, has its whole total split among the three classes. */
  lemma {:induction false} NoOtherNoRemainder(d: seq<(int, int)>)
    requires forall i :: 0 <= i < |d| ==> d[i].0 >= 200
    ensures SumClass(d, Error4xx) + SumClass(d, Ok2xx) + SumClass(d, Redirect3xx) == SumAll(d)
    decreases |d|
  {
    if |d| > 0 {
      NoOtherNoRemainder(d[1..]);
    }
    ClassesPartition(d);
    NoOtherIsZero(d);
  }

  /** The class sums add up over a split list, so each status contributes
      to its own class alone. */
  lemma {:induction false} SumClassAppend(a: seq<(int, int)>, b: seq<(int, int)>, c: Class)
    ensures SumClass(a + b, c) == SumClass(a, c) + SumClass(b, c)
    decreases |a|
  {
    if |a| == 0 {
      assert a + b == b;
    } else {
      assert (a + b)[1..] == a[1..] + b;
      SumClassAppend(a[1..], b, c);
    }
  }

  /** One status's count goes to errors from 400 up, to successes for
      200..299, to redirects for 300..399, and to none of them otherwise. */
  lemma OneStatusClassified(status: int, count: int)
    ensures SumClass([(status, count)], Error4xx) == (if status >= 400 then count else 0)
    ensures SumClass([(status, count)], Ok2xx) == (if 200 <= status < 300 then count else 0)
    ensures SumClass([(status, count)], Redirect3xx) == (if 300 <= status < 400 then count else 0)
  {
  }

  lemma {:induction false} NoOtherIsZero(d: seq<(int, int)>)
    requires forall i :: 0 <= i < |d| ==> d[i].0 >= 200
    ensures SumClass(d, Other) == 0
    decreases |d|
  {
    if |d| > 0 {
      NoOtherIsZero(d[1..]);
    }
  }

  // ---------------------------------------------------------------------
  // get_current_stats

  function CurrentStats(a: Answers): (r: Stats)
    ensures a.counters.None? ==>
      r.totalRequests == 0 && r.blockedRequests == 0 && r.totalResponses == 0 && r.blockedResponses == 0
      && r.flagsWritten == 0 && r.flagsRetrieved == 0 && r.flagsBlocked == 0
    ensures a.counters.Some? ==>
      var c := a.counters.value;
      && r.totalRequests == c.totalRequests && r.blockedRequests == c.blockedRequests
      && r.totalResponses == c.totalResponses && r.blockedResponses == c.blockedResponses
      && r.flagsWritten == c.flagsWritten && r.flagsRetrieved == c.flagsRetrieved && r.flagsBlocked == c.flagsBlocked
    ensures r.totalFlags == r.flagsWritten + r.flagsRetrieved
    ensures DistinctStatuses(r.statusCounts)
    ensures r.errorResponses + r.successResponses + r.redirectResponses + SumClass(r.statusCounts, Other) == SumAll(r.statusCounts)
    ensures r.tcpStats == a.tcp
    ensures r.statusCounts == DictOf(a.statusRows)
    ensures r.errorResponses == SumClass(r.statusCounts, Error4xx)
    ensures r.successResponses == SumClass(r.statusCounts, Ok2xx)
    ensures r.redirectResponses == SumClass(r.statusCounts, Redirect3xx)
  {
    var c := if a.counters.Some? then a.counters.value else Counters(0, 0, 0, 0, 0, 0, 0);
    var counts := DictOf(a.statusRows);
    ClassesPartition(counts);
    Stats(
      c.totalRequests, c.blockedRequests, c.totalResponses, c.blockedResponses,
      SumClass(counts, Error4xx), SumClass(counts, Ok2xx), SumClass(counts, Redirect3xx),
      counts,
      a.uniquePaths, a.alertsCount, a.recentAlerts,
      c.flagsWritten, c.flagsRetrieved, c.flagsBlocked, c.flagsWritten + c.flagsRetrieved,
      if a.headerStats.Some? then a.headerStats.value.0 else 0,
      if a.headerStats.Some? then a.headerStats.value.1 else 0,
      a.tcp)
  }

  // ---------------------------------------------------------------------
  // The stats as a Python dictionary

  /** The keys of the stats and deltas dictionaries. */
  datatype StatKey =
    | TotalRequests | BlockedRequests | TotalResponses | BlockedResponses
    | ErrorResponses | SuccessResponses | RedirectResponses | StatusCounts
    | UniquePaths | AlertsCount | RecentAlerts
    | FlagsWritten | FlagsRetrieved | FlagsBlocked | TotalFlags
    | UniqueHeaders | UniqueHeaderValues | TcpStats | StatusDeltas

  /** The key as the dictionary spells it. */
  function Name(k: StatKey): string {
    match k
    case TotalRequests => "total_requests"
    case BlockedRequests => "blocked_requests"
    case TotalResponses => "total_responses"
    case BlockedResponses => "blocked_responses"
    case ErrorResponses => "error_responses"
    case SuccessResponses => "success_responses"
    case RedirectResponses => "redirect_responses"
    case StatusCounts => "status_counts"
    case UniquePaths => "unique_paths"
    case AlertsCount => "alerts_count"
    case RecentAlerts => "recent_alerts"
    case FlagsWritten => "flags_written"
    case FlagsRetrieved => "flags_retrieved"
    case FlagsBlocked => "flags_blocked"
    case TotalFlags => "total_flags"
    case UniqueHeaders => "unique_headers"
    case UniqueHeaderValues => "unique_header_values"
    case TcpStats => "tcp_stats"
    case StatusDeltas => "status_deltas"
  }

  /** The keys of `get_current_stats`'s dictionary, in its order. */
  const StatsKeys: seq<StatKey> := [
    TotalRequests, BlockedRequests, TotalResponses, BlockedResponses,
    ErrorResponses, SuccessResponses, RedirectResponses, StatusCounts,
    UniquePaths, AlertsCount, RecentAlerts,
    FlagsWritten, FlagsRetrieved, FlagsBlocked, TotalFlags,
    UniqueHeaders, UniqueHeaderValues, TcpStats ]

  /** The keys whose values are integers. */
  predicate Numeric(k: StatKey) {
    k !in {StatusCounts, RecentAlerts, TcpStats, StatusDeltas}
  }

  /** A value of the stats or deltas dictionary. */
  datatype Value =
    | Num(n: int)
    | Statuses(counts: seq<(int, int)>)
    | Alerts(items: seq<Alert>)
    | NoTcp
    | Tcp(row: TcpRow)

  /** The value under each key of the stats. */
  function ValueAt(s: Stats, k: StatKey): (v: Value)
    ensures Numeric(k) <==> v.Num?
  {
    match k
    case TotalRequests => Num(s.totalRequests)
    case BlockedRequests => Num(s.blockedRequests)
    case TotalResponses => Num(s.totalResponses)
    case BlockedResponses => Num(s.blockedResponses)
    case ErrorResponses => Num(s.errorResponses)
    case SuccessResponses => Num(s.successResponses)
    case RedirectResponses => Num(s.redirectResponses)
    case StatusCounts => Statuses(s.statusCounts)
    case UniquePaths => Num(s.uniquePaths)
    case AlertsCount => Num(s.alertsCount)
    case RecentAlerts => Alerts(s.recentAlerts)
    case FlagsWritten => Num(s.flagsWritten)
    case FlagsRetrieved => Num(s.flagsRetrieved)
    case FlagsBlocked => Num(s.flagsBlocked)
    case TotalFlags => Num(s.totalFlags)
    case UniqueHeaders => Num(s.uniqueHeaders)
    case UniqueHeaderValues => Num(s.uniqueHeaderValues)
    case TcpStats => if s.tcpStats.Some? then Tcp(s.tcpStats.value) else NoTcp
    case StatusDeltas => Statuses([])
  }

  type Dict = seq<(StatKey, Value)>

  function KeysOf(d: Dict): seq<StatKey> {
    seq(|d|, i requires 0 <= i < |d| => d[i].0)
  }

  predicate DistinctKeys(d: Dict) {
    forall i, j :: 0 <= i < j < |d| ==> d[i].0 != d[j].0
  }

  function Lookup(d: Dict, k: StatKey): Option<Value> {
    if |d| == 0 then None
    else if d[0].0 == k then Some(d[0].1)
    else Lookup(d[1..], k)
  }

  /** In a dictionary without repeated keys, each entry is what its key
      looks up, and an absent key looks up nothing. */
  lemma {:induction false} LookupAt(d: Dict, i: nat)
    requires DistinctKeys(d) && i < |d|
    ensures Lookup(d, d[i].0) == Some(d[i].1)
    decreases i
  {
    if i > 0 {
      LookupAt(d[1..], i - 1);
    }
  }

  lemma {:induction false} LookupAbsent(d: Dict, k: StatKey)
    requires k !in KeysOf(d)
    ensures Lookup(d, k).None?
    decreases |d|
  {
    if |d| > 0 {
      assert KeysOf(d) == [d[0].0] + KeysOf(d[1..]);
      LookupAbsent(d[1..], k);
    }
  }

  /** `d[k] = v`: overwrite in place, or append a new key. */
  function Set(d: Dict, k: StatKey, v: Value): (r: Dict)
    ensures Lookup(r, k) == Some(v)
    ensures forall j :: j != k ==> Lookup(r, j) == Lookup(d, j)
    ensures KeysOf(r) == if k in KeysOf(d) then KeysOf(d) else KeysOf(d) + [k]
  {
    if |d| == 0 then [(k, v)]
    else if d[0].0 == k then
      assert KeysOf(d) == [k] + KeysOf(d[1..]);
      assert KeysOf([(k, v)] + d[1..]) == [k] + KeysOf(d[1..]);
      [(k, v)] + d[1..]
    else
      var rest := Set(d[1..], k, v);
      assert KeysOf(d) == [d[0].0] + KeysOf(d[1..]);
      assert KeysOf([d[0]] + rest) == [d[0].0] + KeysOf(rest);
      assert ([d[0]] + rest)[1..] == rest;
      [d[0]] + rest
  }

  /** The dictionary `get_current_stats` returns. */
  function ToDict(s: Stats): (r: Dict)
    ensures KeysOf(r) == StatsKeys
  {
    seq(|StatsKeys|, i requires 0 <= i < |StatsKeys| => (StatsKeys[i], ValueAt(s, StatsKeys[i])))
  }

  lemma StatsKeysDistinct()
    ensures forall i, j :: 0 <= i < j < |StatsKeys| ==> StatsKeys[i] != StatsKeys[j]
  {
    assert forall i :: 0 <= i < |StatsKeys| ==> Position(StatsKeys[i]) == i;
  }

  function Position(k: StatKey): nat {
    match k
    case TotalRequests => 0
    case BlockedRequests => 1
    case TotalResponses => 2
    case BlockedResponses => 3
    case ErrorResponses => 4
    case SuccessResponses => 5
    case RedirectResponses => 6
    case StatusCounts => 7
    case UniquePaths => 8
    case AlertsCount => 9
    case RecentAlerts => 10
    case FlagsWritten => 11
    case FlagsRetrieved => 12
    case FlagsBlocked => 13
    case TotalFlags => 14
    case UniqueHeaders => 15
    case UniqueHeaderValues => 16
    case TcpStats => 17
    case StatusDeltas => 18
  }

  /** Each key of the stats sits at its position in the key list, and the
      deltas' own key is not among them. */
  lemma PositionOf(k: StatKey)
    ensures k == StatusDeltas <==> k !in StatsKeys
    ensures k != StatusDeltas ==> Position(k) < |StatsKeys| && StatsKeys[Position(k)] == k
  {
    match k
    case TotalRequests => assert StatsKeys[0] == TotalRequests;
    case BlockedRequests => assert StatsKeys[1] == BlockedRequests;
    case TotalResponses => assert StatsKeys[2] == TotalResponses;
    case BlockedResponses => assert StatsKeys[3] == BlockedResponses;
    case ErrorResponses => assert StatsKeys[4] == ErrorResponses;
    case SuccessResponses => assert StatsKeys[5] == SuccessResponses;
    case RedirectResponses => assert StatsKeys[6] == RedirectResponses;
    case StatusCounts => assert StatsKeys[7] == StatusCounts;
    case UniquePaths => assert StatsKeys[8] == UniquePaths;
    case AlertsCount => assert StatsKeys[9] == AlertsCount;
    case RecentAlerts => assert StatsKeys[10] == RecentAlerts;
    case FlagsWritten => assert StatsKeys[11] == FlagsWritten;
    case FlagsRetrieved => assert StatsKeys[12] == FlagsRetrieved;
    case FlagsBlocked => assert StatsKeys[13] == FlagsBlocked;
    case TotalFlags => assert StatsKeys[14] == TotalFlags;
    case UniqueHeaders => assert StatsKeys[15] == UniqueHeaders;
    case UniqueHeaderValues => assert StatsKeys[16] == UniqueHeaderValues;
    case TcpStats => assert StatsKeys[17] == TcpStats;
    case StatusDeltas =>
      forall i | 0 <= i < |StatsKeys|
        ensures StatsKeys[i] != StatusDeltas
      {
        assert Position(StatsKeys[i]) == i;
      }
  }

  /** Every key but the deltas' own looks up its value in the stats'
      dictionary. */
  lemma ToDictLookup(s: Stats, k: StatKey)
    ensures Lookup(ToDict(s), k) == if k == StatusDeltas then None else Some(ValueAt(s, k))
  {
    StatsKeysDistinct();
    PositionOf(k);
    var d := ToDict(s);
    if k == StatusDeltas {
      LookupAbsent(d, k);
    } else {
      LookupAt(d, Position(k));
    }
  }

  // ---------------------------------------------------------------------
  // get_deltas

  /** The `ServiceStats` object between refreshes: the stats of the last
      successful refresh, if any. */
  datatype Tracker = Tracker(prev: Option<Stats>)

  const NewTracker := Tracker(None)

  /** `dict.fromkeys(keys, 0)`. */
  function ZeroFor(d: Dict): (r: Dict)
    ensures KeysOf(r) == KeysOf(d)
    ensures forall i :: 0 <= i < |r| ==> r[i].1 == Num(0)
  {
    seq(|d|, i requires 0 <= i < |d| => (d[i].0, Num(0)))
  }

  /** The per-status changes, keyed by the current statuses in order. */
  function StatusDeltasOf(cur: seq<(int, int)>, prev: seq<(int, int)>): (r: seq<(int, int)>)
    ensures StatusesOf(r) == StatusesOf(cur)
    ensures forall i :: 0 <= i < |r| ==> CountOf(prev, r[i].0) + r[i].1 == cur[i].1
  {
    seq(|cur|, i requires 0 <= i < |cur| => (cur[i].0, cur[i].1 - CountOf(prev, cur[i].0)))
  }

  /** The integer under a numeric key. */
  function NumAt(s: Stats, k: StatKey): int
    requires Numeric(k)
  {
    ValueAt(s, k).n
  }

  /** The change of every numeric key, in the stats' key order. */
  function NumericDeltas(cur: Stats, prev: Stats, keys: seq<StatKey>): (r: Dict)
    ensures forall k :: Lookup(r, k).Some? <==> k in keys && Numeric(k)
    ensures forall k :: Lookup(r, k).Some? ==> Lookup(r, k) == Some(Num(NumAt(cur, k) - NumAt(prev, k)))
  {
    if |keys| == 0 then []
    else
      var rest := NumericDeltas(cur, prev, keys[1..]);
      assert forall k :: k in keys <==> k == keys[0] || k in keys[1..];
      if Numeric(keys[0]) then [(keys[0], Num(NumAt(cur, keys[0]) - NumAt(prev, keys[0])))] + rest
      else rest
  }

  /** The deltas of a refresh: all zeros the first time, changes after. */
  function DeltasOf(t: Tracker, cur: Stats): Dict {
    if t.prev.None? then
      Set(Set(ZeroFor(ToDict(cur)), StatusDeltas, Statuses([])), RecentAlerts, Alerts([]))
    else
      var prev := t.prev.value;
      Set(Set(NumericDeltas(cur, prev, StatsKeys), StatusDeltas, Statuses(StatusDeltasOf(cur.statusCounts, prev.statusCounts))),
        RecentAlerts, Alerts(cur.recentAlerts))
  }

  /** `get_deltas` with the stats of this refresh, over the numeric keys.
      Either way the current stats become the baseline. */
  function GetDeltas(t: Tracker, cur: Stats): (r: (Tracker, Dict))
    ensures r.0 == Tracker(Some(cur))
  {
    (Tracker(Some(cur)), DeltasOf(t, cur))
  }

  /** The first refresh reports every key of the stats, numeric or not, as
      0, then empty status changes and no recent alerts. */
  lemma FirstDeltasAreZero(cur: Stats, k: StatKey)
    ensures var d := GetDeltas(NewTracker, cur).1;
      Lookup(d, k) == Some(if k == StatusDeltas then Statuses([]) else if k == RecentAlerts then Alerts([]) else Num(0))
  {
    var z := ZeroFor(ToDict(cur));
    StatsKeysDistinct();
    PositionOf(k);
    if k != StatusDeltas && k != RecentAlerts {
      assert KeysOf(z)[Position(k)] == k;
      LookupAt(z, Position(k));
    }
  }

  /** The first refresh's keys are the stats' keys, then the status changes. */
  lemma FirstDeltasKeys(cur: Stats)
    ensures KeysOf(GetDeltas(NewTracker, cur).1) == StatsKeys + [StatusDeltas]
  {
    var z := ZeroFor(ToDict(cur));
    assert KeysOf(z) == StatsKeys;
    PositionOf(StatusDeltas);
    var d1 := Set(z, StatusDeltas, Statuses([]));
    assert KeysOf(d1) == StatsKeys + [StatusDeltas];
    assert KeysOf(d1)[10] == RecentAlerts;
  }

  /** A later refresh's delta added to the baseline gives the current value
      of every numeric key. */
  lemma LaterDeltasRoundTrip(prev: Stats, cur: Stats, k: StatKey)
    requires Numeric(k)
    ensures var d := GetDeltas(Tracker(Some(prev)), cur).1;
      Lookup(d, k).Some? && Lookup(d, k).value.Num? && NumAt(prev, k) + Lookup(d, k).value.n == NumAt(cur, k)
  {
    PositionOf(k);
    var n := NumericDeltas(cur, prev, StatsKeys);
    var d1 := Set(n, StatusDeltas, Statuses(StatusDeltasOf(cur.statusCounts, prev.statusCounts)));
    var d := Set(d1, RecentAlerts, Alerts(cur.recentAlerts));
    assert GetDeltas(Tracker(Some(prev)), cur).1 == d;
    assert k != StatusDeltas && k != RecentAlerts;
    assert Lookup(d, k) == Lookup(d1, k);
    assert Lookup(d1, k) == Lookup(n, k);
    NumericDeltasHas(cur, prev, StatsKeys, k);
  }

  lemma NumericDeltasHas(cur: Stats, prev: Stats, keys: seq<StatKey>, k: StatKey)
    requires k in keys && Numeric(k)
    ensures Lookup(NumericDeltas(cur, prev, keys), k) == Some(Num(NumAt(cur, k) - NumAt(prev, k)))
  {
  }

  /** A later refresh reports the status changes and the current recent
      alerts, and no change for the status counts or the TCP stats. */
  lemma LaterDeltasStructured(prev: Stats, cur: Stats)
    ensures var d := GetDeltas(Tracker(Some(prev)), cur).1;
      && Lookup(d, StatusDeltas) == Some(Statuses(StatusDeltasOf(cur.statusCounts, prev.statusCounts)))
      && Lookup(d, RecentAlerts) == Some(Alerts(cur.recentAlerts))
      && Lookup(d, TcpStats).None?
      && Lookup(d, StatusCounts).None?
  {
    var n := NumericDeltas(cur, prev, StatsKeys);
    assert Lookup(n, TcpStats).None? && Lookup(n, StatusCounts).None?;
  }

  /** A status's change is its current count minus its baseline count, 0
      for a status new since the baseline. */
  lemma StatusDeltaIsDifference(prev: Stats, cur: Stats, i: nat)
    requires i < |cur.statusCounts|
    ensures var sd := StatusDeltasOf(cur.statusCounts, prev.statusCounts);
      sd[i].0 == cur.statusCounts[i].0 && sd[i].1 == cur.statusCounts[i].1 - CountOf(prev.statusCounts, cur.statusCounts[i].0)
    ensures !HasStatus(prev.statusCounts, cur.statusCounts[i].0) ==> StatusDeltasOf(cur.statusCounts, prev.statusCounts)[i].1 == cur.statusCounts[i].1
  {
    var sd := StatusDeltasOf(cur.statusCounts, prev.statusCounts);
    assert StatusesOf(sd)[i] == StatusesOf(cur.statusCounts)[i];
    AbsentCountsZero(prev.statusCounts, cur.statusCounts[i].0);
  }

  lemma {:induction false} AbsentCountsZero(d: seq<(int, int)>, s: int)
    ensures !HasStatus(d, s) ==> CountOf(d, s) == 0
    decreases |d|
  {
    if |d| > 0 {
      AbsentCountsZero(d[1..], s);
      if !HasStatus(d, s) {
        assert d[0].0 != s;
        assert !HasStatus(d[1..], s) by {
          forall i | 0 <= i < |d[1..]|
            ensures d[1..][i].0 != s
          {
            assert d[1..][i] == d[i + 1];
          }
        }
      }
    }
  }

  // ---------------------------------------------------------------------
  // get_deltas as written

  /** Python's `TypeError` from `-` on a non-number, with the key. */
  datatype DeltaError = UnsupportedOperand(key: StatKey)

  /** `current[key] - prev.get(key, 0)` on dictionary values. */
  function Subtract(key: StatKey, a: Value, b: Value): Result<Value, DeltaError> {
    if a.Num? && b.Num? then Success(Num(a.n - b.n)) else Failure(UnsupportedOperand(key))
  }

  /** The loop of a later refresh as written: every key except the status
      counts and recent alerts is subtracted, the TCP stats included. */
  function SubtractAll(cur: Dict, prev: Dict): Result<Dict, DeltaError> {
    if |cur| == 0 then Success([])
    else
      var k := cur[0].0;
      var rest := SubtractAll(cur[1..], prev);
      if k == StatusCounts || k == RecentAlerts then rest
      else
        var before := if Lookup(prev, k).Some? then Lookup(prev, k).value else Num(0);
        match Subtract(k, cur[0].1, before)
        case Failure(e) => Failure(e)
        case Success(v) =>
          match rest
          case Failure(e) => Failure(e)
          case Success(r) => Success([(k, v)] + r)
  }

  /** `get_deltas` as written. A failure leaves the tracker as it was,
      since the exception leaves before the baseline is stored. */
  function GetDeltasAsWritten(t: Tracker, cur: Stats): Result<(Tracker, Dict), DeltaError> {
    if t.prev.None? then
      Success((Tracker(Some(cur)),
        Set(Set(ZeroFor(ToDict(cur)), StatusDeltas, Statuses([])), RecentAlerts, Alerts([]))))
    else
      var prev := t.prev.value;
      match SubtractAll(ToDict(cur), ToDict(prev))
      case Failure(e) => Failure(e)
      case Success(d) =>
        Success((Tracker(Some(cur)),
          Set(Set(d, StatusDeltas, Statuses(StatusDeltasOf(cur.statusCounts, prev.statusCounts))),
            RecentAlerts, Alerts(cur.recentAlerts))))
  }

  /** Every refresh after the first fails on `tcp_stats`, whether the
      service has TCP stats or not, so the baseline is never updated again
      and no change is ever reported after the first refresh. */
  lemma AsWrittenLaterDeltasFail(prev: Stats, cur: Stats)
    ensures GetDeltasAsWritten(Tracker(Some(prev)), cur) == Failure(UnsupportedOperand(TcpStats))
  {
    var c, p := ToDict(cur), ToDict(prev);
    assert c[17] == (TcpStats, ValueAt(cur, TcpStats));
    assert c[17..] == [c[17]];
    assert SubtractAll(c[17..], p) == Failure(UnsupportedOperand(TcpStats)) by {
      assert c[17..][1..] == [];
    }
    StatsKeysDistinct();
    forall i | 0 <= i < 17 && c[i].0 != StatusCounts && c[i].0 != RecentAlerts
      ensures c[i].1.Num? && (Lookup(p, c[i].0).None? || Lookup(p, c[i].0).value.Num?)
    {
      assert c[i].0 == StatsKeys[i] != TcpStats;
      ToDictLookup(prev, c[i].0);
    }
    SubtractAllPropagates(c, p, 17);
  }

  /** A failure of the loop's suffix from `n` on is the failure of the
      whole loop when no earlier key fails. */
  lemma {:induction false} SubtractAllPropagates(cur: Dict, prev: Dict, n: nat)
    requires n <= |cur| && SubtractAll(cur[n..], prev).Failure?
    requires forall i :: 0 <= i < n && cur[i].0 != StatusCounts && cur[i].0 != RecentAlerts ==>
      cur[i].1.Num? && (Lookup(prev, cur[i].0).None? || Lookup(prev, cur[i].0).value.Num?)
    ensures SubtractAll(cur, prev) == SubtractAll(cur[n..], prev)
    decreases n
  {
    if n > 0 {
      assert cur[1..][n - 1..] == cur[n..];
      SubtractAllPropagates(cur[1..], prev, n - 1);
    }
  }

  /** Both versions agree on the first refresh. */
  lemma FirstDeltasAgree(cur: Stats)
    ensures GetDeltasAsWritten(NewTracker, cur) == Success(GetDeltas(NewTracker, cur))
  {
  }
}

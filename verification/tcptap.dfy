/** The TCP side of the log processor: tap files are indexed by their
    connection's trace id; each access-log entry is matched to its tap,
    whose read and write events are totalled, searched for flags and
    bucketed by size and start minute. Base64 decoding, UTF-8 decoding and
    the flag regular expression are one parameter, the flag finder; the
    start time arrives already converted to milliseconds. */
module TcpTap {
  import opened Wrappers
  import opened Json
  import opened PyStr
  import Taps
  import LogUtils
  import TimeStats
  import TapBatch

  newtype Byte = x: int | 0 <= x < 256

  // ---------------------------------------------------------------------
  // The tap folder, indexed by trace id

  /** `extract_trace_id_from_tap`: the integer of an all-digit string
      `socket_buffered_trace.trace_id`, and None for anything else (a
      missing or non-string id, or a value whose `.get` or `.isdigit`
      raises, which the source catches). */
  function TraceId(data: JValue): (r: Option<int>)
    ensures r.Some? <==> (var t := GetIn(GetIn(data, "socket_buffered_trace", JMap(map[])), "trace_id", JNull);
      t.JStr? && IsDigits(t.s))
    ensures r.Some? ==> r.value >= 0
  {
    var t := GetIn(GetIn(data, "socket_buffered_trace", JMap(map[])), "trace_id", JNull);
    if t.JStr? && IsDigits(t.s) then Some(DecimalValue(t.s) as int) else None
  }

  /** A tap's trace id is the decimal value of its digits. */
  lemma TraceIdValue(data: JValue, digits: string)
    requires IsDigits(digits)
    requires data == JMap(map["socket_buffered_trace" := JMap(map["trace_id" := JStr(digits)])])
    ensures TraceId(data) == Some(DecimalValue(digits) as int)
  {
  }

  /** The access-log entry's `connection_id` as a key of the trace-id
      index: None when it is null or missing, which skips the entry. A
      value no integer equals (a string, say) finds nothing in the lookup,
      which skips the entry in the same way, so it is None too; a boolean
      finds 0 or 1, as in Python. */
  function ConnectionKey(entry: JValue): (r: Option<int>)
    ensures GetIn(entry, "connection_id", JNull).JNull? ==> r.None?
    ensures GetIn(entry, "connection_id", JNull).JInt? ==> r == Some(GetIn(entry, "connection_id", JNull).i)
  {
    match GetIn(entry, "connection_id", JNull)
    case JInt(i) => Some(i)
    case JBool(b) => Some(if b then 1 else 0)
    case _ => None
  }

  /** `TcpProcessor.process_new_access_log_entries`. */
  function ProcessEntries(f: TapBatch.Indexed<int>, lines: seq<TapBatch.LogLine>, listing: seq<Taps.DirEntry>,
    load: Taps.Loader): (r: TapBatch.Batch<int>)
    ensures |lines| > 0 ==> r.position == Some(lines[|lines| - 1].endPosition)
    ensures forall m :: m in r.matched ==> Truthy(m.tap) && m.file in r.deleted && m.file in r.toArchive
  {
    TapBatch.ProcessEntries(f, lines, listing, load, TraceId, ConnectionKey)
  }

  /** An entry with a null or missing `connection_id` changes nothing. */
  lemma NoConnectionIdSkipped(f: TapBatch.Indexed<int>, line: TapBatch.LogLine)
    requires GetIn(line.data, "connection_id", JNull).JNull?
    ensures TapBatch.Step(f, ConnectionKey(line.data), line) == (f, None)
  {
  }

  // ---------------------------------------------------------------------
  // process_tap

  datatype Direction = ReadDir | WriteDir

  /** A socket event with its data already decoded. */
  datatype Event = ReadEv(data: seq<Byte>) | WriteEv(data: seq<Byte>) | ClosedEv | OtherEv

  /** `find_body_flags` on a chunk's decoded text: `(offset, flag)` pairs. */
  type FlagFinder = seq<Byte> -> seq<(int, string)>

  datatype Flag = Flag(location: Direction, offset: int, value: string)

  predicate IsDir(e: Event, d: Direction) {
    match d
    case ReadDir => e.ReadEv?
    case WriteDir => e.WriteEv?
  }

  /** All bytes of one direction, in order. */
  function DirBytes(events: seq<Event>, d: Direction): seq<Byte> {
    if |events| == 0 then []
    else
      var last := events[|events| - 1];
      DirBytes(events[..|events| - 1], d) + (if IsDir(last, d) then last.data else [])
  }

  /** The reference total: the sum of the lengths of one direction's chunks. */
  function SumLengths(events: seq<Event>, d: Direction): nat {
    if |events| == 0 then 0
    else (if IsDir(events[0], d) then |events[0].data| else 0) + SumLengths(events[1..], d)
  }

  /** The state of the first loop of `process_tap`. */
  datatype Scan = Scan(totalRead: int, totalWrite: int, readData: seq<Byte>, writeData: seq<Byte>, flags: seq<Flag>)

  /** The flags found in one chunk, offset by `base`. */
  function ChunkFlags(d: Direction, found: seq<(int, string)>, base: int): (r: seq<Flag>)
    ensures |r| == |found|
    ensures forall j :: 0 <= j < |r| ==> r[j] == Flag(d, found[j].0 + base, found[j].1)
  {
    seq(|found|, j requires 0 <= j < |found| => Flag(d, found[j].0 + base, found[j].1))
  }

  /** One event of the loop: extend the direction's data and total, and
      record the chunk's flags at `offset + len(all_data) - len(chunk)`. */
  function ScanStep(s: Scan, e: Event, finder: FlagFinder): Scan {
    match e
    case ReadEv(data) =>
      var all := s.readData + data;
      Scan(s.totalRead + |data|, s.totalWrite, all, s.writeData,
        s.flags + ChunkFlags(ReadDir, finder(data), |all| - |data|))
    case WriteEv(data) =>
      var all := s.writeData + data;
      Scan(s.totalRead, s.totalWrite + |data|, s.readData, all,
        s.flags + ChunkFlags(WriteDir, finder(data), |all| - |data|))
    case _ => s
  }

  function ScanEvents(events: seq<Event>, finder: FlagFinder): Scan {
    if |events| == 0 then Scan(0, 0, [], [], [])
    else ScanStep(ScanEvents(events[..|events| - 1], finder), events[|events| - 1], finder)
  }

  /** The reference flags: each chunk's flags offset by the bytes of the
      same direction before the chunk. */
  function FlagsBefore(events: seq<Event>, finder: FlagFinder): seq<Flag> {
    if |events| == 0 then []
    else
      var init, last := events[..|events| - 1], events[|events| - 1];
      FlagsBefore(init, finder) +
        match last
        case ReadEv(data) => ChunkFlags(ReadDir, finder(data), |DirBytes(init, ReadDir)|)
        case WriteEv(data) => ChunkFlags(WriteDir, finder(data), |DirBytes(init, WriteDir)|)
        case _ => []
  }

  /** The loop keeps all of each direction's data and its length as the
      total, and places every flag at its chunk offset plus the bytes of
      the same direction before the chunk. */
  lemma {:induction false} ScanCorrect(events: seq<Event>, finder: FlagFinder)
    ensures var s := ScanEvents(events, finder);
      && s.readData == DirBytes(events, ReadDir) && s.writeData == DirBytes(events, WriteDir)
      && s.totalRead == |s.readData| && s.totalWrite == |s.writeData|
      && s.flags == FlagsBefore(events, finder)
    decreases |events|
  {
    if |events| > 0 {
      ScanCorrect(events[..|events| - 1], finder);
    }
  }

  /** The byte totals are the sums of the chunk lengths of each direction. */
  lemma {:induction false} TotalsAreSums(events: seq<Event>, d: Direction)
    ensures |DirBytes(events, d)| == SumLengths(events, d)
    decreases |events|
  {
    if |events| > 0 {
      var init, last := events[..|events| - 1], events[|events| - 1];
      TotalsAreSums(init, d);
      SumLengthsSnoc(init, last, d);
      assert events == init + [last];
    }
  }

  lemma {:induction false} SumLengthsSnoc(init: seq<Event>, last: Event, d: Direction)
    ensures SumLengths(init + [last], d) == SumLengths(init, d) + (if IsDir(last, d) then |last.data| else 0)
    decreases |init|
  {
    if |init| == 0 {
      assert (init + [last])[1..] == [];
    } else {
      assert (init + [last])[1..] == init[1..] + [last];
      SumLengthsSnoc(init[1..], last, d);
    }
  }

  /** The number of flags of one direction. */
  function CountAt(flags: seq<Flag>, d: Direction): (n: nat)
    ensures n <= |flags|
  {
    if |flags| == 0 then 0
    else (if flags[0].location == d then 1 else 0) + CountAt(flags[1..], d)
  }

  /** Written flags and retrieved flags together are all the flags. */
  lemma {:induction false} CountsSplit(flags: seq<Flag>)
    ensures CountAt(flags, WriteDir) + CountAt(flags, ReadDir) == |flags|
    decreases |flags|
  {
    if |flags| > 0 {
      CountsSplit(flags[1..]);
    }
  }

  /** The reference count: how many flags the finder reports in one
      direction's chunks, summed over the events. */
  function FoundIn(events: seq<Event>, d: Direction, finder: FlagFinder): nat {
    if |events| == 0 then 0
    else
      var last := events[|events| - 1];
      FoundIn(events[..|events| - 1], d, finder) + (if IsDir(last, d) then |finder(last.data)| else 0)
  }

  lemma {:induction false} CountAtAppend(a: seq<Flag>, b: seq<Flag>, d: Direction)
    ensures CountAt(a + b, d) == CountAt(a, d) + CountAt(b, d)
    decreases |a|
  {
    if |a| == 0 {
      assert a + b == b;
    } else {
      assert (a + b)[1..] == a[1..] + b;
      CountAtAppend(a[1..], b, d);
    }
  }

  /** A chunk's flags all lie in the chunk's direction. */
  lemma {:induction false} CountAtChunk(d: Direction, found: seq<(int, string)>, base: int, e: Direction)
    ensures CountAt(ChunkFlags(d, found, base), e) == (if d == e then |found| else 0)
    decreases |found|
  {
    if |found| > 0 {
      assert ChunkFlags(d, found, base)[1..] == ChunkFlags(d, found[1..], base);
      CountAtChunk(d, found[1..], base, e);
    }
  }

  /** The flags the scan records in a direction are exactly the flags the
      finder reports in that direction's chunks. */
  lemma {:induction false} FlagCountsAreFinds(events: seq<Event>, finder: FlagFinder, d: Direction)
    ensures CountAt(ScanEvents(events, finder).flags, d) == FoundIn(events, d, finder)
    decreases |events|
  {
    if |events| > 0 {
      var init, last := events[..|events| - 1], events[|events| - 1];
      FlagCountsAreFinds(init, finder, d);
      var s := ScanEvents(init, finder);
      match last
      case ReadEv(data) =>
        var c := ChunkFlags(ReadDir, finder(data), |s.readData + data| - |data|);
        CountAtAppend(s.flags, c, d);
        CountAtChunk(ReadDir, finder(data), |s.readData + data| - |data|, d);
      case WriteEv(data) =>
        var c := ChunkFlags(WriteDir, finder(data), |s.writeData + data| - |data|);
        CountAtAppend(s.flags, c, d);
        CountAtChunk(WriteDir, finder(data), |s.writeData + data| - |data|, d);
      case _ =>
    }
  }

  /** The flag search as written: reading the missing `flag_format`
      raises inside the guarded block, which swallows it, so no chunk
      yields a flag. */
  const NoFlagSearch: FlagFinder := (chunk: seq<Byte>) => []

  /** As written, a connection records no flags at all, however many its
      chunks carry. */
  lemma {:induction false} AsWrittenFindsNoFlags(events: seq<Event>)
    ensures ScanEvents(events, NoFlagSearch).flags == []
    ensures FoundIn(events, WriteDir, NoFlagSearch) == 0 && FoundIn(events, ReadDir, NoFlagSearch) == 0
    decreases |events|
  {
    if |events| > 0 {
      AsWrittenFindsNoFlags(events[..|events| - 1]);
    }
  }

  // ---------------------------------------------------------------------
  // Buckets and the statistics update

  /** Python's `a // b`, which rounds toward negative infinity; Python
      raises for a zero divisor. */
  function FloorDiv(a: int, b: int): int
    requires b != 0
  {
    if b > 0 then a / b else (-a) / (-b)
  }

  /** `(total // precision) * precision` and that plus `precision`. */
  function SizeBucket(total: int, precision: int): (r: (int, int))
    requires precision != 0
    ensures r.1 == r.0 + precision
    ensures precision > 0 ==> r.0 <= total < r.1 && r.0 % precision == 0
  {
    var lo := FloorDiv(total, precision) * precision;
    if precision > 0 then
      BucketBounds(total, precision);
      (lo, lo + precision)
    else (lo, lo + precision)
  }

  /** For a positive divisor the bucket start is the largest multiple of
      the divisor not above the value. */
  lemma BucketBounds(a: int, b: int)
    requires b > 0
    ensures (a / b) * b <= a < (a / b) * b + b
    ensures ((a / b) * b) % b == 0
  {
    var q := a / b;
    assert a == q * b + a % b;
    MultipleMod(q, b);
  }

  lemma MultipleMod(q: int, b: int)
    requires b > 0
    ensures (q * b) % b == 0
  {
    var m := q * b;
    assert m == (m / b) * b + m % b;
    assert (q - m / b) * b == m % b;
    SmallMultiple(q - m / b, b);
  }

  lemma SmallMultiple(d: int, b: int)
    requires b > 0 && 0 <= d * b < b
    ensures d == 0
  {
  }

  const DefaultPrecision: int := 100

  /** The statistics increment of one connection. */
  datatype StatsUpdate = StatsUpdate(
    port: int, bytesIn: JValue, bytesOut: JValue,
    flagsWritten: nat, flagsRetrieved: nat,
    read: (int, int), write: (int, int), timeBucket: int)

  /** What `process_tap` records. */
  datatype TapRecord = TapRecord(port: Option<int>, blocked: bool, totalRead: int, totalWrite: int,
    flags: seq<Flag>, stats: Option<StatsUpdate>)

  /** Why `process_tap` stops: a non-string upstream host, a precision of
      zero, or a service entry without a TCP precision attribute. */
  datatype TapError = UpstreamHostNotAString | ZeroPrecision | NoPrecisionAttribute

  /** The port of the log entry's `upstream_host`. */
  function UpstreamPort(entry: JValue): Result<Option<int>, TapError> {
    match LogUtils.PortOfValue(GetIn(entry, "upstream_host", JStr("")))
    case Success(p) => Success(p)
    case Failure(_) => Failure(UpstreamHostNotAString)
  }

  /** The statistics row of a connection on a truthy port. */
  function Update(port: int, entry: JValue, s: Scan, p: int, startMs: int): (u: StatsUpdate)
    requires p != 0
    ensures u.port == port
    ensures u.flagsWritten + u.flagsRetrieved == |s.flags|
    ensures u.flagsWritten == CountAt(s.flags, WriteDir) && u.flagsRetrieved == CountAt(s.flags, ReadDir)
    ensures u.bytesIn == GetIn(entry, "bytes_in", JInt(0)) && u.bytesOut == GetIn(entry, "bytes_out", JInt(0))
    ensures p > 0 ==> u.read.0 <= s.totalRead < u.read.1 && u.write.0 <= s.totalWrite < u.write.1
    ensures u.timeBucket <= startMs < u.timeBucket + 60000 && u.timeBucket % 60000 == 0
  {
    CountsSplit(s.flags);
    StatsUpdate(port,
      GetIn(entry, "bytes_in", JInt(0)), GetIn(entry, "bytes_out", JInt(0)),
      CountAt(s.flags, WriteDir), CountAt(s.flags, ReadDir),
      SizeBucket(s.totalRead, p), SizeBucket(s.totalWrite, p),
      TimeStats.Truncate(startMs))
  }

  /** `process_tap`. `precision` is the service's configured TCP size
      precision, None when no service is on the port; `startMs` is the
      entry's start time in milliseconds. */
  function ProcessTap(entry: JValue, events: seq<Event>, finder: FlagFinder, precision: Option<int>, startMs: int)
    : (r: Result<TapRecord, TapError>)
    ensures r.Success? ==> (r.value.blocked <==> GetIn(entry, "interceptor_message", JStr("")) == JStr("blocked"))
    ensures r.Success? ==> (r.value.stats.Some? <==> r.value.port.Some? && r.value.port.value != 0)
    ensures r.Success? && r.value.stats.Some? ==>
      var u := r.value.stats.value;
      var p := if precision.Some? then precision.value else DefaultPrecision;
      && u.port == r.value.port.value
      && u.flagsWritten + u.flagsRetrieved == |r.value.flags|
      && u.flagsWritten == CountAt(r.value.flags, WriteDir) && u.flagsRetrieved == CountAt(r.value.flags, ReadDir)
      && u.bytesIn == GetIn(entry, "bytes_in", JInt(0)) && u.bytesOut == GetIn(entry, "bytes_out", JInt(0))
      && (p > 0 ==> u.read.0 <= r.value.totalRead < u.read.1 && u.write.0 <= r.value.totalWrite < u.write.1)
      && u.timeBucket <= startMs < u.timeBucket + 60000 && u.timeBucket % 60000 == 0
  {
    match UpstreamPort(entry)
    case Failure(e) => Failure(e)
    case Success(port) =>
      var blocked := GetIn(entry, "interceptor_message", JStr("")) == JStr("blocked");
      var s := ScanEvents(events, finder);
      if port.None? || port.value == 0 then
        Success(TapRecord(port, blocked, s.totalRead, s.totalWrite, s.flags, None))
      else
        var p := if precision.Some? then precision.value else DefaultPrecision;
        if p == 0 then Failure(ZeroPrecision)
        else Success(TapRecord(port, blocked, s.totalRead, s.totalWrite, s.flags, Some(Update(port.value, entry, s, p, startMs))))
  }

  /** A recorded connection counts as written the flags found in its write
      chunks and as retrieved those found in its read chunks. */
  lemma FlagStatsAreFinds(entry: JValue, events: seq<Event>, finder: FlagFinder, precision: Option<int>, startMs: int)
    requires ProcessTap(entry, events, finder, precision, startMs).Success?
    requires ProcessTap(entry, events, finder, precision, startMs).value.stats.Some?
    ensures var u := ProcessTap(entry, events, finder, precision, startMs).value.stats.value;
      u.flagsWritten == FoundIn(events, WriteDir, finder) && u.flagsRetrieved == FoundIn(events, ReadDir, finder)
  {
    FlagCountsAreFinds(events, finder, WriteDir);
    FlagCountsAreFinds(events, finder, ReadDir);
  }

  /** A port of 0 is falsy: the connection is recorded but no statistics
      are updated for it. */
  lemma PortZeroNoStats(entry: JValue, events: seq<Event>, finder: FlagFinder, precision: Option<int>, startMs: int)
    requires UpstreamPort(entry) == Success(Some(0))
    ensures ProcessTap(entry, events, finder, precision, startMs).Success?
    ensures ProcessTap(entry, events, finder, precision, startMs).value.stats.None?
  {
  }

  /** Without a service on the port the size buckets are 100 bytes wide. */
  lemma DefaultBucketWidth(entry: JValue, events: seq<Event>, finder: FlagFinder, startMs: int)
    requires UpstreamPort(entry).Success? && UpstreamPort(entry).value.Some? && UpstreamPort(entry).value.value != 0
    ensures var r := ProcessTap(entry, events, finder, None, startMs);
      r.Success? && r.value.stats.Some?
      && r.value.stats.value.read.1 - r.value.stats.value.read.0 == 100
      && r.value.stats.value.read.0 % 100 == 0
  {
  }

  /** `process_tap` as written: a configured service entry carries only a
      name, a port and a type, so reading its TCP precision raises, and
      only ports without a service get their statistics. `hasService` says
      whether a service is configured on the entry's port. */
  function ProcessTapAsWritten(entry: JValue, events: seq<Event>, finder: FlagFinder, hasService: bool, startMs: int)
    : (r: Result<TapRecord, TapError>)
    ensures r.Failure? && r.error == NoPrecisionAttribute ==> hasService
  {
    match UpstreamPort(entry)
    case Failure(e) => Failure(e)
    case Success(port) =>
      if port.Some? && port.value != 0 && hasService then Failure(NoPrecisionAttribute)
      else ProcessTap(entry, events, finder, None, startMs)
  }

  /** As written, every connection to a configured service's port fails
      before its size and time statistics are recorded. */
  lemma AsWrittenFailsForConfiguredPorts(entry: JValue, events: seq<Event>, finder: FlagFinder, startMs: int)
    requires UpstreamPort(entry).Success? && UpstreamPort(entry).value.Some? && UpstreamPort(entry).value.value != 0
    ensures ProcessTapAsWritten(entry, events, finder, true, startMs) == Failure(NoPrecisionAttribute)
    ensures ProcessTap(entry, events, finder, Some(DefaultPrecision), startMs).Success?
  {
  }

  /** Where the as-written code does not raise, it records what the
      corrected one records with the default precision. */
  lemma AsWrittenAgreesWithoutService(entry: JValue, events: seq<Event>, finder: FlagFinder, hasService: bool, startMs: int)
    requires ProcessTapAsWritten(entry, events, finder, hasService, startMs).Success?
    ensures ProcessTapAsWritten(entry, events, finder, hasService, startMs) == ProcessTap(entry, events, finder, None, startMs)
    ensures ProcessTap(entry, events, finder, None, startMs) == ProcessTap(entry, events, finder, Some(DefaultPrecision), startMs)
  {
  }

  /** The corrected code records the statistics of every connection to a
      truthy port whose precision is positive. */
  lemma ConfiguredPrecisionRecords(entry: JValue, events: seq<Event>, finder: FlagFinder, p: int, startMs: int)
    requires UpstreamPort(entry).Success? && UpstreamPort(entry).value.Some? && UpstreamPort(entry).value.value != 0
    requires p > 0
    ensures var r := ProcessTap(entry, events, finder, Some(p), startMs);
      && r.Success? && r.value.stats.Some?
      && r.value.stats.value.read.1 - r.value.stats.value.read.0 == p
      && r.value.stats.value.read.0 % p == 0
  {
  }
}

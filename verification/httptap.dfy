/** The HTTP side of the log processor: tap files are indexed by the
    request id found in their headers; each access-log entry is matched
    to its tap, whose headers are normalised, and whose blocked flag,
    status and statistics rows are derived. URL parsing, query-string
    parsing, base64/UTF-8 body decoding, the flag finder and regular
    expression matching are parameters. */
module HttpTap {
  import opened Wrappers
  import opened Json
  import opened PyStr
  import Taps
  import TapBatch
  import LogUtils

  // ---------------------------------------------------------------------
  // Walking the tap's JSON as the Python code does

  datatype HttpError = NotAMapping | NotIterable | HeaderNotAMapping | KeyNotAString | HostNotAString | NoFlagFormatAttribute

  /** `v.get(key, {})`, which raises on anything but a mapping. */
  function Field(v: JValue, key: string): (r: Result<JValue, HttpError>)
    ensures r.Success? <==> v.JMap?
    ensures v.JMap? ==> r.value == Get(v.fields, key, JMap(map[]))
  {
    if v.JMap? then Success(Get(v.fields, key, JMap(map[]))) else Failure(NotAMapping)
  }

  /** The items a `for` loop sees when the elements must be mappings: a
      list gives its items; an empty string or mapping gives none; a
      non-empty string or mapping yields strings, whose `.get` raises, and
      anything else is not iterable. */
  function Items(v: JValue): (r: Option<seq<JValue>>)
    ensures v.JList? ==> r == Some(v.items)
    ensures r.Some? ==> v.JList? || !Truthy(v)
  {
    match v
    case JList(xs) => Some(xs)
    case JStr(s) => if |s| == 0 then Some([]) else None
    case JMap(m) => if |m| == 0 then Some([]) else None
    case _ => None
  }

  // ---------------------------------------------------------------------
  // The request id of a tap

  datatype Search = Found(value: JValue) | Absent | Raised

  /** The value of the first header whose key is `name`; a non-mapping
      header raises. */
  function SearchItems(items: seq<JValue>, name: string): (r: Search)
    ensures r.Absent? <==> forall j :: 0 <= j < |items| ==> items[j].JMap? && Get(items[j].fields, "key", JNull) != JStr(name)
    decreases |items|
  {
    if |items| == 0 then Absent
    else if !items[0].JMap? then Raised
    else if Get(items[0].fields, "key", JNull) == JStr(name) then Found(Get(items[0].fields, "value", JNull))
    else
      var r := SearchItems(items[1..], name);
      assert forall j :: 1 <= j < |items| ==> items[j] == items[1..][j - 1];
      r
  }

  /** The search stops at the first header named `name`, whatever follows it. */
  lemma {:induction false} SearchFindsFirst(items: seq<JValue>, name: string, i: nat)
    requires i < |items| && items[i].JMap? && Get(items[i].fields, "key", JNull) == JStr(name)
    requires forall j :: 0 <= j < i ==> items[j].JMap? && Get(items[j].fields, "key", JNull) != JStr(name)
    ensures SearchItems(items, name) == Found(Get(items[i].fields, "value", JNull))
    decreases i
  {
    if i > 0 {
      SearchFindsFirst(items[1..], name, i - 1);
    }
  }

  /** `section.get("headers", [])` searched for `name`. */
  function SearchHeaders(section: JValue, name: string): Search {
    if !section.JMap? then Raised
    else
      match Items(Get(section.fields, "headers", JList([])))
      case None => Raised
      case Some(items) => SearchItems(items, name)
  }

  const RequestIdHeader := "x-request-id"

  /** `extract_request_id_from_tap`: the value of the first `x-request-id`
      request header, else of the first such response header, else None;
      any exception on the way gives None. */
  function RequestId(data: JValue): (r: Option<JValue>)
    ensures r.Some? ==> data.JMap?
  {
    if !data.JMap? then None
    else
      var trace := Get(data.fields, "http_buffered_trace", JMap(map[]));
      if !trace.JMap? then None
      else
        match SearchHeaders(Get(trace.fields, "request", JMap(map[])), RequestIdHeader)
        case Found(v) => Some(v)
        case Raised => None
        case Absent =>
          match SearchHeaders(Get(trace.fields, "response", JMap(map[])), RequestIdHeader)
          case Found(v) => Some(v)
          case _ => None
  }

  /** A tap shaped as Envoy writes it. */
  function Tap(request: seq<JValue>, response: seq<JValue>): JValue {
    JMap(map["http_buffered_trace" := JMap(map[
      "request" := JMap(map["headers" := JList(request)]),
      "response" := JMap(map["headers" := JList(response)])])])
  }

  /** The request's own id wins over the response's. */
  lemma RequestHeaderWins(request: seq<JValue>, response: seq<JValue>, i: nat)
    requires i < |request| && request[i].JMap? && Get(request[i].fields, "key", JNull) == JStr(RequestIdHeader)
    requires forall j :: 0 <= j < i ==> request[j].JMap? && Get(request[j].fields, "key", JNull) != JStr(RequestIdHeader)
    ensures RequestId(Tap(request, response)) == Some(Get(request[i].fields, "value", JNull))
  {
    SearchFindsFirst(request, RequestIdHeader, i);
  }

  /** Without one among well-formed request headers, the response's is used. */
  lemma ResponseHeaderFallback(request: seq<JValue>, response: seq<JValue>, i: nat)
    requires forall j :: 0 <= j < |request| ==> request[j].JMap? && Get(request[j].fields, "key", JNull) != JStr(RequestIdHeader)
    requires i < |response| && response[i].JMap? && Get(response[i].fields, "key", JNull) == JStr(RequestIdHeader)
    requires forall j :: 0 <= j < i ==> response[j].JMap? && Get(response[j].fields, "key", JNull) != JStr(RequestIdHeader)
    ensures RequestId(Tap(request, response)) == Some(Get(response[i].fields, "value", JNull))
  {
    SearchFindsFirst(response, RequestIdHeader, i);
  }

  /** `on_file_loaded`'s key: the request id when it is truthy. */
  function IndexKey(data: JValue): (r: Option<JValue>)
    ensures r.Some? <==> RequestId(data).Some? && Truthy(RequestId(data).value)
  {
    match RequestId(data)
    case Some(v) => if Truthy(v) then Some(v) else None
    case None => None
  }

  /** The entry's `stream_id`, when truthy; it is popped from the index as is. */
  function StreamKey(entry: JValue): (r: Option<JValue>)
    ensures r.Some? <==> Truthy(GetIn(entry, "stream_id", JNull))
  {
    var id := GetIn(entry, "stream_id", JNull);
    if Truthy(id) then Some(id) else None
  }

  /** `HttpProcessor.process_new_access_log_entries`. */
  function ProcessEntries(f: TapBatch.Indexed<JValue>, lines: seq<TapBatch.LogLine>, listing: seq<Taps.DirEntry>,
    load: Taps.Loader): (r: TapBatch.Batch<JValue>)
    ensures |lines| > 0 ==> r.position == Some(lines[|lines| - 1].endPosition)
    ensures forall m :: m in r.matched ==> Truthy(m.tap) && m.file in r.deleted && m.file in r.toArchive
  {
    TapBatch.ProcessEntries(f, lines, listing, load, IndexKey, StreamKey)
  }

  /** An entry with a falsy `stream_id` changes nothing. */
  lemma NoStreamIdSkipped(f: TapBatch.Indexed<JValue>, line: TapBatch.LogLine)
    requires !Truthy(GetIn(line.data, "stream_id", JNull))
    ensures TapBatch.Step(f, StreamKey(line.data), line) == (f, None)
  {
  }

  /** `pop_tap_filename_by_request_id` consumes the entry for the id: the
      same stream id finds nothing a second time. */
  lemma PopTwiceFindsNothing(f: TapBatch.Indexed<JValue>, line: TapBatch.LogLine)
    requires StreamKey(line.data).Some?
    ensures var g := TapBatch.Step(f, StreamKey(line.data), line).0;
      TapBatch.Step(g, StreamKey(line.data), line) == (g, None)
  {
    var g := TapBatch.Step(f, StreamKey(line.data), line).0;
    assert StreamKey(line.data).value !in g.index;
    TapBatch.NoTapSkipped(g, StreamKey(line.data).value, line);
  }

  // ---------------------------------------------------------------------
  // Headers

  type Header = (string, JValue)

  /** `[(h.get("key").lower(), h.get("value")) for h in items if h.get("key")]`:
      a non-mapping item, or a truthy key that is not a string, raises. */
  function Pairs(items: seq<JValue>): (r: Result<seq<Header>, HttpError>)
    ensures r.Success? ==> forall p :: p in r.value ==> |p.0| > 0 && Lower(p.0) == p.0
    ensures r.Success? <==> forall j :: 0 <= j < |items| ==> WellFormed(items[j])
    ensures r.Success? ==> |r.value| <= |items|
    decreases |items|
  {
    if |items| == 0 then Success([])
    else
      var rest := Pairs(items[1..]);
      assert forall j :: 1 <= j < |items| ==> items[j] == items[1..][j - 1];
      if !WellFormed(items[0]) then Failure(if items[0].JMap? then KeyNotAString else HeaderNotAMapping)
      else if rest.Failure? then rest
      else
        var key := Get(items[0].fields, "key", JNull);
        if !Truthy(key) then rest
        else
          LowerIdempotent(key.s);
          Success([(Lower(key.s), Get(items[0].fields, "value", JNull))] + rest.value)
  }

  /** A header item the comprehension accepts. */
  predicate WellFormed(h: JValue) {
    h.JMap? && (var key := Get(h.fields, "key", JNull); !Truthy(key) || key.JStr?)
  }

  lemma LowerIdempotent(s: string)
    ensures Lower(Lower(s)) == Lower(s)
  {
  }

  /** The pair a single well-formed item contributes. */
  function Head(h: JValue): seq<Header>
    requires WellFormed(h)
  {
    var key := Get(h.fields, "key", JNull);
    if Truthy(key) then [(Lower(key.s), Get(h.fields, "value", JNull))] else []
  }

  lemma PairsUnfold(items: seq<JValue>)
    requires |items| > 0 && Pairs(items).Success?
    ensures WellFormed(items[0]) && Pairs(items[1..]).Success?
    ensures Pairs(items).value == Head(items[0]) + Pairs(items[1..]).value
  {
    assert WellFormed(items[0]);
    assert forall j :: 0 <= j < |items[1..]| ==> items[1..][j] == items[j + 1];
  }

  lemma PairsAppendSucceeds(a: seq<JValue>, b: seq<JValue>)
    requires Pairs(a).Success? && Pairs(b).Success?
    ensures Pairs(a + b).Success?
  {
    forall j | 0 <= j < |a + b| ensures WellFormed((a + b)[j]) {
      if j < |a| { assert (a + b)[j] == a[j]; } else { assert (a + b)[j] == b[j - |a|]; }
    }
  }

  /** The pairs of a list of items are the pairs of each part, in order. */
  lemma {:induction false} PairsAppend(a: seq<JValue>, b: seq<JValue>)
    requires Pairs(a).Success? && Pairs(b).Success?
    ensures Pairs(a + b).Success? && Pairs(a + b).value == Pairs(a).value + Pairs(b).value
    decreases |a|
  {
    if |a| == 0 {
      assert a + b == b;
      assert Pairs(a).value == [];
      assert Pairs(a).value + Pairs(b).value == Pairs(b).value;
    } else {
      assert (a + b)[0] == a[0];
      assert (a + b)[1..] == a[1..] + b;
      PairsUnfold(a);
      PairsAppend(a[1..], b);
      PairsAppendSucceeds(a, b);
      PairsUnfold(a + b);
      ConcatAssoc(Head(a[0]), Pairs(a[1..]).value, Pairs(b).value);
    }
  }

  /** A header with an empty or missing key is dropped; any other is kept
      with its key lowercased. */
  lemma OneHeader(key: string, value: JValue)
    ensures |key| == 0 ==> Pairs([JMap(map["key" := JStr(key), "value" := value])]) == Success([])
    ensures |key| > 0 ==> Pairs([JMap(map["key" := JStr(key), "value" := value])]) == Success([(Lower(key), value)])
  {
    var h := JMap(map["key" := JStr(key), "value" := value]);
    assert [h][0] == h && [h][1..] == [];
    assert Get(h.fields, "key", JNull) == JStr(key);
    assert Get(h.fields, "value", JNull) == value;
    assert WellFormed(h);
    assert Pairs([h][1..]) == Success([]);
    assert [(Lower(key), value)] + [] == [(Lower(key), value)];
  }

  /** `section.get(field, [])` as header pairs. */
  function SectionPairs(section: JValue, field: string): Result<seq<Header>, HttpError> {
    if !section.JMap? then Failure(NotAMapping)
    else
      match Items(Get(section.fields, field, JList([])))
      case None => Failure(NotIterable)
      case Some(items) => Pairs(items)
  }

  /** `dict(pairs).get(key)`: the value of the last pair with that key. */
  function LastValue(pairs: seq<Header>, key: string): (r: Option<JValue>)
    ensures r.Some? <==> exists p :: p in pairs && p.0 == key
    ensures r.Some? ==> (key, r.value) in pairs
  {
    if |pairs| == 0 then None
    else
      var last := pairs[|pairs| - 1];
      var init := LastValue(pairs[..|pairs| - 1], key);
      assert forall p :: p in pairs ==> p in pairs[..|pairs| - 1] || p == last;
      assert forall p :: p in pairs[..|pairs| - 1] ==> p in pairs;
      if last.0 == key then Some(last.1) else init
  }

  /** A later pair overrides an earlier one, and a pair for another key
      changes nothing. */
  lemma LastValueSnoc(pairs: seq<Header>, key: string, p: Header)
    ensures p.0 == key ==> LastValue(pairs + [p], key) == Some(p.1)
    ensures p.0 != key ==> LastValue(pairs + [p], key) == LastValue(pairs, key)
  {
    assert (pairs + [p])[..|pairs|] == pairs;
  }

  // ---------------------------------------------------------------------
  // Status, blocked, and the statistics of one exchange

  /** `int(s) if s and str(s).isdigit() else -1`: an all-digit string, or
      a positive integer (whose `str` is all digits); anything else, 0
      included, is -1. */
  function Status(v: JValue): (r: int)
    ensures r == -1 || r >= 0
    ensures v.JStr? && IsDigits(v.s) ==> r == DecimalValue(v.s)
    ensures v.JStr? && !IsDigits(v.s) ==> r == -1
    ensures v.JInt? ==> r == (if v.i > 0 then v.i else -1)
    ensures !v.JStr? && !v.JInt? ==> r == -1
  {
    match v
    case JStr(s) => if IsDigits(s) then DecimalValue(s) else -1
    case JInt(i) => if i > 0 then i else -1
    case _ => -1
  }

  /** Python's `a or b` on loaded values. */
  function Or(a: JValue, b: JValue): (r: JValue)
    ensures Truthy(a) ==> r == a
    ensures !Truthy(a) ==> r == b
  {
    if Truthy(a) then a else b
  }

  /** `dict.get(key)` as a loaded value: None is null. */
  function Lookup(pairs: seq<Header>, key: string): JValue {
    match LastValue(pairs, key)
    case Some(v) => v
    case None => JNull
  }

  /** The request headers the statistics never count. */
  const IgnoredHeaderStats: set<string> := {"content-length", ":path", "cookie", "x-request-id"}

  /** The per-service options the processor reads. */
  datatype ServiceOptions = ServiceOptions(
    ignorePathStats: seq<(string, JValue)>,
    ignoreQueryParamStats: map<string, string>,
    ignoreHeaderStats: map<string, string>)

  /** The library calls the processor makes, as parameters. */
  datatype Oracles = Oracles(
    urlPath: JValue -> JValue,
    queryParams: JValue -> seq<(string, seq<string>)>,
    fullMatch: (string, JValue) -> bool,
    body: JValue -> string,
    findFlags: string -> seq<(int, string)>)

  /** Whether a request header counts in the header statistics. */
  predicate HeaderCounts(h: Header, opts: Option<ServiceOptions>, fullMatch: (string, JValue) -> bool) {
    && h.0 !in IgnoredHeaderStats
    && !(opts.Some? && h.0 in opts.value.ignoreHeaderStats && fullMatch(opts.value.ignoreHeaderStats[h.0], h.1))
  }

  /** The header-statistics loop. */
  function HeaderStats(pairs: seq<Header>, opts: Option<ServiceOptions>, fullMatch: (string, JValue) -> bool)
    : (r: seq<Header>)
    ensures forall h :: h in r <==> h in pairs && HeaderCounts(h, opts, fullMatch)
    ensures |r| <= |pairs|
  {
    if |pairs| == 0 then []
    else
      var rest := HeaderStats(pairs[1..], opts, fullMatch);
      assert forall h :: h in pairs <==> h == pairs[0] || h in pairs[1..];
      (if HeaderCounts(pairs[0], opts, fullMatch) then [pairs[0]] else []) + rest
  }

  /** The query-parameter statistics loop: each value of each parameter,
      less those matching the parameter's ignore pattern. */
  function QueryStats(params: seq<(string, seq<string>)>, opts: Option<ServiceOptions>,
    fullMatch: (string, JValue) -> bool): (r: seq<(string, string)>)
    ensures forall q :: q in r ==> exists i :: 0 <= i < |params| && params[i].0 == q.0 && q.1 in params[i].1
    ensures forall q :: q in r ==> !Ignored(q, opts, fullMatch)
    ensures forall i, v :: 0 <= i < |params| && v in params[i].1 && !Ignored((params[i].0, v), opts, fullMatch) ==>
      (params[i].0, v) in r
  {
    if |params| == 0 then []
    else
      var (param, values) := params[0];
      var rest := QueryStats(params[1..], opts, fullMatch);
      assert forall q :: q in rest ==> exists i :: 0 <= i < |params| && params[i].0 == q.0 && q.1 in params[i].1 by {
        forall q | q in rest ensures exists i :: 0 <= i < |params| && params[i].0 == q.0 && q.1 in params[i].1 {
          var i :| 0 <= i < |params[1..]| && params[1..][i].0 == q.0 && q.1 in params[1..][i].1;
          assert params[i + 1] == params[1..][i];
        }
      }
      var kept := seq(|values|, k requires 0 <= k < |values| => (param, values[k]));
      var counted := Keep(kept, opts, fullMatch);
      assert forall q :: q in counted ==> params[0].0 == q.0 && q.1 in params[0].1 by {
        forall q | q in counted ensures params[0].0 == q.0 && q.1 in params[0].1 {
          var k :| 0 <= k < |kept| && kept[k] == q;
        }
      }
      assert forall v :: v in values ==> (param, v) in kept by {
        forall v | v in values ensures (param, v) in kept {
          var k :| 0 <= k < |values| && values[k] == v;
          assert kept[k] == (param, v);
        }
      }
      assert forall i :: 1 <= i < |params| ==> params[1..][i - 1] == params[i];
      counted + rest
  }

  function Keep(qs: seq<(string, string)>, opts: Option<ServiceOptions>, fullMatch: (string, JValue) -> bool)
    : (r: seq<(string, string)>)
    ensures forall q :: q in r <==> q in qs && !Ignored(q, opts, fullMatch)
  {
    if |qs| == 0 then []
    else
      var q := qs[0];
      var rest := Keep(qs[1..], opts, fullMatch);
      assert forall x :: x in qs <==> x == q || x in qs[1..];
      if Ignored(q, opts, fullMatch) then rest else [q] + rest
  }

  /** A query value matching its parameter's ignore pattern. */
  predicate Ignored(q: (string, string), opts: Option<ServiceOptions>, fullMatch: (string, JValue) -> bool) {
    opts.Some? && q.0 in opts.value.ignoreQueryParamStats && fullMatch(opts.value.ignoreQueryParamStats[q.0], JStr(q.1))
  }

  /** Whether the path time statistics count the request: not when the
      service ignores the path together with the method. */
  predicate PathCounts(path: JValue, verb: JValue, opts: Option<ServiceOptions>, fullMatch: (string, JValue) -> bool) {
    opts.None? ||
    !(exists i :: 0 <= i < |opts.value.ignorePathStats| &&
        fullMatch(opts.value.ignorePathStats[i].0, path) && verb == opts.value.ignorePathStats[i].1)
  }

  /** The statistics increments of one exchange on a truthy port. */
  datatype HttpStats = HttpStats(
    port: int, requests: nat, responses: nat, blockedRequests: nat,
    flagsWritten: nat, flagsRetrieved: nat, status: int,
    pathCounted: bool, queryCounted: seq<(string, string)>, headerCounted: seq<Header>)

  /** What `process_tap` records for one exchange. */
  datatype HttpRecord = HttpRecord(
    port: Option<int>, verb: JValue, fullPath: JValue, status: int, blocked: bool,
    requestHeaders: seq<Header>, responseHeaders: seq<Header>,
    flagsWritten: seq<(int, string)>, flagsRetrieved: seq<(int, string)>,
    stats: Option<HttpStats>)

  /** The tap's request and response sections with their header pairs and
      request trailers. */
  datatype Sections = Sections(request: JValue, response: JValue,
    requestHeaders: seq<Header>, trailers: seq<Header>, responseHeaders: seq<Header>)

  function ReadSections(data: JValue): Result<Sections, HttpError> {
    var trace :- Field(data, "http_buffered_trace");
    var request :- Field(trace, "request");
    var response :- Field(trace, "response");
    var reqHeaders :- SectionPairs(request, "headers");
    var trailers :- SectionPairs(request, "trailers");
    var respHeaders :- SectionPairs(response, "headers");
    Success(Sections(request, response, reqHeaders, trailers, respHeaders))
  }

  /** `process_tap`. `serviceAt` gives the options of the service on a
      port, None when no service is configured there. */
  function ProcessTap(data: JValue, entry: JValue, serviceAt: int -> Option<ServiceOptions>, o: Oracles)
    : (r: Result<HttpRecord, HttpError>)
    ensures r.Success? ==> (r.value.stats.Some? <==> r.value.port.Some? && r.value.port.value != 0)
    ensures r.Success? && r.value.stats.Some? ==>
      var s := r.value.stats.value;
      && s.port == r.value.port.value
      && s.requests == 1 && s.requests == s.responses + s.blockedRequests
      && (s.blockedRequests == 1 <==> r.value.blocked)
      && s.flagsWritten == |r.value.flagsWritten| && s.flagsRetrieved == |r.value.flagsRetrieved|
      && s.status == r.value.status
      && (forall h :: h in s.headerCounted ==> h in r.value.requestHeaders && h.0 !in IgnoredHeaderStats)
      && s.headerCounted == HeaderStats(r.value.requestHeaders, serviceAt(s.port), o.fullMatch)
      && s.queryCounted == QueryStats(o.queryParams(r.value.fullPath), serviceAt(s.port), o.fullMatch)
      && s.pathCounted == PathCounts(o.urlPath(r.value.fullPath), r.value.verb, serviceAt(s.port), o.fullMatch)
    ensures r.Success? ==> r.value.status == -1 || r.value.status >= 0
  {
    var sec :- ReadSections(data);
    var blocked := LastValue(sec.trailers, "x-blocked") == Some(JStr("1"));
    var verb := Or(GetIn(entry, "method", JNull), Lookup(sec.requestHeaders, ":method"));
    var fullPath := Or(Or(GetIn(entry, "path", JNull), Lookup(sec.requestHeaders, ":path")), JStr(""));
    var status := Status(Or(GetIn(entry, "status", JNull), Lookup(sec.responseHeaders, ":status")));
    var port :- match LogUtils.PortOfValue(GetIn(entry, "upstream_host", JStr("")))
      case Success(p) => Success(p)
      case Failure(_) => Failure(HostNotAString);
    var written := o.findFlags(o.body(GetIn(sec.request, "body", JNull)));
    var retrieved := o.findFlags(o.body(GetIn(sec.response, "body", JNull)));
    var stats :=
      if port.None? || port.value == 0 then None
      else
        var opts := serviceAt(port.value);
        var path := o.urlPath(fullPath);
        Some(HttpStats(port.value, 1, if blocked then 0 else 1, if blocked then 1 else 0,
          |written|, |retrieved|, status,
          PathCounts(path, verb, opts, o.fullMatch),
          QueryStats(o.queryParams(fullPath), opts, o.fullMatch),
          HeaderStats(sec.requestHeaders, opts, o.fullMatch)));
    Success(HttpRecord(port, verb, fullPath, status, blocked, sec.requestHeaders, sec.responseHeaders,
      written, retrieved, stats))
  }

  /** A request is blocked exactly when its last `x-blocked` trailer (keys
      compared after lowercasing) is the string "1"; a blocked request
      counts no response. */
  lemma BlockedIffTrailer(data: JValue, entry: JValue, serviceAt: int -> Option<ServiceOptions>, o: Oracles)
    requires ReadSections(data).Success?
    requires ProcessTap(data, entry, serviceAt, o).Success?
    ensures var r := ProcessTap(data, entry, serviceAt, o).value;
      r.blocked <==> LastValue(ReadSections(data).value.trailers, "x-blocked") == Some(JStr("1"))
    ensures var r := ProcessTap(data, entry, serviceAt, o).value;
      r.stats.Some? && r.blocked ==> r.stats.value.responses == 0 && r.stats.value.blockedRequests == 1
  {
  }

  /** The log entry's status wins over the response's `:status` header
      whenever it is truthy. */
  lemma EntryStatusWins(data: JValue, entry: JValue, serviceAt: int -> Option<ServiceOptions>, o: Oracles)
    requires ProcessTap(data, entry, serviceAt, o).Success?
    requires Truthy(GetIn(entry, "status", JNull))
    ensures ProcessTap(data, entry, serviceAt, o).value.status == Status(GetIn(entry, "status", JNull))
  {
  }

  /** `process_tap` as written: the configuration object has no
      `flag_format`, so the flag search raises on every exchange that got
      that far, after its request, response and header rows are written
      and before its flags and statistics. */
  function ProcessTapAsWritten(data: JValue, entry: JValue, serviceAt: int -> Option<ServiceOptions>, o: Oracles)
    : (r: Result<HttpRecord, HttpError>)
    ensures r.Failure?
    ensures ProcessTap(data, entry, serviceAt, o).Failure? ==> r == ProcessTap(data, entry, serviceAt, o)
  {
    match ProcessTap(data, entry, serviceAt, o)
    case Failure(e) => Failure(e)
    case Success(_) => Failure(NoFlagFormatAttribute)
  }

  /** As written, an exchange on a truthy port that the corrected code
      records, with its flags and statistics, records neither. */
  lemma AsWrittenRecordsNoStats(data: JValue, entry: JValue, serviceAt: int -> Option<ServiceOptions>, o: Oracles)
    requires ProcessTap(data, entry, serviceAt, o).Success?
    ensures ProcessTapAsWritten(data, entry, serviceAt, o) == Failure(NoFlagFormatAttribute)
  {
  }

  /** With the flag format configured, every exchange whose sections read
      and whose upstream host names a truthy port is recorded with its
      statistics, counting the flags found in each body. */
  lemma CorrectedRecordsStats(data: JValue, entry: JValue, serviceAt: int -> Option<ServiceOptions>, o: Oracles, port: int)
    requires ReadSections(data).Success?
    requires LogUtils.PortOfValue(GetIn(entry, "upstream_host", JStr(""))) == Success(Some(port)) && port != 0
    ensures var r := ProcessTap(data, entry, serviceAt, o);
      && r.Success? && r.value.stats.Some? && r.value.stats.value.port == port
      && r.value.stats.value.flagsWritten == |o.findFlags(o.body(GetIn(ReadSections(data).value.request, "body", JNull)))|
      && r.value.stats.value.flagsRetrieved == |o.findFlags(o.body(GetIn(ReadSections(data).value.response, "body", JNull)))|
  {
  }
}

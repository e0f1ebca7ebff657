/** Session linking in the log processor: per-session request lists kept
    sorted by (timestamp, request id), bisect lookups of the previous and
    next request, and the storage that records which session a request
    arrived with and which one its response handed out. Cookie parsing
    (`SimpleCookie.load`) is an oracle. */
module Sessions {
  import opened Wrappers
  import Config

  /** A `(timestamp, request_id)` tuple of a session's request list. */
  datatype Entry = Entry(ts: int, id: int)

  /** Python's tuple order on entries. */
  predicate EntryLt(a: Entry, b: Entry) {
    a.ts < b.ts || (a.ts == b.ts && a.id < b.id)
  }

  predicate EntryLe(a: Entry, b: Entry) {
    a.ts < b.ts || (a.ts == b.ts && a.id <= b.id)
  }

  predicate Sorted(s: seq<Entry>) {
    forall i, j :: 0 <= i < j < |s| ==> EntryLe(s[i], s[j])
  }

  /** A predicate that, along `s`, is false and then true. */
  predicate Monotone(s: seq<Entry>, p: Entry -> bool) {
    forall i, j :: 0 <= i < j < |s| && p(s[i]) ==> p(s[j])
  }

  /** The reference definition of a bisection point: the first index whose
      entry satisfies `p`, or `|s|`, found by a linear scan. */
  function FirstIndex(s: seq<Entry>, p: Entry -> bool): (r: nat)
    ensures r <= |s|
    ensures forall i :: 0 <= i < r ==> !p(s[i])
    ensures r < |s| ==> p(s[r])
  {
    if |s| == 0 then 0
    else if p(s[0]) then 0
    else 1 + FirstIndex(s[1..], p)
  }

  /** The index `k` with nothing before it satisfying `p` and `s[k]`
      satisfying it is the first index. */
  lemma {:induction false} FirstIndexIs(s: seq<Entry>, p: Entry -> bool, k: nat)
    requires k <= |s|
    requires forall i :: 0 <= i < k ==> !p(s[i])
    requires k < |s| ==> p(s[k])
    ensures FirstIndex(s, p) == k
    decreases |s|
  {
    if |s| > 0 && k > 0 {
      assert !p(s[0]);
      FirstIndexIs(s[1..], p, k - 1);
    }
  }

  /** The binary search that `bisect_left` and `bisect_right` run: halve
      `[lo, hi)` until it is empty, moving `hi` down to a midpoint that
      satisfies `p` and `lo` past one that does not. */
  method Bisect(s: seq<Entry>, p: Entry -> bool) returns (lo: nat)
    requires Monotone(s, p)
    ensures lo == FirstIndex(s, p)
  {
    lo := 0;
    var hi := |s|;
    while lo < hi
      invariant 0 <= lo <= hi <= |s|
      invariant forall i :: 0 <= i < lo ==> !p(s[i])
      invariant forall i :: hi <= i < |s| ==> p(s[i])
      decreases hi - lo
    {
      var mid := (lo + hi) / 2;
      if p(s[mid]) {
        hi := mid;
      } else {
        lo := mid + 1;
      }
    }
    FirstIndexIs(s, p, lo);
  }

  /** `bisect_left(s, key)` tests `not s[mid] < key`. */
  function AtOrAbove(key: Entry): Entry -> bool {
    (e: Entry) => !EntryLt(e, key)
  }

  /** `bisect_right(s, key)` tests `key < s[mid]`. */
  function Above(key: Entry): Entry -> bool {
    (e: Entry) => EntryLt(key, e)
  }

  /** `bisect_right(s, (t, float("inf")))`: no id exceeds infinity, so the
      tuple comparison reduces to `t < s[mid].ts`. */
  function LaterThan(t: int): Entry -> bool {
    (e: Entry) => t < e.ts
  }

  lemma SortedMonotone(s: seq<Entry>, key: Entry, t: int)
    requires Sorted(s)
    ensures Monotone(s, AtOrAbove(key))
    ensures Monotone(s, Above(key))
    ensures Monotone(s, LaterThan(t))
  {
  }

  /** `SessionRequests.add_request`: `insort`, which inserts after every
      entry not above the new one. */
  function AddEntry(s: seq<Entry>, e: Entry): (r: seq<Entry>)
    ensures |r| == |s| + 1
    ensures multiset(r) == multiset(s) + multiset{e}
  {
    var k := FirstIndex(s, Above(e));
    assert s == s[..k] + s[k..];
    s[..k] + [e] + s[k..]
  }

  /** The list stays sorted. */
  lemma AddEntrySorted(s: seq<Entry>, e: Entry)
    requires Sorted(s)
    ensures Sorted(AddEntry(s, e))
  {
    var k := FirstIndex(s, Above(e));
    var r := AddEntry(s, e);
    forall i, j | 0 <= i < j < |r|
      ensures EntryLe(r[i], r[j])
    {
      if j < k {
        assert r[i] == s[i] && r[j] == s[j];
      } else if j == k {
        assert r[i] == s[i] && !Above(e)(s[i]);
      } else if i == k {
        assert r[j] == s[j - 1];
        SortedMonotone(s, e, 0);
        assert Above(e)(s[k]);
      } else if i < k {
        assert r[i] == s[i] && r[j] == s[j - 1];
      } else {
        assert r[i] == s[i - 1] && r[j] == s[j - 1];
      }
    }
  }

  /** `find_request_before(t)`: the id just before `bisect_left(s, (t, 0))`. */
  function FindBefore(s: seq<Entry>, t: int): (r: Option<int>)
    ensures r.None? <==> FirstIndex(s, AtOrAbove(Entry(t, 0))) == 0
  {
    var k := FirstIndex(s, AtOrAbove(Entry(t, 0)));
    if k > 0 then Some(s[k - 1].id) else None
  }

  /** `find_request_after(t)`: the id at `bisect_right(s, (t, inf))`. */
  function FindAfter(s: seq<Entry>, t: int): (r: Option<int>)
    ensures r.None? <==> FirstIndex(s, LaterThan(t)) == |s|
  {
    var k := FirstIndex(s, LaterThan(t));
    if k < |s| then Some(s[k].id) else None
  }

  /** With non-negative ids, the request found before `t` is the last one
      that started strictly before `t`; in particular a request looked up
      by its own start time never finds itself. */
  lemma FindBeforeIsLastEarlier(s: seq<Entry>, t: int)
    requires Sorted(s)
    requires forall i :: 0 <= i < |s| ==> s[i].id >= 0
    ensures FindBefore(s, t).Some? <==> exists i :: 0 <= i < |s| && s[i].ts < t
    ensures FindBefore(s, t).Some? ==>
      exists i :: 0 <= i < |s| && s[i].id == FindBefore(s, t).value && s[i].ts < t
         && forall j :: i < j < |s| ==> s[j].ts >= t
  {
    var k := FirstIndex(s, AtOrAbove(Entry(t, 0)));
    SortedMonotone(s, Entry(t, 0), t);
    if k > 0 {
      assert s[k - 1].ts < t;
      forall j | k - 1 < j < |s|
        ensures s[j].ts >= t
      {
        assert AtOrAbove(Entry(t, 0))(s[j]);
      }
    } else {
      forall i | 0 <= i < |s|
        ensures s[i].ts >= t
      {
        assert AtOrAbove(Entry(t, 0))(s[i]);
      }
    }
  }

  /** The request found after `t` is the first one that started strictly
      after `t`. */
  lemma FindAfterIsFirstLater(s: seq<Entry>, t: int)
    requires Sorted(s)
    ensures FindAfter(s, t).Some? <==> exists i :: 0 <= i < |s| && s[i].ts > t
    ensures FindAfter(s, t).Some? ==>
      exists i :: 0 <= i < |s| && s[i].id == FindAfter(s, t).value && s[i].ts > t
         && forall j :: 0 <= j < i ==> s[j].ts <= t
  {
    SortedMonotone(s, Entry(t, 0), t);
  }

  /** The bisect-based lookups, as the source runs them, agree with the
      definitions above. */
  method FindRequestBefore(s: seq<Entry>, t: int) returns (r: Option<int>)
    requires Sorted(s)
    ensures r == FindBefore(s, t)
  {
    SortedMonotone(s, Entry(t, 0), t);
    var index := Bisect(s, AtOrAbove(Entry(t, 0)));
    if index > 0 {
      r := Some(s[index - 1].id);
    } else {
      r := None;
    }
  }

  method FindRequestAfter(s: seq<Entry>, t: int) returns (r: Option<int>)
    requires Sorted(s)
    ensures r == FindAfter(s, t)
  {
    SortedMonotone(s, Entry(t, 0), t);
    var index := Bisect(s, LaterThan(t));
    if index < |s| {
      r := Some(s[index].id);
    } else {
      r := None;
    }
  }

  /** `insort` as the source runs it. */
  method Insort(s: seq<Entry>, e: Entry) returns (r: seq<Entry>)
    requires Sorted(s)
    ensures r == AddEntry(s, e)
    ensures Sorted(r)
  {
    SortedMonotone(s, e, 0);
    var index := Bisect(s, Above(e));
    r := s[..index] + [e] + s[index..];
    AddEntrySorted(s, e);
  }

  // ---------------------------------------------------------------------
  // Session extraction

  type Headers = seq<(string, string)>

  /** `SimpleCookie().load(value)` followed by `cookie[name].value`: the
      cookies a header value holds, by name. */
  type CookieParser = string -> map<string, string>

  /** The names tried when the port has no configured service. */
  const DefaultCookieNames: seq<string> :=
    ["session", "sessid", "sid", "token", "auth", "sessionid", ".AspNetCore.Identity.Application"]

  /** The values of the headers called `name`, in order. */
  function HeaderValues(headers: Headers, name: string): (r: seq<string>)
    ensures |r| <= |headers|
    ensures forall v :: v in r <==> exists i :: 0 <= i < |headers| && headers[i] == (name, v)
    ensures |headers| == 1 ==> r == (if headers[0].0 == name then [headers[0].1] else [])
  {
    if |headers| == 0 then []
    else
      var rest := HeaderValues(headers[1..], name);
      assert forall v, i :: 0 <= i < |headers| - 1 ==> (headers[1..][i] == (name, v) <==> headers[i + 1] == (name, v));
      if headers[0].0 == name then [headers[0].1] + rest else rest
  }

  /** Collecting header values distributes over concatenation, so together
      with the one-header case the values keep the headers' order. */
  lemma {:induction false} HeaderValuesAppend(a: Headers, b: Headers, name: string)
    ensures HeaderValues(a + b, name) == HeaderValues(a, name) + HeaderValues(b, name)
    decreases |a|
  {
    if |a| == 0 {
      assert a + b == b;
    } else {
      assert (a + b)[1..] == a[1..] + b;
      HeaderValuesAppend(a[1..], b, name);
    }
  }

  /** The first of `names` the jar holds, and its value. */
  function FirstCookie(jar: map<string, string>, names: seq<string>): (r: Option<string>)
    ensures r.None? <==> forall j :: 0 <= j < |names| ==> names[j] !in jar
    ensures r.Some? ==> exists j :: (0 <= j < |names| && names[j] in jar && r.value == jar[names[j]]
      && forall i :: 0 <= i < j ==> names[i] !in jar)
  {
    if |names| == 0 then None
    else if names[0] in jar then Some(jar[names[0]])
    else
      var r := FirstCookie(jar, names[1..]);
      assert forall j :: 0 <= j < |names| - 1 ==> names[1..][j] == names[j + 1];
      r
  }

  /** Header values in order, and within each the names in order: the first
      hit wins. */
  function FirstSession(values: seq<string>, names: seq<string>, parse: CookieParser): (r: Option<string>)
    ensures r.None? <==> forall i :: 0 <= i < |values| ==> FirstCookie(parse(values[i]), names).None?
    ensures r.Some? ==> exists i :: (0 <= i < |values| && r == FirstCookie(parse(values[i]), names)
      && forall j :: 0 <= j < i ==> FirstCookie(parse(values[j]), names).None?)
  {
    if |values| == 0 then None
    else
      var hit := FirstCookie(parse(values[0]), names);
      if hit.Some? then hit
      else
        var r := FirstSession(values[1..], names, parse);
        FirstSessionStep(values, names, parse, r);
        r
  }

  lemma FirstSessionStep(values: seq<string>, names: seq<string>, parse: CookieParser, r: Option<string>)
    requires |values| > 0 && FirstCookie(parse(values[0]), names).None?
    requires r.None? <==> forall i :: 0 <= i < |values| - 1 ==> FirstCookie(parse(values[1..][i]), names).None?
    requires r.Some? ==> exists i :: (0 <= i < |values| - 1 && r == FirstCookie(parse(values[1..][i]), names)
      && forall j :: 0 <= j < i ==> FirstCookie(parse(values[1..][j]), names).None?)
    ensures r.None? <==> forall i :: 0 <= i < |values| ==> FirstCookie(parse(values[i]), names).None?
    ensures r.Some? ==> exists i :: (0 <= i < |values| && r == FirstCookie(parse(values[i]), names)
      && forall j :: 0 <= j < i ==> FirstCookie(parse(values[j]), names).None?)
  {
    assert forall i :: 0 <= i < |values| - 1 ==> values[1..][i] == values[i + 1];
    assert forall i :: 1 <= i < |values| ==> values[i] == values[1..][i - 1];
    if r.Some? {
      var i :| 0 <= i < |values| - 1 && r == FirstCookie(parse(values[1..][i]), names)
        && forall j :: 0 <= j < i ==> FirstCookie(parse(values[1..][j]), names).None?;
      assert forall j :: 0 <= j < i + 1 ==> FirstCookie(parse(values[j]), names).None?;
    }
  }

  /** `get_in_session` (header "cookie") and `get_out_session` (header
      "set-cookie"); `configured` is the port's service's cookie names, if
      the port has a service. */
  function GetSession(headers: Headers, header: string, configured: Option<seq<string>>, parse: CookieParser): (r: Option<string>)
    ensures HeaderValues(headers, header) == [] ==> r.None?
    ensures r == FirstSession(HeaderValues(headers, header), configured.GetOr(DefaultCookieNames), parse)
  {
    var values := HeaderValues(headers, header);
    if |values| == 0 then None
    else FirstSession(values, configured.GetOr(DefaultCookieNames), parse)
  }

  /** What `get_in_session` and `get_out_session` raise. */
  datatype SessionError = NoCookieNamesAttribute

  /** `get_in_session` / `get_out_session` as written: once a cookie header
      is present, a port that has a configured service asks that service for
      `session_cookie_names`, which `Service` does not define, so the call
      raises `AttributeError`; only ports without a service reach the
      default names. */
  function GetSessionAsWritten(headers: Headers, header: string, services: seq<Config.Service>, port: int,
                               parse: CookieParser): (r: Result<Option<string>, SessionError>)
    ensures HeaderValues(headers, header) == [] ==> r == Success(None)
    ensures Config.ByPort(services, port).None? ==> r == Success(GetSession(headers, header, None, parse))
  {
    var values := HeaderValues(headers, header);
    if |values| == 0 then Success(None)
    else if Config.ByPort(services, port).Some? then Failure(NoCookieNamesAttribute)
    else Success(FirstSession(values, DefaultCookieNames, parse))
  }

  /** On every port the configuration names, a request carrying a cookie
      header makes the as-written lookup fail, so no session is ever
      recorded for configured services. */
  lemma AsWrittenFailsOnConfiguredPorts(headers: Headers, header: string, services: seq<Config.Service>, i: nat,
                                        parse: CookieParser)
    requires i < |services| && HeaderValues(headers, header) != []
    ensures GetSessionAsWritten(headers, header, services, services[i].port, parse).Failure?
  {
  }

  /** Where the as-written lookup succeeds, the corrected one, falling back
      to the default names, returns the same session. */
  lemma CorrectedAgreesWithAsWritten(headers: Headers, header: string, services: seq<Config.Service>, port: int,
                                     parse: CookieParser)
    requires GetSessionAsWritten(headers, header, services, port, parse).Success?
    ensures GetSessionAsWritten(headers, header, services, port, parse).value == GetSession(headers, header, None, parse)
  {
  }

  // ---------------------------------------------------------------------
  // SessionsStorage

  datatype RequestInfo = RequestInfo(startTime: int, sessionIn: Option<string>, sessionOut: Option<string>)

  datatype Link = Link(from: int, to: int)

  datatype Storage = Storage(
    requests: map<(int, int), RequestInfo>,
    requestSessions: map<(int, string), seq<Entry>>,
    responseSessions: map<(int, string), seq<Entry>>)

  const EmptyStorage := Storage(map[], map[], map[])

  /** Python's truth value of an optional session: `None` and `""` are false. */
  predicate Present(s: Option<string>) {
    s.Some? && s.value != ""
  }

  /** The list at `key`, created empty on first use as a `defaultdict` does. */
  function ListAt(m: map<(int, string), seq<Entry>>, key: (int, string)): seq<Entry> {
    if key in m then m[key] else []
  }

  /** `add_request`, with the two sessions already extracted. */
  function Record(st: Storage, port: int, id: int, start: int, sin: Option<string>, sout: Option<string>): (r: Storage)
    ensures Present(sin) || Present(sout) ==> (port, id) in r.requests && r.requests[(port, id)] == RequestInfo(start, sin, sout)
    ensures forall k :: k in st.requests ==> k in r.requests
    ensures forall k :: k in r.requests && k != (port, id) ==> k in st.requests && r.requests[k] == st.requests[k]
    ensures !(Present(sin) || Present(sout)) ==> r == st
  {
    var requests := if Present(sin) || Present(sout) then st.requests[(port, id) := RequestInfo(start, sin, sout)] else st.requests;
    var reqS := if Present(sin) then st.requestSessions[(port, sin.value) := AddEntry(ListAt(st.requestSessions, (port, sin.value)), Entry(start, id))] else st.requestSessions;
    var respS := if Present(sout) then st.responseSessions[(port, sout.value) := AddEntry(ListAt(st.responseSessions, (port, sout.value)), Entry(start, id))] else st.responseSessions;
    Storage(requests, reqS, respS)
  }

  function AddRequest(st: Storage, port: int, id: int, start: int, reqHeaders: Headers, respHeaders: Headers,
                      configured: Option<seq<string>>, parse: CookieParser): Storage
  {
    var sin := GetSession(reqHeaders, "cookie", configured, parse);
    var sout := GetSession(respHeaders, "set-cookie", configured, parse);
    Record(st, port, id, start, sin, sout)
  }

  /** `get_links`: the request before this one in its incoming session and
      the one after it in its outgoing session. */
  function GetLinks(st: Storage, port: int, id: int): (r: seq<Link>)
    ensures (port, id) !in st.requests ==> r == []
    ensures |r| <= 2
    ensures forall i :: 0 <= i < |r| ==> r[i].to == id || r[i].from == id
  {
    if (port, id) !in st.requests then []
    else
      var info := st.requests[(port, id)];
      var before :=
        if Present(info.sessionIn) && (port, info.sessionIn.value) in st.requestSessions then
          match FindBefore(st.requestSessions[(port, info.sessionIn.value)], info.startTime)
          case Some(prev) => [Link(prev, id)]
          case None => []
        else [];
      var after :=
        if Present(info.sessionOut) && (port, info.sessionOut.value) in st.responseSessions then
          match FindAfter(st.responseSessions[(port, info.sessionOut.value)], info.startTime)
          case Some(next) => [Link(id, next)]
          case None => []
        else [];
      before + after
  }

  /** Every list is sorted, and every entry of a list keyed by port `p` is a
      request recorded on port `p`. */
  predicate Valid(st: Storage) {
    && (forall k :: k in st.requestSessions ==> Sorted(st.requestSessions[k]) && OnPort(st.requests, k.0, st.requestSessions[k]))
    && (forall k :: k in st.responseSessions ==> Sorted(st.responseSessions[k]) && OnPort(st.requests, k.0, st.responseSessions[k]))
  }

  predicate OnPort(requests: map<(int, int), RequestInfo>, port: int, s: seq<Entry>) {
    forall i :: 0 <= i < |s| ==> (port, s[i].id) in requests
  }

  lemma EmptyValid()
    ensures Valid(EmptyStorage)
  {
  }

  /** Recording a request keeps the storage valid. */
  lemma {:induction false} RecordValid(st: Storage, port: int, id: int, start: int, sin: Option<string>, sout: Option<string>)
    requires Valid(st)
    ensures Valid(Record(st, port, id, start, sin, sout))
  {
    var r := Record(st, port, id, start, sin, sout);
    SessionsValid(st.requests, r.requests, st.requestSessions, r.requestSessions, port, id, start, sin);
    SessionsValid(st.requests, r.requests, st.responseSessions, r.responseSessions, port, id, start, sout);
  }

  /** One of the two session maps after recording: the session's list gains
      the entry, and every list stays sorted and on its port. */
  lemma SessionsValid(reqs: map<(int, int), RequestInfo>, reqs': map<(int, int), RequestInfo>,
                      m: map<(int, string), seq<Entry>>, m': map<(int, string), seq<Entry>>,
                      port: int, id: int, start: int, session: Option<string>)
    requires reqs.Keys <= reqs'.Keys
    requires Present(session) ==> (port, id) in reqs'
    requires m' == if Present(session) then m[(port, session.value) := AddEntry(ListAt(m, (port, session.value)), Entry(start, id))] else m
    requires forall k :: k in m ==> Sorted(m[k]) && OnPort(reqs, k.0, m[k])
    ensures forall k :: k in m' ==> Sorted(m'[k]) && OnPort(reqs', k.0, m'[k])
  {
    if Present(session) {
      var key := (port, session.value);
      AddEntrySorted(ListAt(m, key), Entry(start, id));
      AddedOnPort(reqs', port, ListAt(m, key), Entry(start, id));
    }
  }

  lemma AddedOnPort(reqs: map<(int, int), RequestInfo>, port: int, s: seq<Entry>, e: Entry)
    requires OnPort(reqs, port, s) && (port, e.id) in reqs
    ensures OnPort(reqs, port, AddEntry(s, e))
  {
    var t := AddEntry(s, e);
    forall i | 0 <= i < |t|
      ensures (port, t[i].id) in reqs
    {
      assert t[i] in multiset(t);
      assert t[i] == e || t[i] in s;
    }
  }

  lemma AddRequestValid(st: Storage, port: int, id: int, start: int, reqHeaders: Headers, respHeaders: Headers,
                        configured: Option<seq<string>>, parse: CookieParser)
    requires Valid(st)
    ensures Valid(AddRequest(st, port, id, start, reqHeaders, respHeaders, configured, parse))
  {
    RecordValid(st, port, id, start, GetSession(reqHeaders, "cookie", configured, parse),
                GetSession(respHeaders, "set-cookie", configured, parse));
  }

  /** Links never cross ports: both ends of every link are requests recorded
      on the port asked about. */
  lemma LinksStayOnPort(st: Storage, port: int, id: int)
    requires Valid(st)
    ensures forall l :: l in GetLinks(st, port, id) ==> (port, l.from) in st.requests && (port, l.to) in st.requests
  {
    if (port, id) in st.requests {
      var info := st.requests[(port, id)];
      if Present(info.sessionIn) && (port, info.sessionIn.value) in st.requestSessions {
        var s := st.requestSessions[(port, info.sessionIn.value)];
        var k := FirstIndex(s, AtOrAbove(Entry(info.startTime, 0)));
        if k > 0 {
          assert (port, s[k - 1].id) in st.requests;
        }
      }
      if Present(info.sessionOut) && (port, info.sessionOut.value) in st.responseSessions {
        var s := st.responseSessions[(port, info.sessionOut.value)];
        var k := FirstIndex(s, LaterThan(info.startTime));
        if k < |s| {
          assert (port, s[k].id) in st.requests;
        }
      }
    }
  }

  /** A request that carried an incoming session links back exactly when
      some request of that session started before it, and then to the last
      such request. */
  lemma LinkToPrevious(st: Storage, port: int, id: int)
    requires Valid(st) && (port, id) in st.requests
    requires Present(st.requests[(port, id)].sessionIn)
    requires (port, st.requests[(port, id)].sessionIn.value) in st.requestSessions
    requires var s := st.requestSessions[(port, st.requests[(port, id)].sessionIn.value)];
      forall i :: 0 <= i < |s| ==> s[i].id >= 0
    ensures var info := st.requests[(port, id)];
      var s := st.requestSessions[(port, info.sessionIn.value)];
      var links := GetLinks(st, port, id);
      && ((exists i :: 0 <= i < |s| && s[i].ts < info.startTime) <==> FindBefore(s, info.startTime).Some?)
      && (FindBefore(s, info.startTime).Some? ==> |links| > 0 && links[0] == Link(FindBefore(s, info.startTime).value, id))
      && (FindBefore(s, info.startTime).None? ==> forall l :: l in links ==> l.from == id)
  {
    var info := st.requests[(port, id)];
    var s := st.requestSessions[(port, info.sessionIn.value)];
    FindBeforeIsLastEarlier(s, info.startTime);
    var links := GetLinks(st, port, id);
    if FindBefore(s, info.startTime).Some? {
      assert links[0] == Link(FindBefore(s, info.startTime).value, id);
    }
  }

  /** A request that carried an outgoing session links forward exactly
      when some request of that session started after it, and then to the
      first such request. */
  lemma LinkToNext(st: Storage, port: int, id: int)
    requires Valid(st) && (port, id) in st.requests
    requires Present(st.requests[(port, id)].sessionOut)
    requires (port, st.requests[(port, id)].sessionOut.value) in st.responseSessions
    ensures var info := st.requests[(port, id)];
      var s := st.responseSessions[(port, info.sessionOut.value)];
      var links := GetLinks(st, port, id);
      && ((exists i :: 0 <= i < |s| && s[i].ts > info.startTime) <==> FindAfter(s, info.startTime).Some?)
      && (FindAfter(s, info.startTime).Some? ==>
            && |links| > 0 && links[|links| - 1] == Link(id, FindAfter(s, info.startTime).value)
            && exists i :: 0 <= i < |s| && s[i].id == FindAfter(s, info.startTime).value && s[i].ts > info.startTime
                 && forall j :: 0 <= j < i ==> s[j].ts <= info.startTime)
      && (FindAfter(s, info.startTime).None? ==> forall l :: l in links ==> l.to == id)
  {
    var info := st.requests[(port, id)];
    var s := st.responseSessions[(port, info.sessionOut.value)];
    FindAfterIsFirstLater(s, info.startTime);
    var links := GetLinks(st, port, id);
    if FindAfter(s, info.startTime).Some? {
      assert links[|links| - 1] == Link(id, FindAfter(s, info.startTime).value);
    }
  }
}

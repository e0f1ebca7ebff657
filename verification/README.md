# ctf-proxy core in Dafny

This project models the decision logic of ctf-proxy, an attack/defence CTF
proxy. It has two halves.

The interception engine is a proxy-wasm filter written in Go:
- Per HTTP stream or TCP connection it keeps a cached outcome (`skip`), a
  lazily built list of When contexts and an optional Do context.
- At every lifecycle stage it either replays the cached outcome, runs the
  installed Do, or asks the registered Whens in registration order and
  installs the Do of the first that fires.
- It is modelled as a pure step function over a stream record and an
  abstract host record:
  - `HttpEngine` and `TcpEngine` model the current engine;
  - `LegacyEngine` models the first generation;
  - `Helpers` models the reusable When/Do combinators;
  - `Proxy` models the property decoding and the stage names;
  - `HttpHost` models the gated host accessors.
- `TcpRule` and `TestService` replay the rules the interceptor binary and
  the end-to-end test service register.

The Python log pipeline and tools are modelled as state-in/state-out functions:
- session linking (`Sessions`);
- the request-filter language (`FilterParse`);
- configuration loading (`Config`);
- upstream-port extraction (`LogUtils`);
- time-series aggregation (`TimeStats`);
- dashboard counters and deltas (`ServiceStats`);
- the tap folder and the log-processing batch (`Taps`, `TapBatch`);
- the TCP and HTTP tap processors (`TcpTap`, `HttpTap`);
- the Docker configuration generator (`DockerGen`);
- the iptables helper (`Iptables`).

`PyStr`, `Json` and `Sorting` model the Python built-ins these rely on: ASCII
`str` methods, loaded YAML/JSON values with truthiness, and the stable
`sorted`.

Inputs that the code reads from the outside world become parameters:
- the proxy-wasm host calls;
- the database's query results;
- the directory listing and file loader;
- `SimpleCookie`, regular expressions, base64/UTF-8 decoding and the flag finder;
- the clock;
- `docker` and the interactive type prompt.

## Model

| member | source | states |
|---|---|---|
| Proxy.GetIntProperty | src/interceptor/utils.go:10-22 | A failed host fetch, a nil property and a property of any length but 8 are three distinct errors; a success comes only from 8 bytes and is their little-endian value read as a signed 64-bit integer |
| Proxy.PropertyRoundTrip | src/interceptor/utils.go:10-22 | Every signed 64-bit value, stored as the host's 8 little-endian bytes, is read back as itself |
| Proxy.PropertyBytesRoundTrip | src/interceptor/utils.go:18-21 | Every 8-byte property decodes, and encoding the decoded value gives back the same 8 bytes |
| Proxy.Int64OfUint64 | src/interceptor/utils.go:21 | Go's `int64(u)` is the value in the signed 64-bit range congruent to `u` modulo 2^64 |
| Proxy.DecodeEncode | src/interceptor/utils.go:21 | Little-endian decoding inverts encoding for every value that fits the width |
| Proxy.EncodeDecode | src/interceptor/utils.go:21 | Little-endian encoding inverts decoding for every byte string |
| Proxy.HttpStageName | src/interceptor/utils.go:25-38 | The four stages are named "req:headers", "req:body", "resp:headers" and "resp:body"; every other integer is "unknown" |
| Proxy.HttpStageNamesInjective | src/interceptor/utils.go:25-38 | Two stages have the same name exactly when they are the same stage |
| Proxy.TcpStageName | src/interceptor/utils.go:40-49 | The downstream stage is "down:data", the upstream stage is "up:date" as spelled in the source, and anything else is "unknown" |
| Proxy.TcpStageNamesInjective | src/interceptor/utils.go:40-49 | The two TCP stage names differ |
| Proxy.LegacyStageName | src/interceptor/interceptor.go:23-36 | The first engine's stage name is "unknown" exactly outside the four stages |
| Proxy.LegacyStageNameAgrees | src/interceptor/interceptor.go:23-36 | Both engine generations give every integer the same stage name |
| HttpHost.Header | src/interceptor/types.go:41-48 | A header accessor answers the header's value, or "" when the header is absent |
| HttpHost.ReadBody | src/interceptor/interceptor_http.go:208-215 | A gated-off body reads as nil; a visible body gives exactly the bytes of the requested range when it is buffered, and an error otherwise |
| HttpHost.ExactStageView | src/interceptor/interceptor_http.go:187-261 | A Do context sees each header map and body only at its own exact stage, and nothing at any other stage |
| HttpHost.SideView | src/interceptor/interceptor_http.go:131-158 | A side-gated context sees the request headers and body on the request side only, and the response ones on the response side only |
| HttpHost.Allowed | src/interceptor/interceptor_http.go:187-261 | The calls a gate lets through are exactly the allowed ones; a single call is kept exactly when the gate allows it |
| HttpHost.AllowedAppend | src/interceptor/interceptor_http.go:187-261 | Gating a concatenation gates each part, so with the one-call case the kept calls stay in their original order |
| HttpHost.ExactStageGate | src/interceptor/interceptor_http.go:187-261 | Each exact-stage mutator acts exactly at its own stage |
| HttpHost.GatedOutIsNoOp | src/interceptor/interceptor_http.go:193-261 | Mutator calls made at the wrong stage leave the whole host unchanged |
| HttpHost.ResponseEffectsKeepRequest | src/interceptor/interceptor_http.go:222-261 | Response-side mutators leave the request headers, body and trailers as they were |
| HttpHost.Trace | src/interceptor/interceptor_http.go:288-294 | Tracing replaces `x-intercepted-by` with the name on the current side only; the other side and everything else stay as they were |
| HttpEngine.Register | src/interceptor/interceptor_http.go:30-38 | Registration appends: the port's earlier interceptors stay a prefix, the new one comes last, and other ports are unchanged |
| HttpEngine.MakeWhenCtx | src/interceptor/interceptor_http.go:122-130 | A fresh When context is bound to its interceptor, with empty data and Continue, and records the side it was created on |
| HttpEngine.MakeWhenCtxs | src/interceptor/interceptor_http.go:86-94 | One When context per registered interceptor, the i-th bound to the i-th interceptor, each with empty data |
| HttpEngine.UpdateWhenCtx | src/interceptor/interceptor_http.go:170-175 | Refreshing a When context keeps its interceptor, data and creation side, takes the event's stage, size and end, and clears any earlier pause |
| HttpEngine.MakeDoCtx | src/interceptor/interceptor_http.go:177-185 | A new Do context carries the interceptor and the port with empty data; nothing comes from the When context that matched |
| HttpEngine.UpdateDoCtx | src/interceptor/interceptor_http.go:281-286 | Refreshing a Do context keeps its interceptor, data and port, takes the event's fields and clears the pause |
| HttpEngine.RunDo | src/interceptor/interceptor_http.go:62-72 | Running the installed Do records one Do call; the action is Pause exactly when Do paused; Do's host calls take effect through the exact-stage gate; a finished Do is dropped and its action cached, and an unfinished one stays installed |
| HttpEngine.Run | src/interceptor/interceptor_http.go:57-120 | A cached outcome is returned with nothing changed; a failed port lookup, or a port without interceptors, caches and returns Continue |
| HttpEngine.FirstFiring | src/interceptor/interceptor_http.go:96-110 | The index found fires and no context before it fires; None means no context fires |
| HttpEngine.WhenCalls | src/interceptor/interceptor_http.go:96-104 | The Whens asked are those of contexts that have a When, in ascending index order |
| HttpEngine.EvalWhensOutcome | src/interceptor/interceptor_http.go:96-119 | Agrees with a loop-free description. With no firing When: every When is asked in order, the host and Do state are unchanged, and the action is Pause exactly when some When paused on this event. With a first firing When k: the Whens up to k are asked, then k's Do runs on the same event after the trace, and it is installed unless it finished (then its action is cached) |
| HttpEngine.RunEvaluatesWhens | src/interceptor/interceptor_http.go:74-119 | The loop runs over the stream's existing contexts, or on the first such call over one fresh context per registered interceptor in registration order, and the list keeps its bindings |
| HttpEngine.RunWithDo | src/interceptor/interceptor_http.go:62-72 | With a Do context installed a stage call runs that Do and no When |
| HttpEngine.RunCommits | src/interceptor/interceptor_http.go:57-120 | Within one call no When is asked after a Do; a call that ran a Do leaves the stream committed; a committed stream stays committed and asks no When |
| HttpEngine.CommittedRunsNoWhen | src/interceptor/types.go:20-23 | From a committed stream no When is asked again over any sequence of stage calls |
| HttpEngine.NoWhenAfterDo | src/interceptor/types.go:20-23 | Over any sequence of stage calls on one stream, no When call ever follows a Do call |
| HttpEngine.SkipIsFinal | src/interceptor/interceptor_http.go:58-60 | Once an outcome is cached, every later stage call returns it, calls no user function and changes neither the stream nor the host |
| HttpEngine.WhenViewAgreesOnCreationSide | src/interceptor/interceptor_http.go:131-158 | The documented gate shows the current side's headers; the as-written gate agrees with it exactly while the event is on the side the context was created on |
| HttpEngine.WhenViewCapturedAtCreation | src/interceptor/interceptor_http.go:131-158 | A context created at the request headers answers "" at the response headers for a response header that is present, where the documented accessor answers its value |
| TcpEngine.Register | src/interceptor/interceptor_tcp.go:20-28 | Registration appends: the port's earlier interceptors stay a prefix, the new one comes last, and other ports are unchanged |
| TcpEngine.MakeWhenCtxs | src/interceptor/interceptor_tcp.go:76-84 | One When context per registered interceptor, the i-th bound to the i-th interceptor, each with empty data |
| TcpEngine.UpdateWhenCtx | src/interceptor/interceptor_tcp.go:128-132 | Refreshing a TCP When context changes only the stage, size and end; a pause the When asked for earlier stays in force |
| TcpEngine.MakeDoCtx | src/interceptor/interceptor_tcp.go:134-144 | A new Do context carries the interceptor with empty data and Continue |
| TcpEngine.UpdateDoCtx | src/interceptor/interceptor_tcp.go:162-167 | Refreshing a Do context takes the event's fields and clears the pause |
| TcpEngine.RunDo | src/interceptor/interceptor_tcp.go:52-62 | Running the installed Do records one Do call; the action is Pause exactly when Do paused; a Do's block mark sets the connection's blocked flag; a finished Do is dropped and its action cached |
| TcpEngine.Run | src/interceptor/interceptor_tcp.go:47-110 | A cached outcome is returned with nothing changed; a failed port lookup, or a port without interceptors, caches and returns Continue; an installed Do runs alone |
| TcpEngine.OnEvent | src/interceptor/interceptor_tcp.go:30-41 | A new connection continues without touching state; downstream and upstream data run the engine at their own stage; the close and done callbacks change nothing |
| TcpEngine.FirstFiring | src/interceptor/interceptor_tcp.go:86-100 | The index found fires and no context before it fires; None means no context fires |
| TcpEngine.EvalWhensOutcome | src/interceptor/interceptor_tcp.go:86-109 | Whens are asked in registration order. The first that fires installs its Do, which runs on the same event. With no match the action is Pause exactly when some context holds a pause, including one kept from an earlier event |
| TcpEngine.RunEvaluatesWhens | src/interceptor/interceptor_tcp.go:64-109 | Once the loop runs, it runs as the loop-free description says, over the existing contexts or one fresh context per interceptor |
| TcpEngine.PauseIsSticky | src/interceptor/interceptor_tcp.go:128-132 | A context that asked for a pause keeps it: on a later event where no When fires, the call pauses |
| TcpEngine.EvalKeepsPause | src/interceptor/interceptor_tcp.go:86-104 | The loop never clears the held pause of a context that does not fire |
| TcpEngine.NoPauseWithoutPauses | src/interceptor/interceptor_tcp.go:101-109 | When no context holds a pause and no When asks for one, an unmatched data event continues |
| LegacyEngine.Register | src/interceptor/interceptor.go:118-121 | Registration appends to the port's list and leaves other ports unchanged |
| LegacyEngine.AppendToken | src/interceptor/interceptor.go:329-339 | An empty list becomes the name; otherwise the old list is kept as a prefix; it is returned unchanged when the name is already an item, and the name is appended after a comma otherwise |
| LegacyEngine.AppendTokenRecords | src/interceptor/interceptor.go:329-339 | After appending, the name is an item of the list, and the items held before remain its leading items |
| LegacyEngine.AppendTokenIdempotent | src/interceptor/interceptor.go:333-337 | For a name without a comma or surrounding blanks, appending twice is appending once |
| LegacyEngine.CommaNameAppendedTwice | src/interceptor/interceptor.go:333-338 | A name containing a comma is never found as an item, so appending it a second time lengthens the list again |
| LegacyEngine.Trace | src/interceptor/interceptor.go:315-327 | Tracing merges the name into `x-intercepted-by` on the current side and leaves the other side alone |
| LegacyEngine.TraceIdempotent | src/interceptor/interceptor.go:315-327 | Tracing the same clean name twice is tracing it once, and the header then lists the name |
| LegacyEngine.RunDo | src/interceptor/interceptor.go:156-165 | The installed Do runs with the literal port 0 and side-gated accessors; the action is Pause exactly when it paused; a finished Do is forgotten and its action cached |
| LegacyEngine.Run | src/interceptor/interceptor.go:151-198 | A cached outcome is returned unchanged; an installed Do runs; a failed port lookup or a port without interceptors caches and returns Continue |
| LegacyEngine.FirstMatch | src/interceptor/interceptor.go:184-195 | The index found matches and none before it does; None means no interceptor matches |
| LegacyEngine.ScanFirstMatch | src/interceptor/interceptor.go:184-197 | The scan traces and runs the Do of the first matching interceptor on the same event. With no match it continues, without pause aggregation, and leaves the stream exactly as it was |
| LegacyEngine.RunFirstMatch | src/interceptor/interceptor.go:167-197 | On a fresh stream at a port with interceptors, the first match decides the call, and without a match nothing is cached |
| LegacyEngine.SideGateReachesBodyStage | src/interceptor/interceptor.go:249-310 | Under side-only gating a response-header change made while the response body streams still takes effect |
| LegacyEngine.SkipIsFinal | src/interceptor/interceptor.go:152-154 | A cached outcome answers every later stage and changes nothing |
| LegacyEngine.DoStaysInstalled | src/interceptor/interceptor.go:156-165 | Once a Do is installed no When runs again; it stays until it reports done, and then its outcome is cached |
| Helpers.CheckBody | src/interceptor/helpers.go:7-25 | The body check never fires outside the request body; on a partial body it pauses without firing; at the end it fires only if it read the body successfully and `passes` holds |
| Helpers.CheckBodyAtEnd | src/interceptor/helpers.go:12-23 | At the end of a visible request body the check fires exactly when the first `size` bytes are buffered and pass |
| Helpers.ModifyBody | src/interceptor/helpers.go:27-52 | Every call asks to delete `content-length` and `content-encoding`. A partial response body pauses without finishing. The end of the body replaces it with the rewrite of the old body and finishes. Any other stage neither pauses nor finishes |
| Helpers.ModifyBodyEffects | src/interceptor/helpers.go:27-52 | Under exact-stage gating the header deletions take effect only at the response headers, and at the end of the body the response body becomes the rewrite of the old one |
| Helpers.ModifyAtResponseHeaders | src/interceptor/helpers.go:29-30 | At the response headers the two headers are removed and nothing else changes |
| Helpers.ModifyAtBodyEnd | src/interceptor/helpers.go:38-48 | At the end of the response body the body is replaced by the rewrite of the old body and the headers are left as they were |
| Helpers.DeletionsGatedAtBody | src/interceptor/helpers.go:29-30 | At the response-body stage the gate drops both header deletions |
| Helpers.ReplaceBodyIsExact | src/interceptor/helpers.go:54-58 | A completed replacement leaves exactly the given body, whatever the original was |
| Helpers.DoPause | src/interceptor/helpers.go:60-63 | `DoPause` pauses, finishes and changes nothing |
| Helpers.DoPauseCachesPause | src/interceptor/helpers.go:60-63 | Once `DoPause` runs, the stream's cached outcome is Pause |
| Helpers.AsciiBytes | src/interceptor/helpers.go:83 | ASCII text becomes the byte string of its code points |
| Helpers.DoBlock | src/interceptor/helpers.go:65-91 | The trailer `x-blocked=1` is set exactly on the first call. While no request id is held (no data yet, or an empty id) `x-request-id` is read again; a non-empty id is kept. Before the response headers it neither pauses nor finishes. At the response headers it sends a 418 with `x-blocked` and `x-request-id` and the body "hey you", pauses and finishes |
| Helpers.DoBlockCapturesRequestId | src/interceptor/helpers.go:66-76 | Under exact-stage gating the request id is captured when the Do first runs at the request headers, and the trailer is set on the first call at any stage |
| TcpRule.AchaWhen | src/interceptor/main.go:21-26 | The rule fires exactly on downstream segments longer than 300 bytes and never pauses |
| TcpRule.AchaRegistry | src/interceptor/main.go:20-27 | Port 1337 holds exactly the one rule, and every other port holds none |
| TcpRule.AchaFires | src/interceptor/main.go:21-26 | The rule's context fires exactly on a suspicious segment, and holds no pause it did not have |
| TcpRule.AchaBlocksLongSegment | src/interceptor/main.go:20-27 | On port 1337 a long downstream segment asks the When once and runs the registered Do at once, taking its pause, block mark and completion |
| TcpRule.AchaPassesOtherSegments | src/interceptor/main.go:20-27 | Any other segment asks the When once, continues, changes nothing and leaves the connection undecided |
| TcpRule.OtherPortsPass | src/interceptor/main.go:20-27 | A fresh connection on any other port is continued and left alone for good |
| TcpRule.LongSegmentAfterShortOnes | src/interceptor/main.go:20-27 | A short downstream segment and an upstream segment of any size pass untouched, and a following long downstream segment hands the connection to the Do |
| TestService.TestRegistry | src/interceptor/test/test_interceptors.go:7-29 | Port 15001 holds the four rules in registration order, and every other port holds none |
| TestService.RuleFor | src/interceptor/test/test_interceptors.go:8-28 | The rule chosen for a path is one whose prefix starts the path; None exactly when no prefix does |
| TestService.AtMostOneRule | src/interceptor/test/test_interceptors.go:8-28 | At most one prefix starts any path, so registration order does not decide which rule fires |
| TestService.FirstFiringIsRule | src/interceptor/test/test_interceptors.go:8-28 | The first context to fire is the rule the seen path selects, and no context pauses without firing |
| TestService.NoRuleStage | src/interceptor/test/test_interceptors.go:8-28 | A stage no rule matches asks all four Whens, continues and leaves the host unchanged |
| TestService.RuleStage | src/interceptor/test/test_interceptors.go:8-28 | A stage matching rule k asks the Whens up to k, then runs rule k's Do on the same event |
| TestService.ResponsesNeverMatch | src/interceptor/test/test_interceptors.go:8-28 | On the response side no rule fires, so a stream no rule took on its request passes its response untouched |
| TestService.BypassPasses | src/interceptor/test/checker/test.py:6-8 | A path no prefix starts, such as "/bypass", goes through with the host unchanged and the stream undecided |
| TestService.BlockAnswersAtResponseHeaders | src/interceptor/helpers.go:65-91 | An installed `DoBlock` lets the request stages through and stays installed; at the response headers it answers the 418 and pauses for good |
| TestService.BlockedGetsTeapot | src/interceptor/test/checker/test.py:11-20 | A "/blocked" request, or one whose path only starts with it, continues at its headers with `DoBlock` installed, and its response headers are answered with the 418 "hey you" |
| TestService.PausedNeverAnswers | src/interceptor/test/checker/test.py:23-25 | A "/paused" request is paused at its headers and the cached pause answers every later stage, so the client never gets a response |
| TestService.DecidedAtFirst | src/interceptor/interceptor_http.go:58-72 | A stage that caches its answer fixes the action of every later stage, and no later stage calls any user function |
| TestService.RewriterInstalled | src/interceptor/test/test_interceptors.go:8-28 | A "/modified" or "/replaced" request continues at its headers with that rule's rewriter installed |
| TestService.RewriterStage | src/interceptor/helpers.go:27-52 | An installed rewriter waits through the request and the response headers, holds a partial response body, and at the end of the body replaces it and finishes |
| TestService.ModifiedBodyIsUpperCased | src/interceptor/test/checker/test.py:28-31 | At the end of a "/modified" response body the client receives the backend's text upper-cased |
| TestService.ReplacedBodyIsFixed | src/interceptor/test/checker/test.py:34-37 | At the end of a "/replaced" response body the client receives "new response body", whatever the backend sent |
| TestService.AsciiUpperOfText | src/interceptor/test/checker/test.py:28-31 | Upper-casing the bytes of ASCII text is the bytes of the upper-cased text |
| TestService.AsciiUpperIdempotent | src/interceptor/test/checker/test.py:28-31 | Upper-casing twice is upper-casing once |
| Sessions.FirstIndex | src/ctf_proxy/logs_processor/sessions.py:35-45 | The reference bisection point: no earlier entry satisfies the predicate, and the entry found (if any) does |
| Sessions.Bisect | src/ctf_proxy/logs_processor/sessions.py:35-45 | The binary search returns the first index whose entry satisfies a monotone predicate |
| Sessions.AddEntry | src/ctf_proxy/logs_processor/sessions.py:32-33 | `insort` adds exactly one entry and keeps every other |
| Sessions.AddEntrySorted | src/ctf_proxy/logs_processor/sessions.py:32-33 | The request list stays sorted by (timestamp, request id) |
| Sessions.Insort | src/ctf_proxy/logs_processor/sessions.py:32-33 | The bisect-based insertion produces the specified insertion and keeps the list sorted |
| Sessions.FindBefore | src/ctf_proxy/logs_processor/sessions.py:35-39 | None exactly when `bisect_left` lands at the front |
| Sessions.FindAfter | src/ctf_proxy/logs_processor/sessions.py:41-45 | None exactly when `bisect_right` lands at the end |
| Sessions.FindBeforeIsLastEarlier | src/ctf_proxy/logs_processor/sessions.py:35-39 | With non-negative ids, a request is found before `t` exactly when some request started before `t`, and it is the last such one; a request never finds itself |
| Sessions.FindAfterIsFirstLater | src/ctf_proxy/logs_processor/sessions.py:41-45 | A request is found after `t` exactly when some request started after `t`, and it is the first such one |
| Sessions.FindRequestBefore | src/ctf_proxy/logs_processor/sessions.py:35-39 | The bisect lookup as the source runs it returns the specified previous request |
| Sessions.FindRequestAfter | src/ctf_proxy/logs_processor/sessions.py:41-45 | The bisect lookup as the source runs it returns the specified next request |
| Sessions.HeaderValues | src/ctf_proxy/logs_processor/sessions.py:60 | The values kept are exactly those of headers with that name; a single header gives its value exactly when its name matches |
| Sessions.HeaderValuesAppend | src/ctf_proxy/logs_processor/sessions.py:60 | Collecting over a concatenation collects over each part, so with the one-header case the values keep the headers' order |
| Sessions.FirstCookie | src/ctf_proxy/logs_processor/sessions.py:82-84 | The first of the names the jar holds gives the session; None exactly when the jar holds none |
| Sessions.FirstSession | src/ctf_proxy/logs_processor/sessions.py:78-86 | Headers are scanned in order and, within each, the names in order; the first hit wins; None exactly when no header holds any name |
| Sessions.GetSession | src/ctf_proxy/logs_processor/sessions.py:59-117 | Without a cookie header there is no session; otherwise it is the first hit over the configured names, or the default names without a configuration |
| Sessions.GetSessionAsWritten | src/ctf_proxy/logs_processor/sessions.py:59-87 | As written, without a cookie header there is no session, and a port without a service uses the default names |
| Sessions.AsWrittenFailsOnConfiguredPorts | src/ctf_proxy/logs_processor/sessions.py:64-67 | On every configured port, a request carrying a cookie header makes the as-written lookup fail |
| Sessions.CorrectedAgreesWithAsWritten | src/ctf_proxy/logs_processor/sessions.py:64-76 | Wherever the as-written lookup succeeds, the corrected one with the default names returns the same session |
| Sessions.Record | src/ctf_proxy/logs_processor/sessions.py:119-136 | A request with an incoming or outgoing session is recorded with both; one with neither leaves the storage unchanged; no other request's record changes |
| Sessions.RecordValid | src/ctf_proxy/logs_processor/sessions.py:119-136 | Recording keeps every session list sorted and every listed request recorded on that list's port |
| Sessions.AddRequestValid | src/ctf_proxy/logs_processor/sessions.py:119-136 | Adding a request from its headers keeps the storage valid |
| Sessions.GetLinks | src/ctf_proxy/logs_processor/sessions.py:138-161 | An unrecorded request has no links; there are at most two, and each has the request at one end |
| Sessions.LinksStayOnPort | src/ctf_proxy/logs_processor/sessions.py:133-136 | Both ends of every link are requests recorded on the port asked about |
| Sessions.LinkToPrevious | src/ctf_proxy/logs_processor/sessions.py:147-153 | A request with an incoming session links back exactly when a request of that session started before it, and then to the last such request |
| Sessions.LinkToNext | src/ctf_proxy/logs_processor/sessions.py:154-159 | A request with an outgoing session links forward exactly when a request of that session started after it, and then to the first such request |
| FilterParse.ParseFilter | src/ctf_proxy/ui/components/service_detail_screen.py:16-96 | Blank input gives no filter; every clause is drawn from the whitelisted vocabulary; it has at most one parameter, exactly when it ends with a placeholder |
| FilterParse.ParseExplicit | src/ctf_proxy/ui/components/service_detail_screen.py:46-76 | A column outside the whitelist gives no filter; every clause is safe and has a parameter exactly when it has a placeholder. For `blocked`, "yes"/"true"/"1" (any case) select blocked requests, "no"/"false"/"0" unblocked ones, and any other value gives no filter |
| FilterParse.ParseBare | src/ctf_proxy/ui/components/service_detail_screen.py:78-95 | A bare value always yields one whitelisted clause with one parameter. A value starting with "/" is a path equality; otherwise an all-digit value in 100..599 is a status equality, an HTTP method name (any case) a method equality, and anything else a `LIKE %value%` path filter |
| FilterParse.ParseRendered | src/ctf_proxy/ui/components/service_detail_screen.py:46-76 | Every well-formed query, written out as `column=value`, `column=^prefix`, `column=$suffix` or `blocked=yes/no`, parses to its meaning |
| FilterParse.BarePathIsPathEquality | src/ctf_proxy/ui/components/service_detail_screen.py:80-82 | A bare path means the same as `path=` with that path |
| FilterParse.BareMethodIsMethodEquality | src/ctf_proxy/ui/components/service_detail_screen.py:91-92 | A bare method name in any case means `method=` with its upper-case form |
| FilterParse.BareMethodParses | src/ctf_proxy/ui/components/service_detail_screen.py:91-92 | A bare method name gives a method equality on the upper-cased name |
| Config.ParseServiceType | src/ctf_proxy/config/config.py:7-11 | Only the four lower-case type names parse, each to the type it names |
| Config.TypeNameRoundTrip | src/ctf_proxy/config/config.py:7-11 | Every type's name parses back to that type |
| Config.EntryPort | src/ctf_proxy/config/config.py:62-79 | An entry passing the checks up to its port is a mapping with a non-empty string name and a port in 1..65535 |
| Config.LoadEntries | src/ctf_proxy/config/config.py:58-97 | A successful load keeps one service per entry, in file order, each the entry's own decoding, with pairwise distinct ports none of which was used before |
| Config.LoadEntriesSucceeds | src/ctf_proxy/config/config.py:58-97 | Loading succeeds exactly when every entry is valid on its own and no two entries share a port |
| Config.Load | src/ctf_proxy/config/config.py:39-97 | A document that is not a mapping is rejected; a loaded configuration has distinct ports, all in 1..65535 |
| Config.NoServicesLoadsEmpty | src/ctf_proxy/config/config.py:54-56 | A missing or empty `services` loads no services |
| Config.ByName | src/ctf_proxy/config/config.py:99-103 | The first service with that name, None exactly when none has it |
| Config.ByPort | src/ctf_proxy/config/config.py:105-109 | The first service on that port, None exactly when none uses it |
| Config.ByPortFindsEach | src/ctf_proxy/config/config.py:81-83 | With distinct ports, as loading guarantees, each service is the one found on its own port |
| Config.ByType | src/ctf_proxy/config/config.py:111-112 | Exactly the services of that type, never more than the configuration holds; a single service is kept exactly when its type matches |
| Config.ByTypeAppend | src/ctf_proxy/config/config.py:111-112 | Selecting from a concatenation selects from each part, so with the one-service case the configuration's order is kept |
| LogUtils.PortFromUpstreamHost | src/ctf_proxy/logs_processor/utils.py:1-14 | Empty input and input without a colon give None |
| LogUtils.PortOfValue | src/ctf_proxy/logs_processor/tcp.py:109-121 | A falsy host gives no port; a string host gives its port; any other truthy value is an error |
| LogUtils.SuffixDecides | src/ctf_proxy/logs_processor/utils.py:5-12 | Only the text after the last colon decides the result, whatever precedes it |
| LogUtils.HostPortRoundTrip | src/ctf_proxy/logs_processor/utils.py:5-12 | For any host and decimal numeral `p`, `host:p` gives the value of `p`, with no range check |
| LogUtils.NoDigitsNoPort | src/ctf_proxy/logs_processor/utils.py:10-14 | A suffix without a digit gives None |
| LogUtils.BracketedIpv6 | src/ctf_proxy/logs_processor/utils.py:5-8 | `[::1]:8080` gives 8080 |
| TimeStats.Truncate | src/ctf_proxy/ui/components/base_time_stats.py:26 | The minute start is a multiple of 60000 at or below the time and less than a minute before it |
| TimeStats.Buckets | src/ctf_proxy/ui/components/base_time_stats.py:25-37 | Exactly `window` minute starts, strictly increasing, the last being the current minute |
| TimeStats.ZeroBuckets | src/ctf_proxy/ui/components/base_time_stats.py:60 | A zero count for exactly the window's buckets |
| TimeStats.AccumulateSums | src/ctf_proxy/ui/components/base_time_stats.py:52-69 | The loop sees exactly the rows' keys, and gives each key its reference total and its reference count per bucket |
| TimeStats.Keys | src/ctf_proxy/ui/components/base_time_stats.py:52-61 | The keys in first-seen order, each once, exactly those of the rows |
| TimeStats.MostRecent | src/ctf_proxy/ui/components/base_time_stats.py:74-81 | The latest bucket with a positive count, or 0 when there is none |
| TimeStats.NonZero | src/ctf_proxy/ui/components/base_time_stats.py:90-96 | Exactly the key's positive buckets with their counts, in increasing time order |
| TimeStats.WithTotals | src/ctf_proxy/ui/components/base_time_stats.py:14-103 | One report per distinct key |
| TimeStats.ReportCorrect | src/ctf_proxy/ui/components/base_time_stats.py:63-100 | A key's report holds the sum of its counts and exactly its positive in-window buckets, oldest first |
| TimeStats.WithTotalsCovers | src/ctf_proxy/ui/components/base_time_stats.py:14-103 | Every key of the rows is reported, and only those |
| TimeStats.WithTotalsDistinct | src/ctf_proxy/ui/components/base_time_stats.py:14-103 | No key is reported twice, and each report is its key's own |
| TimeStats.WithTotalsOrder | src/ctf_proxy/ui/components/base_time_stats.py:83-88 | Keys come by total, descending, then by most recent activity, descending |
| TimeStats.WithTotalsTies | src/ctf_proxy/ui/components/base_time_stats.py:83-88 | Keys equal on total and recency keep the order in which the rows first showed them |
| TimeStats.AccumulateRangeIsReference | src/ctf_proxy/ui/components/base_time_stats.py:129-141 | The range loop gives each key its rows' points in query order and their total, and sees exactly the rows' keys |
| TimeStats.ForRangeContents | src/ctf_proxy/ui/components/base_time_stats.py:129-152 | Each key's series is its rows in query order, with their sum |
| TimeStats.ForRangeOrder | src/ctf_proxy/ui/components/base_time_stats.py:143-149 | Keys come by total, descending |
| TimeStats.ForRangeTies | src/ctf_proxy/ui/components/base_time_stats.py:143-149 | Keys with equal totals keep the order in which the rows first showed them, since the sort is stable |
| TimeStats.ForRangeCovers | src/ctf_proxy/ui/components/base_time_stats.py:105-154 | Every key of the rows has an entry |
| ServiceStats.DictOf | src/ctf_proxy/ui/components/service_stats.py:44 | `dict(rows)` has no repeated status |
| ServiceStats.DictOfStatuses | src/ctf_proxy/ui/components/service_stats.py:44 | The dictionary's statuses are exactly the rows' statuses |
| ServiceStats.DictOfLastWins | src/ctf_proxy/ui/components/service_stats.py:44 | Each status gets the count of its last row |
| ServiceStats.ClassesPartition | src/ctf_proxy/ui/components/service_stats.py:46-53 | Errors, successes, redirects and the unclassified rest partition the total: every count is in exactly one class |
| ServiceStats.NoOtherNoRemainder | src/ctf_proxy/ui/components/service_stats.py:46-53 | When every status is at least 200, the three classes share the whole total |
| ServiceStats.CurrentStats | src/ctf_proxy/ui/components/service_stats.py:13-124 | Without a counters row every counter is 0; total flags is written plus retrieved; the status counts are the rows as a dictionary with distinct statuses; errors, successes and redirects are the sums of the counts in their classes, which with the rest make the total |
| ServiceStats.OneStatusClassified | src/ctf_proxy/ui/components/service_stats.py:46-53 | A status counts as an error from 400 up, a success for 200..299, a redirect for 300..399, and in none of them otherwise |
| ServiceStats.SumClassAppend | src/ctf_proxy/ui/components/service_stats.py:46-53 | The class sums add up over a split of the rows, so each status contributes to its own class alone |
| ServiceStats.ToDict | src/ctf_proxy/ui/components/service_stats.py:111-124 | The returned dictionary has exactly the stats' keys in the source's order |
| ServiceStats.ToDictLookup | src/ctf_proxy/ui/components/service_stats.py:111-124 | Every key of the stats looks up its own value in the dictionary |
| ServiceStats.StatusDeltasOf | src/ctf_proxy/ui/components/service_stats.py:141-144 | One change per current status, in order; each change added to the baseline count gives the current count |
| ServiceStats.NumericDeltas | src/ctf_proxy/ui/components/service_stats.py:136-140 | A change for exactly the numeric keys, each the current value minus the baseline value |
| ServiceStats.GetDeltas | src/ctf_proxy/ui/components/service_stats.py:148 | Either way the current stats become the baseline |
| ServiceStats.FirstDeltasAreZero | src/ctf_proxy/ui/components/service_stats.py:130-133 | The first refresh reports every key as 0, then empty status changes and no recent alerts |
| ServiceStats.FirstDeltasKeys | src/ctf_proxy/ui/components/service_stats.py:130-133 | The first refresh's keys are the stats' keys, then the status changes |
| ServiceStats.LaterDeltasRoundTrip | src/ctf_proxy/ui/components/service_stats.py:134-140 | On a later refresh, each numeric key's delta added to the baseline gives its current value |
| ServiceStats.LaterDeltasStructured | src/ctf_proxy/ui/components/service_stats.py:136-146 | A later refresh reports the status changes and the current recent alerts, and no change for the status counts or the TCP stats |
| ServiceStats.StatusDeltaIsDifference | src/ctf_proxy/ui/components/service_stats.py:141-144 | A status's change is its current count minus its baseline count, with 0 as the baseline for a new status |
| ServiceStats.AsWrittenLaterDeltasFail | src/ctf_proxy/ui/components/service_stats.py:136-139 | As written, every refresh after the first fails on `tcp_stats` |
| ServiceStats.FirstDeltasAgree | src/ctf_proxy/ui/components/service_stats.py:130-133 | The as-written and corrected versions agree on the first refresh |
| Taps.TryLoad | src/ctf_proxy/logs_processor/taps.py:31-47 | A successful load caches the data. A failed load leaves the cache alone and counts one more attempt. The file is marked for removal when the count reaches 3. Nothing else changes |
| Taps.Refresh | src/ctf_proxy/logs_processor/taps.py:19-30 | Cached data, marks and retry counts are never lost. The files reported loaded are new `.json` files whose data is now cached. Every new regular file is handled: a non-`.json` one is marked for removal, and a `.json` one is reported loaded when it loads and has its failure counted otherwise |
| Taps.Pop | src/ctf_proxy/logs_processor/taps.py:52-56 | The entry leaves the cache and is returned; the file is marked exactly when its data was truthy |
| Taps.Cleanup | src/ctf_proxy/logs_processor/taps.py:58-67 | Exactly the marked files are deleted, and forgotten in the cache and the retry counts |
| Taps.TryLoadValid | src/ctf_proxy/logs_processor/taps.py:31-47 | Loading keeps the invariant that a file exhausting its retries is marked and no count exceeds 3 |
| Taps.RefreshValid | src/ctf_proxy/logs_processor/taps.py:19-47 | Refreshing keeps the retry invariant |
| Taps.PopValid | src/ctf_proxy/logs_processor/taps.py:52-56 | Popping keeps the retry invariant |
| Taps.CleanupValid | src/ctf_proxy/logs_processor/taps.py:58-67 | Cleanup keeps the retry invariant |
| Taps.GivenUpStaysGivenUp | src/ctf_proxy/logs_processor/taps.py:22-23 | A file whose retries are used up is never loaded or counted again before cleanup |
| Taps.EmptyTapIsReloaded | src/ctf_proxy/logs_processor/taps.py:52-56 | An empty tap is popped without a mark, so the next refresh listing it loads it again |
| Taps.PoppedTapIsDeleted | src/ctf_proxy/logs_processor/taps.py:52-67 | A non-empty tap, once popped, is not loaded again and is deleted by the next cleanup |
| TapBatch.OnFileLoaded | src/ctf_proxy/logs_processor/tcp.py:27-30 | A tap with an id is indexed under it; one without leaves the index unchanged |
| TapBatch.IndexLoaded | src/ctf_proxy/logs_processor/taps.py:33-37 | Every id stays indexed, either untouched or pointing at one of the files just loaded |
| TapBatch.Step | src/ctf_proxy/logs_processor/tcp.py:63-79 | A matched entry carries truthy tap data and the entry itself, and its file is marked for removal; marks are never lost |
| TapBatch.Loop | src/ctf_proxy/logs_processor/tcp.py:60-90 | At most one match per entry, and every match has truthy data and a marked file |
| TapBatch.Archive | src/ctf_proxy/logs_processor/tcp.py:76-77 | Every matched file is archived with data taken from a match |
| TapBatch.ProcessEntries | src/ctf_proxy/logs_processor/tcp.py:56-99 | The position advances to the last entry read, even when entries are skipped; every match is archived and deleted; no marks remain |
| TapBatch.NoKeySkipped | src/ctf_proxy/logs_processor/tcp.py:63-67 | An entry without an id changes nothing and matches nothing |
| TapBatch.NoTapSkipped | src/ctf_proxy/logs_processor/tcp.py:69-74 | An entry whose id indexes no tap matches nothing and changes nothing |
| TapBatch.IndexedTapMatched | src/ctf_proxy/logs_processor/tcp.py:69-79 | An entry whose id indexes a truthy tap is matched to it, and the tap leaves both the index and the cache |
| TapBatch.EmptyTapUnmatched | src/ctf_proxy/logs_processor/tcp.py:75-79 | An indexed but empty tap is consumed from the index without a match and stays on disk |
| TcpTap.TraceId | src/ctf_proxy/logs_processor/tcp.py:32-42 | An id exactly when the trace id is an all-digit string, and then a non-negative one |
| TcpTap.TraceIdValue | src/ctf_proxy/logs_processor/tcp.py:32-42 | A tap's trace id is the decimal value of its digits |
| TcpTap.ConnectionKey | src/ctf_proxy/logs_processor/tcp.py:63-69 | A null or missing `connection_id` gives no key; an integer gives itself |
| TcpTap.ProcessEntries | src/ctf_proxy/logs_processor/tcp.py:56-99 | The position advances to the last entry read; every match has truthy data and is archived and deleted |
| TcpTap.NoConnectionIdSkipped | src/ctf_proxy/logs_processor/tcp.py:63-67 | An entry without `connection_id` changes nothing |
| TcpTap.ChunkFlags | src/ctf_proxy/logs_processor/tcp.py:145-150 | Each flag found in a chunk is placed at its in-chunk offset plus the base |
| TcpTap.ScanCorrect | src/ctf_proxy/logs_processor/tcp.py:135-166 | Each direction's data is kept with its length as the total, and every flag sits at its chunk offset plus the same-direction bytes before the chunk |
| TcpTap.TotalsAreSums | src/ctf_proxy/logs_processor/tcp.py:135-156 | The byte totals are the sums of the chunk lengths of each direction |
| TcpTap.CountsSplit | src/ctf_proxy/logs_processor/tcp.py:245-246 | Written flags and retrieved flags together are all the flags |
| TcpTap.SizeBucket | src/ctf_proxy/logs_processor/tcp.py:264-267 | The bucket is one precision wide, and for a positive precision it is aligned and holds the total |
| TcpTap.BucketBounds | src/ctf_proxy/logs_processor/tcp.py:264-267 | For a positive divisor the bucket start is the largest multiple not above the value |
| TcpTap.Update | src/ctf_proxy/logs_processor/tcp.py:244-293 | The stats row is for the port and carries the entry's `bytes_in`/`bytes_out`; it counts the write-side flags as written and the read-side flags as retrieved, together all the flags; both size buckets hold their totals; the time bucket holds the start minute |
| TcpTap.ProcessTap | src/ctf_proxy/logs_processor/tcp.py:106-293 | A connection is blocked exactly when the interceptor message is "blocked"; stats are kept exactly for a truthy port, with the entry's byte counts and the write-side and read-side flag counts |
| TcpTap.FlagCountsAreFinds | src/ctf_proxy/logs_processor/tcp.py:135-166 | The flags the scan records in a direction are exactly as many as the finder reports in that direction's chunks |
| TcpTap.FlagStatsAreFinds | src/ctf_proxy/logs_processor/tcp.py:244-258 | A recorded connection counts as written the flags found in its write chunks and as retrieved those found in its read chunks |
| TcpTap.AsWrittenFindsNoFlags | src/ctf_proxy/logs_processor/tcp.py:143-166 | As written, no chunk yields a flag, so a connection records none |
| TcpTap.PortZeroNoStats | src/ctf_proxy/logs_processor/tcp.py:244 | A port of 0 is recorded without statistics |
| TcpTap.DefaultBucketWidth | src/ctf_proxy/logs_processor/tcp.py:262 | Without a service on the port the size buckets are 100 bytes wide |
| TcpTap.ProcessTapAsWritten | src/ctf_proxy/logs_processor/tcp.py:244-262 | As written, the missing-attribute failure happens only on a port that has a service |
| TcpTap.AsWrittenFailsForConfiguredPorts | src/ctf_proxy/logs_processor/tcp.py:262 | As written, every connection to a configured port fails after its service statistics are counted and before its size and time buckets, where the corrected version records them |
| TcpTap.AsWrittenAgreesWithoutService | src/ctf_proxy/logs_processor/tcp.py:262 | Where the as-written code does not fail, it records what the corrected code records with the default precision |
| TcpTap.ConfiguredPrecisionRecords | src/ctf_proxy/logs_processor/tcp.py:262-267 | The corrected code records the statistics of every connection to a truthy port, with buckets of the configured width |
| HttpTap.Field | src/ctf_proxy/logs_processor/http.py:56-58 | `get` with a default succeeds exactly on a mapping |
| HttpTap.SearchItems | src/ctf_proxy/logs_processor/http.py:59-67 | Absent exactly when every header is a well-formed mapping without that key |
| HttpTap.SearchFindsFirst | src/ctf_proxy/logs_processor/http.py:59-67 | The search stops at the first header with that key, whatever follows |
| HttpTap.RequestId | src/ctf_proxy/logs_processor/http.py:55-71 | A request id comes only from a mapping tap |
| HttpTap.RequestHeaderWins | src/ctf_proxy/logs_processor/http.py:59-62 | The request's own `x-request-id` wins over the response's |
| HttpTap.ResponseHeaderFallback | src/ctf_proxy/logs_processor/http.py:63-67 | Without one among the request headers, the response's is used |
| HttpTap.IndexKey | src/ctf_proxy/logs_processor/http.py:50-53 | A tap is indexed exactly when its request id is truthy |
| HttpTap.StreamKey | src/ctf_proxy/logs_processor/http.py:93-95 | An entry has a key exactly when its `stream_id` is truthy |
| HttpTap.ProcessEntries | src/ctf_proxy/logs_processor/http.py:85-129 | The position advances to the last entry read; every match has truthy data and is archived and deleted |
| HttpTap.NoStreamIdSkipped | src/ctf_proxy/logs_processor/http.py:93-95 | An entry with a falsy `stream_id` changes nothing |
| HttpTap.PopTwiceFindsNothing | src/ctf_proxy/logs_processor/http.py:73-74 | Popping removes the mapping, so the same stream id finds nothing a second time |
| HttpTap.Pairs | src/ctf_proxy/logs_processor/http.py:144-160 | Header keys come out lowercased and non-empty; it succeeds exactly when every header is well formed |
| HttpTap.PairsAppend | src/ctf_proxy/logs_processor/http.py:144-160 | The pairs of a list are the pairs of its parts, in order |
| HttpTap.OneHeader | src/ctf_proxy/logs_processor/http.py:144-160 | A header with an empty key is dropped; any other is kept with its key lowercased |
| HttpTap.LastValue | src/ctf_proxy/logs_processor/http.py:150-154 | `dict(pairs).get(key)` finds a value exactly when some pair has the key, and the value is one of that key's |
| HttpTap.LastValueSnoc | src/ctf_proxy/logs_processor/http.py:150-154 | A later pair overrides an earlier one, and a pair for another key changes nothing |
| HttpTap.Status | src/ctf_proxy/logs_processor/http.py:180 | An all-digit string gives its value and any other string gives -1; the result is -1 or non-negative |
| HttpTap.Or | src/ctf_proxy/logs_processor/http.py:179 | `a or b` is `a` when truthy and `b` otherwise |
| HttpTap.HeaderStats | src/ctf_proxy/logs_processor/http.py:328-347 | Exactly the request headers not in the ignore list and not matching their configured pattern are counted |
| HttpTap.QueryStats | src/ctf_proxy/logs_processor/http.py:309-327 | Exactly the values of the parameters that do not match their parameter's ignore pattern are counted, each with its own parameter |
| HttpTap.Keep | src/ctf_proxy/logs_processor/http.py:315-317 | Exactly the values not matching their parameter's ignore pattern are kept |
| HttpTap.ProcessTap | src/ctf_proxy/logs_processor/http.py:137-363 | Statistics are kept exactly for a truthy port. They count one request, and one response unless the request was blocked, plus the flags found in each direction and the status. The headers, query values and path counted are exactly what `HeaderStats`, `QueryStats` and `PathCounts` select from the recorded headers and path, under the options of the service on that port (309-347) |
| HttpTap.ProcessTapAsWritten | src/ctf_proxy/logs_processor/http.py:239 | As written, every exchange fails, with its own earlier error or at the flag search |
| HttpTap.AsWrittenRecordsNoStats | src/ctf_proxy/logs_processor/http.py:239-256 | As written, an exchange the corrected code records gets neither flags nor statistics |
| HttpTap.CorrectedRecordsStats | src/ctf_proxy/logs_processor/http.py:232-263 | With the flag format configured, every readable exchange on a truthy port is recorded with statistics counting the flags found in each body |
| HttpTap.BlockedIffTrailer | src/ctf_proxy/logs_processor/http.py:162 | A request is blocked exactly when its last `x-blocked` trailer is "1"; a blocked request counts no response |
| HttpTap.EntryStatusWins | src/ctf_proxy/logs_processor/http.py:179-180 | The log entry's status wins over the response's `:status` whenever it is truthy |
| DockerGen.ParseOne | src/ctf_proxy/bin/docker-config-gen.py:55-73 | An entry without "->" gives no mapping |
| DockerGen.ParseDockerEntry | src/ctf_proxy/bin/docker-config-gen.py:55-73 | What Docker prints for a published port, `host:external->internal/proto`, parses back to that mapping |
| DockerGen.Collect | src/ctf_proxy/bin/docker-config-gen.py:52-75 | At most one mapping per entry |
| DockerGen.CollectAppend | src/ctf_proxy/bin/docker-config-gen.py:64-73 | A bad entry drops only itself: the mappings of a list are those of its parts, in order |
| DockerGen.ParsePortMappings | src/ctf_proxy/bin/docker-config-gen.py:46-76 | Empty input gives no mappings |
| DockerGen.ReplaceInvalid | src/ctf_proxy/bin/docker-config-gen.py:101 | Every disallowed character becomes '-' and every other character is kept, position by position |
| DockerGen.StripEdges | src/ctf_proxy/bin/docker-config-gen.py:102 | The result neither starts nor ends with '-' or '_', keeps only name characters, and leaves a string already clean at its ends unchanged |
| DockerGen.Sanitize | src/ctf_proxy/bin/docker-config-gen.py:96-104 | The result is always a valid name: non-empty, only `[A-Za-z0-9_-]`, and neither starting nor ending with '-' or '_' |
| DockerGen.SanitizeFixes | src/ctf_proxy/bin/docker-config-gen.py:96-104 | A valid name is left alone, so the names kept are exactly the valid ones |
| DockerGen.SanitizeIdempotent | src/ctf_proxy/bin/docker-config-gen.py:96-104 | Sanitising twice is sanitising once |
| DockerGen.PortsOf | src/ctf_proxy/bin/docker-config-gen.py:121-128 | The existing ports fail exactly when some service's port is not an integer, and are otherwise exactly those ports |
| DockerGen.AddMappings | src/ctf_proxy/bin/docker-config-gen.py:184-210 | Each added service comes from one of the container's mappings; the added services claim pairwise distinct ports not used before, and the used set grows by exactly those ports |
| DockerGen.AddMappingsClaims | src/ctf_proxy/bin/docker-config-gen.py:184-198 | Every mapping whose port is not infrastructure ends with its port in the used set |
| DockerGen.AddMappingsComplete | src/ctf_proxy/bin/docker-config-gen.py:184-210 | The first mapping of a port that is neither infrastructure nor used becomes a service named after its index, with the type chosen for it |
| DockerGen.AddContainers | src/ctf_proxy/bin/docker-config-gen.py:170-210 | Across containers the added services have pairwise distinct ports, none of them used before, and the used set grows by exactly the added ports |
| DockerGen.AddContainerClaims | src/ctf_proxy/bin/docker-config-gen.py:184-198 | Every port a container publishes that is not infrastructure is in the used set after its step |
| DockerGen.AddContainersClaims | src/ctf_proxy/bin/docker-config-gen.py:170-198 | Every port any container publishes that is not infrastructure is in the used set after the loop |
| DockerGen.ClaimedPortsGetServices | src/ctf_proxy/bin/docker-config-gen.py:170-210 | Every published port that is neither infrastructure nor already configured gets a new service |
| DockerGen.MergeServices | src/ctf_proxy/bin/docker-config-gen.py:220 | The merged list is a permutation of the existing and added services sorted by port. It exists exactly when every service has a `port` and, with two or more services, every port is a number; a single service is kept as it is |
| DockerGen.Finish | src/ctf_proxy/bin/docker-config-gen.py:221-226 | The other top-level keys are kept, `services` is replaced, and `flag_format` and `api_token_hash` are added only when missing |
| DockerGen.GenerateConfig | src/ctf_proxy/bin/docker-config-gen.py:146-236 | Without containers the existing configuration (or an empty service list) is returned; otherwise the new services claim fresh, distinct ports and are merged in sorted order |
| Iptables.Classify | src/ctf_proxy/bin/iptables-config.py:150-167 | A service fails exactly when its type is not a string; a port is kept only in 1..65535, and its type decides the listener |
| Iptables.Collect | src/ctf_proxy/bin/iptables-config.py:150-167 | The loop succeeds exactly when every service classifies |
| Iptables.CollectPorts | src/ctf_proxy/bin/iptables-config.py:150-167 | The loop's lists hold exactly the ports the services configure for each listener |
| Iptables.LoadPorts | src/ctf_proxy/bin/iptables-config.py:142-175 | Without a file there are no valid ports; on success both lists are strictly increasing, hold only ports in 1..65535, and at least one is non-empty |
| Iptables.LoadedPorts | src/ctf_proxy/bin/iptables-config.py:142-175 | The returned lists hold exactly the ports configured for each listener |
| Iptables.NoValidPortsIff | src/ctf_proxy/bin/iptables-config.py:172-173 | A readable file raises "no valid ports" exactly when no service configures a port |
| Iptables.KindOfPort | src/ctf_proxy/bin/iptables-config.py:712-719 | Loading errors pass through; a port is HTTP when it is in the HTTP list, else TCP when it is in the TCP list, else refused |
| Iptables.KindOfConfiguredPort | src/ctf_proxy/bin/iptables-config.py:734-741 | A port configured for both listeners is HTTP; one no service configures is refused |
| Iptables.PortArgument | src/ctf_proxy/bin/iptables-config.py:1063-1077 | A missing argument is an error; an accepted one is the integer the text denotes, in 1..65535 |
| Iptables.PortArgumentOfNumber | src/ctf_proxy/bin/iptables-config.py:1063-1077 | Every valid port written in decimal is accepted as itself |
| Iptables.PortCommand | src/ctf_proxy/bin/iptables-config.py:1060-1081 | The command acts on the argument's port in 1..65535 and on the listener that port is configured for |
| Iptables.PortCommandConfigured | src/ctf_proxy/bin/iptables-config.py:1060-1081 | A configured port named in decimal reaches the rules of its listener |
| Iptables.CommentEnd | src/ctf_proxy/bin/iptables-config.py:820-822 | The comment's end is found exactly when the comment pattern ends there |
| Iptables.CommentRoundTrip | src/ctf_proxy/bin/iptables-config.py:820-822 | The comment between text without a comment opener and anything else is found, stripped |
| Iptables.EnvoyText | src/ctf_proxy/bin/iptables-config.py:823-825 | A comment without "envoy:" gives "" |
| Iptables.EnvoyTextAfterMarker | src/ctf_proxy/bin/iptables-config.py:823-825 | A comment opening with "envoy:" keeps what follows it, stripped |
| Iptables.SkipOn | src/ctf_proxy/bin/iptables-config.py:849-852 | The interface named is a word, and there is none exactly when "skip on" followed by a word occurs nowhere |
| Iptables.SkipOnFinds | src/ctf_proxy/bin/iptables-config.py:849-852 | "skip on X" names the interface X |
| Iptables.DashI | src/ctf_proxy/bin/iptables-config.py:853-856 | The interface named is a word, and there is none exactly when "-i" followed by a word occurs nowhere |
| Iptables.DashIFinds | src/ctf_proxy/bin/iptables-config.py:853-856 | "-i X" at the start of a condition names X |
| Iptables.FirstBridge | src/ctf_proxy/bin/iptables-config.py:857-859 | The earliest field naming a bridge or the loopback, and "" exactly when none does |
| Iptables.Interface | src/ctf_proxy/bin/iptables-config.py:849-859 | "skip on X" in the comment wins, then "-i X" in the condition; otherwise the first bridge field of a line with more than six fields, and "" for a shorter line |
| Iptables.ParseRule | src/ctf_proxy/bin/iptables-config.py:811-870 | A rule keeps its raw line and its envoy comment; it is short exactly when it has fewer than 6 fields; the interface is a word or "" |
| Iptables.SkipOnWins | src/ctf_proxy/bin/iptables-config.py:849-852 | In a full rule, the comment's "skip on X" wins over the condition's "-i Y" |
| Iptables.DashIFallback | src/ctf_proxy/bin/iptables-config.py:853-856 | Without "skip on" in the comment, "-i Y" in the condition is used |
| Sorting.SortByCorrect | src/ctf_proxy/ui/components/base_time_stats.py:84-88 | The stable key sort returns a permutation sorted by the key, with ties kept in input order |
| Sorting.SortedSetUnique | src/ctf_proxy/bin/iptables-config.py:169-170 | `sorted(set(xs))` is strictly increasing and holds exactly the elements of `xs` |
| PyStr.Strip | src/ctf_proxy/ui/components/service_detail_screen.py:37 | `strip()` removes exactly the leading and trailing whitespace |
| PyStr.Split | src/ctf_proxy/bin/docker-config-gen.py:52 | Joining the pieces with the separator gives back the string, and no piece holds the separator |
| PyStr.PyInt | src/ctf_proxy/ui/components/service_detail_screen.py:84-85 | An all-digit string is read as its decimal value, and a string without any digit is rejected, where `int()` raises |
| PyStr.RFind | src/ctf_proxy/logs_processor/utils.py:5 | The last occurrence of the character, or -1 |

## Left out

- HttpEngine.Run: the When accessors use the documented current-side gate, not the side captured when the contexts were created. The source's as-written gate is `HttpEngine.WhenViewAsWritten` (see Findings). `TestService.ResponsesNeverMatch` relies on the corrected gate.
- TcpEngine.Run: When and Do outputs carry a `paused` flag. The TCP contexts in the source have no `Pause()` method, so only code in the same package can set a pause. The model allows a pause for generality; `TcpEngine.NoPauseWithoutPauses` shows that without one every unmatched event continues.
- LegacyEngine.Run: an interceptor's Do is never nil. In the source, a match with a nil Do jumps back to `runDo` and re-enters the When scan indefinitely (src/interceptor/interceptor.go:184-192).
- HttpEngine.RunDo: an interceptor's Do is never nil. The source calls the nil function and panics (src/interceptor/interceptor_http.go:66); the same holds for TcpEngine.RunDo.
- HttpHost.Apply: a Do's host calls are collected and applied after the Do returns. So a read after a write inside one Do call sees the old value. The error results of `ReplaceRequestBody`/`ReplaceResponseBody` and of `SendHttpResponse` are not modelled, nor is the error from `MarkBlocked`.
- PyStr: all string built-ins are ASCII-only. `IsSpace`, `Strip`, `Upper`, `Lower`, `IsDigit` and `PyInt` follow Python only on ASCII text.
  - "²" passes `isdigit` but `int()` rejects it, so `parse_filter("²")` raises ValueError (src/ctf_proxy/ui/components/service_detail_screen.py:84-85). The model gives a path-substring filter instead.
  - "optıons" (dotless ı) upper-cases to "OPTIONS" in Python and would become a method filter. The model gives a path-substring filter.
- LegacyEngine.AppendToken: trims ASCII blanks only. Go's `strings.TrimSpace` also trims Unicode spaces such as U+00A0 (src/interceptor/interceptor.go:333-336).
- FilterParse.ParseBare: ASCII-only for the same reason as PyStr.
- `DoHttpBlock`, `DoHttpPause`, `ModifyHttpResponseBody`, `MatchHttpRequest` and `DoTcpBlock` are not part of this model. The test rules use the modelled `DoBlock`, `DoPause` and `DoModifyHttpResponseBody`, with a path-prefix When. `TcpRule` holds for any Do.
- The `init`/`main` wiring of the two entry points, and `registerHttpInterceptors` of the binary, are left out; only the rules they register are modelled.
- HttpEngine.MakeWhenCtxs: each When context is bound to its own interceptor. The source takes `&it` of the range variable (src/interceptor/interceptor_http.go:90-92), which gives that binding from Go 1.22 on; with an older toolchain every context would share the last interceptor. The module's Go version is not part of this model.
- TcpEngine.MakeWhenCtxs: the same holds for the TCP engine, which also takes `&it` of the range variable (src/interceptor/interceptor_tcp.go:80-81). The per-index binding it states assumes Go 1.22 or later.
- Logging (`LogInfo`, `LogWarn`, Python `logger`) is left out: it has no effect on results.
- Host calls, the SQL queries and upserts, file and directory I/O, tar archiving, `subprocess` (docker, iptables), `input()` prompting, threads and the clock are left out or passed in as parameters.
- `SimpleCookie.load`, `re.fullmatch`/`finditer` (including the flag finder), `urlparse`/`parse_qs`, `yaml.safe_load`, base64 and UTF-8 decoding are uninterpreted parameters.
- TcpTap.ProcessTapAsWritten: only the failure is modelled. The rows written before the exception (the connection, its flags and the service statistics) stay in the batch's transaction, since the handler at src/ctf_proxy/logs_processor/tcp.py:82-90 only logs.
- TcpTap.ScanCorrect: flag offsets are counted in characters of the decoded text and added to byte counts. The two agree only for ASCII payloads; the model counts in one unit.
- TcpTap.ConnectionKey: a `connection_id` that is not an integer or a boolean (a string, say) is a key no trace id equals, so the entry is skipped. A boolean looks up trace id 1 or 0, as Python's `True == 1` does.
- HttpTap.ProcessTap: the session linking and alert rows it writes to the database, the body decoding and `extract_body` are left out; the new-path alert is not modelled. The flag format and the per-service ignore patterns are parameters (the flag finder and `HttpTap.ServiceOptions`). `Service` has no `ignore_path_stats`, `ignore_query_param_stats` or `ignore_header_stats` (src/ctf_proxy/config/config.py:14-18). So as written, lines 297, 311-312 and 332-333 of src/ctf_proxy/logs_processor/http.py would raise for a configured port. They are never reached, because the flag search at line 239 raises first (see Findings).
- TcpTap.ProcessTap: the start time is a parameter `startMs`, already in milliseconds. The source's fallback to the clock (`datetime.now()`) when `start_time` is missing or empty (src/ctf_proxy/logs_processor/tcp.py:115-121) is left out. So is the ValueError or AttributeError that `fromisoformat(start_time_str.replace(...))` raises on a malformed or non-string value. The `Event` datatype always carries its data, so the KeyError or TypeError that `event["read"]["data"]` and `event["write"]["data"]` raise outside the try blocks (lines 137 and 153) cannot be expressed. Neither can a failing base64 decode (lines 138 and 154).
- HttpTap.ProcessTap: the start time and start minute are not modelled (src/ctf_proxy/logs_processor/http.py:183-192), because `HttpStats` carries no time. This leaves out the fallback to the clock (`datetime.now()`) when `start_time` is missing or empty. It also leaves out the ValueError or AttributeError that `fromisoformat(start_time_str.replace(...))` raises on a malformed or non-string value.
- TcpTap.ScanEvents: the flag finder is the intended search with the configured flag format. As written, `self.config.flag_format` at src/ctf_proxy/logs_processor/tcp.py:145 and 161 raises AttributeError inside blocks that swallow it (149-150, 165-166), so no TCP flag is ever found; `TcpTap.AsWrittenFindsNoFlags` models that.
- Sessions.GetLinks: HTTP session linking across different services is not modelled, as in the source.
- ServiceStats.CurrentStats: the row status colouring of the screens, and the debug timestamps added to the stats, are left out.
- Sorting: a sort over keys of mixed types, which raises TypeError in Python, is modelled only for the port sort of `DockerGen.MergeServices` (as None).
- DockerGen.MergeServices: ranks numeric ports only. Two or more services whose ports are all strings, which Python sorts in string order, give None in the model; so do all-list ports.
- DockerGen.GenerateConfig: the order of YAML keys on output, the random token and its hashing are left out; the hash is a parameter.
- Iptables: detecting bridges, IPv6 selection, chain setup and teardown, and the rule tables printed by `info` are left out. A regular expression that raises TypeError on a non-string is not modelled.
- Python's `1 == True` equality is modelled only where the model names it: `Config.EntryPort` (via `isinstance(v, int)`), `Json.IntValue`, `TcpTap.ConnectionKey` and the port sort of `DockerGen.MergeServices` treat a boolean as 1 or 0. Elsewhere, in map keys and value comparisons, booleans are distinct from integers.
- Json: JSON and YAML values have no floats. Python's `int(8080.0)` accepts a float port (src/ctf_proxy/bin/iptables-config.py:161), which the model cannot express.
- The screens, widgets and web app of the dashboard, `watcher.py`, `batch.py`'s signal and sleep loop, and `tap_processor.py` (a duplicate of the HTTP `process_tap`) are not part of this model.

## Findings

| source | as written | input that shows it | evidently intended | confidence | as-written member | corrected member |
|---|---|---|---|---|---|---|
| src/ctf_proxy/ui/components/service_stats.py:139 | every key but the status counts and alerts is subtracted, including `tcp_stats`, which is None or a dict | any second refresh: `None - None` raises TypeError, so the baseline is never updated again | subtract the numeric keys only | not executed | ServiceStats.AsWrittenLaterDeltasFail | ServiceStats.LaterDeltasRoundTrip |
| src/ctf_proxy/logs_processor/sessions.py:66 | a configured service's `session_cookie_names` is read, an attribute `Service` does not have (src/ctf_proxy/config/config.py:14-18) | a request with a cookie header on any configured port raises AttributeError | fall back to the default cookie names | not executed | Sessions.AsWrittenFailsOnConfiguredPorts | Sessions.CorrectedAgreesWithAsWritten |
| src/interceptor/interceptor_http.go:131-158 | the When accessors gate by `isReq` captured when the contexts are created, for the whole stream | contexts created at req:headers; at resp:headers `GetResponseHeader("content-type")` answers "" though the response carries it | gate by the current stage's side, as src/interceptor/types.go:41-51 documents | not executed | HttpEngine.WhenViewCapturedAtCreation | HttpEngine.WhenViewAgreesOnCreationSide |
| src/ctf_proxy/logs_processor/tcp.py:262 | a configured service's `tcp_connection_stats_precision` is read, an attribute `Service` does not have | any connection with a truthy port that has a configured service raises AttributeError, caught at src/ctf_proxy/logs_processor/tcp.py:82-90. Its service statistics (lines 244-258) are already counted; its size and time buckets (lines 264-275) are lost | use the default precision of 100, or a configured one | not executed | TcpTap.AsWrittenFailsForConfiguredPorts | TcpTap.ConfiguredPrecisionRecords |
| src/ctf_proxy/logs_processor/http.py:239 | the flag search reads `self.config.flag_format`, an attribute `Config` does not have (src/ctf_proxy/config/config.py:34-58) | every exchange that gets past its earlier checks raises AttributeError, caught at src/ctf_proxy/logs_processor/http.py:119-120. Its request, response and header rows are written. Its flags, statistics and session links (from line 241 on) are never recorded | search with a configured flag format | not executed | HttpTap.AsWrittenRecordsNoStats | HttpTap.CorrectedRecordsStats |
| src/ctf_proxy/logs_processor/tcp.py:145 | the flag search reads `self.config.flag_format` inside a `try` whose handler only logs (lines 149-150, 165-166) | a connection whose payload carries a flag records no flag, and `flags_written`/`flags_retrieved` stay 0 | search with a configured flag format | not executed | TcpTap.AsWrittenFindsNoFlags | TcpTap.FlagStatsAreFinds |

/** The HTTP rules of the end-to-end test service on port 15001: four
    interceptors, registered in this order, each matching requests whose
    path starts with its prefix, and the responses the test client expects
    from them: a 418 for "/blocked", no answer for "/paused", an upper-cased
    body for "/modified", a fixed body for "/replaced" and the untouched
    backend answer for any other path. `MatchHttpRequest` and the two
    blocking and pausing helpers the rules name are not part of this model:
    the path matcher is the prefix test the rules configure, on the request
    path the request headers carry, and the Do functions are the modelled
    `DoBlock` and `DoPause`. */
module TestService {
  import opened Wrappers
  import opened Proxy
  import opened HttpHost
  import opened HttpEngine
  import PyStr
  import Helpers

  const TestPort: int := 15001

  /** The pseudo-header carrying the request path. */
  const PathHeader: string := ":path"

  const Prefixes: seq<string> := ["/blocked", "/paused", "/modified", "/replaced"]
  const Names: seq<string> := ["/blocked path", "/paused path", "/modified path", "/replaced path"]

  const BlockIndex: nat := 0
  const PauseIndex: nat := 1
  const ModifyIndex: nat := 2
  const ReplaceIndex: nat := 3

  // ---------------------------------------------------------------------
  // The matcher and the rewriters.

  /** The path prefix matcher as a When: it never pauses and keeps its
      data. */
  function PathPrefix(prefix: string): WhenFn {
    (w: WhenInput) => PathPrefixWhen(prefix, w)
  }

  function PathPrefixWhen(prefix: string, w: WhenInput): (o: WhenOutput)
    ensures o.matched <==> PyStr.StartsWith(Header(w.view.reqHeaders, PathHeader), prefix)
    ensures !o.paused && o.data == w.data
  {
    WhenOutput(prefix <= Header(w.view.reqHeaders, PathHeader), false, w.data)
  }

  /** Go's `strings.ToUpper` on the bytes of ASCII text. */
  function UpperByte(b: byte): (r: byte)
    ensures 97 <= b <= 122 ==> r as int == b as int - 32
    ensures !(97 <= b <= 122) ==> r == b
  {
    if 97 <= b <= 122 then b - 32 else b
  }

  function AsciiUpper(body: Bytes): (r: Bytes)
    ensures |r| == |body|
    ensures forall i :: 0 <= i < |body| ==> r[i] == UpperByte(body[i])
  {
    seq(|body|, i requires 0 <= i < |body| => UpperByte(body[i]))
  }

  /** Upper-casing bytes agrees with upper-casing the text they encode. */
  lemma AsciiUpperOfText(s: string)
    requires forall i :: 0 <= i < |s| ==> s[i] as int < 128
    ensures forall i :: 0 <= i < |PyStr.Upper(s)| ==> PyStr.Upper(s)[i] as int < 128
    ensures AsciiUpper(Helpers.AsciiBytes(s)) == Helpers.AsciiBytes(PyStr.Upper(s))
  {
    var u := PyStr.Upper(s);
    assert forall i :: 0 <= i < |u| ==> u[i] as int < 128 by {
      forall i | 0 <= i < |u| ensures u[i] as int < 128 {
        assert u[i] == PyStr.UpperChar(s[i]);
      }
    }
    var a := AsciiUpper(Helpers.AsciiBytes(s));
    var b := Helpers.AsciiBytes(u);
    forall i | 0 <= i < |s| ensures a[i] == b[i] {
      assert u[i] == PyStr.UpperChar(s[i]);
    }
  }

  /** Upper-casing twice is upper-casing once. */
  lemma AsciiUpperIdempotent(body: Bytes)
    ensures AsciiUpper(AsciiUpper(body)) == AsciiUpper(body)
  {
  }

  function ReplacementBody(): Bytes {
    Helpers.AsciiBytes("new response body")
  }

  // ---------------------------------------------------------------------
  // The registry.

  /** The four rules in registration order: names, prefix matchers and Do
      functions. */
  ghost predicate Rules(ints: seq<Interceptor>) {
    && |ints| == 4
    && (forall j :: 0 <= j < 4 ==> ints[j].name == Names[j] && ints[j].when == Some(PathPrefix(Prefixes[j])))
    && ints[BlockIndex].do == Helpers.DoBlock
    && ints[PauseIndex].do == Helpers.DoPause
    && ints[ModifyIndex].do == Helpers.DoModifyHttpResponseBody(AsciiUpper)
    && ints[ReplaceIndex].do == Helpers.DoReplaceHttpResponseBody(ReplacementBody())
  }

  /** A registry whose port 15001 carries exactly the four rules. */
  ghost predicate Serves(reg: Registry) {
    Rules(Interceptors(reg, TestPort))
  }

  function TestInterceptors(): (r: seq<Interceptor>)
    ensures Rules(r)
  {
    [Interceptor(Names[0], Some(PathPrefix(Prefixes[0])), Helpers.DoBlock),
     Interceptor(Names[1], Some(PathPrefix(Prefixes[1])), Helpers.DoPause),
     Interceptor(Names[2], Some(PathPrefix(Prefixes[2])), Helpers.DoModifyHttpResponseBody(AsciiUpper)),
     Interceptor(Names[3], Some(PathPrefix(Prefixes[3])), Helpers.DoReplaceHttpResponseBody(ReplacementBody()))]
  }

  /** The registry after `registerHttpInterceptors`: the four rules on port
      15001 and nothing on any other port. */
  function TestRegistry(): (reg: Registry)
    ensures Serves(reg)
    ensures forall p :: p != TestPort ==> Interceptors(reg, p) == []
  {
    var ints := TestInterceptors();
    var r0 := Register(map[], TestPort, ints[0].name, ints[0].when, ints[0].do);
    var r1 := Register(r0, TestPort, ints[1].name, ints[1].when, ints[1].do);
    var r2 := Register(r1, TestPort, ints[2].name, ints[2].when, ints[2].do);
    var r3 := Register(r2, TestPort, ints[3].name, ints[3].when, ints[3].do);
    assert Interceptors(r3, TestPort) == [ints[0]] + [ints[1]] + [ints[2]] + [ints[3]];
    r3
  }

  // ---------------------------------------------------------------------
  // Which rule fires.

  /** The first rule, in registration order, whose prefix starts `path`. */
  function RuleFor(path: string): (r: Option<nat>)
    ensures r.Some? ==> r.value < 4 && PyStr.StartsWith(path, Prefixes[r.value])
    ensures r.None? <==> forall j :: 0 <= j < 4 ==> !PyStr.StartsWith(path, Prefixes[j])
  {
    if Prefixes[0] <= path then Some(0)
    else if Prefixes[1] <= path then Some(1)
    else if Prefixes[2] <= path then Some(2)
    else if Prefixes[3] <= path then Some(3)
    else None
  }

  /** The prefixes differ in their second character, so at most one rule's
      prefix starts any path: which rule fires does not depend on the
      registration order. */
  lemma {:induction false} AtMostOneRule(path: string, j: nat, k: nat)
    requires j < 4 && k < 4
    requires PyStr.StartsWith(path, Prefixes[j]) && PyStr.StartsWith(path, Prefixes[k])
    ensures j == k
  {
    assert path[1] == Prefixes[j][1];
    assert path[1] == Prefixes[k][1];
  }

  /** A path that starts with rule `k`'s prefix selects rule `k`. */
  lemma RuleForPrefix(path: string, k: nat)
    requires k < 4 && PyStr.StartsWith(path, Prefixes[k])
    ensures RuleFor(path) == Some(k)
  {
    var r := RuleFor(path);
    AtMostOneRule(path, r.value, k);
  }

  /** The request path a When sees at this event: the `:path` header on
      the request side, "" on the response side. */
  function SeenPath(h: Host, ev: HttpEvent): (p: string)
    ensures ev.stage.IsRequest() ==> p == Header(h.reqHeaders, PathHeader)
    ensures !ev.stage.IsRequest() ==> p == ""
  {
    Header(WhenView(h, ev).reqHeaders, PathHeader)
  }

  /** The stream's When contexts belong to the four rules, in order. */
  ghost predicate RuleWhens(reg: Registry, whens: seq<WhenCtx>) {
    |whens| == 4 && |Interceptors(reg, TestPort)| == 4
    && forall j :: 0 <= j < 4 ==> whens[j].it == Interceptors(reg, TestPort)[j]
  }

  /** The calls `WhenCall(i)`, ..., `WhenCall(k - 1)`. */
  function Probes(i: nat, k: nat): (r: seq<Call>)
    requires i <= k
    ensures |r| == k - i
    ensures forall j :: 0 <= j < |r| ==> r[j] == WhenCall(i + j)
    decreases k - i
  {
    if i == k then [] else [WhenCall(i)] + Probes(i + 1, k)
  }

  lemma ProbesListed()
    ensures Probes(0, 1) == [WhenCall(0)]
    ensures Probes(0, 2) == [WhenCall(0), WhenCall(1)]
    ensures Probes(0, 3) == [WhenCall(0), WhenCall(1), WhenCall(2)]
    ensures Probes(0, 4) == [WhenCall(0), WhenCall(1), WhenCall(2), WhenCall(3)]
  {
  }

  /** With every context holding a When, the loop calls each in turn. */
  lemma {:induction false} AllProbed(whens: seq<WhenCtx>, i: nat, k: nat)
    requires i <= k <= |whens|
    requires forall j :: i <= j < k ==> whens[j].it.when.Some?
    ensures WhenCalls(whens, i, k) == Probes(i, k)
    decreases k - i
  {
    if i < k {
      AllProbed(whens, i + 1, k);
    }
  }

  /** Rule `j` fires exactly when its prefix starts the path it sees, and
      no rule pauses without firing. */
  lemma RuleFires(reg: Registry, whens: seq<WhenCtx>, h: Host, ev: HttpEvent, j: nat)
    requires Serves(reg) && RuleWhens(reg, whens) && j < 4
    ensures Fires(whens[j], h, ev) <==> PyStr.StartsWith(SeenPath(h, ev), Prefixes[j])
    ensures !PausesWithoutFiring(whens[j], h, ev)
  {
    var u := UpdateWhenCtx(whens[j], ev);
    assert u.it.when == Some(PathPrefix(Prefixes[j]));
  }

  /** The first firing context is the rule the seen path selects, every
      context holds a When, and nothing pauses without firing. */
  lemma {:induction false} FirstFiringIsRule(reg: Registry, whens: seq<WhenCtx>, h: Host, ev: HttpEvent)
    requires Serves(reg) && RuleWhens(reg, whens)
    ensures FirstFiring(whens, h, ev, 0) == RuleFor(SeenPath(h, ev))
    ensures !SomePauses(whens, h, ev, 0)
    ensures forall j :: 0 <= j < 4 ==> whens[j].it.when.Some?
  {
    var path := SeenPath(h, ev);
    forall j | 0 <= j < 4
      ensures Fires(whens[j], h, ev) <==> PyStr.StartsWith(path, Prefixes[j])
      ensures !PausesWithoutFiring(whens[j], h, ev)
    {
      RuleFires(reg, whens, h, ev, j);
    }
    var f := FirstFiring(whens, h, ev, 0);
    var r := RuleFor(path);
    if f.Some? {
      assert r.Some?;
      AtMostOneRule(path, f.value, r.value);
    }
  }

  /** The contexts the loop runs on: kept from an earlier stage, or made
      from the four rules. */
  lemma LoopContexts(reg: Registry, s: Stream, ev: HttpEvent)
    requires Serves(reg)
    requires s.whens.Some? ==> RuleWhens(reg, s.whens.value)
    ensures RuleWhens(reg, if s.whens.Some? then s.whens.value else MakeWhenCtxs(Interceptors(reg, TestPort), ev))
  {
  }

  /** One stage call on port 15001 of a stream no rule has taken yet, when
      no rule's prefix starts the path the Whens see: the call asks all
      four Whens, continues and changes nothing. */
  lemma {:induction false} NoRuleStage(reg: Registry, port: Fetch, s: Stream, h: Host, ev: HttpEvent)
    requires Serves(reg) && GetIntProperty(port) == Success(TestPort)
    requires s.skip == UndefinedAction && s.doCtx.None?
    requires s.whens.Some? ==> RuleWhens(reg, s.whens.value)
    requires RuleFor(SeenPath(h, ev)).None?
    ensures var r := Run(reg, port, s, h, ev);
      && r.action == ActionContinue && r.host == h && r.calls == Probes(0, 4)
      && r.stream.skip == UndefinedAction && r.stream.doCtx.None?
      && RuleWhens(reg, r.stream.whens.value)
  {
    RunEvaluatesWhens(reg, port, s, h, ev);
    var whens := if s.whens.Some? then s.whens.value else MakeWhenCtxs(Interceptors(reg, TestPort), ev);
    LoopContexts(reg, s, ev);
    FirstFiringIsRule(reg, whens, h, ev);
    AllProbed(whens, 0, 4);
  }

  /** One stage call on port 15001 of a stream no rule has taken yet, when
      rule `k`'s prefix starts the path the Whens see: the call asks the
      Whens up to rule `k`, stamps its name in the trace header and runs
      its Do at once. */
  lemma {:induction false} RuleStage(reg: Registry, port: Fetch, s: Stream, h: Host, ev: HttpEvent, k: nat)
    requires Serves(reg) && GetIntProperty(port) == Success(TestPort)
    requires s.skip == UndefinedAction && s.doCtx.None?
    requires s.whens.Some? ==> RuleWhens(reg, s.whens.value)
    requires RuleFor(SeenPath(h, ev)) == Some(k)
    ensures var r := Run(reg, port, s, h, ev);
      var it := Interceptors(reg, TestPort)[k];
      && r.calls == Probes(0, k + 1) + [DoCall(Names[k])]
      && r.action == ActionOf(MatchedDo(it, TestPort, h, ev).paused)
      && r.host == MatchedHost(it, TestPort, h, ev)
      && (r.stream.doCtx.None? <==> MatchedDo(it, TestPort, h, ev).done)
      && (r.stream.doCtx.None? ==> r.stream.skip == r.action)
      && (r.stream.doCtx.Some? ==> r.stream.skip == UndefinedAction && r.stream.doCtx.value.it == it)
  {
    var r := Run(reg, port, s, h, ev);
    var whens := if s.whens.Some? then s.whens.value else MakeWhenCtxs(Interceptors(reg, TestPort), ev);
    RunEvaluatesWhens(reg, port, s, h, ev);
    LoopContexts(reg, s, ev);
    FirstFiringIsRule(reg, whens, h, ev);
    RuleLoop(reg, whens, s, h, ev, r, k);
  }

  /** The loop outcome of a stage whose first firing rule is `k`. */
  lemma {:induction false} RuleLoop(reg: Registry, whens: seq<WhenCtx>, s: Stream, h: Host, ev: HttpEvent, r: Step, k: nat)
    requires Serves(reg) && RuleWhens(reg, whens) && k < 4
    requires forall j :: 0 <= j < 4 ==> whens[j].it.when.Some?
    requires LoopOutcome(TestPort, whens, 0, s, h, ev, false, [], r)
    requires FirstFiring(whens, h, ev, 0) == Some(k)
    ensures var it := Interceptors(reg, TestPort)[k];
      && r.calls == Probes(0, k + 1) + [DoCall(Names[k])]
      && r.action == ActionOf(MatchedDo(it, TestPort, h, ev).paused)
      && r.host == MatchedHost(it, TestPort, h, ev)
      && (r.stream.doCtx.None? <==> MatchedDo(it, TestPort, h, ev).done)
      && (r.stream.doCtx.None? ==> r.stream.skip == r.action)
      && (r.stream.doCtx.Some? ==> r.stream.skip == s.skip && r.stream.doCtx.value.it == it)
  {
    assert whens[k].it == Interceptors(reg, TestPort)[k];
    AllProbed(whens, 0, k + 1);
    assert r.calls == [] + WhenCalls(whens, 0, k + 1) + [DoCall(whens[k].it.name)];
  }

  /** On the response side no rule ever fires: a stream no rule took on
      its request passes its response through untouched. */
  lemma {:induction false} ResponsesNeverMatch(reg: Registry, port: Fetch, s: Stream, h: Host, ev: HttpEvent)
    requires Serves(reg) && GetIntProperty(port) == Success(TestPort)
    requires s.skip == UndefinedAction && s.doCtx.None? && s.whens.Some? && RuleWhens(reg, s.whens.value)
    requires !ev.stage.IsRequest()
    ensures var r := Run(reg, port, s, h, ev);
      r.action == ActionContinue && r.host == h && r.stream.doCtx.None? && r.stream.skip == UndefinedAction
  {
    assert RuleFor("") == None;
    NoRuleStage(reg, port, s, h, ev);
  }

  // ---------------------------------------------------------------------
  // The expected outcomes.

  /** No rule's prefix starts "/bypass". */
  lemma BypassMatchesNoRule()
    ensures RuleFor("/bypass").None?
  {
    var p := "/bypass";
    assert |p| == 7 && p[1] == 'b';
    assert |Prefixes[0]| == 8 && Prefixes[1][1] == 'p' && |Prefixes[2]| == 9 && |Prefixes[3]| == 9;
  }

  /** A path no rule's prefix starts, such as "/bypass", goes through: the
      request headers continue with the host unchanged and all four Whens
      asked, and the stream stays open to the later stages. */
  lemma {:induction false} BypassPasses(reg: Registry, port: Fetch, h: Host, size: int, end: bool)
    requires Serves(reg) && GetIntProperty(port) == Success(TestPort)
    requires Header(h.reqHeaders, PathHeader) == "/bypass"
    ensures var r := Run(reg, port, NewStream, h, HttpEvent(RequestHeaders, size, end));
      && r.action == ActionContinue && r.host == h && r.calls == [WhenCall(0), WhenCall(1), WhenCall(2), WhenCall(3)]
      && r.stream.skip == UndefinedAction && r.stream.doCtx.None? && RuleWhens(reg, r.stream.whens.value)
  {
    BypassMatchesNoRule();
    ProbesListed();
    NoRuleStage(reg, port, NewStream, h, HttpEvent(RequestHeaders, size, end));
  }

  /** Matched before the response headers, `DoBlock` neither finishes nor
      pauses. */
  lemma BlockWaitsWhenMatched(it: Interceptor, port: int, h: Host, ev: HttpEvent)
    requires it.do == Helpers.DoBlock && ev.stage != ResponseHeaders
    ensures !MatchedDo(it, port, h, ev).done && !MatchedDo(it, port, h, ev).paused
  {
  }

  /** `DoPause` finishes and pauses on the event it matched. */
  lemma PauseFinishesWhenMatched(it: Interceptor, port: int, h: Host, ev: HttpEvent)
    requires it.do == Helpers.DoPause
    ensures MatchedDo(it, port, h, ev).done && MatchedDo(it, port, h, ev).paused
  {
  }

  /** Matched on the request side, a body rewriter neither finishes nor
      pauses. */
  lemma RewriterWaitsWhenMatched(it: Interceptor, port: int, h: Host, ev: HttpEvent, rewrite: Bytes -> Bytes)
    requires it.do == Helpers.DoModifyHttpResponseBody(rewrite) && ev.stage.IsRequest()
    ensures !MatchedDo(it, port, h, ev).done && !MatchedDo(it, port, h, ev).paused
  {
  }

  /** While the request is still on its way, `DoBlock` lets every stage
      through and stays installed; at the response headers it answers with
      the 418 whose body is `BlockBody`, "hey you", pauses the stream and
      caches the pause. */
  lemma {:induction false} BlockAnswersAtResponseHeaders(reg: Registry, port: Fetch, s: Stream, h: Host, ev: HttpEvent)
    requires s.skip == UndefinedAction && s.doCtx.Some? && s.doCtx.value.it.do == Helpers.DoBlock
    ensures var r := Run(reg, port, s, h, ev);
      && r.calls == [DoCall(s.doCtx.value.it.name)]
      && (ev.stage != ResponseHeaders ==>
            && r.action == ActionContinue && r.host.sent == h.sent
            && r.stream.skip == UndefinedAction && r.stream.doCtx.Some? && r.stream.doCtx.value.it == s.doCtx.value.it)
      && (ev.stage == ResponseHeaders ==>
            && r.action == ActionPause && r.stream.skip == ActionPause
            && r.host.sent.Some? && r.host.sent.value.status == Helpers.BlockedStatus
            && r.host.sent.value.body == Helpers.BlockBody())
  {
    if ev.stage == ResponseHeaders {
      BlockAnswers(reg, port, s, h, ev);
    } else {
      BlockWaits(reg, port, s, h, ev);
    }
  }

  /** Before the response headers an installed `DoBlock` stays installed
      and sends nothing. */
  lemma {:induction false} BlockWaits(reg: Registry, port: Fetch, s: Stream, h: Host, ev: HttpEvent)
    requires s.skip == UndefinedAction && s.doCtx.Some? && s.doCtx.value.it.do == Helpers.DoBlock
    requires ev.stage != ResponseHeaders
    ensures var r := Run(reg, port, s, h, ev);
      && r.calls == [DoCall(s.doCtx.value.it.name)]
      && r.action == ActionContinue && r.host.sent == h.sent
      && r.stream.skip == UndefinedAction && r.stream.doCtx.Some? && r.stream.doCtx.value.it == s.doCtx.value.it
  {
    RunWithDo(reg, port, s, h, ev);
    var d := UpdateDoCtx(s.doCtx.value, ev);
    var o := Helpers.DoBlock(DoInput(d.stage, d.port, d.end, d.bodySize, d.data, ExactStageView(h, d.stage)));
    assert DoOutcome(s.doCtx.value, h, ev) == o;
    var g := ExactStage(ev.stage);
    var mark := SetRequestTrailer("x-blocked", "1");
    if d.data.NoData? {
      assert o.effects == [mark];
      assert Allowed(o.effects, g) == [mark];
      assert ApplyAll(h, [mark]) == Apply(h, mark);
    } else {
      assert o.effects == [];
    }
  }

  /** At the response headers an installed `DoBlock` sends its 418 and
      pauses for good. */
  lemma {:induction false} BlockAnswers(reg: Registry, port: Fetch, s: Stream, h: Host, ev: HttpEvent)
    requires s.skip == UndefinedAction && s.doCtx.Some? && s.doCtx.value.it.do == Helpers.DoBlock
    requires ev.stage == ResponseHeaders
    ensures var r := Run(reg, port, s, h, ev);
      && r.calls == [DoCall(s.doCtx.value.it.name)]
      && r.action == ActionPause && r.stream.skip == ActionPause
      && r.host.sent.Some? && r.host.sent.value.status == Helpers.BlockedStatus
      && r.host.sent.value.body == Helpers.BlockBody()
  {
    RunWithDo(reg, port, s, h, ev);
    var d := UpdateDoCtx(s.doCtx.value, ev);
    var o := Helpers.DoBlock(DoInput(d.stage, d.port, d.end, d.bodySize, d.data, ExactStageView(h, d.stage)));
    assert DoOutcome(s.doCtx.value, h, ev) == o;
    var g := ExactStage(ev.stage);
    var mark := SetRequestTrailer("x-blocked", "1");
    var send := SendResponse(Helpers.BlockResponse(o.data.s));
    if d.data.NoData? {
      assert o.effects == [mark, send];
      assert Allowed(o.effects, g) == [mark, send];
      assert ApplyAll(h, [mark, send]) == ApplyAll(Apply(h, mark), [send]);
      assert ApplyAll(Apply(h, mark), [send]) == Apply(Apply(h, mark), send);
    } else {
      assert o.effects == [send];
      assert Allowed(o.effects, g) == [send];
      assert ApplyAll(h, [send]) == Apply(h, send);
    }
  }

  /** A request whose path starts with "/blocked" (the path "/blocked"
      itself, or "/blocked-just-a-prefix") is let through at its headers
      with `DoBlock` installed, and is answered with a 418 carrying
      "hey you" when the response headers arrive. */
  lemma {:induction false} BlockedGetsTeapot(reg: Registry, port: Fetch, h: Host, size: int, end: bool, h2: Host, size2: int, end2: bool)
    requires Serves(reg) && GetIntProperty(port) == Success(TestPort)
    requires PyStr.StartsWith(Header(h.reqHeaders, PathHeader), "/blocked")
    ensures var r1 := Run(reg, port, NewStream, h, HttpEvent(RequestHeaders, size, end));
      var r2 := Run(reg, port, r1.stream, h2, HttpEvent(ResponseHeaders, size2, end2));
      && r1.action == ActionContinue && r1.calls == [WhenCall(0), DoCall("/blocked path")]
      && r2.action == ActionPause && r2.calls == [DoCall("/blocked path")] && r2.stream.skip == ActionPause
      && r2.host.sent.Some? && r2.host.sent.value.status == 418
      && r2.host.sent.value.body == Helpers.BlockBody()
  {
    var r1 := Run(reg, port, NewStream, h, HttpEvent(RequestHeaders, size, end));
    BlockInstalled(reg, port, h, size, end);
    BlockAnswers(reg, port, r1.stream, h2, HttpEvent(ResponseHeaders, size2, end2));
  }

  /** The first half of the "/blocked" scenario: the request headers go on
      with `DoBlock` installed. */
  lemma {:induction false} BlockInstalled(reg: Registry, port: Fetch, h: Host, size: int, end: bool)
    requires Serves(reg) && GetIntProperty(port) == Success(TestPort)
    requires PyStr.StartsWith(Header(h.reqHeaders, PathHeader), "/blocked")
    ensures var r := Run(reg, port, NewStream, h, HttpEvent(RequestHeaders, size, end));
      && r.action == ActionContinue && r.calls == [WhenCall(0), DoCall("/blocked path")]
      && r.stream.skip == UndefinedAction && r.stream.doCtx.Some?
      && r.stream.doCtx.value.it.do == Helpers.DoBlock && r.stream.doCtx.value.it.name == "/blocked path"
  {
    BlockWaitsWhenMatched(Interceptors(reg, TestPort)[BlockIndex], TestPort, h, HttpEvent(RequestHeaders, size, end));
    WaitingRuleInstalled(reg, port, h, size, end, BlockIndex);
    ProbesListed();
  }

  /** A request whose path starts with "/paused" is paused at its headers,
      and the cached pause answers every later stage: the client never
      receives a response. */
  lemma {:induction false} PausedNeverAnswers(reg: Registry, port: Fetch, h: Host, size: int, end: bool, evs: seq<HttpEvent>)
    requires Serves(reg) && GetIntProperty(port) == Success(TestPort)
    requires PyStr.StartsWith(Header(h.reqHeaders, PathHeader), "/paused")
    ensures var r := RunEvents(reg, port, NewStream, h, [HttpEvent(RequestHeaders, size, end)] + evs);
      && r.calls == [WhenCall(0), WhenCall(1), DoCall("/paused path")]
      && forall j :: 0 <= j < |r.actions| ==> r.actions[j] == ActionPause
  {
    PauseTaken(reg, port, h, size, end);
    DecidedAtFirst(reg, port, NewStream, h, HttpEvent(RequestHeaders, size, end), evs);
  }

  /** A stage that answers with the action it caches fixes the action of
      every later stage, and no later stage calls anything. */
  lemma {:induction false} DecidedAtFirst(reg: Registry, port: Fetch, s: Stream, h: Host, ev: HttpEvent, evs: seq<HttpEvent>)
    requires Run(reg, port, s, h, ev).stream.skip != UndefinedAction
    requires Run(reg, port, s, h, ev).action == Run(reg, port, s, h, ev).stream.skip
    ensures var r := RunEvents(reg, port, s, h, [ev] + evs);
      && r.calls == Run(reg, port, s, h, ev).calls
      && forall j :: 0 <= j < |r.actions| ==> r.actions[j] == Run(reg, port, s, h, ev).action
  {
    var all := [ev] + evs;
    assert all[0] == ev && all[1..] == evs;
    var r1 := Run(reg, port, s, h, ev);
    SkipIsFinal(reg, port, r1.stream, r1.host, evs);
    var rest := RunEvents(reg, port, r1.stream, r1.host, evs);
    assert RunEvents(reg, port, s, h, all).actions == [r1.action] + rest.actions;
    assert RunEvents(reg, port, s, h, all).calls == r1.calls + [];
  }

  /** The first stage of the "/paused" scenario: `DoPause` runs at once,
      finishes and caches the pause. */
  lemma {:induction false} PauseTaken(reg: Registry, port: Fetch, h: Host, size: int, end: bool)
    requires Serves(reg) && GetIntProperty(port) == Success(TestPort)
    requires PyStr.StartsWith(Header(h.reqHeaders, PathHeader), "/paused")
    ensures var r := Run(reg, port, NewStream, h, HttpEvent(RequestHeaders, size, end));
      && r.action == ActionPause && r.stream.skip == ActionPause
      && r.calls == [WhenCall(0), WhenCall(1), DoCall("/paused path")]
  {
    var ev := HttpEvent(RequestHeaders, size, end);
    RuleForPrefix(Header(h.reqHeaders, PathHeader), PauseIndex);
    RuleStage(reg, port, NewStream, h, ev, PauseIndex);
    ProbesListed();
    PauseFinishesWhenMatched(Interceptors(reg, TestPort)[PauseIndex], TestPort, h, ev);
  }

  /** Matched on the request side, a body replacer neither finishes nor
      pauses. */
  lemma ReplacerWaitsWhenMatched(it: Interceptor, port: int, h: Host, ev: HttpEvent, body: Bytes)
    requires it.do == Helpers.DoReplaceHttpResponseBody(body) && ev.stage.IsRequest()
    ensures !MatchedDo(it, port, h, ev).done && !MatchedDo(it, port, h, ev).paused
  {
  }

  /** A request whose path starts with rule `k`'s prefix, when that rule's
      Do neither finishes nor pauses on the headers, continues with the
      rule installed. */
  lemma {:induction false} WaitingRuleInstalled(reg: Registry, port: Fetch, h: Host, size: int, end: bool, k: nat)
    requires Serves(reg) && GetIntProperty(port) == Success(TestPort)
    requires k < 4 && PyStr.StartsWith(Header(h.reqHeaders, PathHeader), Prefixes[k])
    requires var it := Interceptors(reg, TestPort)[k];
      var o := MatchedDo(it, TestPort, h, HttpEvent(RequestHeaders, size, end));
      !o.done && !o.paused
    ensures var r := Run(reg, port, NewStream, h, HttpEvent(RequestHeaders, size, end));
      && r.action == ActionContinue && r.calls == Probes(0, k + 1) + [DoCall(Names[k])]
      && r.stream.skip == UndefinedAction && r.stream.doCtx.Some?
      && r.stream.doCtx.value.it == Interceptors(reg, TestPort)[k]
  {
    RuleForPrefix(Header(h.reqHeaders, PathHeader), k);
    RuleStage(reg, port, NewStream, h, HttpEvent(RequestHeaders, size, end), k);
  }

  /** A request whose path starts with rule `k`'s prefix, for one of the
      two rewriting rules, continues at its headers with that rule's
      rewriter installed. */
  lemma {:induction false} RewriterInstalled(reg: Registry, port: Fetch, h: Host, size: int, end: bool, k: nat)
    requires Serves(reg) && GetIntProperty(port) == Success(TestPort)
    requires k == ModifyIndex || k == ReplaceIndex
    requires PyStr.StartsWith(Header(h.reqHeaders, PathHeader), Prefixes[k])
    ensures var r := Run(reg, port, NewStream, h, HttpEvent(RequestHeaders, size, end));
      && r.action == ActionContinue && r.calls == Probes(0, k + 1) + [DoCall(Names[k])]
      && r.stream.skip == UndefinedAction && r.stream.doCtx.Some?
      && r.stream.doCtx.value.it == Interceptors(reg, TestPort)[k]
  {
    var ev := HttpEvent(RequestHeaders, size, end);
    var it := Interceptors(reg, TestPort)[k];
    if k == ModifyIndex {
      RewriterWaitsWhenMatched(it, TestPort, h, ev, AsciiUpper);
    } else {
      ReplacerWaitsWhenMatched(it, TestPort, h, ev, ReplacementBody());
    }
    WaitingRuleInstalled(reg, port, h, size, end, k);
  }

  /** An installed `DoModifyHttpResponseBody(rewrite)` waits through the
      request and the response headers, holds a partial response body, and
      at the end of the body swaps in `rewrite` of the buffered bytes and
      finishes. */
  lemma {:induction false} RewriterStage(reg: Registry, port: Fetch, s: Stream, h: Host, ev: HttpEvent, rewrite: Bytes -> Bytes)
    requires s.skip == UndefinedAction && s.doCtx.Some? && s.doCtx.value.it.do == Helpers.DoModifyHttpResponseBody(rewrite)
    ensures var r := Run(reg, port, s, h, ev);
      && r.calls == [DoCall(s.doCtx.value.it.name)]
      && (ev.stage == ResponseBody && ev.end && 0 <= ev.size <= |h.respBody| ==>
            && r.action == ActionContinue && r.stream.skip == ActionContinue
            && r.host == h.(respBody := rewrite(h.respBody[..ev.size])))
      && (!(ev.stage == ResponseBody && ev.end) ==>
            && r.stream.skip == UndefinedAction && r.stream.doCtx.Some? && r.stream.doCtx.value.it == s.doCtx.value.it
            && (r.action == ActionPause <==> ev.stage == ResponseBody))
  {
    RunWithDo(reg, port, s, h, ev);
    var d := UpdateDoCtx(s.doCtx.value, ev);
    var input := DoInput(d.stage, d.port, d.end, d.bodySize, d.data, ExactStageView(h, d.stage));
    assert DoOutcome(s.doCtx.value, h, ev) == Helpers.ModifyBody(rewrite, input);
    Helpers.ModifyBodyEffects(rewrite, h, ev.stage, ev.end, ev.size, d.port, d.data);
  }

  /** The end of a "/modified" response body: the client receives the
      backend's text upper-cased. */
  lemma {:induction false} ModifiedBodyIsUpperCased(reg: Registry, port: Fetch, s: Stream, h: Host, size: int, text: string)
    requires Serves(reg)
    requires s.skip == UndefinedAction && s.doCtx.Some? && s.doCtx.value.it == Interceptors(reg, TestPort)[ModifyIndex]
    requires forall i :: 0 <= i < |text| ==> text[i] as int < 128
    requires h.respBody == Helpers.AsciiBytes(text) && size == |text|
    ensures forall i :: 0 <= i < |PyStr.Upper(text)| ==> PyStr.Upper(text)[i] as int < 128
    ensures Run(reg, port, s, h, HttpEvent(ResponseBody, size, true)).host.respBody
         == Helpers.AsciiBytes(PyStr.Upper(text))
  {
    RewriterStage(reg, port, s, h, HttpEvent(ResponseBody, size, true), AsciiUpper);
    AsciiUpperOfText(text);
    assert h.respBody[..size] == h.respBody;
  }

  /** The end of a "/replaced" response body: whatever the backend sent,
      the client receives "new response body". */
  lemma {:induction false} ReplacedBodyIsFixed(reg: Registry, port: Fetch, s: Stream, h: Host, size: int)
    requires Serves(reg)
    requires s.skip == UndefinedAction && s.doCtx.Some? && s.doCtx.value.it == Interceptors(reg, TestPort)[ReplaceIndex]
    requires 0 <= size <= |h.respBody|
    ensures Run(reg, port, s, h, HttpEvent(ResponseBody, size, true)).host.respBody == ReplacementBody()
  {
    var ev := HttpEvent(ResponseBody, size, true);
    RunWithDo(reg, port, s, h, ev);
    var d := UpdateDoCtx(s.doCtx.value, ev);
    Helpers.ReplaceBodyIsExact(ReplacementBody(), h, size, d.port, d.data);
  }
}

/** The first-generation HTTP engine: When is a plain predicate evaluated
    afresh on every stage until one matches, Do runs until it reports done,
    every accessor is gated by the side (request or response) alone, and the
    trace header accumulates a comma-separated list of interceptor names. */
module LegacyEngine {
  import opened Wrappers
  import opened Proxy
  import opened HttpHost
  import opened PyStr

  datatype WhenInput = WhenInput(stage: HttpStage, end: bool, bodySize: int, view: View)

  datatype DoInput = DoInput(stage: HttpStage, port: int, end: bool, bodySize: int, view: View)

  /** What a Do decides: done (ignore further calls), paused, and the host
      changes it asked for, in order. */
  datatype DoOutput = DoOutput(done: bool, paused: bool, effects: seq<Effect>)

  type WhenFn = WhenInput -> bool
  type DoFn = DoInput -> DoOutput

  datatype Interceptor = Interceptor(name: string, when: Option<WhenFn>, do: DoFn)

  type Registry = map<int, seq<Interceptor>>

  function Interceptors(reg: Registry, port: int): seq<Interceptor> {
    if port in reg then reg[port] else []
  }

  /** `RegisterInterceptor`: append to the port's list. */
  function Register(reg: Registry, port: int, it: Interceptor): (r: Registry)
    ensures Interceptors(r, port) == Interceptors(reg, port) + [it]
    ensures forall p :: p != port ==> Interceptors(r, p) == Interceptors(reg, p)
  {
    reg[port := Interceptors(reg, port) + [it]]
  }

  /** The per-stream state: the cached outcome and the Do in progress. */
  datatype Stream = Stream(skip: Action, do: Option<DoFn>)

  const NewStream: Stream := Stream(UndefinedAction, None)

  datatype HttpEvent = HttpEvent(stage: HttpStage, size: int, end: bool)

  datatype Step = Step(action: Action, stream: Stream, host: Host)

  function ActionOf(paused: bool): (a: Action)
    ensures a == ActionPause <==> paused
    ensures a == ActionContinue <==> !paused
  {
    if paused then ActionPause else ActionContinue
  }

  // ---------------------------------------------------------------------
  // The trace header

  /** A comma-separated list holds `name` as one of its trimmed items. */
  predicate HasToken(list: string, name: string) {
    exists j :: 0 <= j < |Split(list, ",")| && Strip(Split(list, ",")[j]) == name
  }

  /** `appendToken`: add `name` to the list unless it is already there.
      The list only ever grows at its end. */
  function AppendToken(existing: string, name: string): (r: string)
    ensures existing == "" ==> r == name
    ensures existing != "" ==> StartsWith(r, existing)
    ensures existing != "" && HasToken(existing, name) ==> r == existing
    ensures existing != "" && !HasToken(existing, name) ==> |r| == |existing| + 1 + |name| && EndsWith(r, name)
    ensures existing != "" && !HasToken(existing, name) ==> r[|existing|] == ','
  {
    if existing == "" then name
    else if HasToken(existing, name) then existing
    else
      var r := existing + "," + name;
      assert r[..|existing|] == existing;
      assert r[|r| - |name|..] == name;
      r
  }

  /** A name the list can hold as one item: no comma, no surrounding space. */
  predicate CleanName(name: string) {
    (forall i :: 0 <= i < |name| ==> name[i] != ',') && Strip(name) == name
  }

  /** After `AppendToken` the list holds `name`, and the items it held
      before are still its leading items. */
  lemma {:induction false} AppendTokenRecords(existing: string, name: string)
    requires CleanName(name)
    ensures HasToken(AppendToken(existing, name), name)
    ensures existing != "" ==>
      var before := Split(existing, ",");
      var after := Split(AppendToken(existing, name), ",");
      |before| <= |after| && after[..|before|] == before
  {
    var r := AppendToken(existing, name);
    if existing == "" {
      assert r == name;
      SingleToken(name);
    } else if !HasToken(existing, name) {
      assert r == existing + "," + name;
      AppendedToken(existing, name);
    } else {
      assert r == existing;
    }
  }

  /** A clean name on its own is a one-item list holding it. */
  lemma {:induction false} SingleToken(name: string)
    requires CleanName(name)
    ensures Split(name, ",") == [name]
    ensures HasToken(name, name)
  {
    NoCharNotContains(name, ',');
    assert Split(name, ",")[0] == name;
  }

  lemma {:induction false} AppendedToken(existing: string, name: string)
    requires CleanName(name)
    ensures Split(existing + "," + name, ",") == Split(existing, ",") + [name]
    ensures HasToken(existing + "," + name, name)
  {
    assert existing + "," + name == existing + [','] + name;
    SplitAppend(existing, ',', name);
    var after := Split(existing + "," + name, ",");
    assert after[|after| - 1] == name;
  }

  /** Tracing the same interceptor twice leaves the header as tracing it
      once. */
  lemma AppendTokenIdempotent(existing: string, name: string)
    requires CleanName(name)
    ensures AppendToken(AppendToken(existing, name), name) == AppendToken(existing, name)
  {
    AppendTokenRecords(existing, name);
    var r := AppendToken(existing, name);
    if r == "" {
      assert existing == "" && name == "";
    }
  }

  /** Without the precondition idempotence fails: a name made of two clean
      names joined by a comma is never recognised as present, so it is
      appended again on every trace. */
  lemma {:induction false} CommaNameAppendedTwice(a: string, b: string)
    requires CleanName(a) && CleanName(b)
    ensures var n := a + "," + b;
      AppendToken(AppendToken("", n), n) == n + "," + n
  {
    var n := a + "," + b;
    CommaNameAbsent(a, b);
    assert AppendToken(n, n) == n + "," + n;
  }

  /** A comma-joined name is not an item of itself. */
  lemma {:induction false} CommaNameAbsent(a: string, b: string)
    requires CleanName(a) && CleanName(b)
    ensures !HasToken(a + "," + b, a + "," + b)
  {
    var n := a + "," + b;
    TwoParts(a, b);
  }

  lemma {:induction false} TwoParts(a: string, b: string)
    requires CleanName(a) && CleanName(b)
    ensures Split(a + "," + b, ",") == [a, b]
  {
    NoCharNotContains(a, ',');
    assert Split(a, ",") == [a];
    assert a + "," + b == a + [','] + b;
    SplitAppend(a, ',', b);
  }

  /** `trace`: append the name to `x-intercepted-by` on the current side. */
  function Trace(h: Host, isReq: bool, name: string): (r: Host)
    ensures isReq ==> r.reqHeaders == h.reqHeaders[TraceHeader := AppendToken(Header(h.reqHeaders, TraceHeader), name)]
    ensures isReq ==> r.respHeaders == h.respHeaders
    ensures !isReq ==> r.respHeaders == h.respHeaders[TraceHeader := AppendToken(Header(h.respHeaders, TraceHeader), name)]
    ensures !isReq ==> r.reqHeaders == h.reqHeaders
    ensures r.reqBody == h.reqBody && r.respBody == h.respBody && r.reqTrailers == h.reqTrailers && r.sent == h.sent
  {
    if isReq then h.(reqHeaders := h.reqHeaders[TraceHeader := AppendToken(Header(h.reqHeaders, TraceHeader), name)])
    else h.(respHeaders := h.respHeaders[TraceHeader := AppendToken(Header(h.respHeaders, TraceHeader), name)])
  }

  /** Tracing is idempotent for a clean name, so a header that already lists
      an interceptor is left as it is. */
  lemma TraceIdempotent(h: Host, isReq: bool, name: string)
    requires CleanName(name)
    ensures Trace(Trace(h, isReq, name), isReq, name) == Trace(h, isReq, name)
    ensures HasToken(Header(if isReq then Trace(h, isReq, name).reqHeaders else Trace(h, isReq, name).respHeaders, TraceHeader), name)
  {
    if isReq {
      TraceHeadersIdempotent(h.reqHeaders, name);
    } else {
      TraceHeadersIdempotent(h.respHeaders, name);
    }
  }

  lemma {:induction false} TraceHeadersIdempotent(m: Headers, name: string)
    requires CleanName(name)
    ensures var m1 := m[TraceHeader := AppendToken(Header(m, TraceHeader), name)];
      && m1[TraceHeader := AppendToken(Header(m1, TraceHeader), name)] == m1
      && HasToken(Header(m1, TraceHeader), name)
  {
    var v := AppendToken(Header(m, TraceHeader), name);
    var m1 := m[TraceHeader := v];
    assert Header(m1, TraceHeader) == v;
    AppendTokenIdempotent(Header(m, TraceHeader), name);
    AppendTokenRecords(Header(m, TraceHeader), name);
    assert AppendToken(v, name) == v;
    MapSetSame(m1, TraceHeader, v);
  }

  lemma MapSetSame(m: Headers, k: string, v: string)
    requires k in m && m[k] == v
    ensures m[k := v] == m
  {
  }

  // ---------------------------------------------------------------------
  // The engine

  /** Run the installed Do with the side-gated accessors. The Do context's
      port is always 0: `run` passes a literal 0 when building it. */
  function RunDo(s: Stream, h: Host, ev: HttpEvent): (r: Step)
    requires s.do.Some?
    ensures var out := s.do.value(DoInput(ev.stage, 0, ev.end, ev.size, SideView(h, ev.stage.IsRequest())));
      && r.action == ActionOf(out.paused)
      && r.host == ApplyEffects(h, out.effects, Side(ev.stage.IsRequest()))
      && (out.done ==> r.stream == Stream(r.action, None))
      && (!out.done ==> r.stream == s)
  {
    var isReq := ev.stage.IsRequest();
    var out := s.do.value(DoInput(ev.stage, 0, ev.end, ev.size, SideView(h, isReq)));
    var action := ActionOf(out.paused);
    var h' := ApplyEffects(h, out.effects, Side(isReq));
    if out.done then Step(action, Stream(action, None), h') else Step(action, s, h')
  }

  /** The `for _, it := range ints` loop from index `i`; every When sees the
      same host, since nothing changes it before a match. */
  function Scan(ints: seq<Interceptor>, i: nat, s: Stream, h: Host, ev: HttpEvent): (r: Step)
    requires i <= |ints| && s.do.None?
    decreases |ints| - i
  {
    if i == |ints| then Step(ActionContinue, s, h)
    else
      var it := ints[i];
      match it.when
      case None => Scan(ints, i + 1, s, h, ev)
      case Some(when) =>
        if when(WhenInput(ev.stage, ev.end, ev.size, SideView(h, ev.stage.IsRequest()))) then
          RunDo(s.(do := Some(it.do)), Trace(h, ev.stage.IsRequest(), it.name), ev)
        else Scan(ints, i + 1, s, h, ev)
  }

  /** `httpCtx.run` for one stage callback. */
  function Run(reg: Registry, port: Fetch, s: Stream, h: Host, ev: HttpEvent): (r: Step)
    ensures s.skip != UndefinedAction ==> r == Step(s.skip, s, h)
    ensures s.skip == UndefinedAction && s.do.Some? ==> r == RunDo(s, h, ev)
    ensures s.skip == UndefinedAction && s.do.None? && !PortHasInterceptors(reg, port) ==>
              r == Step(ActionContinue, Stream(ActionContinue, None), h)
  {
    if s.skip != UndefinedAction then Step(s.skip, s, h)
    else if s.do.Some? then RunDo(s, h, ev)
    else
      match GetIntProperty(port)
      case Failure(_) => Step(ActionContinue, s.(skip := ActionContinue), h)
      case Success(p) =>
        var ints := Interceptors(reg, p);
        if |ints| == 0 then Step(ActionContinue, s.(skip := ActionContinue), h)
        else Scan(ints, 0, s, h, ev)
  }

  predicate PortHasInterceptors(reg: Registry, port: Fetch) {
    GetIntProperty(port).Success? && |Interceptors(reg, GetIntProperty(port).value)| > 0
  }

  // ---------------------------------------------------------------------
  // The first match, stated without the loop.

  predicate Matches(it: Interceptor, h: Host, ev: HttpEvent) {
    it.when.Some? && it.when.value(WhenInput(ev.stage, ev.end, ev.size, SideView(h, ev.stage.IsRequest())))
  }

  function FirstMatch(ints: seq<Interceptor>, h: Host, ev: HttpEvent, i: nat): (r: Option<nat>)
    requires i <= |ints|
    ensures r.Some? ==> i <= r.value < |ints| && Matches(ints[r.value], h, ev)
    ensures r.Some? ==> forall j :: i <= j < r.value ==> !Matches(ints[j], h, ev)
    ensures r.None? ==> forall j :: i <= j < |ints| ==> !Matches(ints[j], h, ev)
    decreases |ints| - i
  {
    if i == |ints| then None
    else if Matches(ints[i], h, ev) then Some(i)
    else FirstMatch(ints, h, ev, i + 1)
  }

  /** The scan stops at the first interceptor whose When holds: it traces
      that name and runs that Do on the same event. With no match the call
      continues and the stream is left exactly as it was, so every When is
      asked again at the next stage. */
  lemma {:induction false} ScanFirstMatch(ints: seq<Interceptor>, i: nat, s: Stream, h: Host, ev: HttpEvent)
    requires i <= |ints| && s.do.None?
    ensures match FirstMatch(ints, h, ev, i)
      case None => Scan(ints, i, s, h, ev) == Step(ActionContinue, s, h)
      case Some(k) => Scan(ints, i, s, h, ev) == RunDo(s.(do := Some(ints[k].do)), Trace(h, ev.stage.IsRequest(), ints[k].name), ev)
    decreases |ints| - i
  {
    if i < |ints| && !Matches(ints[i], h, ev) {
      ScanFirstMatch(ints, i + 1, s, h, ev);
    }
  }

  /** `run` on a fresh stream at a port with interceptors: the first match
      decides, and without one nothing is cached. */
  lemma RunFirstMatch(reg: Registry, port: Fetch, s: Stream, h: Host, ev: HttpEvent)
    requires s.skip == UndefinedAction && s.do.None? && PortHasInterceptors(reg, port)
    ensures var ints := Interceptors(reg, GetIntProperty(port).value);
      var r := Run(reg, port, s, h, ev);
      match FirstMatch(ints, h, ev, 0)
      case None => r == Step(ActionContinue, s, h)
      case Some(k) => r == RunDo(s.(do := Some(ints[k].do)), Trace(h, ev.stage.IsRequest(), ints[k].name), ev)
  {
    ScanFirstMatch(Interceptors(reg, GetIntProperty(port).value), 0, s, h, ev);
  }

  /** Unlike the exact-stage accessors of the newer engine, a legacy Do can
      still change response headers while the response body streams. */
  lemma SideGateReachesBodyStage(h: Host, k: string, v: string)
    ensures ApplyEffects(h, [SetResponseHeader(k, v)], Side(false)).respHeaders == h.respHeaders[k := v]
    ensures ApplyEffects(h, [SetResponseHeader(k, v)], ExactStage(ResponseBody)) == h
  {
    var e := SetResponseHeader(k, v);
    assert Allowed([e], Side(false)) == [e];
    assert ApplyAll(Apply(h, e), [e][1..]) == Apply(h, e);
    assert Allowed([e], ExactStage(ResponseBody)) == [];
  }

  // ---------------------------------------------------------------------
  // Whole streams

  datatype Outcome = Outcome(actions: seq<Action>, stream: Stream, host: Host)

  function RunEvents(reg: Registry, port: Fetch, s: Stream, h: Host, evs: seq<HttpEvent>): (r: Outcome)
    ensures |r.actions| == |evs|
    decreases |evs|
  {
    if |evs| == 0 then Outcome([], s, h)
    else
      var st := Run(reg, port, s, h, evs[0]);
      var rest := RunEvents(reg, port, st.stream, st.host, evs[1..]);
      Outcome([st.action] + rest.actions, rest.stream, rest.host)
  }

  /** A cached outcome is final: every later stage returns it and changes
      nothing. */
  lemma {:induction false} SkipIsFinal(reg: Registry, port: Fetch, s: Stream, h: Host, evs: seq<HttpEvent>)
    requires s.skip != UndefinedAction
    ensures var r := RunEvents(reg, port, s, h, evs);
      && r.stream == s && r.host == h
      && forall j :: 0 <= j < |r.actions| ==> r.actions[j] == s.skip
    decreases |evs|
  {
    if |evs| > 0 {
      SkipIsFinal(reg, port, s, h, evs[1..]);
    }
  }

  /** Once a Do is installed, no When runs again: the stream keeps that Do
      until it reports done, after which the outcome is cached. */
  lemma {:induction false} DoStaysInstalled(reg: Registry, port: Fetch, s: Stream, h: Host, evs: seq<HttpEvent>)
    requires s.skip == UndefinedAction && s.do.Some?
    ensures var r := RunEvents(reg, port, s, h, evs);
      (r.stream.skip == UndefinedAction && r.stream == s) || (r.stream.skip != UndefinedAction && r.stream.do.None?)
    decreases |evs|
  {
    if |evs| > 0 {
      var st := Run(reg, port, s, h, evs[0]);
      if st.stream.skip == UndefinedAction {
        DoStaysInstalled(reg, port, st.stream, st.host, evs[1..]);
      } else {
        SkipIsFinal(reg, port, st.stream, st.host, evs[1..]);
      }
    }
  }
}

/** The TCP rule the interceptor binary registers: on service port 1337,
    the interceptor "acha" fires on downstream segments longer than 300
    bytes. Its Do, `DoTcpBlock`, is not part of this model, so the
    properties below hold for whatever Do is registered with the rule. */
module TcpRule {
  import opened Wrappers
  import opened Proxy
  import opened TcpEngine

  const AchaPort: int := 1337
  const AchaName: string := "acha"

  /** Segments up to this many bytes pass the rule. */
  const AchaThreshold: int := 300

  /** The rule's condition on one data event. */
  predicate Suspicious(stage: TcpStage, size: int) {
    stage == DownstreamData && size > AchaThreshold
  }

  /** The When of "acha": it never pauses and keeps its data. */
  function AchaWhen(w: WhenInput): (o: WhenOutput)
    ensures o.matched <==> Suspicious(w.stage, w.size)
    ensures !o.paused && o.data == w.data
  {
    WhenOutput(w.stage == DownstreamData && w.size > AchaThreshold, false, w.data)
  }

  /** The registry after `registerTcpInterceptors`, with `block` as the Do. */
  function AchaRegistry(block: DoFn): (r: Registry)
    ensures Interceptors(r, AchaPort) == [Interceptor(AchaName, Some(AchaWhen), block)]
    ensures forall p :: p != AchaPort ==> Interceptors(r, p) == []
  {
    Register(map[], AchaPort, AchaName, Some(AchaWhen), block)
  }

  /** What the registered Do decides when it first runs on `ev`. */
  function BlockOutcome(block: DoFn, ev: DataEvent): DoOutput {
    block(DoInput(ev.stage, ev.size, ev.end, NoData))
  }

  /** The rule's single When context, as the connection keeps it after a
      data event the rule let through. */
  ghost predicate AchaWhens(block: DoFn, whens: seq<WhenCtx>) {
    |whens| == 1 && whens[0].it == Interceptor(AchaName, Some(AchaWhen), block)
    && whens[0].resultAction == ActionContinue
  }

  /** The When fires on a data event exactly when the event is suspicious. */
  lemma AchaFires(block: DoFn, c: WhenCtx, ev: DataEvent)
    requires c.it == Interceptor(AchaName, Some(AchaWhen), block)
    ensures Fires(c, ev) <==> Suspicious(ev.stage, ev.size)
    ensures !HoldsPause(c, ev) || c.resultAction == ActionPause
  {
  }

  /** The rule's When context on a data event, fresh or kept from an
      earlier event. */
  ghost function WhenContext(block: DoFn, s: Conn, ev: DataEvent): (c: WhenCtx)
    requires s.whens.Some? ==> AchaWhens(block, s.whens.value)
    ensures c.it == Interceptor(AchaName, Some(AchaWhen), block) && c.resultAction == ActionContinue
  {
    if s.whens.Some? then s.whens.value[0] else MakeWhenCtx(Interceptor(AchaName, Some(AchaWhen), block), ev)
  }

  /** On port 1337 a suspicious segment runs the When once and then the
      registered Do at once, and takes the Do's pause, block mark and
      completion. */
  lemma {:induction false} AchaBlocksLongSegment(block: DoFn, port: Fetch, s: Conn, h: TcpHost, ev: DataEvent)
    requires GetIntProperty(port) == Success(AchaPort)
    requires s.skip == UndefinedAction && s.doCtx.None?
    requires s.whens.Some? ==> AchaWhens(block, s.whens.value)
    requires Suspicious(ev.stage, ev.size)
    ensures var r := Run(AchaRegistry(block), port, s, h, ev);
      var out := BlockOutcome(block, ev);
      && r.calls == [WhenCall(0), DoCall(AchaName)]
      && r.action == (if out.paused then ActionPause else ActionContinue)
      && r.host.blocked == (h.blocked || out.markBlocked)
      && (out.done ==> r.conn.doCtx.None? && r.conn.skip == r.action)
      && (!out.done ==> r.conn.doCtx.Some? && r.conn.skip == UndefinedAction)
  {
    var it := Interceptor(AchaName, Some(AchaWhen), block);
    var whens := if s.whens.Some? then s.whens.value else MakeWhenCtxs([it], ev);
    assert whens[0] == WhenContext(block, s, ev);
    assert Run(AchaRegistry(block), port, s, h, ev) == EvalWhens(whens, 0, s, h, ev, false, []);
    assert UpdateDoCtx(MakeDoCtx(it, ev), ev).data == NoData;
  }

  /** On port 1337 any other segment runs the When once, continues,
      changes nothing and leaves the connection undecided, so the next
      segment is judged on its own size. */
  lemma {:induction false} AchaPassesOtherSegments(block: DoFn, port: Fetch, s: Conn, h: TcpHost, ev: DataEvent)
    requires GetIntProperty(port) == Success(AchaPort)
    requires s.skip == UndefinedAction && s.doCtx.None?
    requires s.whens.Some? ==> AchaWhens(block, s.whens.value)
    requires !Suspicious(ev.stage, ev.size)
    ensures var r := Run(AchaRegistry(block), port, s, h, ev);
      && r.calls == [WhenCall(0)]
      && r.action == ActionContinue && r.host == h
      && r.conn.skip == UndefinedAction && r.conn.doCtx.None?
      && AchaWhens(block, r.conn.whens.value)
  {
    var it := Interceptor(AchaName, Some(AchaWhen), block);
    var whens := if s.whens.Some? then s.whens.value else MakeWhenCtxs([it], ev);
    assert whens[0] == WhenContext(block, s, ev);
    var c := UpdateWhenCtx(whens[0], ev);
    var out := AchaWhen(WhenInput(c.stage, c.size, c.end, c.data));
    var c' := c.(data := out.data, resultAction := PausedAfter(c, out));
    assert Run(AchaRegistry(block), port, s, h, ev) == EvalWhens(whens, 0, s, h, ev, false, []);
    assert EvalWhens(whens, 0, s, h, ev, false, []) == EvalWhens(whens[0 := c'], 1, s, h, ev, false, [WhenCall(0)]);
  }

  /** A fresh connection on another port is left alone for good. */
  lemma OtherPortsPass(block: DoFn, port: Fetch, h: TcpHost, ev: DataEvent)
    requires GetIntProperty(port).Success? && GetIntProperty(port).value != AchaPort
    ensures Run(AchaRegistry(block), port, NewConn, h, ev) == Step(ActionContinue, NewConn.(skip := ActionContinue), h, [])
  {
  }

  /** The scenario of a connection to port 1337: a short downstream
      segment, an upstream segment of any size, and then a long downstream
      segment. The first two pass untouched and the third hands the
      connection to the registered Do. */
  lemma {:induction false} LongSegmentAfterShortOnes(block: DoFn, h: TcpHost, small: int, up: int, large: int)
    requires small <= AchaThreshold < large
    ensures var port := FetchBytes(EncodeInt64(AchaPort));
      var reg := AchaRegistry(block);
      var r1 := Run(reg, port, NewConn, h, DataEvent(DownstreamData, small, false));
      var r2 := Run(reg, port, r1.conn, r1.host, DataEvent(UpstreamData, up, false));
      var r3 := Run(reg, port, r2.conn, r2.host, DataEvent(DownstreamData, large, false));
      var out := BlockOutcome(block, DataEvent(DownstreamData, large, false));
      && r1.action == ActionContinue && r2.action == ActionContinue
      && r1.host == h && r2.host == h
      && r3.calls == [WhenCall(0), DoCall(AchaName)]
      && r3.action == (if out.paused then ActionPause else ActionContinue)
      && r3.host.blocked == (h.blocked || out.markBlocked)
  {
    var port := FetchBytes(EncodeInt64(AchaPort));
    PropertyRoundTrip(AchaPort);
    var reg := AchaRegistry(block);
    var r1 := Run(reg, port, NewConn, h, DataEvent(DownstreamData, small, false));
    AchaPassesOtherSegments(block, port, NewConn, h, DataEvent(DownstreamData, small, false));
    var r2 := Run(reg, port, r1.conn, r1.host, DataEvent(UpstreamData, up, false));
    AchaPassesOtherSegments(block, port, r1.conn, r1.host, DataEvent(UpstreamData, up, false));
    AchaBlocksLongSegment(block, port, r2.conn, r2.host, DataEvent(DownstreamData, large, false));
  }
}

/** Reusable When and Do functions for HTTP interceptors: a condition on the
    complete request body, buffered rewriting or replacement of the response
    body, an unconditional pause, and blocking with a synthetic 418. */
module Helpers {
  import opened Wrappers
  import opened Proxy
  import opened HttpHost
  import opened HttpEngine

  // ---------------------------------------------------------------------
  // CheckHttpRequestBody

  /** `CheckHttpRequestBody(passes)`: wait for the whole request body, then
      test it. */
  function CheckHttpRequestBody(passes: Bytes -> bool): WhenFn {
    (w: WhenInput) => CheckBody(passes, w)
  }

  function CheckBody(passes: Bytes -> bool, w: WhenInput): (o: WhenOutput)
    ensures o.data == w.data
    ensures w.stage != RequestBody ==> !o.matched && !o.paused
    ensures w.stage == RequestBody && !w.end ==> !o.matched && o.paused
    ensures w.stage == RequestBody && w.end ==> !o.paused
    ensures o.matched ==> ReadBody(w.view.reqBody, 0, w.bodySize).ReadOk?
  {
    if w.stage != RequestBody then WhenOutput(false, false, w.data)
    else if !w.end then WhenOutput(false, true, w.data)
    else
      match ReadBody(w.view.reqBody, 0, w.bodySize)
      case ReadErr => WhenOutput(false, false, w.data)
      case ReadNil => WhenOutput(false, false, w.data)
      case ReadOk(body) => WhenOutput(passes(body), false, w.data)
  }

  /** At the end of the request body, with the request side visible, the
      check matches exactly when the buffered body's first `size` bytes
      exist and pass. */
  lemma CheckBodyAtEnd(passes: Bytes -> bool, h: Host, size: int, data: Data)
    ensures var o := CheckBody(passes, WhenInput(RequestBody, true, size, data, SideView(h, true)));
      o.matched <==> 0 <= size <= |h.reqBody| && passes(h.reqBody[..size])
  {
  }

  // ---------------------------------------------------------------------
  // DoModifyHttpResponseBody / DoReplaceHttpResponseBody

  /** The header deletions the body rewriter asks for on every call. */
  const StaleHeaderDeletions: seq<Effect> := [DelResponseHeader("content-length"), DelResponseHeader("content-encoding")]

  /** `DoModifyHttpResponseBody(rewrite)`. */
  function DoModifyHttpResponseBody(rewrite: Bytes -> Bytes): DoFn {
    (d: DoInput) => ModifyBody(rewrite, d)
  }

  function ModifyBody(rewrite: Bytes -> Bytes, d: DoInput): (o: DoOutput)
    ensures o.data == d.data
    ensures |o.effects| >= 2 && o.effects[..2] == StaleHeaderDeletions
    ensures d.stage == ResponseBody && !d.end ==> !o.done && o.paused && o.effects == StaleHeaderDeletions
    ensures d.stage == ResponseBody && d.end ==> o.done && !o.paused
    ensures d.stage != ResponseBody ==> !o.done && !o.paused && o.effects == StaleHeaderDeletions
  {
    if d.stage == ResponseBody && !d.end then DoOutput(false, true, d.data, StaleHeaderDeletions)
    else if d.stage == ResponseBody && d.end then
      match ReadBody(d.view.respBody, 0, d.bodySize)
      case ReadErr => DoOutput(true, false, d.data, StaleHeaderDeletions)
      case ReadNil => DoOutput(true, false, d.data, StaleHeaderDeletions + [ReplaceResponseBody(rewrite([]))])
      case ReadOk(b) => DoOutput(true, false, d.data, StaleHeaderDeletions + [ReplaceResponseBody(rewrite(b))])
    else DoOutput(false, false, d.data, StaleHeaderDeletions)
  }

  /** Under the exact-stage accessors the rewriter's deletions take effect
      only at the response headers; at the end of the response body the
      body becomes `rewrite` of the buffered bytes and nothing else changes;
      at every other stage the host is left alone. */
  lemma ModifyBodyEffects(rewrite: Bytes -> Bytes, h: Host, stage: HttpStage, end: bool, size: int, port: int, data: Data)
    ensures var o := ModifyBody(rewrite, DoInput(stage, port, end, size, data, ExactStageView(h, stage)));
      var h' := ApplyEffects(h, o.effects, ExactStage(stage));
      && (stage == ResponseHeaders ==> h' == h.(respHeaders := h.respHeaders - {"content-length", "content-encoding"}))
      && (stage == ResponseBody && end && 0 <= size <= |h.respBody| ==> h' == h.(respBody := rewrite(h.respBody[..size])))
      && (stage == ResponseBody && end && !(0 <= size <= |h.respBody|) ==> h' == h)
      && (stage.IsRequest() || (stage == ResponseBody && !end) ==> h' == h)
  {
    if stage == ResponseHeaders {
      ModifyAtResponseHeaders(rewrite, h, end, size, port, data);
    } else if stage == ResponseBody && end && 0 <= size <= |h.respBody| {
      ModifyAtBodyEnd(rewrite, h, size, port, data);
    } else {
      var o := ModifyBody(rewrite, DoInput(stage, port, end, size, data, ExactStageView(h, stage)));
      GatedOutIsNoOp(h, o.effects, ExactStage(stage));
    }
  }

  lemma ModifyAtResponseHeaders(rewrite: Bytes -> Bytes, h: Host, end: bool, size: int, port: int, data: Data)
    ensures var o := ModifyBody(rewrite, DoInput(ResponseHeaders, port, end, size, data, ExactStageView(h, ResponseHeaders)));
      ApplyEffects(h, o.effects, ExactStage(ResponseHeaders)) == h.(respHeaders := h.respHeaders - {"content-length", "content-encoding"})
  {
    var o := ModifyBody(rewrite, DoInput(ResponseHeaders, port, end, size, data, ExactStageView(h, ResponseHeaders)));
    assert o.effects == StaleHeaderDeletions;
    assert Allowed(o.effects, ExactStage(ResponseHeaders)) == StaleHeaderDeletions;
    var h1 := Apply(h, DelResponseHeader("content-length"));
    assert ApplyAll(h, StaleHeaderDeletions) == ApplyAll(h1, [DelResponseHeader("content-encoding")]);
    assert ApplyAll(h1, [DelResponseHeader("content-encoding")]) == Apply(h1, DelResponseHeader("content-encoding"));
    assert h.respHeaders - {"content-length"} - {"content-encoding"} == h.respHeaders - {"content-length", "content-encoding"};
  }

  lemma ModifyAtBodyEnd(rewrite: Bytes -> Bytes, h: Host, size: int, port: int, data: Data)
    requires 0 <= size <= |h.respBody|
    ensures var o := ModifyBody(rewrite, DoInput(ResponseBody, port, true, size, data, ExactStageView(h, ResponseBody)));
      ApplyEffects(h, o.effects, ExactStage(ResponseBody)) == h.(respBody := rewrite(h.respBody[..size]))
  {
    var g := ExactStage(ResponseBody);
    var e := ReplaceResponseBody(rewrite(h.respBody[..size]));
    BodyEndEffects(rewrite, h, size, port, data);
    AllowedAppend(StaleHeaderDeletions, [e], g);
    DeletionsGatedAtBody();
    assert Allowed([e], g) == [e];
    assert ApplyAll(h, [e]) == Apply(h, e);
  }

  lemma BodyEndEffects(rewrite: Bytes -> Bytes, h: Host, size: int, port: int, data: Data)
    requires 0 <= size <= |h.respBody|
    ensures ModifyBody(rewrite, DoInput(ResponseBody, port, true, size, data, ExactStageView(h, ResponseBody))).effects
         == StaleHeaderDeletions + [ReplaceResponseBody(rewrite(h.respBody[..size]))]
  {
    assert h.respBody[0..0 + size] == h.respBody[..size];
  }

  lemma DeletionsGatedAtBody()
    ensures Allowed(StaleHeaderDeletions, ExactStage(ResponseBody)) == []
  {
  }

  /** `DoReplaceHttpResponseBody(body)`. */
  function DoReplaceHttpResponseBody(body: Bytes): DoFn {
    DoModifyHttpResponseBody((_: Bytes) => body)
  }

  /** Whatever the original response body, a completed replacement leaves
      exactly `body`. */
  lemma ReplaceBodyIsExact(body: Bytes, h: Host, size: int, port: int, data: Data)
    requires 0 <= size <= |h.respBody|
    ensures var o := DoReplaceHttpResponseBody(body)(DoInput(ResponseBody, port, true, size, data, ExactStageView(h, ResponseBody)));
      o.done && ApplyEffects(h, o.effects, ExactStage(ResponseBody)).respBody == body
  {
    ModifyBodyEffects((_: Bytes) => body, h, ResponseBody, true, size, port, data);
  }

  // ---------------------------------------------------------------------
  // DoPause

  /** `DoPause`: pause and finish. */
  function DoPause(d: DoInput): (o: DoOutput)
    ensures o.done && o.paused && o.effects == [] && o.data == d.data
  {
    DoOutput(true, true, d.data, [])
  }

  /** Once `DoPause` runs, the stream's cached outcome is Pause, so every
      later stage call pauses too. */
  lemma DoPauseCachesPause(reg: Registry, port: Fetch, s: Stream, h: Host, ev: HttpEvent)
    requires s.skip == UndefinedAction && s.doCtx.Some? && s.doCtx.value.it.do == DoPause
    ensures var r := Run(reg, port, s, h, ev);
      r.action == ActionPause && r.stream.skip == ActionPause && r.stream.doCtx.None? && r.host == h
  {
    RunWithDo(reg, port, s, h, ev);
    assert Allowed([], ExactStage(ev.stage)) == [];
  }

  // ---------------------------------------------------------------------
  // DoBlock

  /** ASCII text as bytes. */
  function AsciiBytes(s: string): (r: Bytes)
    requires forall i :: 0 <= i < |s| ==> s[i] as int < 256
    ensures |r| == |s|
    ensures forall i :: 0 <= i < |s| ==> r[i] as int == s[i] as int
  {
    seq(|s|, i requires 0 <= i < |s| => s[i] as int as byte)
  }

  const BlockedStatus: int := 418

  function BlockBody(): Bytes {
    AsciiBytes("hey you")
  }

  /** The synthetic response `DoBlock` sends, carrying the request id. */
  function BlockResponse(requestId: string): SentResponse {
    SentResponse(BlockedStatus, [("x-blocked", "1"), ("x-request-id", requestId)], BlockBody())
  }

  /** `DoBlock`: on its first call mark the request trailer `x-blocked=1`;
      while no request id is captured, read `x-request-id`; at the response
      headers send the 418, pause and finish. */
  function DoBlock(d: DoInput): (o: DoOutput)
    ensures d.data.NoData? <==> SetRequestTrailer("x-blocked", "1") in o.effects
    ensures o.data.Text?
    ensures d.data.Text? && d.data.s != "" ==> o.data == d.data
    ensures !(d.data.Text? && d.data.s != "") ==> o.data == Text(Header(d.view.reqHeaders, "x-request-id"))
    ensures d.stage != ResponseHeaders ==> !o.done && !o.paused && forall e :: e in o.effects ==> !e.SendResponse?
    ensures d.stage == ResponseHeaders ==> o.done && o.paused && SendResponse(BlockResponse(o.data.s)) in o.effects
  {
    var (data1, marks) := if d.data.NoData? then (Text(""), [SetRequestTrailer("x-blocked", "1")]) else (d.data, []);
    var data2 := if data1.s == "" then Text(Header(d.view.reqHeaders, "x-request-id")) else data1;
    if d.stage != ResponseHeaders then DoOutput(false, false, data2, marks)
    else DoOutput(true, true, data2, marks + [SendResponse(BlockResponse(data2.s))])
  }

  /** Under the exact-stage accessors the request id is captured when the
      Do first runs at the request headers, and the trailer is set on the
      first call whatever the stage. */
  lemma DoBlockCapturesRequestId(h: Host, stage: HttpStage, port: int, end: bool, size: int)
    ensures var o := DoBlock(DoInput(stage, port, end, size, NoData, ExactStageView(h, stage)));
      && "x-blocked" in ApplyEffects(h, o.effects, ExactStage(stage)).reqTrailers
      && ApplyEffects(h, o.effects, ExactStage(stage)).reqTrailers["x-blocked"] == "1"
      && o.data == Text(if stage == RequestHeaders then Header(h.reqHeaders, "x-request-id") else "")
  {
    var v := ExactStageView(h, stage);
    var o := DoBlock(DoInput(stage, port, end, size, NoData, v));
    var id := if stage == RequestHeaders then Header(h.reqHeaders, "x-request-id") else "";
    assert Header(v.reqHeaders, "x-request-id") == id;
    var mark := SetRequestTrailer("x-blocked", "1");
    var h1 := Apply(h, mark);
    if stage == ResponseHeaders {
      var send := SendResponse(BlockResponse(id));
      assert o.effects == [mark, send];
      assert Allowed(o.effects, ExactStage(stage)) == [mark, send];
      assert ApplyAll(h, [mark, send]) == ApplyAll(h1, [send]);
      assert ApplyAll(h1, [send]) == Apply(h1, send);
    } else {
      assert o.effects == [mark];
      assert Allowed(o.effects, ExactStage(stage)) == [mark];
      assert ApplyAll(h, [mark]) == h1;
    }
  }
}

/** The part of the proxy host an HTTP interceptor can observe or change:
    header maps, bodies, the request trailers and a synthetic response. The
    host calls themselves are not modelled; reads go through gated views and
    writes are effects the engine applies through a gate. */
module HttpHost {
  import opened Wrappers
  import opened Proxy

  type Headers = map<string, string>

  datatype SentResponse = SentResponse(status: int, headers: seq<(string, string)>, body: Bytes)

  datatype Host = Host(
    reqHeaders: Headers,
    reqBody: Bytes,
    reqTrailers: Headers,
    respHeaders: Headers,
    respBody: Bytes,
    sent: Option<SentResponse>)

  /** A body as an accessor sees it: `Hidden` where the accessor is gated off
      and answers `nil, nil`. */
  datatype BodyAccess = Hidden | Visible(bytes: Bytes)

  /** What a body accessor returns: `nil` without error, an error, or bytes. */
  datatype BodyRead = ReadNil | ReadErr | ReadOk(bytes: Bytes)

  /** Everything the accessors of one context can read during one call. A
      gated-off header map is empty, so every lookup answers "". */
  datatype View = View(reqHeaders: Headers, reqBody: BodyAccess, respHeaders: Headers, respBody: BodyAccess)

  /** A header accessor: the value, or "" when absent. */
  function Header(h: Headers, k: string): (r: string)
    ensures k in h ==> r == h[k]
    ensures k !in h ==> r == ""
  {
    if k in h then h[k] else ""
  }

  /** `Get*Body(start, size)`: the bytes [start, start+size) of a visible
      body, an error when that range is not buffered, `nil` when gated off. */
  function ReadBody(b: BodyAccess, start: int, size: int): (r: BodyRead)
    ensures b.Hidden? <==> r.ReadNil?
    ensures r.ReadOk? ==> b.Visible? && 0 <= start && 0 <= size && start + size <= |b.bytes|
    ensures r.ReadOk? ==> r.bytes == b.bytes[start..start + size]
    ensures b.Visible? && 0 <= start && 0 <= size && start + size <= |b.bytes| ==> r.ReadOk?
  {
    match b
    case Hidden => ReadNil
    case Visible(bytes) =>
      if 0 <= start && 0 <= size && start + size <= |bytes| then ReadOk(bytes[start..start + size])
      else ReadErr
  }

  /** The view of a Do context: each accessor works only at its exact stage. */
  function ExactStageView(h: Host, stage: HttpStage): (v: View)
    ensures v.reqHeaders == (if stage == RequestHeaders then h.reqHeaders else map[])
    ensures v.reqBody == (if stage == RequestBody then Visible(h.reqBody) else Hidden)
    ensures v.respHeaders == (if stage == ResponseHeaders then h.respHeaders else map[])
    ensures v.respBody == (if stage == ResponseBody then Visible(h.respBody) else Hidden)
  {
    View(
      if stage == RequestHeaders then h.reqHeaders else map[],
      if stage == RequestBody then Visible(h.reqBody) else Hidden,
      if stage == ResponseHeaders then h.respHeaders else map[],
      if stage == ResponseBody then Visible(h.respBody) else Hidden)
  }

  /** The view of a context gated by side only: request accessors work when
      `isReq`, response accessors otherwise. */
  function SideView(h: Host, isReq: bool): (v: View)
    ensures isReq ==> v.reqHeaders == h.reqHeaders && v.reqBody == Visible(h.reqBody)
    ensures isReq ==> v.respHeaders == map[] && v.respBody == Hidden
    ensures !isReq ==> v.respHeaders == h.respHeaders && v.respBody == Visible(h.respBody)
    ensures !isReq ==> v.reqHeaders == map[] && v.reqBody == Hidden
  {
    if isReq then View(h.reqHeaders, Visible(h.reqBody), map[], Hidden)
    else View(map[], Hidden, h.respHeaders, Visible(h.respBody))
  }

  /** A change a Do function asks of the host, in call order. */
  datatype Effect =
    | SetRequestHeader(key: string, value: string)
    | DelRequestHeader(key: string)
    | ReplaceRequestBody(body: Bytes)
    | SetResponseHeader(key: string, value: string)
    | DelResponseHeader(key: string)
    | ReplaceResponseBody(body: Bytes)
    /** A direct host call, not behind an accessor: never gated. */
    | SetRequestTrailer(key: string, value: string)
    /** A direct host call, not behind an accessor: never gated. */
    | SendResponse(response: SentResponse)
  {
    /** The stage an accessor-backed effect belongs to; none for direct calls. */
    function Stage(): Option<HttpStage> {
      match this
      case SetRequestHeader(_, _) => Some(RequestHeaders)
      case DelRequestHeader(_) => Some(RequestHeaders)
      case ReplaceRequestBody(_) => Some(RequestBody)
      case SetResponseHeader(_, _) => Some(ResponseHeaders)
      case DelResponseHeader(_) => Some(ResponseHeaders)
      case ReplaceResponseBody(_) => Some(ResponseBody)
      case SetRequestTrailer(_, _) => None
      case SendResponse(_) => None
    }
  }

  /** Which effects a gate lets through at the current stage. */
  datatype Gate = ExactStage(stage: HttpStage) | Side(isReq: bool) {
    predicate Allows(e: Effect) {
      match e.Stage()
      case None => true
      case Some(s) =>
        match this
        case ExactStage(cur) => s == cur
        case Side(isReq) => s.IsRequest() == isReq
    }
  }

  /** The host after one effect, ignoring the gate. */
  function Apply(h: Host, e: Effect): (r: Host)
    ensures e.SetRequestHeader? ==> r == h.(reqHeaders := h.reqHeaders[e.key := e.value])
    ensures e.DelRequestHeader? ==> r == h.(reqHeaders := h.reqHeaders - {e.key})
    ensures e.ReplaceRequestBody? ==> r == h.(reqBody := e.body)
    ensures e.SetResponseHeader? ==> r == h.(respHeaders := h.respHeaders[e.key := e.value])
    ensures e.DelResponseHeader? ==> r == h.(respHeaders := h.respHeaders - {e.key})
    ensures e.ReplaceResponseBody? ==> r == h.(respBody := e.body)
    ensures e.SetRequestTrailer? ==> r == h.(reqTrailers := h.reqTrailers[e.key := e.value])
    ensures e.SendResponse? ==> r == h.(sent := Some(e.response))
  {
    match e
    case SetRequestHeader(k, v) => h.(reqHeaders := h.reqHeaders[k := v])
    case DelRequestHeader(k) => h.(reqHeaders := h.reqHeaders - {k})
    case ReplaceRequestBody(b) => h.(reqBody := b)
    case SetResponseHeader(k, v) => h.(respHeaders := h.respHeaders[k := v])
    case DelResponseHeader(k) => h.(respHeaders := h.respHeaders - {k})
    case ReplaceResponseBody(b) => h.(respBody := b)
    case SetRequestTrailer(k, v) => h.(reqTrailers := h.reqTrailers[k := v])
    case SendResponse(resp) => h.(sent := Some(resp))
  }

  /** The effects a gate lets through, in order. */
  function Allowed(es: seq<Effect>, g: Gate): (r: seq<Effect>)
    ensures |r| <= |es|
    ensures forall i :: 0 <= i < |r| ==> g.Allows(r[i]) && r[i] in es
    ensures forall i :: 0 <= i < |es| && g.Allows(es[i]) ==> es[i] in r
    ensures |es| == 1 ==> r == (if g.Allows(es[0]) then es else [])
  {
    if |es| == 0 then []
    else if g.Allows(es[0]) then [es[0]] + Allowed(es[1..], g)
    else Allowed(es[1..], g)
  }

  /** The host after the effects in order, each applied only if the gate
      allows it; the others do nothing, as the accessors do off-stage. */
  function ApplyEffects(h: Host, es: seq<Effect>, g: Gate): Host {
    ApplyAll(h, Allowed(es, g))
  }

  function ApplyAll(h: Host, es: seq<Effect>): Host
    decreases |es|
  {
    if |es| == 0 then h else ApplyAll(Apply(h, es[0]), es[1..])
  }

  /** Gating distributes over concatenation of effect lists. */
  lemma {:induction false} AllowedAppend(a: seq<Effect>, b: seq<Effect>, g: Gate)
    ensures Allowed(a + b, g) == Allowed(a, g) + Allowed(b, g)
    decreases |a|
  {
    if |a| > 0 {
      assert (a + b)[1..] == a[1..] + b;
      AllowedAppend(a[1..], b, g);
      assert (a + b)[0] == a[0];
    } else {
      assert a + b == b;
    }
  }

  /** Applying two lists in a row is applying their concatenation. */
  lemma {:induction false} ApplyAllAppend(h: Host, a: seq<Effect>, b: seq<Effect>)
    ensures ApplyAll(h, a + b) == ApplyAll(ApplyAll(h, a), b)
    decreases |a|
  {
    if |a| > 0 {
      assert (a + b)[1..] == a[1..] + b;
      ApplyAllAppend(Apply(h, a[0]), a[1..], b);
      assert (a + b)[0] == a[0];
    } else {
      assert a + b == b;
    }
  }

  /** Off-stage effects are no-ops: when the gate lets none through, nothing
      about the host changes. */
  lemma {:induction false} GatedOutIsNoOp(h: Host, es: seq<Effect>, g: Gate)
    requires forall i :: 0 <= i < |es| ==> !g.Allows(es[i])
    ensures ApplyEffects(h, es, g) == h
    decreases |es|
  {
    if |es| > 0 {
      GatedOutIsNoOp(h, es[1..], g);
    }
  }

  /** Each exact-stage accessor acts only at its own stage. */
  lemma ExactStageGate(e: Effect, cur: HttpStage)
    requires e.Stage().Some?
    ensures ExactStage(cur).Allows(e) <==> e.Stage().value == cur
  {
  }

  /** Effects that touch only one side of the host leave the other side's
      headers and body as they were. */
  lemma {:induction false} ResponseEffectsKeepRequest(h: Host, es: seq<Effect>)
    decreases |es|
    requires forall i :: 0 <= i < |es| ==> es[i].SetResponseHeader? || es[i].DelResponseHeader? || es[i].ReplaceResponseBody?
    ensures ApplyAll(h, es).reqHeaders == h.reqHeaders
    ensures ApplyAll(h, es).reqBody == h.reqBody
    ensures ApplyAll(h, es).reqTrailers == h.reqTrailers
    ensures ApplyAll(h, es).sent == h.sent
  {
    if |es| > 0 {
      ResponseEffectsKeepRequest(Apply(h, es[0]), es[1..]);
    }
  }

  /** The `x-intercepted-by` header the engines stamp on a match. */
  const TraceHeader: string := "x-intercepted-by"

  /** The current engine's `trace`: replace the header on the current side. */
  function Trace(h: Host, isReq: bool, name: string): (r: Host)
    ensures isReq ==> r.reqHeaders == h.reqHeaders[TraceHeader := name] && r.respHeaders == h.respHeaders
    ensures !isReq ==> r.respHeaders == h.respHeaders[TraceHeader := name] && r.reqHeaders == h.reqHeaders
    ensures r.reqBody == h.reqBody && r.respBody == h.respBody
    ensures r.reqTrailers == h.reqTrailers && r.sent == h.sent
  {
    if isReq then h.(reqHeaders := h.reqHeaders[TraceHeader := name])
    else h.(respHeaders := h.respHeaders[TraceHeader := name])
  }
}

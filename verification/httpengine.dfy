/** The per-stream HTTP interception engine: a registry of When/Do pairs per
    service port, and one step function the host drives at each of the four
    lifecycle stages. The stream record holds the cached outcome (`skip`),
    the lazily built When contexts and the optional Do context. */
module HttpEngine {
  import opened Wrappers
  import opened Proxy
  import opened HttpHost

  /** What a When function can see. */
  datatype WhenInput = WhenInput(stage: HttpStage, end: bool, bodySize: int, data: Data, view: View)

  /** What a When function decides: whether it matched, whether it called
      `Pause()`, and its new `Data`. */
  datatype WhenOutput = WhenOutput(matched: bool, paused: bool, data: Data)

  /** What a Do function can see. */
  datatype DoInput = DoInput(stage: HttpStage, port: int, end: bool, bodySize: int, data: Data, view: View)

  /** What a Do function decides: whether it is done with the stream, whether
      it called `Pause()`, its new `Data`, and the host changes it asked for. */
  datatype DoOutput = DoOutput(done: bool, paused: bool, data: Data, effects: seq<Effect>)

  type WhenFn = WhenInput -> WhenOutput
  type DoFn = DoInput -> DoOutput

  /** An interceptor; a missing When never matches. */
  datatype Interceptor = Interceptor(name: string, when: Option<WhenFn>, do: DoFn)

  /** Interceptors per service port, in registration order. */
  type Registry = map<int, seq<Interceptor>>

  /** `RegisterHttpInterceptor`: append to the port's list. */
  function Register(reg: Registry, port: int, name: string, when: Option<WhenFn>, do: DoFn): (r: Registry)
    ensures r.Keys == reg.Keys + {port}
    ensures |Interceptors(r, port)| == |Interceptors(reg, port)| + 1
    ensures Interceptors(r, port)[..|Interceptors(reg, port)|] == Interceptors(reg, port)
    ensures Interceptors(r, port)[|Interceptors(reg, port)|] == Interceptor(name, when, do)
    ensures forall p :: p != port ==> Interceptors(r, p) == Interceptors(reg, p)
  {
    reg[port := Interceptors(reg, port) + [Interceptor(name, when, do)]]
  }

  /** The port's interceptors; none for an unknown port. */
  function Interceptors(reg: Registry, port: int): seq<Interceptor> {
    if port in reg then reg[port] else []
  }

  datatype HttpEvent = HttpEvent(stage: HttpStage, size: int, end: bool)

  datatype WhenCtx = WhenCtx(
    it: Interceptor, stage: HttpStage, end: bool, bodySize: int, data: Data,
    resultAction: Action,
    /** The side of the event the context was built on. */
    createdOnRequest: bool)

  datatype DoCtx = DoCtx(
    it: Interceptor, stage: HttpStage, port: int, end: bool, bodySize: int, data: Data,
    resultAction: Action)

  datatype Stream = Stream(skip: Action, whens: Option<seq<WhenCtx>>, doCtx: Option<DoCtx>)

  /** A stream as the context factory creates it. */
  const NewStream: Stream := Stream(UndefinedAction, None, None)

  /** Which user function the engine called, in order: the When at an index
      of the When context list, or the matched interceptor's Do. */
  datatype Call = WhenCall(index: nat) | DoCall(name: string)

  datatype Step = Step(action: Action, stream: Stream, host: Host, calls: seq<Call>)

  function ActionOf(paused: bool): (a: Action)
    ensures a != UndefinedAction
    ensures a == ActionPause <==> paused
  {
    if paused then ActionPause else ActionContinue
  }

  /** `makeWhenCtx`: a fresh context for one interceptor, with no data. */
  function MakeWhenCtx(it: Interceptor, ev: HttpEvent): (c: WhenCtx)
    ensures c.it == it && c.data == NoData && c.resultAction == ActionContinue
    ensures c.createdOnRequest == ev.stage.IsRequest()
  {
    WhenCtx(it, ev.stage, ev.end, ev.size, NoData, ActionContinue, ev.stage.IsRequest())
  }

  /** One When context per registered interceptor, bound to that
      interceptor, in registration order. */
  function MakeWhenCtxs(ints: seq<Interceptor>, ev: HttpEvent): (r: seq<WhenCtx>)
    ensures |r| == |ints|
    ensures forall i :: 0 <= i < |r| ==> r[i].it == ints[i] && r[i].data == NoData
  {
    seq(|ints|, i requires 0 <= i < |ints| => MakeWhenCtx(ints[i], ev))
  }

  /** `updateHttpWhenCtx`: refresh the event fields and reset the pause;
      the interceptor and the data slot are the context's own. */
  function UpdateWhenCtx(c: WhenCtx, ev: HttpEvent): (r: WhenCtx)
    ensures r.it == c.it && r.data == c.data && r.createdOnRequest == c.createdOnRequest
    ensures r.resultAction == ActionContinue
    ensures r.stage == ev.stage && r.end == ev.end && r.bodySize == ev.size
  {
    c.(stage := ev.stage, bodySize := ev.size, end := ev.end, resultAction := ActionContinue)
  }

  /** The accessors of a When context at the current event: request
      accessors on request stages, response accessors on response stages,
      as the context type documents. */
  function WhenView(h: Host, ev: HttpEvent): View {
    SideView(h, ev.stage.IsRequest())
  }

  /** The accessors as `makeWhenCtx` builds them: the side is the one the
      context was created on, captured once for the whole stream. */
  function WhenViewAsWritten(h: Host, c: WhenCtx): View {
    SideView(h, c.createdOnRequest)
  }

  /** `makeHttpDoCtx`: a new Do context starts with empty data; nothing is
      copied from the When context that matched. */
  function MakeDoCtx(it: Interceptor, ev: HttpEvent, port: int): (d: DoCtx)
    ensures d.it == it && d.data == NoData && d.port == port && d.resultAction == ActionContinue
  {
    DoCtx(it, ev.stage, port, ev.end, ev.size, NoData, ActionContinue)
  }

  /** `updateHttpDoCtx`. */
  function UpdateDoCtx(d: DoCtx, ev: HttpEvent): (r: DoCtx)
    ensures r.it == d.it && r.data == d.data && r.port == d.port
    ensures r.resultAction == ActionContinue
    ensures r.stage == ev.stage && r.end == ev.end && r.bodySize == ev.size
  {
    d.(stage := ev.stage, bodySize := ev.size, end := ev.end, resultAction := ActionContinue)
  }

  /** What the installed Do decides on this event. */
  function DoOutcome(d: DoCtx, h: Host, ev: HttpEvent): DoOutput {
    var u := UpdateDoCtx(d, ev);
    u.it.do(DoInput(u.stage, u.port, u.end, u.bodySize, u.data, ExactStageView(h, u.stage)))
  }

  /** What context `c`'s When decides on this event, if it has one. */
  function WhenOutcome(c: WhenCtx, h: Host, ev: HttpEvent): Option<WhenOutput> {
    var u := UpdateWhenCtx(c, ev);
    match u.it.when
    case None => None
    case Some(when) => Some(when(WhenInput(u.stage, u.end, u.bodySize, u.data, WhenView(h, ev))))
  }

  /** The Do step: run the installed Do; on `done`, drop the context and
      cache its result. */
  function RunDo(s: Stream, h: Host, ev: HttpEvent, calls: seq<Call>): (r: Step)
    requires s.doCtx.Some?
    ensures r.calls == calls + [DoCall(s.doCtx.value.it.name)]
    ensures r.stream.whens == s.whens
    ensures r.action == ActionOf(DoOutcome(s.doCtx.value, h, ev).paused)
    ensures r.host == ApplyEffects(h, DoOutcome(s.doCtx.value, h, ev).effects, ExactStage(ev.stage))
    ensures DoOutcome(s.doCtx.value, h, ev).done ==> r.stream.doCtx.None? && r.stream.skip == r.action
    ensures !DoOutcome(s.doCtx.value, h, ev).done ==> r.stream.doCtx.Some? && r.stream.skip == s.skip
    ensures !DoOutcome(s.doCtx.value, h, ev).done ==> r.stream.doCtx.value.it == s.doCtx.value.it
  {
    var d := UpdateDoCtx(s.doCtx.value, ev);
    var out := d.it.do(DoInput(d.stage, d.port, d.end, d.bodySize, d.data, ExactStageView(h, d.stage)));
    var d' := d.(data := out.data, resultAction := ActionOf(out.paused));
    var h' := ApplyEffects(h, out.effects, ExactStage(d.stage));
    var calls' := calls + [DoCall(d.it.name)];
    if out.done then Step(d'.resultAction, s.(doCtx := None, skip := d'.resultAction), h', calls')
    else Step(d'.resultAction, s.(doCtx := Some(d')), h', calls')
  }

  /** The When loop from index `i`: update each context, skip those without
      a When, stop at the first match (stamp the trace header, install the
      Do context and run Do at once), and otherwise remember whether any
      When paused. */
  function EvalWhens(port: int, whens: seq<WhenCtx>, i: nat, s: Stream, h: Host, ev: HttpEvent,
                     anyPaused: bool, calls: seq<Call>): (r: Step)
    requires i <= |whens|
    ensures r.stream.whens.Some? && |r.stream.whens.value| == |whens|
    ensures forall j :: 0 <= j < |whens| ==> r.stream.whens.value[j].it == whens[j].it
    decreases |whens| - i
  {
    if i == |whens| then
      Step(ActionOf(anyPaused), s.(whens := Some(whens)), h, calls)
    else
      var c := UpdateWhenCtx(whens[i], ev);
      match c.it.when
      case None => EvalWhens(port, whens[i := c], i + 1, s, h, ev, anyPaused, calls)
      case Some(when) =>
        var out := when(WhenInput(c.stage, c.end, c.bodySize, c.data, WhenView(h, ev)));
        var c' := c.(data := out.data, resultAction := ActionOf(out.paused));
        var whens' := whens[i := c'];
        var calls' := calls + [WhenCall(i)];
        if out.matched then
          RunDo(s.(whens := Some(whens'), doCtx := Some(MakeDoCtx(c.it, ev, port))),
                Trace(h, ev.stage.IsRequest(), c.it.name), ev, calls')
        else
          EvalWhens(port, whens', i + 1, s, h, ev, anyPaused || c'.resultAction == ActionPause, calls')
  }

  /** `httpCtx.run` for one stage callback; `port` is the host's answer to
      the destination-port property lookup. */
  function Run(reg: Registry, port: Fetch, s: Stream, h: Host, ev: HttpEvent): (r: Step)
    ensures s.skip != UndefinedAction ==> r == Step(s.skip, s, h, [])
    ensures s.skip == UndefinedAction && s.doCtx.None? && !PortHasInterceptors(reg, port) ==>
              r == Step(ActionContinue, s.(skip := ActionContinue), h, [])
  {
    if s.skip != UndefinedAction then Step(s.skip, s, h, [])
    else if s.doCtx.Some? then RunDo(s, h, ev, [])
    else
      match GetIntProperty(port)
      case Failure(_) => Step(ActionContinue, s.(skip := ActionContinue), h, [])
      case Success(p) =>
        var ints := Interceptors(reg, p);
        if |ints| == 0 then Step(ActionContinue, s.(skip := ActionContinue), h, [])
        else
          var whens := if s.whens.Some? then s.whens.value else MakeWhenCtxs(ints, ev);
          EvalWhens(p, whens, 0, s, h, ev, false, [])
  }

  /** The port lookup succeeds and names a port with interceptors. */
  predicate PortHasInterceptors(reg: Registry, port: Fetch) {
    GetIntProperty(port).Success? && |Interceptors(reg, GetIntProperty(port).value)| > 0
  }

  // ---------------------------------------------------------------------
  // The first match, stated independently of the loop.

  predicate Fires(c: WhenCtx, h: Host, ev: HttpEvent) {
    WhenOutcome(c, h, ev).Some? && WhenOutcome(c, h, ev).value.matched
  }

  predicate PausesWithoutFiring(c: WhenCtx, h: Host, ev: HttpEvent) {
    WhenOutcome(c, h, ev).Some? && !WhenOutcome(c, h, ev).value.matched && WhenOutcome(c, h, ev).value.paused
  }

  /** The least index at or after `i` whose When fires. */
  function FirstFiring(whens: seq<WhenCtx>, h: Host, ev: HttpEvent, i: nat): (r: Option<nat>)
    requires i <= |whens|
    ensures r.Some? ==> i <= r.value < |whens| && Fires(whens[r.value], h, ev)
    ensures r.Some? ==> forall j :: i <= j < r.value ==> !Fires(whens[j], h, ev)
    ensures r.None? ==> forall j :: i <= j < |whens| ==> !Fires(whens[j], h, ev)
    decreases |whens| - i
  {
    if i == |whens| then None
    else if Fires(whens[i], h, ev) then Some(i)
    else FirstFiring(whens, h, ev, i + 1)
  }

  /** The indices in [i, k) whose context has a When, ascending. */
  function WhenCalls(whens: seq<WhenCtx>, i: nat, k: nat): (r: seq<Call>)
    requires i <= k <= |whens|
    ensures forall j :: 0 <= j < |r| ==> r[j].WhenCall? && i <= r[j].index < k
    ensures forall j, l :: 0 <= j < l < |r| ==> r[j].index < r[l].index
    decreases k - i
  {
    if i == k then []
    else if whens[i].it.when.Some? then [WhenCall(i)] + WhenCalls(whens, i + 1, k)
    else WhenCalls(whens, i + 1, k)
  }

  predicate SomePauses(whens: seq<WhenCtx>, h: Host, ev: HttpEvent, i: nat) {
    exists j :: i <= j < |whens| && PausesWithoutFiring(whens[j], h, ev)
  }

  /** What the Do of interceptor `it` decides when installed on this event,
      after the trace header was stamped. */
  function MatchedDo(it: Interceptor, port: int, h: Host, ev: HttpEvent): DoOutput {
    DoOutcome(MakeDoCtx(it, ev, port), Trace(h, ev.stage.IsRequest(), it.name), ev)
  }

  /** The host after a match of `it`: the trace header, then the Do's
      effects that the exact-stage gate lets through. */
  function MatchedHost(it: Interceptor, port: int, h: Host, ev: HttpEvent): Host {
    ApplyEffects(Trace(h, ev.stage.IsRequest(), it.name), MatchedDo(it, port, h, ev).effects, ExactStage(ev.stage))
  }

  /** What the When loop from index `i` does, stated without the loop. */
  ghost predicate LoopOutcome(port: int, whens: seq<WhenCtx>, i: nat, s: Stream, h: Host, ev: HttpEvent,
                        anyPaused: bool, calls: seq<Call>, r: Step)
    requires i <= |whens|
  {
    match FirstFiring(whens, h, ev, i)
    case None =>
      && r.action == ActionOf(anyPaused || SomePauses(whens, h, ev, i))
      && r.calls == calls + WhenCalls(whens, i, |whens|)
      && r.host == h && r.stream.doCtx == s.doCtx && r.stream.skip == s.skip
    case Some(k) =>
      && r.calls == calls + WhenCalls(whens, i, k + 1) + [DoCall(whens[k].it.name)]
      && r.action == ActionOf(MatchedDo(whens[k].it, port, h, ev).paused)
      && r.host == MatchedHost(whens[k].it, port, h, ev)
      && (r.stream.doCtx.None? <==> MatchedDo(whens[k].it, port, h, ev).done)
      && (r.stream.doCtx.None? ==> r.stream.skip == r.action)
      && (r.stream.doCtx.Some? ==> r.stream.skip == s.skip && r.stream.doCtx.value.it == whens[k].it)
  }

  /** The When loop evaluates Whens in registration order, stops at the
      first one that fires and runs Do on the same event; with no match it
      pauses exactly when some When paused on this event. */
  lemma {:induction false} EvalWhensOutcome(port: int, whens: seq<WhenCtx>, i: nat, s: Stream, h: Host,
                                            ev: HttpEvent, anyPaused: bool, calls: seq<Call>)
    requires i <= |whens|
    ensures LoopOutcome(port, whens, i, s, h, ev, anyPaused, calls, EvalWhens(port, whens, i, s, h, ev, anyPaused, calls))
    decreases |whens| - i, 1
  {
    if i < |whens| {
      if whens[i].it.when.None? {
        NoWhenCase(port, whens, i, s, h, ev, anyPaused, calls);
      } else if Fires(whens[i], h, ev) {
        MatchedCase(port, whens, i, s, h, ev, anyPaused, calls);
      } else {
        UnmatchedCase(port, whens, i, s, h, ev, anyPaused, calls);
      }
    }
  }

  lemma {:induction false} NoWhenCase(port: int, whens: seq<WhenCtx>, i: nat, s: Stream, h: Host,
                   ev: HttpEvent, anyPaused: bool, calls: seq<Call>)
    requires i < |whens| && whens[i].it.when.None?
    ensures LoopOutcome(port, whens, i, s, h, ev, anyPaused, calls, EvalWhens(port, whens, i, s, h, ev, anyPaused, calls))
    decreases |whens| - i, 0
  {
    var whens' := whens[i := UpdateWhenCtx(whens[i], ev)];
    EvalWhensOutcome(port, whens', i + 1, s, h, ev, anyPaused, calls);
    var r := EvalWhens(port, whens', i + 1, s, h, ev, anyPaused, calls);
    NoWhenUnfold(port, whens, i, s, h, ev, anyPaused, calls);
    NoWhenTransfer(port, whens, whens', i, s, h, ev, anyPaused, calls, r);
  }

  lemma {:induction false} NoWhenTransfer(port: int, whens: seq<WhenCtx>, whens': seq<WhenCtx>, i: nat, s: Stream, h: Host,
                                          ev: HttpEvent, anyPaused: bool, calls: seq<Call>, r: Step)
    requires i < |whens| && whens[i].it.when.None?
    requires whens' == whens[i := UpdateWhenCtx(whens[i], ev)]
    requires LoopOutcome(port, whens', i + 1, s, h, ev, anyPaused, calls, r)
    ensures LoopOutcome(port, whens, i, s, h, ev, anyPaused, calls, r)
  {
    SameTail(whens, whens', i, h, ev);
    SkipNoWhen(whens, i, h, ev);
    match FirstFiring(whens, h, ev, i + 1)
    case None =>
      SkippedCalls(whens, whens', i, |whens|);
      SkipTransfer(port, whens, whens', i, s, h, ev, anyPaused, calls, r);
    case Some(k) =>
      SkippedCalls(whens, whens', i, k + 1);
      assert whens'[k] == whens[k];
      SkipTransfer(port, whens, whens', i, s, h, ev, anyPaused, calls, r);
  }

  lemma {:induction false} NoWhenUnfold(port: int, whens: seq<WhenCtx>, i: nat, s: Stream, h: Host,
                                        ev: HttpEvent, anyPaused: bool, calls: seq<Call>)
    requires i < |whens| && whens[i].it.when.None?
    ensures EvalWhens(port, whens, i, s, h, ev, anyPaused, calls)
         == EvalWhens(port, whens[i := UpdateWhenCtx(whens[i], ev)], i + 1, s, h, ev, anyPaused, calls)
  {
  }

  /** A context without a When neither fires nor pauses. */
  lemma {:induction false} SkipNoWhen(whens: seq<WhenCtx>, i: nat, h: Host, ev: HttpEvent)
    requires i < |whens| && whens[i].it.when.None?
    ensures FirstFiring(whens, h, ev, i) == FirstFiring(whens, h, ev, i + 1)
    ensures SomePauses(whens, h, ev, i) == SomePauses(whens, h, ev, i + 1)
  {
    assert !Fires(whens[i], h, ev) && !PausesWithoutFiring(whens[i], h, ev);
  }

  /** A context without a When adds no call. */
  lemma {:induction false} SkippedCalls(whens: seq<WhenCtx>, whens': seq<WhenCtx>, i: nat, n: nat)
    requires i < n <= |whens| == |whens'| && whens[i].it.when.None?
    requires forall j :: 0 <= j < |whens| && j != i ==> whens'[j] == whens[j]
    ensures WhenCalls(whens', i + 1, n) == WhenCalls(whens, i, n)
  {
    WhenCallsTail(whens, whens', i + 1, n);
  }

  lemma {:induction false} SkipTransfer(port: int, whens: seq<WhenCtx>, whens': seq<WhenCtx>, i: nat, s: Stream, h: Host,
                                        ev: HttpEvent, anyPaused: bool, calls: seq<Call>, r: Step)
    requires i < |whens| == |whens'|
    requires FirstFiring(whens, h, ev, i) == FirstFiring(whens, h, ev, i + 1) == FirstFiring(whens', h, ev, i + 1)
    requires SomePauses(whens, h, ev, i) == SomePauses(whens, h, ev, i + 1) == SomePauses(whens', h, ev, i + 1)
    requires FirstFiring(whens, h, ev, i).None? ==> WhenCalls(whens', i + 1, |whens|) == WhenCalls(whens, i, |whens|)
    requires FirstFiring(whens, h, ev, i).Some? ==>
      var k := FirstFiring(whens, h, ev, i).value;
      whens'[k] == whens[k] && WhenCalls(whens', i + 1, k + 1) == WhenCalls(whens, i, k + 1)
    requires LoopOutcome(port, whens', i + 1, s, h, ev, anyPaused, calls, r)
    ensures LoopOutcome(port, whens, i, s, h, ev, anyPaused, calls, r)
  {
  }

  lemma {:induction false} MatchedCase(port: int, whens: seq<WhenCtx>, i: nat, s: Stream, h: Host,
                    ev: HttpEvent, anyPaused: bool, calls: seq<Call>)
    requires i < |whens| && Fires(whens[i], h, ev)
    ensures LoopOutcome(port, whens, i, s, h, ev, anyPaused, calls, EvalWhens(port, whens, i, s, h, ev, anyPaused, calls))
  {
    assert FirstFiring(whens, h, ev, i) == Some(i);
    assert WhenCalls(whens, i, i + 1) == [WhenCall(i)];
  }

  /** The context at index `i` after its When ran without matching. */
  function AfterNoMatch(c: WhenCtx, h: Host, ev: HttpEvent): WhenCtx
    requires WhenOutcome(c, h, ev).Some?
  {
    var out := WhenOutcome(c, h, ev).value;
    UpdateWhenCtx(c, ev).(data := out.data, resultAction := ActionOf(out.paused))
  }

  lemma {:induction false} UnmatchedUnfold(port: int, whens: seq<WhenCtx>, i: nat, s: Stream, h: Host,
                        ev: HttpEvent, anyPaused: bool, calls: seq<Call>)
    requires i < |whens| && WhenOutcome(whens[i], h, ev).Some? && !Fires(whens[i], h, ev)
    ensures EvalWhens(port, whens, i, s, h, ev, anyPaused, calls)
         == EvalWhens(port, whens[i := AfterNoMatch(whens[i], h, ev)], i + 1, s, h, ev,
                      anyPaused || WhenOutcome(whens[i], h, ev).value.paused, calls + [WhenCall(i)])
  {
  }

  lemma {:induction false} UnmatchedCase(port: int, whens: seq<WhenCtx>, i: nat, s: Stream, h: Host,
                      ev: HttpEvent, anyPaused: bool, calls: seq<Call>)
    requires i < |whens| && WhenOutcome(whens[i], h, ev).Some? && !Fires(whens[i], h, ev)
    ensures LoopOutcome(port, whens, i, s, h, ev, anyPaused, calls, EvalWhens(port, whens, i, s, h, ev, anyPaused, calls))
    decreases |whens| - i, 0
  {
    var paused := WhenOutcome(whens[i], h, ev).value.paused;
    var whens' := whens[i := AfterNoMatch(whens[i], h, ev)];
    EvalWhensOutcome(port, whens', i + 1, s, h, ev, anyPaused || paused, calls + [WhenCall(i)]);
    UnmatchedUnfold(port, whens, i, s, h, ev, anyPaused, calls);
    var r := EvalWhens(port, whens', i + 1, s, h, ev, anyPaused || paused, calls + [WhenCall(i)]);
    UnmatchedTransfer(port, whens, whens', i, s, h, ev, anyPaused, paused, calls, r);
  }

  lemma {:induction false} UnmatchedTransfer(port: int, whens: seq<WhenCtx>, whens': seq<WhenCtx>, i: nat, s: Stream, h: Host,
                          ev: HttpEvent, anyPaused: bool, paused: bool, calls: seq<Call>, r: Step)
    requires i < |whens| == |whens'| && WhenOutcome(whens[i], h, ev).Some? && !Fires(whens[i], h, ev)
    requires paused == WhenOutcome(whens[i], h, ev).value.paused
    requires forall j :: 0 <= j < |whens| && j != i ==> whens'[j] == whens[j]
    requires LoopOutcome(port, whens', i + 1, s, h, ev, anyPaused || paused, calls + [WhenCall(i)], r)
    ensures LoopOutcome(port, whens, i, s, h, ev, anyPaused, calls, r)
  {
    SameTail(whens, whens', i, h, ev);
    assert FirstFiring(whens, h, ev, i) == FirstFiring(whens, h, ev, i + 1);
    if FirstFiring(whens, h, ev, i + 1).None? {
      UnmatchedNone(whens, i, h, ev, paused);
      CallsStep(whens, whens', i, |whens|, calls);
      TransferNone(port, whens, whens', i, s, h, ev, anyPaused, paused, calls, r);
    } else {
      var k := FirstFiring(whens, h, ev, i + 1).value;
      CallsStep(whens, whens', i, k + 1, calls);
      assert whens'[k] == whens[k];
      TransferSome(port, whens, whens', i, k, s, h, ev, anyPaused, paused, calls, r);
    }
  }

  /** The call at index `i` followed by the calls after it, over the
      updated list, are the calls from `i` over the original list. */
  lemma {:induction false} CallsStep(whens: seq<WhenCtx>, whens': seq<WhenCtx>, i: nat, n: nat, calls: seq<Call>)
    requires i < n <= |whens| == |whens'| && whens[i].it.when.Some?
    requires forall j :: 0 <= j < |whens| && j != i ==> whens'[j] == whens[j]
    ensures calls + [WhenCall(i)] + WhenCalls(whens', i + 1, n) == calls + WhenCalls(whens, i, n)
  {
    WhenCallsTail(whens, whens', i + 1, n);
    assert WhenCalls(whens, i, n) == [WhenCall(i)] + WhenCalls(whens, i + 1, n);
    ConcatAssoc(calls, [WhenCall(i)], WhenCalls(whens, i + 1, n));
  }

  lemma {:induction false} TransferNone(port: int, whens: seq<WhenCtx>, whens': seq<WhenCtx>, i: nat, s: Stream, h: Host,
                     ev: HttpEvent, anyPaused: bool, paused: bool, calls: seq<Call>, r: Step)
    requires i < |whens| == |whens'|
    requires FirstFiring(whens, h, ev, i).None? && FirstFiring(whens', h, ev, i + 1).None?
    requires SomePauses(whens', h, ev, i + 1) == SomePauses(whens, h, ev, i + 1)
    requires SomePauses(whens, h, ev, i) <==> (paused || SomePauses(whens, h, ev, i + 1))
    requires calls + [WhenCall(i)] + WhenCalls(whens', i + 1, |whens|) == calls + WhenCalls(whens, i, |whens|)
    requires LoopOutcome(port, whens', i + 1, s, h, ev, anyPaused || paused, calls + [WhenCall(i)], r)
    ensures LoopOutcome(port, whens, i, s, h, ev, anyPaused, calls, r)
  {
  }

  lemma {:induction false} TransferSome(port: int, whens: seq<WhenCtx>, whens': seq<WhenCtx>, i: nat, k: nat, s: Stream, h: Host,
                     ev: HttpEvent, anyPaused: bool, paused: bool, calls: seq<Call>, r: Step)
    requires i < k < |whens| == |whens'| && whens'[k] == whens[k]
    requires FirstFiring(whens, h, ev, i) == Some(k) && FirstFiring(whens', h, ev, i + 1) == Some(k)
    requires calls + [WhenCall(i)] + WhenCalls(whens', i + 1, k + 1) == calls + WhenCalls(whens, i, k + 1)
    requires LoopOutcome(port, whens', i + 1, s, h, ev, anyPaused || paused, calls + [WhenCall(i)], r)
    ensures LoopOutcome(port, whens, i, s, h, ev, anyPaused, calls, r)
  {
  }

  lemma {:induction false} UnmatchedNone(whens: seq<WhenCtx>, i: nat, h: Host, ev: HttpEvent, paused: bool)
    requires i < |whens| && WhenOutcome(whens[i], h, ev).Some? && !Fires(whens[i], h, ev)
    requires paused == WhenOutcome(whens[i], h, ev).value.paused
    ensures SomePauses(whens, h, ev, i) <==> (paused || SomePauses(whens, h, ev, i + 1))
    ensures WhenCalls(whens, i, |whens|) == [WhenCall(i)] + WhenCalls(whens, i + 1, |whens|)
  {
    if paused {
      assert PausesWithoutFiring(whens[i], h, ev);
    }
    if SomePauses(whens, h, ev, i) && !paused {
      var j :| i <= j < |whens| && PausesWithoutFiring(whens[j], h, ev);
      assert j != i;
    }
  }

  /** Replacing the context at index `i` leaves the first match, the pauses
      and the calls after `i` as they were. */
  lemma {:induction false} SameTail(whens: seq<WhenCtx>, whens': seq<WhenCtx>, i: nat, h: Host, ev: HttpEvent)
    requires i < |whens| == |whens'|
    requires forall j :: 0 <= j < |whens| && j != i ==> whens'[j] == whens[j]
    ensures FirstFiring(whens', h, ev, i + 1) == FirstFiring(whens, h, ev, i + 1)
    ensures SomePauses(whens', h, ev, i + 1) == SomePauses(whens, h, ev, i + 1)
    ensures WhenCalls(whens', i + 1, |whens|) == WhenCalls(whens, i + 1, |whens|)
  {
    FirstFiringTail(whens, whens', i + 1, h, ev);
    WhenCallsTail(whens, whens', i + 1, |whens|);
  }

  lemma {:induction false} FirstFiringTail(a: seq<WhenCtx>, b: seq<WhenCtx>, i: nat, h: Host, ev: HttpEvent)
    requires i <= |a| == |b|
    requires forall j :: i <= j < |a| ==> a[j] == b[j]
    ensures FirstFiring(a, h, ev, i) == FirstFiring(b, h, ev, i)
    decreases |a| - i
  {
    if i < |a| {
      FirstFiringTail(a, b, i + 1, h, ev);
    }
  }

  lemma {:induction false} WhenCallsTail(a: seq<WhenCtx>, b: seq<WhenCtx>, i: nat, k: nat)
    requires i <= k <= |a| == |b|
    requires forall j :: i <= j < k ==> a[j].it == b[j].it
    ensures WhenCalls(a, i, k) == WhenCalls(b, i, k)
    decreases k - i
  {
    if i < k {
      WhenCallsTail(a, b, i + 1, k);
    }
  }

  // ---------------------------------------------------------------------
  // One stage call, and a whole stream.

  /** Once the When loop runs, it runs as `LoopOutcome` says, over the
      stream's existing When contexts or, on the first such call, over one
      fresh context per registered interceptor in registration order. */
  lemma {:induction false} RunEvaluatesWhens(reg: Registry, port: Fetch, s: Stream, h: Host, ev: HttpEvent)
    requires s.skip == UndefinedAction && s.doCtx.None? && PortHasInterceptors(reg, port)
    ensures var p := GetIntProperty(port).value;
      var ints := Interceptors(reg, p);
      var whens := if s.whens.Some? then s.whens.value else MakeWhenCtxs(ints, ev);
      var r := Run(reg, port, s, h, ev);
      && LoopOutcome(p, whens, 0, s, h, ev, false, [], r)
      && r.stream.whens.Some? && |r.stream.whens.value| == |whens|
      && (forall j :: 0 <= j < |whens| ==> r.stream.whens.value[j].it == whens[j].it)
      && (s.whens.None? ==> |whens| == |ints| && forall j :: 0 <= j < |ints| ==> whens[j].it == ints[j])
  {
    var p := GetIntProperty(port).value;
    var ints := Interceptors(reg, p);
    var whens := if s.whens.Some? then s.whens.value else MakeWhenCtxs(ints, ev);
    EvalWhensOutcome(p, whens, 0, s, h, ev, false, []);
  }

  /** With a Do context installed, a stage call runs that Do and nothing else. */
  lemma {:induction false} RunWithDo(reg: Registry, port: Fetch, s: Stream, h: Host, ev: HttpEvent)
    requires s.skip == UndefinedAction && s.doCtx.Some?
    ensures var r := Run(reg, port, s, h, ev);
      var out := DoOutcome(s.doCtx.value, h, ev);
      && r.calls == [DoCall(s.doCtx.value.it.name)]
      && r.action == ActionOf(out.paused)
      && (out.done ==> r.stream.doCtx.None? && r.stream.skip == r.action)
      && (!out.done ==> r.stream.doCtx.Some? && r.stream.skip == UndefinedAction)
  {
  }

  /** The stream has either a cached outcome or an installed Do. */
  predicate Committed(s: Stream) {
    s.skip != UndefinedAction || s.doCtx.Some?
  }

  predicate NoWhenCalls(calls: seq<Call>) {
    forall j :: 0 <= j < |calls| ==> !calls[j].WhenCall?
  }

  predicate HasDoCall(calls: seq<Call>) {
    exists j :: 0 <= j < |calls| && calls[j].DoCall?
  }

  /** Within one stage call a Do can only be the last call. */
  predicate DoCallLast(calls: seq<Call>) {
    forall j :: 0 <= j < |calls| && calls[j].DoCall? ==> j == |calls| - 1
  }

  /** One stage call never evaluates a When after a Do; a call that ran a Do
      leaves the stream committed; a committed stream stays committed and
      never evaluates a When again. */
  lemma {:induction false} RunCommits(reg: Registry, port: Fetch, s: Stream, h: Host, ev: HttpEvent)
    ensures var r := Run(reg, port, s, h, ev);
      && DoCallLast(r.calls)
      && (HasDoCall(r.calls) ==> Committed(r.stream))
      && (Committed(s) ==> NoWhenCalls(r.calls) && Committed(r.stream))
  {
    if s.skip == UndefinedAction && s.doCtx.None? && PortHasInterceptors(reg, port) {
      RunCommitsLoop(reg, port, s, h, ev);
    } else if s.skip == UndefinedAction && s.doCtx.Some? {
      RunWithDo(reg, port, s, h, ev);
    }
  }

  lemma {:induction false} RunCommitsLoop(reg: Registry, port: Fetch, s: Stream, h: Host, ev: HttpEvent)
    requires s.skip == UndefinedAction && s.doCtx.None? && PortHasInterceptors(reg, port)
    ensures var r := Run(reg, port, s, h, ev);
      && DoCallLast(r.calls)
      && (HasDoCall(r.calls) ==> Committed(r.stream))
  {
    RunEvaluatesWhens(reg, port, s, h, ev);
    var p := GetIntProperty(port).value;
    var whens := if s.whens.Some? then s.whens.value else MakeWhenCtxs(Interceptors(reg, p), ev);
    match FirstFiring(whens, h, ev, 0)
    case None =>
      OnlyWhenCalls(WhenCalls(whens, 0, |whens|));
    case Some(k) =>
      WhenCallsThenDo(WhenCalls(whens, 0, k + 1), whens[k].it.name);
  }

  lemma {:induction false} OnlyWhenCalls(calls: seq<Call>)
    requires forall j :: 0 <= j < |calls| ==> calls[j].WhenCall?
    ensures !HasDoCall([] + calls) && DoCallLast([] + calls)
  {
    assert [] + calls == calls;
  }

  lemma {:induction false} WhenCallsThenDo(pre: seq<Call>, name: string)
    requires forall j :: 0 <= j < |pre| ==> pre[j].WhenCall?
    ensures var calls := [] + pre + [DoCall(name)];
      HasDoCall(calls) && DoCallLast(calls)
  {
    var calls := [] + pre + [DoCall(name)];
    assert calls[|pre|].DoCall?;
    assert forall j :: 0 <= j < |pre| ==> calls[j] == pre[j];
  }

  /** The steps of a whole stream: every action, the final stream and host,
      and every user function called, in order. */
  datatype Outcome = Outcome(actions: seq<Action>, stream: Stream, host: Host, calls: seq<Call>)

  function RunEvents(reg: Registry, port: Fetch, s: Stream, h: Host, evs: seq<HttpEvent>): (r: Outcome)
    ensures |r.actions| == |evs|
    decreases |evs|
  {
    if |evs| == 0 then Outcome([], s, h, [])
    else
      var st := Run(reg, port, s, h, evs[0]);
      var rest := RunEvents(reg, port, st.stream, st.host, evs[1..]);
      Outcome([st.action] + rest.actions, rest.stream, rest.host, st.calls + rest.calls)
  }

  /** From a committed stream no When is ever evaluated again. */
  lemma {:induction false} CommittedRunsNoWhen(reg: Registry, port: Fetch, s: Stream, h: Host, evs: seq<HttpEvent>)
    requires Committed(s)
    ensures NoWhenCalls(RunEvents(reg, port, s, h, evs).calls)
    ensures Committed(RunEvents(reg, port, s, h, evs).stream)
    decreases |evs|
  {
    if |evs| > 0 {
      var st := Run(reg, port, s, h, evs[0]);
      RunCommits(reg, port, s, h, evs[0]);
      CommittedRunsNoWhen(reg, port, st.stream, st.host, evs[1..]);
    }
  }

  predicate WhenNeverFollowsDo(calls: seq<Call>) {
    forall a, b :: 0 <= a < b < |calls| && calls[a].DoCall? ==> !calls[b].WhenCall?
  }

  /** Once a When has matched and its Do has run, no When is called again
      for that stream: over any sequence of stage calls, no When call
      follows a Do call. */
  lemma {:induction false} NoWhenAfterDo(reg: Registry, port: Fetch, s: Stream, h: Host, evs: seq<HttpEvent>)
    ensures WhenNeverFollowsDo(RunEvents(reg, port, s, h, evs).calls)
    decreases |evs|
  {
    if |evs| > 0 {
      var st := Run(reg, port, s, h, evs[0]);
      var rest := RunEvents(reg, port, st.stream, st.host, evs[1..]);
      var calls := st.calls + rest.calls;
      RunCommits(reg, port, s, h, evs[0]);
      NoWhenAfterDo(reg, port, st.stream, st.host, evs[1..]);
      if HasDoCall(st.calls) {
        CommittedRunsNoWhen(reg, port, st.stream, st.host, evs[1..]);
      }
      DoLastNoWhenAfter(st.calls);
      ConcatNoWhenAfterDo(st.calls, rest.calls);
    }
  }

  lemma {:induction false} DoLastNoWhenAfter(calls: seq<Call>)
    requires DoCallLast(calls)
    ensures WhenNeverFollowsDo(calls)
  {
  }

  lemma {:induction false} ConcatNoWhenAfterDo(c1: seq<Call>, c2: seq<Call>)
    requires WhenNeverFollowsDo(c1) && WhenNeverFollowsDo(c2)
    requires HasDoCall(c1) ==> NoWhenCalls(c2)
    ensures WhenNeverFollowsDo(c1 + c2)
  {
    var calls := c1 + c2;
    forall a, b | 0 <= a < b < |calls| && calls[a].DoCall?
      ensures !calls[b].WhenCall?
    {
      if a < |c1| {
        assert c1[a].DoCall?;
        assert HasDoCall(c1);
        if b >= |c1| {
          assert calls[b] == c2[b - |c1|];
        }
      } else {
        assert calls[a] == c2[a - |c1|];
        assert calls[b] == c2[b - |c1|];
      }
    }
  }

  /** A cached outcome is final: every later stage call returns it, calls
      no user function and changes nothing. */
  lemma {:induction false} SkipIsFinal(reg: Registry, port: Fetch, s: Stream, h: Host, evs: seq<HttpEvent>)
    requires s.skip != UndefinedAction
    ensures var r := RunEvents(reg, port, s, h, evs);
      && r.stream == s && r.host == h && r.calls == []
      && forall j :: 0 <= j < |r.actions| ==> r.actions[j] == s.skip
    decreases |evs|
  {
    if |evs| > 0 {
      SkipIsFinal(reg, port, s, h, evs[1..]);
    }
  }

  // ---------------------------------------------------------------------
  // The side a When context's accessors serve.

  /** The as-written accessors agree with the documented ones exactly while
      the stream stays on the side the context was created on. */
  lemma {:induction false} WhenViewAgreesOnCreationSide(h: Host, c: WhenCtx, ev: HttpEvent)
    ensures c.createdOnRequest == ev.stage.IsRequest() ==> WhenViewAsWritten(h, c) == WhenView(h, ev)
    ensures WhenView(h, ev).respHeaders == (if ev.stage.IsRequest() then map[] else h.respHeaders)
    ensures WhenView(h, ev).reqHeaders == (if ev.stage.IsRequest() then h.reqHeaders else map[])
  {
  }

  /** A When context built on the request headers keeps serving the request
      side: at the response headers its response-header accessor answers ""
      for a header the response carries, where the documented accessor
      answers the header's value. */
  lemma {:induction false} WhenViewCapturedAtCreation()
    ensures var it := Interceptor("i", None, (d: DoInput) => DoOutput(true, false, d.data, []));
      var h := Host(map[], [], map[], map["content-type" := "text/html"], [], None);
      var c := MakeWhenCtx(it, HttpEvent(RequestHeaders, 0, false));
      var ev := HttpEvent(ResponseHeaders, 0, false);
      && Header(WhenViewAsWritten(h, UpdateWhenCtx(c, ev)).respHeaders, "content-type") == ""
      && Header(WhenView(h, ev).respHeaders, "content-type") == "text/html"
  {
  }
}

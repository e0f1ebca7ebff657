/** The per-connection TCP interception engine. It has the same shape as the
    HTTP engine, with three differences: contexts see only the stage, the
    segment size and the end flag; refreshing a When context keeps its
    pause; and a Do can mark the connection blocked. */
module TcpEngine {
  import opened Wrappers
  import opened Proxy

  /** The host state a TCP Do can change: the connection's "blocked" filter
      state. */
  datatype TcpHost = TcpHost(blocked: bool)

  datatype WhenInput = WhenInput(stage: TcpStage, size: int, end: bool, data: Data)

  datatype WhenOutput = WhenOutput(matched: bool, paused: bool, data: Data)

  datatype DoInput = DoInput(stage: TcpStage, size: int, end: bool, data: Data)

  /** What a Do decides: done, paused, new data, and whether it called
      `MarkBlocked`. */
  datatype DoOutput = DoOutput(done: bool, paused: bool, data: Data, markBlocked: bool)

  type WhenFn = WhenInput -> WhenOutput
  type DoFn = DoInput -> DoOutput

  datatype Interceptor = Interceptor(name: string, when: Option<WhenFn>, do: DoFn)

  type Registry = map<int, seq<Interceptor>>

  function Interceptors(reg: Registry, port: int): seq<Interceptor> {
    if port in reg then reg[port] else []
  }

  /** `RegisterTcpInterceptor`: append to the port's list. */
  function Register(reg: Registry, port: int, name: string, when: Option<WhenFn>, do: DoFn): (r: Registry)
    ensures r.Keys == reg.Keys + {port}
    ensures |Interceptors(r, port)| == |Interceptors(reg, port)| + 1
    ensures Interceptors(r, port)[..|Interceptors(reg, port)|] == Interceptors(reg, port)
    ensures Interceptors(r, port)[|Interceptors(reg, port)|] == Interceptor(name, when, do)
    ensures forall p :: p != port ==> Interceptors(r, p) == Interceptors(reg, p)
  {
    reg[port := Interceptors(reg, port) + [Interceptor(name, when, do)]]
  }

  datatype DataEvent = DataEvent(stage: TcpStage, size: int, end: bool)

  datatype WhenCtx = WhenCtx(it: Interceptor, stage: TcpStage, size: int, end: bool, data: Data, resultAction: Action)

  datatype DoCtx = DoCtx(it: Interceptor, stage: TcpStage, size: int, end: bool, data: Data, resultAction: Action)

  datatype Conn = Conn(skip: Action, whens: Option<seq<WhenCtx>>, doCtx: Option<DoCtx>)

  const NewConn: Conn := Conn(UndefinedAction, None, None)

  datatype Call = WhenCall(index: nat) | DoCall(name: string)

  datatype Step = Step(action: Action, conn: Conn, host: TcpHost, calls: seq<Call>)

  function MakeWhenCtx(it: Interceptor, ev: DataEvent): (c: WhenCtx)
    ensures c.it == it && c.data == NoData && c.resultAction == ActionContinue
  {
    WhenCtx(it, ev.stage, ev.size, ev.end, NoData, ActionContinue)
  }

  function MakeWhenCtxs(ints: seq<Interceptor>, ev: DataEvent): (r: seq<WhenCtx>)
    ensures |r| == |ints|
    ensures forall i :: 0 <= i < |r| ==> r[i].it == ints[i] && r[i].data == NoData
  {
    seq(|ints|, i requires 0 <= i < |ints| => MakeWhenCtx(ints[i], ev))
  }

  /** `updateTcpWhenCtx`: only the stage, size and end change; unlike HTTP,
      a pause the When asked for earlier stays in force. */
  function UpdateWhenCtx(c: WhenCtx, ev: DataEvent): (r: WhenCtx)
    ensures r.it == c.it && r.data == c.data && r.resultAction == c.resultAction
    ensures r.stage == ev.stage && r.size == ev.size && r.end == ev.end
  {
    c.(stage := ev.stage, size := ev.size, end := ev.end)
  }

  function MakeDoCtx(it: Interceptor, ev: DataEvent): (d: DoCtx)
    ensures d.it == it && d.data == NoData && d.resultAction == ActionContinue
  {
    DoCtx(it, ev.stage, ev.size, ev.end, NoData, ActionContinue)
  }

  /** `updateTcpDoCtx`: the event fields change and the pause is reset. */
  function UpdateDoCtx(d: DoCtx, ev: DataEvent): (r: DoCtx)
    ensures r.it == d.it && r.data == d.data && r.resultAction == ActionContinue
    ensures r.stage == ev.stage && r.size == ev.size && r.end == ev.end
  {
    d.(stage := ev.stage, size := ev.size, end := ev.end, resultAction := ActionContinue)
  }

  function DoOutcome(d: DoCtx, ev: DataEvent): DoOutput {
    var u := UpdateDoCtx(d, ev);
    u.it.do(DoInput(u.stage, u.size, u.end, u.data))
  }

  function WhenOutcome(c: WhenCtx, ev: DataEvent): Option<WhenOutput> {
    var u := UpdateWhenCtx(c, ev);
    match u.it.when
    case None => None
    case Some(when) => Some(when(WhenInput(u.stage, u.size, u.end, u.data)))
  }

  /** The context's pause after its When ran: the earlier one, or a new one. */
  function PausedAfter(c: WhenCtx, out: WhenOutput): Action {
    if out.paused then ActionPause else c.resultAction
  }

  function RunDo(s: Conn, h: TcpHost, ev: DataEvent, calls: seq<Call>): (r: Step)
    requires s.doCtx.Some?
    ensures r.calls == calls + [DoCall(s.doCtx.value.it.name)]
    ensures r.conn.whens == s.whens
    ensures var out := DoOutcome(s.doCtx.value, ev);
      && r.action == (if out.paused then ActionPause else ActionContinue)
      && r.host.blocked == (h.blocked || out.markBlocked)
      && (out.done ==> r.conn.doCtx.None? && r.conn.skip == r.action)
      && (!out.done ==> r.conn.doCtx.Some? && r.conn.skip == s.skip && r.conn.doCtx.value.it == s.doCtx.value.it)
  {
    var d := UpdateDoCtx(s.doCtx.value, ev);
    var out := d.it.do(DoInput(d.stage, d.size, d.end, d.data));
    var d' := d.(data := out.data, resultAction := if out.paused then ActionPause else ActionContinue);
    var h' := if out.markBlocked then h.(blocked := true) else h;
    var calls' := calls + [DoCall(d.it.name)];
    if out.done then Step(d'.resultAction, s.(doCtx := None, skip := d'.resultAction), h', calls')
    else Step(d'.resultAction, s.(doCtx := Some(d')), h', calls')
  }

  /** The When loop; the TCP `trace` does nothing. */
  function EvalWhens(whens: seq<WhenCtx>, i: nat, s: Conn, h: TcpHost, ev: DataEvent,
                     anyPaused: bool, calls: seq<Call>): (r: Step)
    requires i <= |whens|
    ensures r.conn.whens.Some? && |r.conn.whens.value| == |whens|
    ensures forall j :: 0 <= j < |whens| ==> r.conn.whens.value[j].it == whens[j].it
    ensures forall j :: 0 <= j < i ==> r.conn.whens.value[j] == whens[j]
    decreases |whens| - i
  {
    if i == |whens| then
      Step(if anyPaused then ActionPause else ActionContinue, s.(whens := Some(whens)), h, calls)
    else
      var c := UpdateWhenCtx(whens[i], ev);
      match c.it.when
      case None => EvalWhens(whens[i := c], i + 1, s, h, ev, anyPaused, calls)
      case Some(when) =>
        var out := when(WhenInput(c.stage, c.size, c.end, c.data));
        var c' := c.(data := out.data, resultAction := PausedAfter(c, out));
        var whens' := whens[i := c'];
        var calls' := calls + [WhenCall(i)];
        if out.matched then
          RunDo(s.(whens := Some(whens'), doCtx := Some(MakeDoCtx(c.it, ev))), h, ev, calls')
        else
          EvalWhens(whens', i + 1, s, h, ev, anyPaused || c'.resultAction == ActionPause, calls')
  }

  /** `tcpCtx.run` for one data callback. */
  function Run(reg: Registry, port: Fetch, s: Conn, h: TcpHost, ev: DataEvent): (r: Step)
    ensures s.skip != UndefinedAction ==> r == Step(s.skip, s, h, [])
    ensures s.skip == UndefinedAction && s.doCtx.None? && !PortHasInterceptors(reg, port) ==>
              r == Step(ActionContinue, s.(skip := ActionContinue), h, [])
    ensures s.skip == UndefinedAction && s.doCtx.Some? ==> r.calls == [DoCall(s.doCtx.value.it.name)]
  {
    if s.skip != UndefinedAction then Step(s.skip, s, h, [])
    else if s.doCtx.Some? then RunDo(s, h, ev, [])
    else
      match GetIntProperty(port)
      case Failure(_) => Step(ActionContinue, s.(skip := ActionContinue), h, [])
      case Success(p) =>
        var ints := Interceptors(reg, p);
        if |ints| == 0 then Step(ActionContinue, s.(skip := ActionContinue), h, [])
        else
          var whens := if s.whens.Some? then s.whens.value else MakeWhenCtxs(ints, ev);
          EvalWhens(whens, 0, s, h, ev, false, [])
  }

  predicate PortHasInterceptors(reg: Registry, port: Fetch) {
    GetIntProperty(port).Success? && |Interceptors(reg, GetIntProperty(port).value)| > 0
  }

  /** The callbacks the host makes on a TCP filter. */
  datatype TcpEvent =
    | NewConnection
    | DownstreamDataEvent(size: int, end: bool)
    | UpstreamDataEvent(size: int, end: bool)
    | DownstreamClose
    | UpstreamClose
    | StreamDone

  /** The host callbacks: a new connection continues, the two data callbacks
      run the engine at their stage, and the close callbacks return nothing
      and do nothing. The result's first part is the returned action, if the
      callback returns one. */
  function OnEvent(reg: Registry, port: Fetch, s: Conn, h: TcpHost, ev: TcpEvent): (r: (Option<Action>, Conn, TcpHost))
    ensures ev.NewConnection? ==> r == (Some(ActionContinue), s, h)
    ensures ev.DownstreamClose? || ev.UpstreamClose? || ev.StreamDone? ==> r == (None, s, h)
    ensures ev.DownstreamDataEvent? ==>
      var st := Run(reg, port, s, h, DataEvent(DownstreamData, ev.size, ev.end));
      r == (Some(st.action), st.conn, st.host)
    ensures ev.UpstreamDataEvent? ==>
      var st := Run(reg, port, s, h, DataEvent(UpstreamData, ev.size, ev.end));
      r == (Some(st.action), st.conn, st.host)
  {
    match ev
    case NewConnection => (Some(ActionContinue), s, h)
    case DownstreamDataEvent(n, end) =>
      var st := Run(reg, port, s, h, DataEvent(DownstreamData, n, end));
      (Some(st.action), st.conn, st.host)
    case UpstreamDataEvent(n, end) =>
      var st := Run(reg, port, s, h, DataEvent(UpstreamData, n, end));
      (Some(st.action), st.conn, st.host)
    case DownstreamClose => (None, s, h)
    case UpstreamClose => (None, s, h)
    case StreamDone => (None, s, h)
  }

  // ---------------------------------------------------------------------
  // The first match and the pause, stated without the loop.

  predicate Fires(c: WhenCtx, ev: DataEvent) {
    WhenOutcome(c, ev).Some? && WhenOutcome(c, ev).value.matched
  }

  /** After its When ran without firing, the context holds a pause: an
      earlier one or one asked for now. */
  predicate HoldsPause(c: WhenCtx, ev: DataEvent) {
    WhenOutcome(c, ev).Some? && !WhenOutcome(c, ev).value.matched
    && PausedAfter(c, WhenOutcome(c, ev).value) == ActionPause
  }

  function FirstFiring(whens: seq<WhenCtx>, ev: DataEvent, i: nat): (r: Option<nat>)
    requires i <= |whens|
    ensures r.Some? ==> i <= r.value < |whens| && Fires(whens[r.value], ev)
    ensures r.Some? ==> forall j :: i <= j < r.value ==> !Fires(whens[j], ev)
    ensures r.None? ==> forall j :: i <= j < |whens| ==> !Fires(whens[j], ev)
    decreases |whens| - i
  {
    if i == |whens| then None
    else if Fires(whens[i], ev) then Some(i)
    else FirstFiring(whens, ev, i + 1)
  }

  predicate SomeHoldsPause(whens: seq<WhenCtx>, ev: DataEvent, i: nat) {
    exists j :: i <= j < |whens| && HoldsPause(whens[j], ev)
  }

  function WhenCalls(whens: seq<WhenCtx>, i: nat, k: nat): (r: seq<Call>)
    requires i <= k <= |whens|
    ensures forall j :: 0 <= j < |r| ==> r[j].WhenCall? && i <= r[j].index < k
    decreases k - i
  {
    if i == k then []
    else if whens[i].it.when.Some? then [WhenCall(i)] + WhenCalls(whens, i + 1, k)
    else WhenCalls(whens, i + 1, k)
  }

  function MatchedDo(it: Interceptor, ev: DataEvent): DoOutput {
    DoOutcome(MakeDoCtx(it, ev), ev)
  }

  ghost predicate LoopOutcome(whens: seq<WhenCtx>, i: nat, s: Conn, h: TcpHost, ev: DataEvent,
                              anyPaused: bool, calls: seq<Call>, r: Step)
    requires i <= |whens|
  {
    match FirstFiring(whens, ev, i)
    case None =>
      && r.action == (if anyPaused || SomeHoldsPause(whens, ev, i) then ActionPause else ActionContinue)
      && r.calls == calls + WhenCalls(whens, i, |whens|)
      && r.host == h && r.conn.doCtx == s.doCtx && r.conn.skip == s.skip
    case Some(k) =>
      var out := MatchedDo(whens[k].it, ev);
      && r.calls == calls + WhenCalls(whens, i, k + 1) + [DoCall(whens[k].it.name)]
      && r.action == (if out.paused then ActionPause else ActionContinue)
      && r.host.blocked == (h.blocked || out.markBlocked)
      && (r.conn.doCtx.None? <==> out.done)
      && (r.conn.doCtx.None? ==> r.conn.skip == r.action)
      && (r.conn.doCtx.Some? ==> r.conn.skip == s.skip && r.conn.doCtx.value.it == whens[k].it)
  }

  /** Whens run in registration order; the first that fires installs its
      Do, which runs on the same event; with no match the result is Pause
      exactly when some context holds a pause, old or new. */
  lemma {:induction false} EvalWhensOutcome(whens: seq<WhenCtx>, i: nat, s: Conn, h: TcpHost, ev: DataEvent,
                                            anyPaused: bool, calls: seq<Call>)
    requires i <= |whens|
    ensures LoopOutcome(whens, i, s, h, ev, anyPaused, calls, EvalWhens(whens, i, s, h, ev, anyPaused, calls))
    decreases |whens| - i, 1
  {
    if i < |whens| {
      if whens[i].it.when.None? {
        NoWhenCase(whens, i, s, h, ev, anyPaused, calls);
      } else if Fires(whens[i], ev) {
        MatchedCase(whens, i, s, h, ev, anyPaused, calls);
      } else {
        UnmatchedCase(whens, i, s, h, ev, anyPaused, calls);
      }
    }
  }

  /** The context at index `i` after its When ran without matching. */
  function AfterNoMatch(c: WhenCtx, ev: DataEvent): WhenCtx
    requires WhenOutcome(c, ev).Some?
  {
    var out := WhenOutcome(c, ev).value;
    UpdateWhenCtx(c, ev).(data := out.data, resultAction := PausedAfter(c, out))
  }

  lemma {:induction false} NoWhenCase(whens: seq<WhenCtx>, i: nat, s: Conn, h: TcpHost, ev: DataEvent,
                                      anyPaused: bool, calls: seq<Call>)
    requires i < |whens| && whens[i].it.when.None?
    ensures LoopOutcome(whens, i, s, h, ev, anyPaused, calls, EvalWhens(whens, i, s, h, ev, anyPaused, calls))
    decreases |whens| - i, 0
  {
    var whens' := whens[i := UpdateWhenCtx(whens[i], ev)];
    EvalWhensOutcome(whens', i + 1, s, h, ev, anyPaused, calls);
    var r := EvalWhens(whens', i + 1, s, h, ev, anyPaused, calls);
    assert EvalWhens(whens, i, s, h, ev, anyPaused, calls) == r;
    assert !Fires(whens[i], ev) && !HoldsPause(whens[i], ev);
    Transfer(whens, whens', i, s, h, ev, anyPaused, anyPaused, calls, calls, r);
  }

  lemma {:induction false} MatchedCase(whens: seq<WhenCtx>, i: nat, s: Conn, h: TcpHost, ev: DataEvent,
                                       anyPaused: bool, calls: seq<Call>)
    requires i < |whens| && Fires(whens[i], ev)
    ensures LoopOutcome(whens, i, s, h, ev, anyPaused, calls, EvalWhens(whens, i, s, h, ev, anyPaused, calls))
  {
    assert FirstFiring(whens, ev, i) == Some(i);
    assert WhenCalls(whens, i, i + 1) == [WhenCall(i)];
  }

  lemma {:induction false} UnmatchedCase(whens: seq<WhenCtx>, i: nat, s: Conn, h: TcpHost, ev: DataEvent,
                                         anyPaused: bool, calls: seq<Call>)
    requires i < |whens| && WhenOutcome(whens[i], ev).Some? && !Fires(whens[i], ev)
    ensures LoopOutcome(whens, i, s, h, ev, anyPaused, calls, EvalWhens(whens, i, s, h, ev, anyPaused, calls))
    decreases |whens| - i, 0
  {
    var c' := AfterNoMatch(whens[i], ev);
    var ap := anyPaused || c'.resultAction == ActionPause;
    var whens' := whens[i := c'];
    EvalWhensOutcome(whens', i + 1, s, h, ev, ap, calls + [WhenCall(i)]);
    var r := EvalWhens(whens', i + 1, s, h, ev, ap, calls + [WhenCall(i)]);
    UnmatchedUnfold(whens, i, s, h, ev, anyPaused, calls);
    Transfer(whens, whens', i, s, h, ev, anyPaused, ap, calls, calls + [WhenCall(i)], r);
  }

  /** One step of the loop past a When that ran without firing. */
  lemma UnmatchedUnfold(whens: seq<WhenCtx>, i: nat, s: Conn, h: TcpHost, ev: DataEvent,
                        anyPaused: bool, calls: seq<Call>)
    requires i < |whens| && WhenOutcome(whens[i], ev).Some? && !Fires(whens[i], ev)
    ensures var c' := AfterNoMatch(whens[i], ev);
      var ap := anyPaused || c'.resultAction == ActionPause;
      && EvalWhens(whens, i, s, h, ev, anyPaused, calls)
         == EvalWhens(whens[i := c'], i + 1, s, h, ev, ap, calls + [WhenCall(i)])
      && (HoldsPause(whens[i], ev) <==> c'.resultAction == ActionPause)
  {
  }

  /** From the outcome of the loop at `i + 1` over the updated list to the
      outcome at `i` over the original list, when the context at `i` did
      not fire. */
  lemma {:induction false} Transfer(whens: seq<WhenCtx>, whens': seq<WhenCtx>, i: nat, s: Conn, h: TcpHost, ev: DataEvent,
                 anyPaused: bool, ap: bool, calls: seq<Call>, calls': seq<Call>, r: Step)
    requires i < |whens| == |whens'| && !Fires(whens[i], ev)
    requires forall j :: 0 <= j < |whens| && j != i ==> whens'[j] == whens[j]
    requires ap == (anyPaused || HoldsPause(whens[i], ev))
    requires calls' == calls + (if whens[i].it.when.Some? then [WhenCall(i)] else [])
    requires LoopOutcome(whens', i + 1, s, h, ev, ap, calls', r)
    ensures LoopOutcome(whens, i, s, h, ev, anyPaused, calls, r)
  {
    SameTail(whens, whens', i, ev);
    if FirstFiring(whens, ev, i + 1).None? {
      NoneFacts(whens, whens', i, ev, anyPaused, ap, calls, calls');
      TransferNone(whens, whens', i, s, h, ev, anyPaused, ap, calls, calls', r);
    } else {
      var k := FirstFiring(whens, ev, i + 1).value;
      SomeFacts(whens, whens', i, k, ev, calls, calls');
      TransferSome(whens, whens', i, k, s, h, ev, anyPaused, ap, calls, calls', r);
    }
  }

  /** The facts `TransferNone` needs, derived without the loop outcome. */
  lemma {:induction false} NoneFacts(whens: seq<WhenCtx>, whens': seq<WhenCtx>, i: nat, ev: DataEvent,
                                     anyPaused: bool, ap: bool, calls: seq<Call>, calls': seq<Call>)
    requires i < |whens| == |whens'| && !Fires(whens[i], ev)
    requires forall j :: 0 <= j < |whens| && j != i ==> whens'[j] == whens[j]
    requires FirstFiring(whens, ev, i + 1).None?
    requires ap == (anyPaused || HoldsPause(whens[i], ev))
    requires calls' == calls + (if whens[i].it.when.Some? then [WhenCall(i)] else [])
    ensures FirstFiring(whens, ev, i).None?
    ensures (anyPaused || SomeHoldsPause(whens, ev, i)) == (ap || SomeHoldsPause(whens, ev, i + 1))
    ensures calls' + WhenCalls(whens', i + 1, |whens|) == calls + WhenCalls(whens, i, |whens|)
  {
    SkipUnfired(whens, i, ev);
    UnmatchedNone(whens, i, ev);
    CallsStep(whens, whens', i, |whens|, calls, calls');
  }

  /** The facts `TransferSome` needs, derived without the loop outcome. */
  lemma {:induction false} SomeFacts(whens: seq<WhenCtx>, whens': seq<WhenCtx>, i: nat, k: nat, ev: DataEvent,
                                     calls: seq<Call>, calls': seq<Call>)
    requires i < |whens| == |whens'| && !Fires(whens[i], ev)
    requires forall j :: 0 <= j < |whens| && j != i ==> whens'[j] == whens[j]
    requires FirstFiring(whens, ev, i + 1) == Some(k)
    requires calls' == calls + (if whens[i].it.when.Some? then [WhenCall(i)] else [])
    ensures FirstFiring(whens, ev, i) == Some(k) && i < k < |whens| && whens'[k] == whens[k]
    ensures calls' + WhenCalls(whens', i + 1, k + 1) == calls + WhenCalls(whens, i, k + 1)
  {
    SkipUnfired(whens, i, ev);
    CallsStep(whens, whens', i, k + 1, calls, calls');
  }

  lemma {:induction false} SkipUnfired(whens: seq<WhenCtx>, i: nat, ev: DataEvent)
    requires i < |whens| && !Fires(whens[i], ev)
    ensures FirstFiring(whens, ev, i) == FirstFiring(whens, ev, i + 1)
  {
  }

  lemma {:induction false} CallsStep(whens: seq<WhenCtx>, whens': seq<WhenCtx>, i: nat, n: nat,
                                     calls: seq<Call>, calls': seq<Call>)
    requires i < n <= |whens| == |whens'|
    requires forall j :: 0 <= j < |whens| && j != i ==> whens'[j] == whens[j]
    requires calls' == calls + (if whens[i].it.when.Some? then [WhenCall(i)] else [])
    ensures calls' + WhenCalls(whens', i + 1, n) == calls + WhenCalls(whens, i, n)
  {
    WhenCallsTail(whens, whens', i + 1, n);
    var mine := if whens[i].it.when.Some? then [WhenCall(i)] else [];
    WhenCallsStep(whens, i, n);
    ConcatAssoc(calls, mine, WhenCalls(whens, i + 1, n));
  }

  lemma {:induction false} WhenCallsStep(whens: seq<WhenCtx>, i: nat, n: nat)
    requires i < n <= |whens|
    ensures WhenCalls(whens, i, n) == (if whens[i].it.when.Some? then [WhenCall(i)] else []) + WhenCalls(whens, i + 1, n)
  {
    if whens[i].it.when.None? {
      assert [] + WhenCalls(whens, i + 1, n) == WhenCalls(whens, i + 1, n);
    }
  }

  /** Splitting off index `i` of the unmatched tail: its pause. */
  lemma {:induction false} UnmatchedNone(whens: seq<WhenCtx>, i: nat, ev: DataEvent)
    requires i < |whens|
    ensures SomeHoldsPause(whens, ev, i) <==> (HoldsPause(whens[i], ev) || SomeHoldsPause(whens, ev, i + 1))
  {
    if SomeHoldsPause(whens, ev, i) && !HoldsPause(whens[i], ev) {
      var j :| i <= j < |whens| && HoldsPause(whens[j], ev);
      assert j != i;
    }
  }

  /** Replacing the context at index `i` leaves the first match, the pauses
      and the calls after `i` as they were. */
  lemma {:induction false} SameTail(whens: seq<WhenCtx>, whens': seq<WhenCtx>, i: nat, ev: DataEvent)
    requires i < |whens| == |whens'|
    requires forall j :: 0 <= j < |whens| && j != i ==> whens'[j] == whens[j]
    ensures FirstFiring(whens', ev, i + 1) == FirstFiring(whens, ev, i + 1)
    ensures SomeHoldsPause(whens', ev, i + 1) == SomeHoldsPause(whens, ev, i + 1)
    ensures WhenCalls(whens', i + 1, |whens|) == WhenCalls(whens, i + 1, |whens|)
  {
    FirstFiringTail(whens, whens', i + 1, ev);
    WhenCallsTail(whens, whens', i + 1, |whens|);
    assert forall j :: i + 1 <= j < |whens| ==> whens'[j] == whens[j];
  }

  lemma {:induction false} TransferNone(whens: seq<WhenCtx>, whens': seq<WhenCtx>, i: nat, s: Conn, h: TcpHost, ev: DataEvent,
                     anyPaused: bool, ap: bool, calls: seq<Call>, calls': seq<Call>, r: Step)
    requires i < |whens| == |whens'|
    requires FirstFiring(whens, ev, i).None? && FirstFiring(whens', ev, i + 1).None?
    requires SomeHoldsPause(whens', ev, i + 1) == SomeHoldsPause(whens, ev, i + 1)
    requires (anyPaused || SomeHoldsPause(whens, ev, i)) == (ap || SomeHoldsPause(whens, ev, i + 1))
    requires calls' + WhenCalls(whens', i + 1, |whens|) == calls + WhenCalls(whens, i, |whens|)
    requires LoopOutcome(whens', i + 1, s, h, ev, ap, calls', r)
    ensures LoopOutcome(whens, i, s, h, ev, anyPaused, calls, r)
  {
  }

  lemma {:induction false} TransferSome(whens: seq<WhenCtx>, whens': seq<WhenCtx>, i: nat, k: nat, s: Conn, h: TcpHost, ev: DataEvent,
                     anyPaused: bool, ap: bool, calls: seq<Call>, calls': seq<Call>, r: Step)
    requires i < k < |whens| == |whens'| && whens'[k] == whens[k]
    requires FirstFiring(whens, ev, i) == Some(k) && FirstFiring(whens', ev, i + 1) == Some(k)
    requires calls' + WhenCalls(whens', i + 1, k + 1) == calls + WhenCalls(whens, i, k + 1)
    requires LoopOutcome(whens', i + 1, s, h, ev, ap, calls', r)
    ensures LoopOutcome(whens, i, s, h, ev, anyPaused, calls, r)
  {
  }

  lemma {:induction false} FirstFiringTail(a: seq<WhenCtx>, b: seq<WhenCtx>, i: nat, ev: DataEvent)
    requires i <= |a| == |b|
    requires forall j :: i <= j < |a| ==> a[j] == b[j]
    ensures FirstFiring(a, ev, i) == FirstFiring(b, ev, i)
    decreases |a| - i
  {
    if i < |a| {
      FirstFiringTail(a, b, i + 1, ev);
    }
  }

  lemma {:induction false} WhenCallsTail(a: seq<WhenCtx>, b: seq<WhenCtx>, i: nat, k: nat)
    requires i <= k <= |a| == |b|
    requires forall j :: i <= j < k ==> a[j].it == b[j].it
    ensures WhenCalls(a, i, k) == WhenCalls(b, i, k)
    decreases k - i
  {
    if i < k {
      WhenCallsTail(a, b, i + 1, k);
    }
  }

  /** A pause a When asked for stays with its context: on every later event
      where no When fires, that context still holds it, so the call
      pauses. */
  lemma {:induction false} PauseIsSticky(whens: seq<WhenCtx>, j: nat, s: Conn, h: TcpHost, ev: DataEvent)
    requires j < |whens| && whens[j].it.when.Some? && whens[j].resultAction == ActionPause
    requires FirstFiring(whens, ev, 0).None?
    ensures EvalWhens(whens, 0, s, h, ev, false, []).action == ActionPause
    ensures EvalWhens(whens, 0, s, h, ev, false, []).conn.whens.value[j].resultAction == ActionPause
  {
    EvalWhensOutcome(whens, 0, s, h, ev, false, []);
    assert HoldsPause(whens[j], ev);
    EvalKeepsPause(whens, 0, j, s, h, ev, false, []);
  }

  /** The loop never clears a held pause of a context that does not fire. */
  lemma {:induction false} EvalKeepsPause(whens: seq<WhenCtx>, i: nat, j: nat, s: Conn, h: TcpHost, ev: DataEvent,
                                          anyPaused: bool, calls: seq<Call>)
    requires i <= j < |whens| && whens[j].resultAction == ActionPause
    requires FirstFiring(whens, ev, i).None?
    ensures EvalWhens(whens, i, s, h, ev, anyPaused, calls).conn.whens.value[j].resultAction == ActionPause
    decreases |whens| - i
  {
    var c := UpdateWhenCtx(whens[i], ev);
    assert !Fires(whens[i], ev);
    match c.it.when
    case None =>
      var whens' := whens[i := c];
      FirstFiringTail(whens, whens', i + 1, ev);
      if i < j {
        EvalKeepsPause(whens', i + 1, j, s, h, ev, anyPaused, calls);
      }
    case Some(when) =>
      var out := when(WhenInput(c.stage, c.size, c.end, c.data));
      var c' := c.(data := out.data, resultAction := PausedAfter(c, out));
      var whens' := whens[i := c'];
      FirstFiringTail(whens, whens', i + 1, ev);
      if i < j {
        EvalKeepsPause(whens', i + 1, j, s, h, ev, anyPaused || c'.resultAction == ActionPause, calls + [WhenCall(i)]);
      }
  }

  /** Once the When loop has run, it runs as `LoopOutcome` says. */
  lemma {:induction false} RunEvaluatesWhens(reg: Registry, port: Fetch, s: Conn, h: TcpHost, ev: DataEvent)
    requires s.skip == UndefinedAction && s.doCtx.None? && PortHasInterceptors(reg, port)
    ensures var ints := Interceptors(reg, GetIntProperty(port).value);
      var whens := if s.whens.Some? then s.whens.value else MakeWhenCtxs(ints, ev);
      var r := Run(reg, port, s, h, ev);
      && LoopOutcome(whens, 0, s, h, ev, false, [], r)
      && r.conn.whens.Some? && |r.conn.whens.value| == |whens|
      && (s.whens.None? ==> |whens| == |ints| && forall j :: 0 <= j < |ints| ==> whens[j].it == ints[j])
  {
    var ints := Interceptors(reg, GetIntProperty(port).value);
    var whens := if s.whens.Some? then s.whens.value else MakeWhenCtxs(ints, ev);
    EvalWhensOutcome(whens, 0, s, h, ev, false, []);
  }

  /** If no When can ever ask for a pause (the shown TCP When context has no
      `Pause` method), an unmatched data event always continues. */
  lemma {:induction false} NoPauseWithoutPauses(whens: seq<WhenCtx>, s: Conn, h: TcpHost, ev: DataEvent)
    requires forall j :: 0 <= j < |whens| ==> whens[j].resultAction == ActionContinue
    requires forall j :: 0 <= j < |whens| && WhenOutcome(whens[j], ev).Some? ==> !WhenOutcome(whens[j], ev).value.paused
    requires FirstFiring(whens, ev, 0).None?
    ensures EvalWhens(whens, 0, s, h, ev, false, []).action == ActionContinue
  {
    EvalWhensOutcome(whens, 0, s, h, ev, false, []);
  }
}

/** The pure parts of the iptables helper: which configured ports are
    redirected to the HTTP listener and which to the TCP listener, the
    type of a port named on the command line, and the parsing of the rule
    lines `iptables -L` prints. Running iptables, detecting bridges and
    printing tables are left out. */
module Iptables {
  import opened Wrappers
  import opened Json
  import opened PyStr
  import Sorting

  // ---------------------------------------------------------------------
  // Loading the configured ports

  /** A TCP or UDP port number. */
  predicate InPortRange(p: int) {
    1 <= p <= 65535
  }

  datatype PortKind = Http | Tcp

  datatype IptError =
    | NoValidPorts          // ValueError: neither list holds a port
    | ServicesNotIterable   // TypeError: `services` cannot be iterated
    | TypeNotAString        // AttributeError: `.lower()` on a type that is not a string
    | PortNotConfigured     // ValueError: the port is in neither list
    | MissingPortArgument   // the command has no port argument
    | InvalidPortArgument   // ValueError: the argument is not an integer in 1..65535

  /** Service types whose traffic is redirected to the HTTP listener. */
  const HttpTypes: set<string> := {"http", "https", "ws", "wss"}

  /** One element of the service list: Success(None) when it contributes
      no port (not a mapping, a falsy or non-integer port, a port out of
      range), Success(Some) with its port and listener otherwise. The type
      defaults to "http" and is compared lower-cased; a type that is not a
      string raises, even when the port would be skipped. */
  function Classify(service: JValue): (r: Result<Option<(int, PortKind)>, IptError>)
    ensures r.Failure? <==> service.JMap? && !Get(service.fields, "type", JStr("http")).JStr?
    ensures r.Success? && r.value.Some? ==> InPortRange(r.value.value.0)
    ensures r.Success? && r.value.Some? ==> service.JMap?
    ensures r.Success? && r.value.Some? && service.JMap? ==>
      var port := Get(service.fields, "port", JNull);
      Truthy(port) && IntValue(port) == Some(r.value.value.0)
  {
    if !service.JMap? then Success(None)
    else
      var t := Get(service.fields, "type", JStr("http"));
      if !t.JStr? then Failure(TypeNotAString)
      else
        var port := Get(service.fields, "port", JNull);
        if !Truthy(port) then Success(None)
        else
          match IntValue(port)
          case None => Success(None)
          case Some(p) =>
            if !InPortRange(p) then Success(None)
            else Success(Some((p, if Lower(t.s) in HttpTypes then Http else Tcp)))
  }

  /** Port `p` is configured for listener `k` by some service of the list. */
  predicate Configured(services: seq<JValue>, p: int, k: PortKind) {
    exists i :: 0 <= i < |services| && Classify(services[i]) == Success(Some((p, k)))
  }

  /** The loop over the services: the HTTP and the TCP ports in the order
      met; the first service that raises ends it. */
  function Collect(services: seq<JValue>): (r: Result<(seq<int>, seq<int>), IptError>)
    ensures r.Success? <==> forall i :: 0 <= i < |services| ==> Classify(services[i]).Success?
    decreases |services|
  {
    if |services| == 0 then Success(([], []))
    else
      var c :- Classify(services[0]);
      var rest :- Collect(services[1..]);
      assert forall i :: 1 <= i < |services| ==> services[i] == services[1..][i - 1];
      match c
      case None => Success(rest)
      case Some((p, Http)) => Success(([p] + rest.0, rest.1))
      case Some((p, Tcp)) => Success((rest.0, [p] + rest.1))
  }

  lemma ConfiguredCons(services: seq<JValue>, p: int, k: PortKind)
    requires |services| > 0
    ensures Configured(services, p, k) <==>
      Classify(services[0]) == Success(Some((p, k))) || Configured(services[1..], p, k)
  {
    if Configured(services, p, k) {
      var i :| 0 <= i < |services| && Classify(services[i]) == Success(Some((p, k)));
      if i > 0 {
        assert services[1..][i - 1] == services[i];
      }
    }
    if Configured(services[1..], p, k) {
      var i :| 0 <= i < |services[1..]| && Classify(services[1..][i]) == Success(Some((p, k)));
      assert services[i + 1] == services[1..][i];
    }
  }

  /** The loop's lists hold exactly the ports the services configure for
      each listener. */
  lemma {:induction false} CollectPorts(services: seq<JValue>)
    requires Collect(services).Success?
    ensures forall p :: p in Collect(services).value.0 <==> Configured(services, p, Http)
    ensures forall p :: p in Collect(services).value.1 <==> Configured(services, p, Tcp)
    decreases |services|
  {
    if |services| > 0 {
      assert forall i :: 0 <= i < |services[1..]| ==> services[1..][i] == services[i + 1];
      CollectPorts(services[1..]);
      forall p, k
        ensures Configured(services, p, k) <==>
          Classify(services[0]) == Success(Some((p, k))) || Configured(services[1..], p, k)
      {
        ConfiguredCons(services, p, k);
      }
    }
  }

  /** The port lists, each ascending without duplicates. */
  datatype Ports = Ports(http: seq<int>, tcp: seq<int>)

  /** `data.get("services", [])` for a mapping, no services otherwise. */
  function ServicesValue(data: JValue): JValue {
    if data.JMap? then Get(data.fields, "services", JList([])) else JList([])
  }

  /** The elements `for service in services` meets, as far as they matter:
      a string yields strings and a mapping its keys, none of which is a
      mapping, so both contribute nothing; anything but a list, a string or
      a mapping cannot be iterated. */
  function Iterated(v: JValue): (r: Option<seq<JValue>>)
    ensures v.JList? ==> r == Some(v.items)
    ensures r.None? <==> v.JNull? || v.JBool? || v.JInt?
  {
    match v
    case JList(xs) => Some(xs)
    case JStr(_) => Some([])
    case JMap(_) => Some([])
    case _ => None
  }

  /** `load_ports` on the loaded ports file, None when there is no file. */
  function LoadPorts(file: Option<JValue>): (r: Result<Ports, IptError>)
    ensures file.None? ==> r == Failure(NoValidPorts)
    ensures r.Success? ==> Sorting.StrictlyIncreasing(r.value.http) && Sorting.StrictlyIncreasing(r.value.tcp)
    ensures r.Success? ==> |r.value.http| > 0 || |r.value.tcp| > 0
    ensures r.Success? ==> forall p :: p in r.value.http || p in r.value.tcp ==> InPortRange(p)
  {
    match file
    case None => Failure(NoValidPorts)
    case Some(data) =>
      match Iterated(ServicesValue(data))
      case None => Failure(ServicesNotIterable)
      case Some(services) =>
        var lists :- Collect(services);
        var http := Sorting.SortedSet(lists.0);
        var tcp := Sorting.SortedSet(lists.1);
        if |http| == 0 && |tcp| == 0 then Failure(NoValidPorts)
        else
          CollectPorts(services);
          assert forall p :: p in http ==> p in Sorting.Elems(lists.0);
          assert forall p :: p in tcp ==> p in Sorting.Elems(lists.1);
          RangeOfConfigured(services);
          Success(Ports(http, tcp))
  }

  lemma RangeOfConfigured(services: seq<JValue>)
    ensures forall p, k :: Configured(services, p, k) ==> InPortRange(p)
  {
  }

  /** The lists `load_ports` returns hold exactly the ports the services
      configure for each listener. */
  lemma LoadedPorts(data: JValue, services: seq<JValue>)
    requires Iterated(ServicesValue(data)) == Some(services)
    requires LoadPorts(Some(data)).Success?
    ensures forall p :: p in LoadPorts(Some(data)).value.http <==> Configured(services, p, Http)
    ensures forall p :: p in LoadPorts(Some(data)).value.tcp <==> Configured(services, p, Tcp)
  {
    var lists := Collect(services).value;
    CollectPorts(services);
    assert forall p :: p in Sorting.SortedSet(lists.0) <==> p in Sorting.Elems(lists.0);
    assert forall p :: p in Sorting.SortedSet(lists.1) <==> p in Sorting.Elems(lists.1);
  }

  /** A readable file whose services all load raises "no valid ports"
      exactly when none of them configures a port. */
  lemma NoValidPortsIff(data: JValue, services: seq<JValue>)
    requires Iterated(ServicesValue(data)) == Some(services)
    requires forall i :: 0 <= i < |services| ==> Classify(services[i]).Success?
    ensures LoadPorts(Some(data)) == Failure(NoValidPorts) <==>
      forall i :: 0 <= i < |services| ==> Classify(services[i]).value.None?
  {
    var lists := Collect(services).value;
    CollectPorts(services);
    var http := Sorting.SortedSet(lists.0);
    var tcp := Sorting.SortedSet(lists.1);
    if !forall i :: 0 <= i < |services| ==> Classify(services[i]).value.None? {
      var i :| 0 <= i < |services| && !Classify(services[i]).value.None?;
      var (p, k) := Classify(services[i]).value.value;
      assert Configured(services, p, k);
      assert p in Sorting.Elems(if k == Http then lists.0 else lists.1);
    }
  }

  // ---------------------------------------------------------------------
  // The add-port and remove-port commands

  /** The type `add_port` and `remove_port` give a port: HTTP when it is
      in the HTTP list, else TCP when it is in the TCP list. */
  function KindOfPort(file: Option<JValue>, port: int): (r: Result<PortKind, IptError>)
    ensures LoadPorts(file).Failure? ==> r == Failure(LoadPorts(file).error)
    ensures r.Success? ==> LoadPorts(file).Success?
    ensures r == Success(Http) <==> LoadPorts(file).Success? && port in LoadPorts(file).value.http
    ensures r == Success(Tcp) <==>
      LoadPorts(file).Success? && port !in LoadPorts(file).value.http && port in LoadPorts(file).value.tcp
  {
    var ports :- LoadPorts(file);
    if port in ports.http then Success(Http)
    else if port in ports.tcp then Success(Tcp)
    else Failure(PortNotConfigured)
  }

  /** A port configured for both listeners is treated as HTTP; a port no
      service configures is refused. */
  lemma KindOfConfiguredPort(data: JValue, services: seq<JValue>, port: int)
    requires Iterated(ServicesValue(data)) == Some(services)
    requires LoadPorts(Some(data)).Success?
    ensures KindOfPort(Some(data), port) == Success(Http) <==> Configured(services, port, Http)
    ensures KindOfPort(Some(data), port) == Success(Tcp) <==>
      !Configured(services, port, Http) && Configured(services, port, Tcp)
    ensures KindOfPort(Some(data), port) == Failure(PortNotConfigured) <==>
      !Configured(services, port, Http) && !Configured(services, port, Tcp)
  {
    LoadedPorts(data, services);
  }

  /** The port argument of `add-port` and `remove-port`: `int(arg)` in
      1..65535. */
  function PortArgument(arg: Option<string>): (r: Result<int, IptError>)
    ensures arg.None? ==> r == Failure(MissingPortArgument)
    ensures r.Success? ==> arg.Some? && PyInt(arg.value) == Some(r.value) && InPortRange(r.value)
    ensures arg.Some? && PyInt(arg.value).Some? && InPortRange(PyInt(arg.value).value) ==> r.Success?
  {
    match arg
    case None => Failure(MissingPortArgument)
    case Some(a) =>
      match PyInt(a)
      case None => Failure(InvalidPortArgument)
      case Some(p) => if InPortRange(p) then Success(p) else Failure(InvalidPortArgument)
  }

  /** Every port number, written in decimal, is accepted as itself. */
  lemma PortArgumentOfNumber(p: int)
    requires InPortRange(p)
    ensures PortArgument(Some(Str(p))) == Success(p)
  {
  }

  /** The `add-port` and `remove-port` commands up to the iptables calls:
      the port and the listener its rules are written for. */
  function PortCommand(arg: Option<string>, file: Option<JValue>): (r: Result<(int, PortKind), IptError>)
    ensures r.Success? ==> InPortRange(r.value.0)
    ensures r.Success? ==> arg.Some? && PyInt(arg.value) == Some(r.value.0)
    ensures r.Success? ==> KindOfPort(file, r.value.0) == Success(r.value.1)
  {
    var p :- PortArgument(arg);
    var k :- KindOfPort(file, p);
    Success((p, k))
  }

  /** A configured port, named in decimal, reaches the rules of its listener. */
  lemma PortCommandConfigured(data: JValue, services: seq<JValue>, p: int, k: PortKind)
    requires Iterated(ServicesValue(data)) == Some(services)
    requires LoadPorts(Some(data)).Success?
    requires Configured(services, p, k) && (k == Tcp ==> !Configured(services, p, Http))
    ensures PortCommand(Some(Str(p)), Some(data)) == Success((p, k))
  {
    RangeOfConfigured(services);
    PortArgumentOfNumber(p);
    KindOfConfiguredPort(data, services, p);
  }

  // ---------------------------------------------------------------------
  // Searching a rule line

  /** The three patterns the rule parser searches for. */
  datatype Pattern = CommentPattern | SkipOnPattern | DashIPattern

  /** `pat` matches `s` at `k`, in the sense of each pattern's predicate
      below. */
  predicate MatchesAt(pat: Pattern, s: string, k: nat) {
    match pat
    case CommentPattern => CommentEnd(s, k).Some?
    case SkipOnPattern => SkipOnAt(s, k)
    case DashIPattern => DashIAt(s, k)
  }

  /** The leftmost position from `from` on where `pat` matches: what
      `re.search` finds, for patterns whose matches at different starts
      are told apart by the start alone. */
  function Leftmost(pat: Pattern, s: string, from: nat): (r: Option<nat>)
    ensures r.Some? ==> from <= r.value < |s| && MatchesAt(pat, s, r.value)
    ensures r.Some? ==> forall k :: from <= k < r.value ==> !MatchesAt(pat, s, k)
    ensures r.None? ==> forall k :: from <= k < |s| ==> !MatchesAt(pat, s, k)
    decreases |s| - from
  {
    if from >= |s| then None
    else if MatchesAt(pat, s, from) then Some(from)
    else Leftmost(pat, s, from + 1)
  }

  lemma {:induction false} LeftmostIs(pat: Pattern, s: string, from: nat, p: nat)
    requires from <= p < |s| && MatchesAt(pat, s, p)
    requires forall k :: from <= k < p ==> !MatchesAt(pat, s, k)
    ensures Leftmost(pat, s, from) == Some(p)
    decreases p - from
  {
    if from < p {
      LeftmostIs(pat, s, from + 1, p);
    }
  }

  /** The non-space run that starts at `i`: `\S+`, taken greedily. */
  function WordAt(s: string, i: nat): (w: string)
    requires i < |s| && !IsSpace(s[i])
    ensures IsWord(w)
    ensures i + |w| <= |s| && s[i..i + |w|] == w
    ensures i + |w| == |s| || IsSpace(s[i + |w|])
  {
    var n := WordLength(s[i..]);
    s[i..i + n]
  }

  // The opening slash-star at `p` starts a comment whose text runs to the
  // star at `q`: the text is not empty, holds no star, and that star is
  // followed by the closing slash.
  predicate CommentAt(line: string, p: int, q: int) {
    && OccursAt(line, "/*", p)
    && p + 2 < q && q + 1 < |line|
    && line[q] == '*' && line[q + 1] == '/'
    && forall k :: p + 2 <= k < q ==> line[k] != '*'
  }

  /** Where the text of a comment opened at `p` ends, if one is. */
  function CommentEnd(line: string, p: nat): (r: Option<nat>)
    ensures r.Some? ==> CommentAt(line, p, r.value)
    ensures forall q :: CommentAt(line, p, q) ==> r == Some(q)
  {
    if !OccursAt(line, "/*", p) then None
    else
      match IndexOfFrom(line, ['*'], p + 2)
      case None =>
        forall q | CommentAt(line, p, q) ensures false {
          OccursAtChar(line, '*', q);
        }
        None
      case Some(q) =>
        OccursAtChar(line, '*', q);
        forall k | p + 2 <= k < q ensures line[k] != '*' {
          OccursAtChar(line, '*', k);
        }
        if p + 2 < q && q + 1 < |line| && line[q + 1] == '/' then Some(q)
        else
          forall q' | CommentAt(line, p, q') ensures false {
            OccursAtChar(line, '*', q');
          }
          None
  }

  // The first capture group of the comment pattern (slash-star, spaces, a
  // run without stars, spaces, star-slash), stripped; "" when nothing
  // matches: the stripped text of the leftmost comment.
  function CommentOf(line: string): (r: string)
  {
    match Leftmost(CommentPattern, line, 0)
    case None => ""
    case Some(p) => Strip(line[p + 2..CommentEnd(line, p).value])
  }

  /** The comment between text without a star and anything else is found. */
  lemma CommentRoundTrip(a: string, c: string, b: string)
    requires forall k :: 0 <= k < |a| ==> a[k] != '*'
    requires forall k :: 0 <= k < |c| ==> c[k] != '*'
    requires |c| > 0
    ensures CommentOf(a + "/*" + c + "*/" + b) == Strip(c)
  {
    var line := a + "/*" + c + "*/" + b;
    CommentFound(a, c, b, line);
    NoEarlierComment(a, c, b, line);
    CommentOfLeftmost(line, |a|, |a| + 2 + |c|, c);
  }

  /** The leftmost comment, opened at `p` with text `c`, is the one found. */
  lemma CommentOfLeftmost(line: string, p: nat, q: nat, c: string)
    requires p < |line| && MatchesAt(CommentPattern, line, p)
    requires forall k :: 0 <= k < p ==> !MatchesAt(CommentPattern, line, k)
    requires CommentEnd(line, p) == Some(q)
    requires p + 2 <= q <= |line| && line[p + 2..q] == c
    ensures CommentOf(line) == Strip(c)
  {
    LeftmostIs(CommentPattern, line, 0, p);
    CommentOfAt(line, p, q);
  }

  lemma CommentOfAt(line: string, p: nat, q: nat)
    requires Leftmost(CommentPattern, line, 0) == Some(p)
    requires CommentEnd(line, p) == Some(q)
    ensures CommentOf(line) == Strip(line[p + 2..q])
  {
  }

  lemma CommentFound(a: string, c: string, b: string, line: string)
    requires forall k :: 0 <= k < |c| ==> c[k] != '*'
    requires |c| > 0
    requires line == a + "/*" + c + "*/" + b
    ensures |a| < |line| && MatchesAt(CommentPattern, line, |a|)
    ensures CommentEnd(line, |a|) == Some(|a| + 2 + |c|)
    ensures line[|a| + 2..|a| + 2 + |c|] == c
  {
    var p := |a|;
    var q := |a| + 2 + |c|;
    assert line[p..p + 2] == "/*";
    assert line[q] == '*' && line[q + 1] == '/';
    assert forall k :: p + 2 <= k < q ==> line[k] == c[k - p - 2];
    assert CommentAt(line, p, q);
    assert line[p + 2..q] == c;
  }

  lemma NoEarlierComment(a: string, c: string, b: string, line: string)
    requires forall k :: 0 <= k < |a| ==> a[k] != '*'
    requires line == a + "/*" + c + "*/" + b
    ensures forall k :: 0 <= k < |a| ==> !MatchesAt(CommentPattern, line, k)
  {
    forall k | 0 <= k < |a|
      ensures !CommentEnd(line, k).Some?
    {
      assert line[k + 1] != '*';
      assert line[k..k + 2][1] == line[k + 1];
    }
  }

  const EnvoyMarker := "envoy:"

  /** The comment text after the first "envoy:", stripped; "" without one. */
  function EnvoyText(comment: string): (r: string)
    ensures !Contains(comment, EnvoyMarker) ==> r == ""
  {
    if Contains(comment, EnvoyMarker) then Strip(SplitOnce(comment, EnvoyMarker).1) else ""
  }

  /** A comment that opens with the marker keeps what follows it. */
  lemma EnvoyTextAfterMarker(t: string)
    ensures EnvoyText(EnvoyMarker + t) == Strip(t)
  {
    var s := EnvoyMarker + t;
    assert s[0..|EnvoyMarker|] == EnvoyMarker;
    IndexOfIs(s, EnvoyMarker, 0);
    SplitUnfold(s, EnvoyMarker, 0);
    var r := SplitOnce(s, EnvoyMarker);
    assert r.0 == "";
    assert EnvoyMarker + r.1 == EnvoyMarker + t;
    assert r.1 == (EnvoyMarker + r.1)[|EnvoyMarker|..];
  }

  const SkipOnMarker := "skip on "

  /** `skip on (\S+)` matches at `p`. */
  predicate SkipOnAt(text: string, p: int) {
    OccursAt(text, SkipOnMarker, p) && p + |SkipOnMarker| < |text| && !IsSpace(text[p + |SkipOnMarker|])
  }

  /** `re.search(r"skip on (\S+)", text).group(1)`. */
  function SkipOn(text: string): (r: Option<string>)
    ensures r.Some? ==> IsWord(r.value)
    ensures r.None? <==> forall p :: 0 <= p < |text| ==> !SkipOnAt(text, p)
  {
    match Leftmost(SkipOnPattern, text, 0)
    case None =>
      assert forall p :: 0 <= p < |text| ==> MatchesAt(SkipOnPattern, text, p) == SkipOnAt(text, p);
      None
    case Some(p) => Some(WordAt(text, p + |SkipOnMarker|))
  }

  /** `skip on X` names the interface X. */
  lemma SkipOnFinds(w: string, rest: string)
    requires IsWord(w)
    requires |rest| == 0 || IsSpace(rest[0])
    ensures SkipOn(SkipOnMarker + w + rest) == Some(w)
  {
    var text := SkipOnMarker + w + rest;
    var m := |SkipOnMarker|;
    assert text[0..m] == SkipOnMarker;
    assert text[m] == w[0];
    assert SkipOnAt(text, 0);
    LeftmostIs(SkipOnPattern, text, 0, 0);
    assert text[m..] == w + rest;
    WordLengthOf(w, rest);
    assert text[m..m + |w|] == w;
  }

  lemma {:induction false} WordLengthOf(w: string, rest: string)
    requires forall j :: 0 <= j < |w| ==> !IsSpace(w[j])
    requires |rest| == 0 || IsSpace(rest[0])
    ensures WordLength(w + rest) == |w|
    decreases |w|
  {
    if |w| > 0 {
      assert (w + rest)[1..] == w[1..] + rest;
      WordLengthOf(w[1..], rest);
    } else {
      assert w + rest == rest;
    }
  }

  /** Where the interface word after "-i" at `k` starts: past "-i" and the
      whitespace after it. */
  function AfterDashI(s: string, k: nat): nat
    requires k + 2 <= |s|
  {
    k + 2 + |TakeWhile(s[k + 2..], IsSpace)|
  }

  /** `(?:^|\s)(?:!)?-i\s+(\S+)` matches with its "-i" at `k`: the option
      starts the condition or follows whitespace, possibly negated, and is
      followed by whitespace and a word. */
  predicate DashIAt(s: string, k: int) {
    && OccursAt(s, "-i", k)
    && (k == 0 || IsSpace(s[k - 1]) || (s[k - 1] == '!' && (k == 1 || IsSpace(s[k - 2]))))
    && k + 2 < |s| && IsSpace(s[k + 2])
    && AfterDashI(s, k) < |s|
  }

  /** The group of the leftmost match; since each start position admits
      at most one place for "-i", the leftmost match is the one with the
      leftmost "-i". */
  function DashI(condition: string): (r: Option<string>)
    ensures r.Some? ==> IsWord(r.value)
    ensures r.None? <==> forall k :: 0 <= k < |condition| ==> !DashIAt(condition, k)
  {
    match Leftmost(DashIPattern, condition, 0)
    case None =>
      assert forall k :: 0 <= k < |condition| ==> MatchesAt(DashIPattern, condition, k) == DashIAt(condition, k);
      None
    case Some(k) =>
      var j := AfterDashI(condition, k);
      assert condition[k + 2..][j - k - 2] == condition[j];
      Some(WordAt(condition, j))
  }

  /** "-i X" at the start of a condition names the interface X. */
  lemma DashIFinds(w: string, rest: string)
    requires IsWord(w)
    requires |rest| == 0 || IsSpace(rest[0])
    ensures DashI("-i " + w + rest) == Some(w)
  {
    var s := "-i " + w + rest;
    assert s[0..2] == "-i";
    assert s[2..] == " " + w + rest;
    assert TakeWhile(s[2..], IsSpace) == " " by {
      assert s[3] == w[0];
    }
    assert AfterDashI(s, 0) == 3;
    assert DashIAt(s, 0);
    LeftmostIs(DashIPattern, s, 0, 0);
    assert s[3..] == w + rest;
    WordLengthOf(w, rest);
    assert s[3..3 + |w|] == w;
  }

  /** The interface names the fallback scan accepts; "br-*" is also
      covered by the prefix. */
  predicate BridgeName(part: string) {
    part == "docker0" || part == "br-*" || StartsWith(part, "br-") || part == "lo"
  }

  /** The first field that names a bridge or the loopback, "" without one. */
  function FirstBridge(parts: seq<string>): (r: string)
    ensures r != "" ==> r in parts && BridgeName(r)
    ensures r == "" <==> forall i :: 0 <= i < |parts| ==> !BridgeName(parts[i])
    ensures r != "" ==> exists i :: 0 <= i < |parts| && parts[i] == r && forall k :: 0 <= k < i ==> !BridgeName(parts[k])
  {
    if |parts| == 0 then ""
    else if BridgeName(parts[0]) then parts[0]
    else
      assert forall i :: 1 <= i < |parts| ==> parts[i] == parts[1..][i - 1];
      var r := FirstBridge(parts[1..]);
      assert r != "" ==> exists i :: 1 <= i < |parts| && parts[i] == r && forall k :: 0 <= k < i ==> !BridgeName(parts[k]) by {
        if r != "" {
          var i :| 0 <= i < |parts[1..]| && parts[1..][i] == r && forall k :: 0 <= k < i ==> !BridgeName(parts[1..][k]);
          assert forall k :: 1 <= k < i + 1 ==> parts[k] == parts[1..][k - 1];
        }
      }
      r
  }

  // ---------------------------------------------------------------------
  // Rule lines

  /** What `parse_iptables_rule` returns: a short record for a line of
      fewer than six fields (its interface and condition are empty), the
      full record otherwise. */
  datatype RuleInfo =
    | Short(raw: string, comment: string)
    | Full(num: string, target: string, prot: string, opt: string, source: string, destination: string,
        condition: string, comment: string, interface: string, raw: string)

  /** The interface of a full rule: from "skip on X" in the comment text,
      else from "-i X" in the condition, else, when the line has more
      than six fields, the first bridge-like field. */
  function Interface(commentText: string, condition: string, parts: seq<string>): (r: string)
    requires forall i :: 0 <= i < |parts| ==> IsWord(parts[i])
    ensures SkipOn(commentText).Some? ==> r == SkipOn(commentText).value
    ensures SkipOn(commentText).None? && DashI(condition).Some? ==> r == DashI(condition).value
    ensures SkipOn(commentText).None? && DashI(condition).None? ==> r == (if |parts| > 6 then FirstBridge(parts) else "")
    ensures r == "" || IsWord(r)
  {
    match SkipOn(commentText)
    case Some(w) => w
    case None =>
      match DashI(condition)
      case Some(w) => w
      case None =>
        if |parts| > 6 then
          FirstBridge(parts)
        else ""
  }

  /** The condition of a full rule: the fields after the sixth joined by
      single spaces, with the comment as iptables prints it removed. */
  function Condition(parts: seq<string>, comment: string): string {
    var joined := if |parts| > 6 then Join(parts[6..], " ") else "";
    if |comment| > 0 then Strip(Replace(joined, "/* " + comment + " */", "")) else joined
  }

  /** `parse_iptables_rule`. */
  function ParseRule(line: string): (r: RuleInfo)
    ensures r.raw == line && r.comment == EnvoyText(CommentOf(line))
    ensures r.Short? <==> |SplitWhitespace(line)| < 6
    ensures r.Full? ==> r.interface == "" || IsWord(r.interface)
    ensures r.Full? ==> r.num == "" || IsDigits(r.num)
  {
    var comment := CommentOf(line);
    var text := EnvoyText(comment);
    var parts := SplitWhitespace(line);
    if |parts| < 6 then Short(line, text)
    else
      var condition := Condition(parts, comment);
      Full(if IsDigits(parts[0]) then parts[0] else "", parts[1], parts[2], parts[3], parts[4], parts[5],
        condition, text, Interface(text, condition, parts), line)
  }

  /** The comment's "skip on X" wins over the condition's "-i Y". */
  lemma SkipOnWins(line: string)
    requires ParseRule(line).Full? && SkipOn(ParseRule(line).comment).Some?
    ensures ParseRule(line).interface == SkipOn(ParseRule(line).comment).value
  {
  }

  /** Without "skip on" in the comment, "-i Y" in the condition is used. */
  lemma DashIFallback(line: string)
    requires ParseRule(line).Full? && SkipOn(ParseRule(line).comment).None?
    requires DashI(ParseRule(line).condition).Some?
    ensures ParseRule(line).interface == DashI(ParseRule(line).condition).value
  {
  }
}

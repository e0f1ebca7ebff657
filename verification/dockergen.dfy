/** The configuration generator: it reads the port mappings Docker
    reports for the running containers and merges a service per new
    external port into an existing configuration. Running `docker`, the
    interactive type prompt and the random API token are parameters. */
module DockerGen {
  import opened Wrappers
  import opened Json
  import opened PyStr
  import Sorting

  // ---------------------------------------------------------------------
  // Port mappings

  /** One published port: `external->internal/protocol`. */
  datatype Mapping = Mapping(external: int, internal: int, protocol: string)

  const Arrow := "->"

  /** One stripped entry of the `Ports` column; None when it has no arrow
      or either port is not an integer. The protocol is the text after the
      first slash, "tcp" without one; the external port is the text after
      the last colon. */
  function ParseOne(part: string): (r: Option<Mapping>)
    ensures !Contains(part, Arrow) ==> r.None?
  {
    if !Contains(part, Arrow) then None
    else
      var (externalPart, internalPart) := SplitOnce(part, Arrow);
      match PyInt(ExternalText(externalPart))
      case None => None
      case Some(ext) =>
        match PyInt(InternalText(internalPart))
        case None => None
        case Some(inner) => Some(Mapping(ext, inner, ProtocolText(internalPart)))
  }

  /** The text after the last colon of the external part (all of it
      without a colon). */
  function ExternalText(externalPart: string): string {
    if Contains(externalPart, ":") then var e := Split(externalPart, ":"); e[|e| - 1] else externalPart
  }

  /** The text before the first slash of the internal part. */
  function InternalText(internalPart: string): string {
    Split(internalPart, "/")[0]
  }

  /** The text after the first slash of the internal part, "tcp" without
      one. */
  function ProtocolText(internalPart: string): string {
    if Contains(internalPart, "/") then SplitHasTwo(internalPart, "/"); Split(internalPart, "/")[1] else "tcp"
  }

  lemma SplitHasTwo(s: string, sep: string)
    requires |sep| > 0 && Contains(s, sep)
    ensures |Split(s, sep)| >= 2
  {
    SplitUnfold(s, sep, IndexOf(s, sep).value);
  }

  /** The mappings of the entries, in order; an entry that does not parse
      contributes nothing. */
  function Collect(parts: seq<string>): (r: seq<Mapping>)
    ensures |r| <= |parts|
  {
    if |parts| == 0 then []
    else
      (match ParseOne(Strip(parts[0])) case Some(m) => [m] case None => []) + Collect(parts[1..])
  }

  /** `parse_port_mappings`: entries are separated by ", ". */
  function ParsePortMappings(ports: string): (r: seq<Mapping>)
    ensures |ports| == 0 ==> r == []
  {
    if |ports| == 0 then [] else Collect(Split(ports, ", "))
  }

  /** A bad entry drops only itself: the mappings of a list of entries are
      those of its parts, in order. */
  lemma {:induction false} CollectAppend(a: seq<string>, b: seq<string>)
    ensures Collect(a + b) == Collect(a) + Collect(b)
    decreases |a|
  {
    if |a| == 0 {
      assert a + b == b;
    } else {
      assert (a + b)[0] == a[0];
      assert (a + b)[1..] == a[1..] + b;
      CollectAppend(a[1..], b);
      var h := match ParseOne(Strip(a[0])) case Some(m) => [m] case None => [];
      ConcatAssoc(h, Collect(a[1..]), Collect(b));
    }
  }

  /** Splitting at the first arrow, when the text before it holds no '-'. */
  lemma ArrowSplit(a: string, b: string)
    requires forall i :: 0 <= i < |a| ==> a[i] != '-'
    ensures Contains(a + Arrow + b, Arrow)
    ensures SplitOnce(a + Arrow + b, Arrow) == (a, b)
  {
    var s := a + Arrow + b;
    assert s[|a|..|a| + 2] == Arrow;
    forall j | 0 <= j < |a|
      ensures !OccursAt(s, Arrow, j)
    {
      assert s[j] == a[j];
    }
    IndexOfIs(s, Arrow, |a|);
    assert s[..|a|] == a && s[|a| + 2..] == b;
  }

  /** The piece after the last `c` of `s + [c] + t` is `t`, when `t`
      holds no `c`. */
  lemma LastPiece(s: string, c: char, t: string)
    requires forall k :: 0 <= k < |t| ==> t[k] != c
    ensures Contains(s + [c] + t, [c])
    ensures var parts := Split(s + [c] + t, [c]); parts[|parts| - 1] == t
  {
    SplitAppend(s, c, t);
    OccursAtChar(s + [c] + t, c, |s|);
  }

  /** `s + [c] + t` splits into `s` and `t` at its one `c`. */
  lemma TwoPieces(s: string, c: char, t: string)
    requires forall k :: 0 <= k < |s| ==> s[k] != c
    requires forall k :: 0 <= k < |t| ==> t[k] != c
    ensures Contains(s + [c] + t, [c])
    ensures Split(s + [c] + t, [c]) == [s, t]
  {
    SplitAppend(s, c, t);
    NoCharNotContains(s, c);
    OccursAtChar(s + [c] + t, c, |s|);
  }

  /** What Docker prints for a published port, `host:external->internal/proto`,
      parses back to that mapping. */
  lemma ParseDockerEntry(host: string, e: string, i: string, proto: string)
    requires forall k :: 0 <= k < |host| ==> host[k] != '-'
    requires IsDigits(e) && IsDigits(i)
    requires forall k :: 0 <= k < |proto| ==> proto[k] != '/'
    ensures ParseOne(host + ":" + e + Arrow + i + "/" + proto) == Some(Mapping(DecimalValue(e), DecimalValue(i), proto))
  {
    var ext := host + [':'] + e;
    var inner := i + ['/'] + proto;
    EntryText(host, e, i, proto);
    ExternalOf(host, e);
    InternalOf(i, proto);
    ArrowSplit(ext, inner);
  }

  lemma EntryText(host: string, e: string, i: string, proto: string)
    ensures host + ":" + e + Arrow + i + "/" + proto == (host + [':'] + e) + Arrow + (i + ['/'] + proto)
  {
  }

  /** The external part `host:e` has no '-' and its port text is `e`. */
  lemma ExternalOf(host: string, e: string)
    requires forall k :: 0 <= k < |host| ==> host[k] != '-'
    requires IsDigits(e)
    ensures forall k :: 0 <= k < |host + [':'] + e| ==> (host + [':'] + e)[k] != '-'
    ensures ExternalText(host + [':'] + e) == e
  {
    var ext := host + [':'] + e;
    assert forall k :: |host| < k < |ext| ==> ext[k] == e[k - |host| - 1];
    assert forall k :: 0 <= k < |e| ==> e[k] != ':' by {
      assert forall k :: 0 <= k < |e| ==> IsDigit(e[k]);
    }
    LastPiece(host, ':', e);
  }

  /** The internal part `i/proto` gives port text `i` and protocol `proto`. */
  lemma InternalOf(i: string, proto: string)
    requires IsDigits(i)
    requires forall k :: 0 <= k < |proto| ==> proto[k] != '/'
    ensures InternalText(i + ['/'] + proto) == i && ProtocolText(i + ['/'] + proto) == proto
  {
    assert forall k :: 0 <= k < |i| ==> i[k] != '/' by {
      assert forall k :: 0 <= k < |i| ==> IsDigit(i[k]);
    }
    TwoPieces(i, '/', proto);
  }

  // ---------------------------------------------------------------------
  // Service names

  predicate LeadingJunk(c: char) {
    c == '/' || c == '-' || c == '_'
  }

  predicate EdgeJunk(c: char) {
    c == '-' || c == '_'
  }

  /** `[a-zA-Z0-9\-_]`. */
  predicate NameChar(c: char) {
    'a' <= c <= 'z' || 'A' <= c <= 'Z' || '0' <= c <= '9' || c == '-' || c == '_'
  }

  /** A name the sanitiser accepts as it is. */
  predicate ValidName(s: string) {
    && |s| > 0
    && (forall i :: 0 <= i < |s| ==> NameChar(s[i]))
    && !EdgeJunk(s[0]) && !EdgeJunk(s[|s| - 1])
  }

  function ReplaceInvalid(s: string): (r: string)
    ensures |r| == |s|
    ensures forall i :: 0 <= i < |s| ==> r[i] == if NameChar(s[i]) then s[i] else '-'
  {
    seq(|s|, i requires 0 <= i < |s| => if NameChar(s[i]) then s[i] else '-')
  }

  /** The first index at or after `i` whose character is not '-' or '_'. */
  function FirstKept(t: string, i: nat): (r: nat)
    requires i <= |t|
    ensures i <= r <= |t|
    ensures forall j :: i <= j < r ==> EdgeJunk(t[j])
    ensures r < |t| ==> !EdgeJunk(t[r])
    decreases |t| - i
  {
    if i < |t| && EdgeJunk(t[i]) then FirstKept(t, i + 1) else i
  }

  /** The end of `t[a..b]` without its trailing '-' and '_'. */
  function LastKept(t: string, a: nat, b: nat): (r: nat)
    requires a <= b <= |t|
    ensures a <= r <= b
    ensures forall j :: r <= j < b ==> EdgeJunk(t[j])
    ensures r > a ==> !EdgeJunk(t[r - 1])
    decreases b - a
  {
    if a < b && EdgeJunk(t[b - 1]) then LastKept(t, a, b - 1) else b
  }

  /** `strip("-_")`. */
  function StripEdges(t: string): (c: string)
    ensures |c| > 0 ==> !EdgeJunk(c[0]) && !EdgeJunk(c[|c| - 1])
    ensures (forall i :: 0 <= i < |t| ==> NameChar(t[i])) ==> forall i :: 0 <= i < |c| ==> NameChar(c[i])
    ensures |t| > 0 && !EdgeJunk(t[0]) && !EdgeJunk(t[|t| - 1]) ==> c == t
  {
    var a := FirstKept(t, 0);
    var b := LastKept(t, a, |t|);
    SliceKeepsNameChars(t, a, b);
    assert |t| > 0 && !EdgeJunk(t[0]) && !EdgeJunk(t[|t| - 1]) ==> a == 0 && b == |t| && t[a..b] == t;
    t[a..b]
  }

  lemma SliceKeepsNameChars(t: string, a: nat, b: nat)
    requires a <= b <= |t|
    ensures (forall i :: 0 <= i < |t| ==> NameChar(t[i])) ==> forall i :: 0 <= i < b - a ==> NameChar(t[a..b][i])
  {
  }

  const DefaultServiceName := "service"

  lemma DefaultNameValid()
    ensures ValidName(DefaultServiceName)
  {
    var s := DefaultServiceName;
    assert forall i :: 0 <= i < |s| ==> 'a' <= s[i] <= 'z';
  }

  /** `sanitize_service_name`: drop leading '/', '-' and '_', replace every
      other disallowed character by '-', strip '-' and '_' at both ends, and
      fall back to "service". */
  function Sanitize(name: string): (r: string)
    ensures ValidName(r)
  {
    var t := ReplaceInvalid(DropWhile(name, LeadingJunk));
    ReplacedNameChars(DropWhile(name, LeadingJunk));
    StrippedValid(t);
    var c := StripEdges(t);
    if |c| == 0 then DefaultNameValid(); DefaultServiceName else c
  }

  lemma ReplacedNameChars(s: string)
    ensures forall i :: 0 <= i < |ReplaceInvalid(s)| ==> NameChar(ReplaceInvalid(s)[i])
  {
  }

  /** Stripping a string of name characters leaves a valid name or "". */
  lemma StrippedValid(t: string)
    requires forall i :: 0 <= i < |t| ==> NameChar(t[i])
    ensures |StripEdges(t)| == 0 || ValidName(StripEdges(t))
  {
  }

  /** A valid name is left alone, so sanitising twice is sanitising once;
      together with `Sanitize`'s contract, the names it leaves alone are
      exactly the valid ones. */
  lemma SanitizeFixes(s: string)
    requires ValidName(s)
    ensures Sanitize(s) == s
  {
    assert DropWhile(s, LeadingJunk) == s;
    assert ReplaceInvalid(s) == s;
  }

  lemma SanitizeIdempotent(name: string)
    ensures Sanitize(Sanitize(name)) == Sanitize(name)
  {
    SanitizeFixes(Sanitize(name));
  }

  // ---------------------------------------------------------------------
  // Merging services into the configuration

  /** Ports the proxy itself uses, never configured as services. */
  const InfrastructurePorts: set<int> := {48955, 15000, 15001, 15002}

  /** `should_skip_container`: the container's name plays no part. */
  predicate ShouldSkip(containerName: string, port: int) {
    port in InfrastructurePorts
  }

  datatype GenError = BadPort | ServicesNotAList | UnsortableServices

  /** Python's `int(v)` on a loaded value. */
  function IntOf(v: JValue): Result<int, GenError> {
    match IntValue(v) case Some(i) => Success(i) case None => Failure(BadPort)
  }

  /** A list element that names a port: a mapping with a "port" key. */
  predicate HasPort(v: JValue) {
    v.JMap? && "port" in v.fields
  }

  /** The ports of the mapping services of a list: it fails exactly when
      some port is not an integer, and otherwise holds exactly their values. */
  function PortsOf(items: seq<JValue>): (r: Result<set<int>, GenError>)
    ensures r.Success? <==> forall i :: 0 <= i < |items| && HasPort(items[i]) ==> IntValue(items[i].fields["port"]).Some?
    ensures r.Success? ==> forall p :: p in r.value <==>
      exists i :: 0 <= i < |items| && HasPort(items[i]) && IntValue(items[i].fields["port"]) == Some(p)
  {
    if |items| == 0 then Success({})
    else
      var rest :- PortsOf(items[1..]);
      if HasPort(items[0]) then
        var p :- IntOf(items[0].fields["port"]);
        Success({p} + rest)
      else Success(rest)
  }

  /** `get_existing_ports`: the ports of a list-valued `services`. */
  function ExistingPorts(config: map<string, JValue>): (r: Result<set<int>, GenError>)
    ensures !("services" in config && config["services"].JList?) ==> r == Success({})
    ensures "services" in config && config["services"].JList? ==> r == PortsOf(config["services"].items)
  {
    if "services" in config && config["services"].JList? then PortsOf(config["services"].items)
    else Success({})
  }

  /** A service the generator adds. */
  datatype NewService = NewService(name: string, port: int, kind: string)

  /** `determine_service_type`: the user's answer for a port. */
  type TypeChooser = (int, string, string) -> string

  /** The name of the mapping at index `i` of a container. */
  function NameAt(service: string, i: int): string {
    if i > 0 then service + "-" + Str(i + 1) else service
  }

  function PortSet(ns: seq<NewService>): set<int> {
    if |ns| == 0 then {} else {ns[0].port} + PortSet(ns[1..])
  }

  lemma {:induction false} InPortSet(ns: seq<NewService>, k: nat)
    requires k < |ns|
    ensures ns[k].port in PortSet(ns)
    decreases k
  {
    if k > 0 {
      InPortSet(ns[1..], k - 1);
    }
  }

  lemma {:induction false} PortSetAppend(a: seq<NewService>, b: seq<NewService>)
    ensures PortSet(a + b) == PortSet(a) + PortSet(b)
    decreases |a|
  {
    if |a| == 0 {
      assert a + b == b;
    } else {
      assert (a + b)[1..] == a[1..] + b;
      PortSetAppend(a[1..], b);
    }
  }

  predicate DistinctPorts(ns: seq<NewService>) {
    forall i, j :: 0 <= i < j < |ns| ==> ns[i].port != ns[j].port
  }

  /** No service of `ns` takes a port of `used` or of the proxy itself. */
  predicate Fresh(ns: seq<NewService>, used: set<int>) {
    forall k :: 0 <= k < |ns| ==> ns[k].port !in used && ns[k].port !in InfrastructurePorts
  }

  /** The mapping at loop index `pos` of the mappings `ms`, the first at
      loop index `idx`, became service `n`. */
  predicate FromMapping(n: NewService, ms: seq<Mapping>, idx: int, pos: int, service: string, container: string,
    choose: TypeChooser)
    requires idx <= pos < idx + |ms|
  {
    var m := ms[pos - idx];
    n == NewService(NameAt(service, pos), m.external, choose(m.external, m.protocol, container))
  }

  /** Service `n` came from one of the mappings `ms`, the first at loop
      index `idx`. */
  predicate FromSome(n: NewService, ms: seq<Mapping>, service: string, idx: int, container: string, choose: TypeChooser) {
    exists pos :: idx <= pos < idx + |ms| && FromMapping(n, ms, idx, pos, service, container, choose)
  }

  lemma DistinctAppend(a: seq<NewService>, b: seq<NewService>, u: set<int>)
    requires DistinctPorts(a) && DistinctPorts(b)
    requires forall k :: 0 <= k < |a| ==> a[k].port in u
    requires forall k :: 0 <= k < |b| ==> b[k].port !in u
    ensures DistinctPorts(a + b)
  {
    forall i, j | 0 <= i < j < |a + b| ensures (a + b)[i].port != (a + b)[j].port {
      if j < |a| {
        assert (a + b)[i] == a[i] && (a + b)[j] == a[j];
      } else if i < |a| {
        assert (a + b)[i] == a[i] && (a + b)[j] == b[j - |a|];
      } else {
        assert (a + b)[i] == b[i - |a|] && (a + b)[j] == b[j - |a|];
      }
    }
  }

  /** The inner loop over one container's mappings, from index `idx`: skip
      infrastructure and used ports, otherwise claim the port and add a
      service named after the mapping's index. */
  function AddMappings(used: set<int>, service: string, container: string, ms: seq<Mapping>, idx: nat, choose: TypeChooser)
    : (r: (set<int>, seq<NewService>))
    ensures r.0 == used + PortSet(r.1)
    ensures DistinctPorts(r.1) && Fresh(r.1, used)
    ensures forall k :: 0 <= k < |r.1| ==> FromSome(r.1[k], ms, service, idx, container, choose)
    decreases |ms|
  {
    if |ms| == 0 then (used, [])
    else
      var m := ms[0];
      var skip := ShouldSkip(container, m.external) || m.external in used;
      var (u, rest) := AddMappings(if skip then used else used + {m.external}, service, container, ms[1..], idx + 1, choose);
      AddMappingsShift(rest, ms, service, idx, container, choose);
      if skip then (u, rest)
      else
        var n := NewService(NameAt(service, idx), m.external, choose(m.external, m.protocol, container));
        AddOne(used, n, rest);
        AddMappingsCons(n, rest, ms, service, idx, container, choose);
        (u, [n] + rest)
  }

  /** Mapping `j` takes a port that is neither infrastructure nor in
      `used` nor taken by an earlier mapping of the same container. */
  predicate FirstFreshAt(used: set<int>, container: string, ms: seq<Mapping>, j: int)
    requires 0 <= j < |ms|
  {
    && !ShouldSkip(container, ms[j].external) && ms[j].external !in used
    && forall k :: 0 <= k < j ==> ms[k].external != ms[j].external
  }

  /** One step of the inner loop: a skipped mapping adds nothing, any
      other adds its service in front of the rest. */
  lemma AddMappingsStep(used: set<int>, service: string, container: string, ms: seq<Mapping>, idx: nat, choose: TypeChooser)
    requires |ms| > 0
    ensures var skip := ShouldSkip(container, ms[0].external) || ms[0].external in used;
      var rest := AddMappings(if skip then used else used + {ms[0].external}, service, container, ms[1..], idx + 1, choose).1;
      AddMappings(used, service, container, ms, idx, choose).1
        == (if skip then rest else [NewService(NameAt(service, idx), ms[0].external, choose(ms[0].external, ms[0].protocol, container))] + rest)
  {
  }

  /** A service the rest of the loop adds is in the whole loop's result. */
  lemma AddMappingsKeeps(used: set<int>, service: string, container: string, ms: seq<Mapping>, idx: nat, choose: TypeChooser,
    x: NewService)
    requires |ms| > 0
    requires var skip := ShouldSkip(container, ms[0].external) || ms[0].external in used;
      x in AddMappings(if skip then used else used + {ms[0].external}, service, container, ms[1..], idx + 1, choose).1
    ensures x in AddMappings(used, service, container, ms, idx, choose).1
  {
    AddMappingsStep(used, service, container, ms, idx, choose);
  }

  /** Every mapping that is not infrastructure ends up with its port claimed. */
  lemma {:induction false} AddMappingsClaims(used: set<int>, service: string, container: string, ms: seq<Mapping>, idx: nat,
    choose: TypeChooser, j: nat)
    requires j < |ms| && !ShouldSkip(container, ms[j].external)
    ensures ms[j].external in AddMappings(used, service, container, ms, idx, choose).0
    decreases |ms|
  {
    var skip := ShouldSkip(container, ms[0].external) || ms[0].external in used;
    var used1 := if skip then used else used + {ms[0].external};
    var r := AddMappings(used, service, container, ms, idx, choose);
    var r1 := AddMappings(used1, service, container, ms[1..], idx + 1, choose);
    assert r.0 == r1.0;
    if j > 0 {
      assert ms[1..][j - 1] == ms[j];
      AddMappingsClaims(used1, service, container, ms[1..], idx + 1, choose, j - 1);
    }
  }

  /** The first mapping of a fresh port, at loop index `pos`, becomes a
      service named after that index, with the type chosen for it. */
  lemma {:induction false} AddMappingsComplete(used: set<int>, service: string, container: string, ms: seq<Mapping>, idx: nat,
    choose: TypeChooser, pos: nat)
    requires idx <= pos < idx + |ms| && FirstFreshAt(used, container, ms, pos - idx)
    ensures NewService(NameAt(service, pos), ms[pos - idx].external, choose(ms[pos - idx].external, ms[pos - idx].protocol, container))
      in AddMappings(used, service, container, ms, idx, choose).1
    decreases |ms|
  {
    var skip := ShouldSkip(container, ms[0].external) || ms[0].external in used;
    if pos == idx {
      AddMappingsStep(used, service, container, ms, idx, choose);
      assert !skip;
    } else {
      var m := ms[pos - idx];
      var used1 := if skip then used else used + {ms[0].external};
      FirstFreshShift(used, used1, container, ms, pos - idx);
      assert ms[1..][pos - (idx + 1)] == m;
      AddMappingsComplete(used1, service, container, ms[1..], idx + 1, choose, pos);
      AddMappingsKeeps(used, service, container, ms, idx, choose,
        NewService(NameAt(service, pos), m.external, choose(m.external, m.protocol, container)));
    }
  }

  /** A later mapping that is first fresh stays so after the first mapping
      has claimed its port. */
  lemma FirstFreshShift(used: set<int>, used1: set<int>, container: string, ms: seq<Mapping>, j: nat)
    requires 0 < j < |ms| && FirstFreshAt(used, container, ms, j)
    requires used1 <= used + {ms[0].external}
    ensures FirstFreshAt(used1, container, ms[1..], j - 1)
  {
    assert ms[1..][j - 1] == ms[j];
    forall k | 0 <= k < j - 1 ensures ms[1..][k].external != ms[1..][j - 1].external {
      assert ms[1..][k] == ms[k + 1];
    }
  }

  /** Claiming a fresh port for `n` in front of the services added after it. */
  lemma AddOne(used: set<int>, n: NewService, rest: seq<NewService>)
    requires n.port !in used && n.port !in InfrastructurePorts
    requires DistinctPorts(rest) && Fresh(rest, used + {n.port})
    ensures DistinctPorts([n] + rest) && Fresh([n] + rest, used)
    ensures used + {n.port} + PortSet(rest) == used + PortSet([n] + rest)
  {
    DistinctAppend([n], rest, {n.port});
    assert ([n] + rest)[1..] == rest;
    forall k | 0 <= k < |[n] + rest| ensures ([n] + rest)[k].port !in used && ([n] + rest)[k].port !in InfrastructurePorts {
      if k > 0 { assert ([n] + rest)[k] == rest[k - 1]; }
    }
  }

  lemma AddMappingsShift(rest: seq<NewService>, ms: seq<Mapping>, service: string, idx: nat, container: string, choose: TypeChooser)
    requires |ms| > 0
    requires forall k :: 0 <= k < |rest| ==> FromSome(rest[k], ms[1..], service, idx + 1, container, choose)
    ensures forall k :: 0 <= k < |rest| ==> FromSome(rest[k], ms, service, idx, container, choose)
  {
    forall k | 0 <= k < |rest|
      ensures FromSome(rest[k], ms, service, idx, container, choose)
    {
      var pos :| idx + 1 <= pos < idx + 1 + |ms[1..]| && FromMapping(rest[k], ms[1..], idx + 1, pos, service, container, choose);
      assert ms[1..][pos - (idx + 1)] == ms[pos - idx];
      assert FromMapping(rest[k], ms, idx, pos, service, container, choose);
    }
  }

  lemma AddMappingsCons(n: NewService, rest: seq<NewService>, ms: seq<Mapping>, service: string, idx: nat, container: string,
    choose: TypeChooser)
    requires |ms| > 0 && FromMapping(n, ms, idx, idx, service, container, choose)
    requires forall k :: 0 <= k < |rest| ==> FromSome(rest[k], ms, service, idx, container, choose)
    ensures forall k :: 0 <= k < |[n] + rest| ==> FromSome(([n] + rest)[k], ms, service, idx, container, choose)
  {
    forall k | 0 <= k < |[n] + rest|
      ensures FromSome(([n] + rest)[k], ms, service, idx, container, choose)
    {
      if k == 0 {
        assert FromMapping(([n] + rest)[k], ms, idx, idx, service, container, choose);
      } else {
        assert ([n] + rest)[k] == rest[k - 1];
      }
    }
  }

  /** A running container as `docker ps` reports it. */
  datatype Container = Container(name: string, ports: string)

  /** The services one container adds. */
  function AddContainer(used: set<int>, c: Container, choose: TypeChooser): (r: (set<int>, seq<NewService>))
    ensures r.0 == used + PortSet(r.1)
    ensures DistinctPorts(r.1) && Fresh(r.1, used)
  {
    var ms := ParsePortMappings(c.ports);
    if |c.ports| == 0 || |ms| == 0 then (used, [])
    else AddMappings(used, Sanitize(c.name), c.name, ms, 0, choose)
  }

  /** A port one of the container's mappings publishes and that is not
      infrastructure. */
  predicate Claims(c: Container, p: int) {
    var ms := ParsePortMappings(c.ports);
    !ShouldSkip(c.name, p) && exists j :: 0 <= j < |ms| && ms[j].external == p
  }

  /** The outer loop over the containers. */
  function AddContainers(used: set<int>, cs: seq<Container>, choose: TypeChooser): (r: (set<int>, seq<NewService>))
    ensures r.0 == used + PortSet(r.1)
    ensures DistinctPorts(r.1) && Fresh(r.1, used)
    decreases |cs|
  {
    if |cs| == 0 then (used, [])
    else
      var (u, added) := AddContainer(used, cs[0], choose);
      var (v, rest) := AddContainers(u, cs[1..], choose);
      AddContainersJoin(used, u, added, rest);
      (v, added + rest)
  }

  /** Every port a container claims is taken by its own step. */
  lemma AddContainerClaims(used: set<int>, c: Container, choose: TypeChooser, p: int)
    requires Claims(c, p)
    ensures p in AddContainer(used, c, choose).0
  {
    var ms := ParsePortMappings(c.ports);
    var j :| 0 <= j < |ms| && ms[j].external == p;
    AddMappingsClaims(used, Sanitize(c.name), c.name, ms, 0, choose, j);
  }

  /** One step of the outer loop: the ports taken after the first container
      are those taken by the rest, starting from the first one's. */
  lemma AddContainersUnfold(used: set<int>, cs: seq<Container>, choose: TypeChooser)
    requires |cs| > 0
    ensures AddContainers(used, cs, choose).0 == AddContainers(AddContainer(used, cs[0], choose).0, cs[1..], choose).0
  {
  }

  /** Every port a container claims is taken once the loop is over. */
  lemma {:induction false} AddContainersClaims(used: set<int>, cs: seq<Container>, choose: TypeChooser, i: nat, p: int)
    requires i < |cs| && Claims(cs[i], p)
    ensures p in AddContainers(used, cs, choose).0
    decreases |cs|
  {
    var u := AddContainer(used, cs[0], choose).0;
    AddContainersUnfold(used, cs, choose);
    if i > 0 {
      assert cs[1..][i - 1] == cs[i];
      AddContainersClaims(u, cs[1..], choose, i - 1, p);
    } else {
      AddContainerClaims(used, cs[0], choose, p);
    }
  }

  /** Every published port that is neither infrastructure nor already
      configured gets exactly one new service. */
  lemma ClaimedPortsGetServices(used: set<int>, cs: seq<Container>, choose: TypeChooser, i: nat, p: int)
    requires i < |cs| && Claims(cs[i], p) && p !in used
    ensures exists k :: 0 <= k < |AddContainers(used, cs, choose).1| && AddContainers(used, cs, choose).1[k].port == p
  {
    var r := AddContainers(used, cs, choose);
    AddContainersClaims(used, cs, choose, i, p);
    var k := PortInSet(r.1, p);
    assert 0 <= k < |r.1| && r.1[k].port == p;
  }

  /** A port of the set is the port of some service of the list. */
  lemma {:induction false} PortInSet(ns: seq<NewService>, p: int) returns (k: nat)
    requires p in PortSet(ns)
    ensures k < |ns| && ns[k].port == p
    decreases |ns|
  {
    if ns[0].port == p {
      k := 0;
    } else {
      var k1 := PortInSet(ns[1..], p);
      assert ns[1..][k1] == ns[k1 + 1];
      k := k1 + 1;
    }
  }

  lemma AddContainersJoin(used: set<int>, u: set<int>, added: seq<NewService>, rest: seq<NewService>)
    requires u == used + PortSet(added)
    requires DistinctPorts(added) && Fresh(added, used)
    requires DistinctPorts(rest) && Fresh(rest, u)
    ensures DistinctPorts(added + rest) && Fresh(added + rest, used)
    ensures u + PortSet(rest) == used + PortSet(added + rest)
  {
    forall k | 0 <= k < |added| ensures added[k].port in u {
      InPortSet(added, k);
    }
    DistinctAppend(added, rest, u);
    PortSetAppend(added, rest);
    forall k | 0 <= k < |added + rest|
      ensures (added + rest)[k].port !in used && (added + rest)[k].port !in InfrastructurePorts
    {
      if k < |added| { assert (added + rest)[k] == added[k]; } else { assert (added + rest)[k] == rest[k - |added|]; }
    }
  }

  /** The configuration entry of a new service. */
  function ServiceValue(n: NewService): JValue {
    JMap(map["name" := JStr(n.name), "port" := JInt(n.port), "type" := JStr(n.kind)])
  }

  function Values(ns: seq<NewService>): (r: seq<JValue>)
    ensures |r| == |ns| && forall i :: 0 <= i < |ns| ==> r[i] == ServiceValue(ns[i])
  {
    seq(|ns|, i requires 0 <= i < |ns| => ServiceValue(ns[i]))
  }

  /** A service the sort key `s["port"]` can be read from. */
  predicate Keyed(s: JValue) {
    s.JMap? && "port" in s.fields
  }

  /** A service whose port compares as a number (a boolean is 0 or 1). */
  predicate NumericPort(s: JValue) {
    Keyed(s) && (s.fields["port"].JInt? || s.fields["port"].JBool?)
  }

  /** What `services.sort(key=lambda s: s["port"])` accepts: the key is
      read from every entry, and with two or more entries the keys are
      compared, which for ports this model ranks means all numeric. */
  predicate Sortable(all: seq<JValue>) {
    && (forall i :: 0 <= i < |all| ==> Keyed(all[i]))
    && (|all| <= 1 || forall i :: 0 <= i < |all| ==> NumericPort(all[i]))
  }

  function PortRank(s: JValue): Sorting.Rank {
    if NumericPort(s) then
      match s.fields["port"]
      case JInt(i) => (i, 0)
      case JBool(b) => (if b then 1 else 0, 0)
      case _ => (0, 0)
    else (0, 0)
  }

  /** The existing services followed by the new ones, sorted by port; None
      when the sort would raise. */
  function MergeServices(services: seq<JValue>, added: seq<NewService>): (r: Option<seq<JValue>>)
    ensures r.Some? <==>
      && (forall i :: 0 <= i < |services| ==> Keyed(services[i]))
      && (|services| + |added| <= 1 || forall i :: 0 <= i < |services| ==> NumericPort(services[i]))
    ensures r.Some? ==> Sorting.SortedBy(r.value, PortRank)
    ensures r.Some? ==> multiset(r.value) == multiset(services + Values(added))
    ensures r.Some? && |services| + |added| <= 1 ==> r.value == services + Values(added)
  {
    var all := services + Values(added);
    assert forall i :: |services| <= i < |all| ==> all[i] == ServiceValue(added[i - |services|]);
    assert forall i :: 0 <= i < |services| ==> all[i] == services[i];
    if !Sortable(all) then None
    else
      Sorting.SortByCorrect(all, PortRank);
      if |all| <= 1 then Some(all) else Some(Sorting.SortBy(all, PortRank))
  }

  /** `list(existing_services)` where the loop needs mappings. */
  function ServiceList(v: JValue): Result<seq<JValue>, GenError> {
    match v
    case JList(xs) => Success(xs)
    case JStr(s) => if |s| == 0 then Success([]) else Failure(ServicesNotAList)
    case JMap(m) => if |m| == 0 then Success([]) else Failure(ServicesNotAList)
    case _ => Failure(ServicesNotAList)
  }

  const DefaultFlagFormat := "FLAG_[A-Za-z0-9/+]{32}"

  /** The top-level keys after the merge: `services` replaced, the rest
      kept, `flag_format` and `api_token_hash` added when missing. */
  function Finish(existing: map<string, JValue>, services: seq<JValue>, tokenHash: string): (r: map<string, JValue>)
    ensures forall k :: k in existing && k != "services" ==> k in r && r[k] == existing[k]
    ensures "services" in r && r["services"] == JList(services)
    ensures "flag_format" in r && ("flag_format" !in existing ==> r["flag_format"] == JStr(DefaultFlagFormat))
    ensures "api_token_hash" in r && ("api_token_hash" !in existing ==> r["api_token_hash"] == JStr(tokenHash))
    ensures forall k :: k in r ==> k in existing || k in {"services", "flag_format", "api_token_hash"}
  {
    var withServices := existing["services" := JList(services)];
    var withFlag := if "flag_format" in withServices then withServices
      else withServices["flag_format" := JStr(DefaultFlagFormat)];
    if "api_token_hash" in withFlag then withFlag else withFlag["api_token_hash" := JStr(tokenHash)]
  }

  /** `generate_config`: with no running containers the existing
      configuration (or an empty service list); otherwise the existing
      services plus one per new port, sorted by port, with the other keys
      kept. `tokenHash` is the hash of a freshly generated token. */
  function GenerateConfig(existing: map<string, JValue>, containers: seq<Container>, choose: TypeChooser, tokenHash: string)
    : (r: Result<map<string, JValue>, GenError>)
    ensures |containers| == 0 ==> r == Success(if |existing| > 0 then existing else map["services" := JList([])])
    ensures r.Success? && |containers| > 0 ==>
      && ExistingPorts(existing).Success?
      && ServiceList(Get(existing, "services", JList([]))).Success?
      && var added := AddContainers(ExistingPorts(existing).value, containers, choose).1;
      && Fresh(added, ExistingPorts(existing).value) && DistinctPorts(added)
      && MergeServices(ServiceList(Get(existing, "services", JList([]))).value, added).Some?
      && r.value == Finish(existing, MergeServices(ServiceList(Get(existing, "services", JList([]))).value, added).value, tokenHash)
  {
    if |containers| == 0 then Success(if |existing| > 0 then existing else map["services" := JList([])])
    else
      var ports :- ExistingPorts(existing);
      var services :- ServiceList(Get(existing, "services", JList([])));
      var (_, added) := AddContainers(ports, containers, choose);
      match MergeServices(services, added)
      case None => Failure(UnsortableServices)
      case Some(sorted) => Success(Finish(existing, sorted, tokenHash))
  }
}

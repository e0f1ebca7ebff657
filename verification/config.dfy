/** The services configuration: a YAML document listing services by name,
    port and type, validated entry by entry, and the lookups the rest of
    the pipeline uses. Reading the file is left to the caller: the model
    starts from the loaded document. */
module Config {
  import opened Wrappers
  import opened Json

  datatype ServiceType = Http | Tcp | Udp | Ws

  /** `ServiceType(value)`: the enumeration's values are its lower-case names. */
  function ParseServiceType(s: string): (r: Option<ServiceType>)
    ensures r.Some? ==> TypeName(r.value) == s
  {
    if s == "http" then Some(Http)
    else if s == "tcp" then Some(Tcp)
    else if s == "udp" then Some(Udp)
    else if s == "ws" then Some(Ws)
    else None
  }

  function TypeName(t: ServiceType): string {
    match t
    case Http => "http"
    case Tcp => "tcp"
    case Udp => "udp"
    case Ws => "ws"
  }

  lemma TypeNameRoundTrip(t: ServiceType)
    ensures ParseServiceType(TypeName(t)) == Some(t)
  {
  }

  /** A service; datatype equality is the source's `__eq__` on name, port
      and type. */
  datatype Service = Service(name: string, port: int, kind: ServiceType)

  datatype ConfigError =
    | NotAnObject
    | ServicesNotAList
    | ServiceNotAnObject
    | NameRequired
    | NameNotAString
    | PortRequired
    | PortNotAnInteger
    | PortOutOfRange(port: int)
    | PortInUse(port: int)
    | TypeRequired
    | TypeNotAString
    | InvalidType(name: string)

  /** Python's `isinstance(v, int)`, which holds for booleans too: `True` is
      the integer 1 and `False` is 0. */
  function AsInt(v: JValue): Option<int> {
    match v
    case JInt(i) => Some(i)
    case JBool(b) => Some(if b then 1 else 0)
    case _ => None
  }

  predicate ValidPort(p: int) {
    1 <= p <= 65535
  }

  /** The checks on one entry up to its port, in the source's order. */
  function EntryPort(v: JValue): (r: Result<(string, int), ConfigError>)
    ensures r.Success? ==> v.JMap? && |r.value.0| > 0 && ValidPort(r.value.1)
  {
    if !v.JMap? then Failure(ServiceNotAnObject)
    else
      var name := Get(v.fields, "name", JNull);
      var port := Get(v.fields, "port", JNull);
      if !Truthy(name) then Failure(NameRequired)
      else if !name.JStr? then Failure(NameNotAString)
      else if port.JNull? then Failure(PortRequired)
      else if AsInt(port).None? then Failure(PortNotAnInteger)
      else if !ValidPort(AsInt(port).value) then Failure(PortOutOfRange(AsInt(port).value))
      else Success((name.s, AsInt(port).value))
  }

  /** The checks on one entry's type. */
  function EntryType(v: JValue): Result<ServiceType, ConfigError>
    requires v.JMap?
  {
    var t := Get(v.fields, "type", JNull);
    if !Truthy(t) then Failure(TypeRequired)
    else if !t.JStr? then Failure(TypeNotAString)
    else if ParseServiceType(t.s).None? then Failure(InvalidType(t.s))
    else Success(ParseServiceType(t.s).value)
  }

  /** One entry on its own, without the duplicate-port check. */
  function DecodeService(v: JValue): Result<Service, ConfigError> {
    match EntryPort(v)
    case Failure(e) => Failure(e)
    case Success((name, port)) =>
      match EntryType(v)
      case Failure(e) => Failure(e)
      case Success(kind) => Success(Service(name, port, kind))
  }

  function Ports(services: seq<Service>): set<int> {
    set i | 0 <= i < |services| :: services[i].port
  }

  predicate DistinctPorts(services: seq<Service>) {
    forall i, j :: 0 <= i < j < |services| ==> services[i].port != services[j].port
  }

  /** The loop of `_load_config`, with `used` the ports taken so far: each
      entry is checked up to its port, its port must be new, then its type
      is checked. */
  function LoadEntries(items: seq<JValue>, used: set<int>): (r: Result<seq<Service>, ConfigError>)
    ensures r.Success? ==> |r.value| == |items| && DistinctPorts(r.value) && Ports(r.value) !! used
    ensures r.Success? ==> forall i :: 0 <= i < |items| ==> DecodeService(items[i]) == Success(r.value[i])
    decreases |items|
  {
    if |items| == 0 then Success([])
    else
      match EntryPort(items[0])
      case Failure(e) => Failure(e)
      case Success((name, port)) =>
        if port in used then Failure(PortInUse(port))
        else
          match EntryType(items[0])
          case Failure(e) => Failure(e)
          case Success(kind) =>
            match LoadEntries(items[1..], used + {port})
            case Failure(e) => Failure(e)
            case Success(rest) =>
              LoadStep(items, used, Service(name, port, kind), rest);
              Success([Service(name, port, kind)] + rest)
  }

  lemma LoadStep(items: seq<JValue>, used: set<int>, s: Service, rest: seq<Service>)
    requires |items| > 0 && DecodeService(items[0]) == Success(s) && s.port !in used
    requires |rest| == |items| - 1 && DistinctPorts(rest) && Ports(rest) !! used + {s.port}
    requires forall i :: 0 <= i < |items| - 1 ==> DecodeService(items[1..][i]) == Success(rest[i])
    ensures DistinctPorts([s] + rest) && Ports([s] + rest) !! used
    ensures forall i :: 0 <= i < |items| ==> DecodeService(items[i]) == Success(([s] + rest)[i])
  {
    ConsPorts(used, s, rest);
    var r := [s] + rest;
    forall i | 1 <= i < |items|
      ensures DecodeService(items[i]) == Success(r[i])
    {
      assert items[i] == items[1..][i - 1] && r[i] == rest[i - 1];
    }
  }

  lemma ConsPorts(used: set<int>, s: Service, rest: seq<Service>)
    requires s.port !in used && DistinctPorts(rest) && Ports(rest) !! used + {s.port}
    ensures DistinctPorts([s] + rest) && Ports([s] + rest) !! used
  {
    var r := [s] + rest;
    forall i | 1 <= i < |r|
      ensures r[i].port in Ports(rest) && r[i].port != s.port
    {
      assert r[i] == rest[i - 1];
    }
    forall p | p in Ports(r)
      ensures p !in used
    {
      var i :| 0 <= i < |r| && r[i].port == p;
    }
  }

  /** `_load_config` on the loaded document. */
  function Load(doc: JValue): (r: Result<seq<Service>, ConfigError>)
    ensures !doc.JMap? ==> r == Failure(NotAnObject)
    ensures r.Success? ==> DistinctPorts(r.value) && forall i :: 0 <= i < |r.value| ==> ValidPort(r.value[i].port)
  {
    if !doc.JMap? then Failure(NotAnObject)
    else
      var services := Get(doc.fields, "services", JList([]));
      if !services.JList? then Failure(ServicesNotAList)
      else
        var r := LoadEntries(services.items, {});
        LoadedPortsValid(services.items, {}, r);
        r
  }

  lemma LoadedPortsValid(items: seq<JValue>, used: set<int>, r: Result<seq<Service>, ConfigError>)
    requires r == LoadEntries(items, used)
    ensures r.Success? ==> forall i :: 0 <= i < |r.value| ==> ValidPort(r.value[i].port)
  {
    if r.Success? {
      forall i | 0 <= i < |r.value|
        ensures ValidPort(r.value[i].port)
      {
        assert DecodeService(items[i]) == Success(r.value[i]);
      }
    }
  }

  /** Loading succeeds exactly when every entry is valid on its own and no
      two entries (nor an entry and `used`) share a port. */
  lemma {:induction false} LoadEntriesSucceeds(items: seq<JValue>, used: set<int>)
    ensures LoadEntries(items, used).Success? <==>
      && (forall i :: 0 <= i < |items| ==> DecodeService(items[i]).Success?)
      && (forall i, j :: 0 <= i < j < |items| ==> DecodeService(items[i]).value.port != DecodeService(items[j]).value.port)
      && (forall i :: 0 <= i < |items| ==> DecodeService(items[i]).value.port !in used)
    decreases |items|
  {
    if |items| > 0 {
      var tail := items[1..];
      assert forall i :: 1 <= i < |items| ==> items[i] == tail[i - 1];
      match EntryPort(items[0])
      case Failure(e) =>
      case Success((name, port)) =>
        if port !in used && EntryType(items[0]).Success? {
          LoadEntriesSucceeds(tail, used + {port});
        }
    }
  }

  /** An empty document section, or none at all, loads no services. */
  lemma NoServicesLoadsEmpty(doc: JValue)
    requires doc.JMap? && ("services" !in doc.fields || doc.fields["services"] == JList([]))
    ensures Load(doc) == Success([])
  {
  }

  // ---------------------------------------------------------------------
  // Lookups

  /** `get_service_by_name`: the first service with that name. */
  function ByName(services: seq<Service>, name: string): (r: Option<Service>)
    ensures r.None? <==> forall i :: 0 <= i < |services| ==> services[i].name != name
    ensures r.Some? ==> exists i :: (0 <= i < |services| && services[i] == r.value && r.value.name == name
      && forall j :: 0 <= j < i ==> services[j].name != name)
  {
    if |services| == 0 then None
    else if services[0].name == name then Some(services[0])
    else
      var r := ByName(services[1..], name);
      assert forall j :: 1 <= j < |services| ==> services[j] == services[1..][j - 1];
      r
  }

  /** `get_service_by_port`: the first service on that port. */
  function ByPort(services: seq<Service>, port: int): (r: Option<Service>)
    ensures r.None? <==> forall i :: 0 <= i < |services| ==> services[i].port != port
    ensures r.Some? ==> exists i :: (0 <= i < |services| && services[i] == r.value && r.value.port == port
      && forall j :: 0 <= j < i ==> services[j].port != port)
  {
    if |services| == 0 then None
    else if services[0].port == port then Some(services[0])
    else
      var r := ByPort(services[1..], port);
      assert forall j :: 1 <= j < |services| ==> services[j] == services[1..][j - 1];
      r
  }

  /** With distinct ports, as loading guarantees, every service is the one
      found on its own port. */
  lemma ByPortFindsEach(services: seq<Service>, i: nat)
    requires DistinctPorts(services) && i < |services|
    ensures ByPort(services, services[i].port) == Some(services[i])
  {
  }

  /** `get_services_by_type`: the services of that type, in order. */
  function ByType(services: seq<Service>, kind: ServiceType): (r: seq<Service>)
    ensures |r| <= |services|
    ensures forall s :: s in r <==> s in services && s.kind == kind
    ensures |services| == 1 ==> r == (if services[0].kind == kind then services else [])
  {
    if |services| == 0 then []
    else
      var rest := ByType(services[1..], kind);
      assert forall s :: s in services <==> s == services[0] || s in services[1..];
      if services[0].kind == kind then [services[0]] + rest else rest
  }

  /** Selecting by type distributes over concatenation, so together with the
      one-service case the selection keeps the configuration's order. */
  lemma {:induction false} ByTypeAppend(a: seq<Service>, b: seq<Service>, kind: ServiceType)
    ensures ByType(a + b, kind) == ByType(a, kind) + ByType(b, kind)
    decreases |a|
  {
    if |a| == 0 {
      assert a + b == b;
    } else {
      assert (a + b)[1..] == a[1..] + b;
      ByTypeAppend(a[1..], b, kind);
    }
  }
}

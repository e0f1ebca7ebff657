/** Reading the upstream port out of an access-log entry's
    `upstream_host`, such as `10.0.0.2:8080` or `[::1]:8080`. */
module LogUtils {
  import opened Wrappers
  import opened PyStr
  import opened Json

  /** `try_get_port_from_upstream_host`: `int()` of the text after the last
      colon; None for empty input, no colon, or a suffix `int()` rejects.
      The value is not range-checked. */
  function PortFromUpstreamHost(h: string): (r: Option<int>)
    ensures |h| == 0 ==> r.None?
    ensures (forall i :: 0 <= i < |h| ==> h[i] != ':') ==> r.None?
  {
    if |h| == 0 then None
    else
      match RFind(h, ':')
      case None => None
      case Some(loc) => PyInt(h[loc + 1..])
  }

  datatype HostError = HostNotAString

  /** The same call on whatever the log entry holds: a falsy value is None
      before any string operation, and any other non-string raises on
      `rfind`. */
  function PortOfValue(host: JValue): (r: Result<Option<int>, HostError>)
    ensures !Truthy(host) ==> r == Success(None)
    ensures host.JStr? ==> r == Success(PortFromUpstreamHost(host.s))
    ensures Truthy(host) && !host.JStr? ==> r.Failure?
  {
    if !Truthy(host) then Success(None)
    else if !host.JStr? then Failure(HostNotAString)
    else Success(PortFromUpstreamHost(host.s))
  }

  /** Only the text after the last colon is read: whatever precedes it,
      colons included, the result is `int()` of that text. */
  lemma SuffixDecides(host: string, t: string)
    requires forall i :: 0 <= i < |t| ==> t[i] != ':'
    ensures PortFromUpstreamHost(host + ":" + t) == PyInt(t)
  {
    var h := host + ":" + t;
    assert h[|host|] == ':';
    assert forall j :: |host| < j < |h| ==> h[j] == t[j - |host| - 1];
    assert RFind(h, ':') == Some(|host|);
    assert h[|host| + 1..] == t;
  }

  /** For any host and decimal numeral `p`, `host:p` gives the value of `p`. */
  lemma HostPortRoundTrip(host: string, p: string)
    requires IsDigits(p)
    ensures PortFromUpstreamHost(host + ":" + p) == Some(DecimalValue(p))
  {
    forall i | 0 <= i < |p|
      ensures p[i] != ':'
    {
      assert IsDigit(p[i]);
    }
    SuffixDecides(host, p);
  }

  /** A suffix with no digit at all gives None. */
  lemma NoDigitsNoPort(host: string, t: string)
    requires forall i :: 0 <= i < |t| ==> t[i] != ':' && !IsDigit(t[i])
    ensures PortFromUpstreamHost(host + ":" + t).None?
  {
    SuffixDecides(host, t);
  }

  /** An IPv6 address in brackets: only the port after the last colon is
      read, so `[::1]:8080` gives 8080. */
  lemma BracketedIpv6(host: string, p: string)
    requires host == "[::1]" && p == "8080"
    ensures PortFromUpstreamHost(host + ":" + p) == Some(8080)
  {
    FourDigits(p);
    HostPortRoundTrip(host, p);
  }

  lemma FourDigits(p: string)
    requires p == "8080"
    ensures IsDigits(p) && DecimalValue(p) == 8080
  {
    var a, b, c := p[..1], p[..2], p[..3];
    assert a == "8" && b == "80" && c == "808";
    assert b[..1] == a && c[..2] == b && p[..3] == c;
    assert DecimalValue(a) == 8;
    assert DecimalValue(b) == 80;
    assert DecimalValue(c) == 808;
  }
}

/** The proxy-wasm vocabulary the interceptors share: filter actions, bytes,
    the HTTP and TCP lifecycle stages with their names, and the decoding of
    an 8-byte host property such as the destination port. */
module Proxy {
  import opened Wrappers

  newtype u32 = x: int | 0 <= x < 0x1_0000_0000

  /** A filter callback's verdict as the host sees it (proxy-wasm `types.Action`). */
  type Action = u32

  const ActionContinue: Action := 0
  const ActionPause: Action := 1

  /** The sentinel stored in `skip` while a stream has no cached outcome. */
  const UndefinedAction: Action := 0xFFFF_FFFF

  newtype byte = x: int | 0 <= x < 256

  type Bytes = seq<byte>

  /** A context's private `Data` slot, owned by the user's When or Do: nil,
      or a string (the only kind the helpers store). */
  datatype Data = NoData | Text(s: string)

  /** The four HTTP lifecycle stages, in the order the host calls them. */
  datatype HttpStage = RequestHeaders | RequestBody | ResponseHeaders | ResponseBody {
    /** The stage's `iota` value. */
    function Value(): int {
      match this
      case RequestHeaders => 0
      case RequestBody => 1
      case ResponseHeaders => 2
      case ResponseBody => 3
    }

    /** The `isReq` flag the host callbacks pass along with the stage. */
    predicate IsRequest() {
      RequestHeaders? || RequestBody?
    }
  }

  /** The two TCP data stages. */
  datatype TcpStage = DownstreamData | UpstreamData {
    function Value(): int {
      match this
      case DownstreamData => 0
      case UpstreamData => 1
    }
  }

  /** `HttpStage.String` on any integer the stage type can hold. */
  function HttpStageName(v: int): (r: string)
    ensures v == RequestHeaders.Value() ==> r == "req:headers"
    ensures v == RequestBody.Value() ==> r == "req:body"
    ensures v == ResponseHeaders.Value() ==> r == "resp:headers"
    ensures v == ResponseBody.Value() ==> r == "resp:body"
    ensures 0 <= v < 4 ==> r != "unknown"
    ensures !(0 <= v < 4) ==> r == "unknown"
  {
    if v == 0 then "req:headers"
    else if v == 1 then "req:body"
    else if v == 2 then "resp:headers"
    else if v == 3 then "resp:body"
    else "unknown"
  }

  /** `TcpStage.String`; the upstream name is spelled "up:date" in the source. */
  function TcpStageName(v: int): (r: string)
    ensures v == DownstreamData.Value() ==> r == "down:data"
    ensures v == UpstreamData.Value() ==> r == "up:date"
    ensures 0 <= v < 2 ==> r != "unknown"
    ensures !(0 <= v < 2) ==> r == "unknown"
  {
    if v == 0 then "down:data"
    else if v == 1 then "up:date"
    else "unknown"
  }

  /** The earlier engine's `Stage.String`, written out separately as the
      source does. */
  function LegacyStageName(v: int): (r: string)
    ensures r == "unknown" <==> !(0 <= v < 4)
  {
    match v
    case 0 => "req:headers"
    case 1 => "req:body"
    case 2 => "resp:headers"
    case 3 => "resp:body"
    case _ => "unknown"
  }

  /** Distinct stages have distinct names, and the name of each stage datatype
      value is the name of its `iota` value. */
  lemma HttpStageNamesInjective(a: HttpStage, b: HttpStage)
    ensures HttpStageName(a.Value()) == HttpStageName(b.Value()) <==> a == b
  {
  }

  lemma TcpStageNamesInjective(a: TcpStage, b: TcpStage)
    ensures TcpStageName(a.Value()) == TcpStageName(b.Value()) <==> a == b
  {
  }

  /** The two generations name the HTTP stages identically. */
  lemma LegacyStageNameAgrees(v: int)
    ensures LegacyStageName(v) == HttpStageName(v)
  {
  }

  /** What the host returns for a property lookup. */
  datatype Fetch = FetchError | FetchNil | FetchBytes(bytes: Bytes)

  datatype PropertyError = HostFailed | NotFound | BadLength(length: nat)

  /** Unsigned little-endian value of a byte string. */
  function LittleEndian(b: Bytes): (r: nat)
    ensures r < Pow256(|b|)
  {
    if |b| == 0 then 0 else (b[0] as nat) + 256 * LittleEndian(b[1..])
  }

  function Pow256(n: nat): (r: nat)
    ensures r > 0
  {
    if n == 0 then 1 else 256 * Pow256(n - 1)
  }

  const TwoTo63: int := 0x8000_0000_0000_0000
  const TwoTo64: int := 0x1_0000_0000_0000_0000

  predicate IsInt64(x: int) {
    -TwoTo63 <= x < TwoTo63
  }

  /** Go's `int64(u)` conversion of a `uint64`: two's complement reinterpretation. */
  function Int64OfUint64(u: nat): (r: int)
    requires u < TwoTo64
    ensures IsInt64(r)
    ensures r % TwoTo64 == u
  {
    if u < TwoTo63 then u else u - TwoTo64
  }

  /** `getIntProperty` with the host fetch passed in as `f`. */
  function GetIntProperty(f: Fetch): (r: Result<int, PropertyError>)
    ensures f.FetchError? ==> r == Failure(HostFailed)
    ensures f.FetchNil? ==> r == Failure(NotFound)
    ensures f.FetchBytes? && |f.bytes| != 8 ==> r == Failure(BadLength(|f.bytes|))
    ensures r.Success? ==> f.FetchBytes? && |f.bytes| == 8 && IsInt64(r.value)
  {
    match f
    case FetchError => Failure(HostFailed)
    case FetchNil => Failure(NotFound)
    case FetchBytes(b) =>
      if |b| != 8 then Failure(BadLength(|b|))
      else
        assert Pow256(8) == TwoTo64;
        Success(Int64OfUint64(LittleEndian(b)))
  }

  /** The little-endian encoding of `n` in `k` bytes, reduced modulo 256^k. */
  function EncodeLittleEndian(n: nat, k: nat): (r: Bytes)
    ensures |r| == k
  {
    if k == 0 then [] else [(n % 256) as byte] + EncodeLittleEndian(n / 256, k - 1)
  }

  /** The 8 bytes the host stores for a 64-bit signed value. */
  function EncodeInt64(x: int): (r: Bytes)
    requires IsInt64(x)
    ensures |r| == 8
  {
    EncodeLittleEndian(x % TwoTo64, 8)
  }

  lemma {:induction false} DecodeEncode(n: nat, k: nat)
    requires n < Pow256(k)
    ensures LittleEndian(EncodeLittleEndian(n, k)) == n
  {
    if k > 0 {
      var e := EncodeLittleEndian(n, k);
      assert e[1..] == EncodeLittleEndian(n / 256, k - 1);
      DecodeEncode(n / 256, k - 1);
    }
  }

  lemma {:induction false} EncodeDecode(b: Bytes)
    ensures EncodeLittleEndian(LittleEndian(b), |b|) == b
  {
    if |b| > 0 {
      var n := LittleEndian(b);
      assert n % 256 == b[0] as nat;
      assert n / 256 == LittleEndian(b[1..]);
      EncodeDecode(b[1..]);
    }
  }

  /** Every signed 64-bit value survives the host's 8-byte representation. */
  lemma PropertyRoundTrip(x: int)
    requires IsInt64(x)
    ensures GetIntProperty(FetchBytes(EncodeInt64(x))) == Success(x)
  {
    assert Pow256(8) == TwoTo64;
    DecodeEncode(x % TwoTo64, 8);
  }

  /** Every 8-byte property is the encoding of the value it decodes to. */
  lemma PropertyBytesRoundTrip(b: Bytes)
    requires |b| == 8
    ensures GetIntProperty(FetchBytes(b)).Success?
    ensures EncodeInt64(GetIntProperty(FetchBytes(b)).value) == b
  {
    assert Pow256(8) == TwoTo64;
    EncodeDecode(b);
  }
}

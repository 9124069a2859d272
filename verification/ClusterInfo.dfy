/** The cluster listing a server sends and a client reads (src/coordinator/coordinator.cpp:108-139 and
    src/sdk/topology_manager.cpp:97-126). Integers are copied in the machine's little-endian order. */
module ClusterListing {
  import opened NodeInfos
  import opened Bytes

  /** `NodeEndpoint` */
  datatype Endpoint = Endpoint(host: seq<byte>, gossipPort: u16, dataPort: u16)

  function EndpointOf(info: NodeInfo): Endpoint { Endpoint(info.id.host, info.id.gossipPort, info.dataPort) }

  /** The endpoints of the alive members, in iteration order. */
  function AliveEndpoints(infos: seq<NodeInfo>): seq<Endpoint> {
    if infos == [] then []
    else
      var last := infos[|infos| - 1];
      AliveEndpoints(infos[..|infos| - 1]) + (if last.state.Alive? then [EndpointOf(last)] else [])
  }

  /** The two bytes of `static_cast<uint16_t>(v)`. */
  function Half(v: nat): (r: seq<byte>)
    ensures |r| == 2
  {
    [(v % 256) as byte, (v / 256 % 256) as byte]
  }

  function HalfAt(d: seq<byte>, p: nat): u16
    requires p + 2 <= |d|
  {
    d[p] as nat + 256 * d[p + 1] as nat
  }

  lemma HalfRoundTrip(d: seq<byte>, p: nat, v: nat)
    requires p + 2 <= |d| && d[p..p + 2] == Half(v)
    ensures HalfAt(d, p) == v % 0x1_0000
  {
  }

  lemma HalfDigits(v: nat)
    ensures v % 256 + 256 * (v / 256 % 256) == v % 0x1_0000
  {
    var a := v / 256;
    assert v == 256 * a + v % 256 && a == 256 * (a / 256) + a % 256;
    assert v == 0x1_0000 * (a / 256) + (256 * (a % 256) + v % 256);
  }

  lemma HalfOfLow(v: nat)
    ensures Half(v % 0x1_0000) == Half(v)
  {
    HalfDigits(v);
    assert v % 0x1_0000 / 256 == v / 256 % 256;
  }

  /** One entry; of a host longer than its 16-bit length only the first bytes are copied. */
  function EncodeEndpoint(e: Endpoint): seq<byte> {
    Half(|e.host|) + e.host[..|e.host| % 0x1_0000] + Half(e.gossipPort) + Half(e.dataPort)
  }

  function EncodeEndpoints(es: seq<Endpoint>): seq<byte> {
    if es == [] then [] else EncodeEndpoints(es[..|es| - 1]) + EncodeEndpoint(es[|es| - 1])
  }

  function EncodeListing(es: seq<Endpoint>): seq<byte> { Half(|es|) + EncodeEndpoints(es) }

  /** One entry as the client reads it. */
  function DecodeEndpoint(d: seq<byte>, p: nat): Parsed<Endpoint> {
    if p + 2 > |d| then Rejected
    else
      var len := HalfAt(d, p);
      var q := p + 2 + len;
      if q + 4 > |d| then Rejected
      else Accepted(Endpoint(d[p + 2..q], HalfAt(d, q), HalfAt(d, q + 2)), q + 4)
  }

  function DecodeEndpoints(d: seq<byte>, p: nat, n: nat): Parsed<seq<Endpoint>> {
    if n == 0 then Accepted([], p)
    else
      match DecodeEndpoints(d, p, n - 1)
      case Rejected => Rejected
      case Accepted(es, q) =>
        match DecodeEndpoint(d, q)
        case Rejected => Rejected
        case Accepted(e, next) => Accepted(es + [e], next)
  }

  function DecodeListing(d: seq<byte>): Option<seq<Endpoint>> {
    if |d| < 2 then None
    else
      match DecodeEndpoints(d, 2, HalfAt(d, 0))
      case Rejected => None
      case Accepted(es, _) => Some(es)
  }

  ghost predicate HostsFit(es: seq<Endpoint>) { forall i :: 0 <= i < |es| ==> |es[i].host| < 0x1_0000 }

  lemma DecodeEndpointAt(d: seq<byte>, p: nat, e: Endpoint)
    requires |e.host| < 0x1_0000 && At(d, p, EncodeEndpoint(e))
    ensures DecodeEndpoint(d, p) == Accepted(e, p + |EncodeEndpoint(e)|)
  {
    hide Half;
    var len, g, port := Half(|e.host|), Half(e.gossipPort), Half(e.dataPort);
    assert e.host[..|e.host| % 0x1_0000] == e.host;
    AtSplit(d, p, len + e.host + g, port);
    AtSplit(d, p, len + e.host, g);
    AtSplit(d, p, len, e.host);
    HalfRoundTrip(d, p, |e.host|);
    HalfRoundTrip(d, p + 2 + |e.host|, e.gossipPort);
    HalfRoundTrip(d, p + 4 + |e.host|, e.dataPort);
  }

  lemma {:induction false} DecodeEndpointsAt(d: seq<byte>, p: nat, es: seq<Endpoint>)
    requires HostsFit(es) && At(d, p, EncodeEndpoints(es))
    ensures DecodeEndpoints(d, p, |es|) == Accepted(es, p + |EncodeEndpoints(es)|)
  {
    hide EncodeEndpoint, DecodeEndpoint, At;
    if es == [] {
    } else {
      var n := |es| - 1;
      AtSplit(d, p, EncodeEndpoints(es[..n]), EncodeEndpoint(es[n]));
      DecodeEndpointsAt(d, p, es[..n]);
      DecodeEndpointAt(d, p + |EncodeEndpoints(es[..n])|, es[n]);
      assert es == es[..n] + [es[n]];
      assert EncodeEndpoints(es) == EncodeEndpoints(es[..n]) + EncodeEndpoint(es[n]);
    }
  }

  lemma {:induction false} DecodedHostsFit(d: seq<byte>, p: nat, n: nat)
    requires DecodeEndpoints(d, p, n).Accepted?
    ensures |DecodeEndpoints(d, p, n).value| == n && HostsFit(DecodeEndpoints(d, p, n).value)
  {
    if n == 0 {
    } else {
      DecodedHostsFit(d, p, n - 1);
    }
  }

  /** A listing is read back as it was, followed by whatever, exactly when there are fewer than 65536
      entries and every host is shorter than 65536 bytes. */
  lemma ListingRoundTrip(es: seq<Endpoint>, rest: seq<byte>)
    ensures DecodeListing(EncodeListing(es) + rest) == Some(es) <==> |es| < 0x1_0000 && HostsFit(es)
  {
    hide EncodeEndpoints, DecodeEndpoints, Half;
    var d := EncodeListing(es) + rest;
    assert At(d, 0, EncodeListing(es));
    AtSplit(d, 0, Half(|es|), EncodeEndpoints(es));
    HalfRoundTrip(d, 0, |es|);
    if |es| < 0x1_0000 && HostsFit(es) {
      DecodeEndpointsAt(d, 2, es);
    }
    if DecodeListing(d).Some? {
      DecodedHostsFit(d, 2, HalfAt(d, 0));
    }
  }

  // ---------------------------------------------------------------- as the source runs it

  method ServeClusterInfo(infos: seq<NodeInfo>) returns (buf: seq<byte>)
    ensures buf == EncodeListing(AliveEndpoints(infos))
  {
    hide EncodeEndpoint, Half;
    var count := CountAlive(infos);
    buf := Half(count);
    HalfOfLow(|AliveEndpoints(infos)|);
    for i := 0 to |infos|
      invariant buf == Half(|AliveEndpoints(infos)|) + EncodeEndpoints(AliveEndpoints(infos[..i]))
    {
      assert infos[..i + 1][..i] == infos[..i];
      ghost var es := AliveEndpoints(infos[..i]);
      assert es + [] == es;
      if infos[i].state.Alive? {
        buf := AppendEndpoint(buf, EndpointOf(infos[i]));
        assert (es + [EndpointOf(infos[i])])[..|es|] == es;
      }
    }
    assert infos[..|infos|] == infos;
  }

  /** The count is a 16-bit counter. */
  method CountAlive(infos: seq<NodeInfo>) returns (count: nat)
    ensures count == |AliveEndpoints(infos)| % 0x1_0000
  {
    count := 0;
    for i := 0 to |infos|
      invariant count == |AliveEndpoints(infos[..i])| % 0x1_0000
    {
      assert infos[..i + 1][..i] == infos[..i];
      if infos[i].state.Alive? { count := (count + 1) % 0x1_0000; }
    }
    assert infos[..|infos|] == infos;
  }

  method AppendEndpoint(buf: seq<byte>, e: Endpoint) returns (r: seq<byte>)
    ensures r == buf + EncodeEndpoint(e)
  {
    hide Half;
    var hostLen := |e.host| % 0x1_0000;
    HalfOfLow(|e.host|);
    r := buf + Half(hostLen);
    r := r + e.host[..hostLen];
    r := r + Half(e.gossipPort);
    r := r + Half(e.dataPort);
  }

  method ReadListing(payload: seq<byte>) returns (out: Option<seq<Endpoint>>)
    ensures out == DecodeListing(payload)
  {
    if |payload| < 2 { return None; }
    var numNodes := HalfAt(payload, 0);
    var p := 2;
    var nodes: seq<Endpoint> := [];
    for i := 0 to numNodes
      invariant DecodeEndpoints(payload, 2, i) == Accepted(nodes, p)
    {
      var entry := ReadEndpoint(payload, p);
      if entry.Rejected? {
        RejectedStays(payload, 2, i + 1, numNodes);
        return None;
      }
      nodes, p := nodes + [entry.value], entry.next;
    }
    out := Some(nodes);
  }

  method ReadEndpoint(payload: seq<byte>, start: nat) returns (r: Parsed<Endpoint>)
    ensures r == DecodeEndpoint(payload, start)
  {
    var p := start;
    if p + 2 > |payload| { return Rejected; }
    var hostLen := HalfAt(payload, p);
    p := p + 2;
    if p + hostLen + 4 > |payload| { return Rejected; }
    var host := payload[p..p + hostLen];
    p := p + hostLen;
    var gossipPort := HalfAt(payload, p);
    p := p + 2;
    var dataPort := HalfAt(payload, p);
    p := p + 2;
    return Accepted(Endpoint(host, gossipPort, dataPort), p);
  }

  lemma {:induction false} RejectedStays(d: seq<byte>, p: nat, i: nat, n: nat)
    requires DecodeEndpoints(d, p, i).Rejected? && i <= n
    ensures DecodeEndpoints(d, p, n).Rejected?
  {
    if i == n {
    } else {
      RejectedStays(d, p, i, n - 1);
    }
  }
}

/** The destination lists and proxy settings a notary hands to its socket. */
module Destinations {
  import opened NotaryTypes

  /** Which port of an endpoint a destination list uses. */
  datatype PortRole = HttpRole | SslRole | BounceRole

  function PortFor(endpoint: PhysicalNotary, role: PortRole): int
  {
    match role
    case HttpRole => endpoint.httpPort
    case SslRole => endpoint.sslPort
    case BounceRole => BouncePort
  }

  /** One destination per endpoint, in endpoint order. */
  function DestinationsFor(endpoints: seq<PhysicalNotary>, role: PortRole): (r: seq<Destination>)
    ensures |r| == |endpoints|
    ensures forall i :: 0 <= i < |endpoints| ==>
      r[i].host == endpoints[i].host && r[i].port == PortFor(endpoints[i], role)
  {
    if endpoints == [] then []
    else [Destination(endpoints[0].host, PortFor(endpoints[0], role))] + DestinationsFor(endpoints[1..], role)
  }

  function HttpDestinations(endpoints: seq<PhysicalNotary>): (r: seq<Destination>)
    ensures |r| == |endpoints|
    ensures forall i :: 0 <= i < |endpoints| ==> r[i] == Destination(endpoints[i].host, endpoints[i].httpPort)
  {
    DestinationsFor(endpoints, HttpRole)
  }

  function SslDestinations(endpoints: seq<PhysicalNotary>): (r: seq<Destination>)
    ensures |r| == |endpoints|
    ensures forall i :: 0 <= i < |endpoints| ==> r[i] == Destination(endpoints[i].host, endpoints[i].sslPort)
  {
    DestinationsFor(endpoints, SslRole)
  }

  function BouncedDestinations(endpoints: seq<PhysicalNotary>): (r: seq<Destination>)
    ensures |r| == |endpoints|
    ensures forall i :: 0 <= i < |endpoints| ==> r[i] == Destination(endpoints[i].host, BouncePort)
  {
    DestinationsFor(endpoints, BounceRole)
  }

  /** The HTTP proxy of endpoint 0; reading it from an empty list throws. */
  function HttpProxy(endpoints: seq<PhysicalNotary>): (r: Result<Option<string>>)
    ensures r.Ok? <==> |endpoints| > 0
    ensures r.Ok? ==> r.value == endpoints[0].httpProxy
    ensures r.Err? ==> r.error == NoPhysicalNotary
  {
    if |endpoints| == 0 then Err(NoPhysicalNotary) else Ok(endpoints[0].httpProxy)
  }

  /** The SSL proxy of endpoint 0; reading it from an empty list throws. */
  function SslProxy(endpoints: seq<PhysicalNotary>): (r: Result<Option<string>>)
    ensures r.Ok? <==> |endpoints| > 0
    ensures r.Ok? ==> r.value == endpoints[0].sslProxy
    ensures r.Err? ==> r.error == NoPhysicalNotary
  {
    if |endpoints| == 0 then Err(NoPhysicalNotary) else Ok(endpoints[0].sslProxy)
  }
}

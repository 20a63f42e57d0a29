/** Building a notary's settings from a parsed configuration bundle. */
module Bundles {
  import opened NotaryTypes

  /** One entry of a version 1 bundle's `hosts` list. */
  datatype HostEntry = HostEntry(host: string, httpPort: int, sslPort: int, certificate: string)

  /** A parsed bundle document. Absent JSON fields are None; the legacy
      top-level fields `host`, `http_port`, `ssl_port` and `certificate`
      are read only by the version 0 path, `hosts` only by the version 1 path. */
  datatype BundleDocument = BundleDocument(
    version: Option<int>,
    name: Option<string>,
    bundleLocation: Option<string>,
    region: Option<string>,
    host: string,
    httpPort: int,
    sslPort: int,
    certificate: string,
    hosts: Option<seq<HostEntry>>)

  /** An endpoint built through the setters; `sha1Of` is the certificate
      digest that `setCertificate` computes, and a new endpoint has no proxies. */
  function EndpointFrom(host: string, httpPort: int, sslPort: int, certificate: string, sha1Of: string -> string): (p: PhysicalNotary)
  {
    PhysicalNotary(host, httpPort, sslPort, certificate, sha1Of(certificate), None, None)
  }

  /** One endpoint per host entry, in input order. */
  function EndpointsFromHosts(hosts: seq<HostEntry>, sha1Of: string -> string): (r: seq<PhysicalNotary>)
    ensures |r| == |hosts|
    ensures forall i :: 0 <= i < |hosts| ==>
      && r[i].host == hosts[i].host
      && r[i].httpPort == hosts[i].httpPort
      && r[i].sslPort == hosts[i].sslPort
      && r[i].certificate == hosts[i].certificate
      && r[i].sha1Fingerprint == sha1Of(hosts[i].certificate)
      && r[i].httpProxy.None? && r[i].sslProxy.None?
  {
    if hosts == [] then []
    else
      var h := hosts[0];
      [EndpointFrom(h.host, h.httpPort, h.sslPort, h.certificate, sha1Of)] + EndpointsFromHosts(hosts[1..], sha1Of)
  }

  /** The legacy schema: exactly one endpoint, named after its host, enabled,
      with no bundle location and no region. */
  function V0Config(doc: BundleDocument, sha1Of: string -> string): (c: NotaryConfig)
    ensures |c.physicalNotaries| == 1
    ensures c.physicalNotaries[0].host == doc.host
    ensures c.physicalNotaries[0].httpPort == doc.httpPort && c.physicalNotaries[0].sslPort == doc.sslPort
    ensures c.physicalNotaries[0].sha1Fingerprint == sha1Of(doc.certificate)
    ensures c.name == Some(doc.host)
    ensures c.enabled && !c.priority
    ensures c.bundleLocation.None? && c.region.None?
  {
    DefaultConfig.(
      name := Some(doc.host),
      enabled := true,
      physicalNotaries := [EndpointFrom(doc.host, doc.httpPort, doc.sslPort, doc.certificate, sha1Of)])
  }

  /** The multi-endpoint schema: one endpoint per `hosts` entry, name and
      bundle location from the document, enabled, priority off, region only
      when present; a missing `hosts` list throws. */
  function V1Config(doc: BundleDocument, sha1Of: string -> string): (r: Result<NotaryConfig>)
    ensures r.Ok? <==> doc.hosts.Some?
    ensures r.Err? ==> r.error == HostsMissing
    ensures r.Ok? ==>
      && r.value.physicalNotaries == EndpointsFromHosts(doc.hosts.value, sha1Of)
      && |r.value.physicalNotaries| == |doc.hosts.value|
      && r.value.name == doc.name
      && r.value.bundleLocation == doc.bundleLocation
      && r.value.region == doc.region
      && r.value.enabled && !r.value.priority
  {
    match doc.hosts
    case None => Err(HostsMissing)
    case Some(hosts) =>
      Ok(DefaultConfig.(
        name := doc.name,
        bundleLocation := doc.bundleLocation,
        enabled := true,
        physicalNotaries := EndpointsFromHosts(hosts, sha1Of),
        region := doc.region))
  }

  /** The version dispatch of `constructFromBundle`: a missing version or 0
      selects the legacy schema, 1 the multi-endpoint schema, and any other
      version throws carrying that version. */
  function BundleConfig(doc: BundleDocument, sha1Of: string -> string): (r: Result<NotaryConfig>)
    ensures (doc.version.None? || doc.version == Some(0)) ==> r == Ok(V0Config(doc, sha1Of))
    ensures doc.version == Some(1) ==> r == V1Config(doc, sha1Of)
    ensures (doc.version.None? || doc.version == Some(0)) ==>
      r.Ok? && |r.value.physicalNotaries| == 1 && r.value.name == Some(doc.host)
    ensures doc.version == Some(1) ==>
      (r.Ok? <==> doc.hosts.Some?) &&
      (r.Ok? ==> |r.value.physicalNotaries| == |doc.hosts.value| && r.value.name == doc.name)
    ensures doc.version.Some? && doc.version.value != 0 && doc.version.value != 1 ==>
      r == Err(UnsupportedVersion(doc.version.value))
    ensures r.Ok? ==> r.value.enabled && !r.value.priority
  {
    match doc.version
    case None => Ok(V0Config(doc, sha1Of))
    case Some(v) =>
      if v == 0 then Ok(V0Config(doc, sha1Of))
      else if v == 1 then V1Config(doc, sha1Of)
      else Err(UnsupportedVersion(v))
  }
}

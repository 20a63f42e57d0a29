/** The logical notary: its settings, the setters that change them, the
    connection to the notary with certificate pinning, the consultation
    that turns the notary's answer into a verdict, and the three
    (de)serialisations of its settings. */
module LogicalNotary {
  import opened NotaryTypes
  import opened Destinations
  import opened Fingerprints
  import opened Verdicts
  import opened Settings
  import opened Bundles
  import opened NotarySockets

  /** How a call to `update` ended. */
  datatype UpdateOutcome = NotSecure | Rejected(error: Failure) | Updated

  /** A bundle location `update` will fetch from: present and starting with https://. */
  predicate SecureLocation(location: Option<string>)
  {
    location.Some? && "https://" <= location.value
  }

  /** The part of checkValidity after the connection attempt: a thrown
      connection or a null socket is a connectivity failure; otherwise the
      request is written, the response's status code decides, any throw is a
      connectivity failure, and the `finally` closes the socket it holds. */
  method Conclude(connection: Result<NotarySocket?>, host: string, port: int, ip: string, sha1: string, ex: Exchange)
    returns (verdict: Verdict)
    modifies if connection.Ok? && connection.value != null then {connection.value} else {}
    ensures verdict == if connection.Ok? && connection.value != null then ExchangeVerdict(ex, sha1) else ConnectivityFailure
    ensures connection.Ok? && connection.value != null ==>
      && connection.value.closeCount == old(connection.value.closeCount) + 1
      && connection.value.written == old(connection.value.written) + (if ex.writeSucceeds then [Request(host, port, ip, sha1)] else [])
      && connection.value.bouncedTo == old(connection.value.bouncedTo)
  {
    var socket: NotarySocket? := null;
    if connection.Err? {
      verdict := ConnectivityFailure;
    } else {
      socket := connection.value;
      if socket == null {
        verdict := ConnectivityFailure;
      } else if !ex.writeSucceeds {
        verdict := ConnectivityFailure;
      } else {
        socket.Write(Request(host, port, ip, sha1));
        match ex.reply
        case None =>
          verdict := ConnectivityFailure;
        case Some(reply) =>
          verdict := ReplyVerdict(reply, sha1);
      }
    }
    if socket != null {
      socket.Close();
    }
  }

  class Notary {
    var name: Option<string>
    var region: Option<string>
    var bundleLocation: Option<string>
    var enabled: bool
    var priority: bool
    var physicalNotaries: seq<PhysicalNotary>
    var open: bool
    var parent: bool

    /** The settings this notary holds; the getters read these fields. */
    function Config(): NotaryConfig
      reads this
    {
      NotaryConfig(name, region, bundleLocation, enabled, priority, physicalNotaries)
    }

    /** `new Notary()`: no name, disabled, no endpoints. */
    constructor ()
      ensures Config() == DefaultConfig && open && parent
    {
      name := None;
      region := None;
      bundleLocation := None;
      enabled := false;
      priority := false;
      physicalNotaries := [];
      open := true;
      parent := true;
    }

    /** `new Notary(serialized)`: copies every field of the transport record. */
    constructor FromTransport(serialized: TransportForm)
      ensures Config() == ConfigFromTransport(serialized) && open && parent
    {
      name := serialized.name;
      enabled := serialized.enabled;
      priority := serialized.priority;
      bundleLocation := serialized.bundleLocation;
      region := serialized.region;
      open := true;
      parent := true;
      var copied: seq<PhysicalNotary> := [];
      var i := 0;
      while i < |serialized.physicalNotaries|
        invariant 0 <= i <= |serialized.physicalNotaries|
        invariant copied == serialized.physicalNotaries[..i]
      {
        copied := copied + [serialized.physicalNotaries[i]];
        i := i + 1;
      }
      physicalNotaries := copied;
    }

    method SetRegion(region: Option<string>)
      modifies this`region
      ensures this.region == region
    {
      this.region := region;
    }

    method SetName(name: Option<string>)
      modifies this`name
      ensures this.name == name
    {
      this.name := name;
    }

    method SetEnabled(value: bool)
      modifies this`enabled
      ensures enabled == value
    {
      enabled := value;
    }

    method SetPriority(value: bool)
      modifies this`priority
      ensures priority == value
    {
      priority := value;
    }

    method SetBundleLocation(value: Option<string>)
      modifies this`bundleLocation
      ensures bundleLocation == value
    {
      bundleLocation := value;
    }

    method SetPhysicalNotaries(value: seq<PhysicalNotary>)
      modifies this`physicalNotaries
      ensures physicalNotaries == value
    {
      physicalNotaries := value;
    }

    /** `socket` was dialled the way `makeConnection` dials: through the bounce
      notary's HTTP destinations with endpoint 0's HTTP proxy, forwarded to
      this notary's hosts on port 4242; or directly to this notary's SSL
      destinations with endpoint 0's SSL proxy. */
    ghost predicate DialledFor(socket: NotarySocket, bounce: Notary?, ex: Exchange)
      reads this, socket, bounce
      requires |physicalNotaries| > 0
    {
      if bounce != null then
        && socket.destinations == HttpDestinations(bounce.physicalNotaries)
        && socket.proxy == physicalNotaries[0].httpProxy
        && socket.bouncedTo == (if ex.bounceSucceeds then Some(BouncedDestinations(physicalNotaries)) else None)
      else
        && socket.destinations == SslDestinations(physicalNotaries)
        && socket.proxy == physicalNotaries[0].sslProxy
        && socket.bouncedTo.None?
    }

    /** Opens the notary socket, bounced through `bounce` when it is not null.
      `dialled` is the socket object the dial created, whether or not the
      connection is handed back. */
    method MakeConnection(bounce: Notary?, ex: Exchange) returns (r: Result<NotarySocket>, dialled: NotarySocket?)
      ensures (dialled != null) == Dials(physicalNotaries, ex)
      ensures dialled != null ==>
        fresh(dialled) && DialledFor(dialled, bounce, ex) && dialled.written == [] && dialled.closeCount == 0
      ensures r.Ok? <==> Dials(physicalNotaries, ex) && (bounce != null ==> ex.bounceSucceeds)
      ensures r.Ok? ==> r.value == dialled
      ensures r.Err? ==>
        r.error == if |physicalNotaries| == 0 then NoPhysicalNotary else if !ex.dialSucceeds then DialFailed else BounceFailed
    {
      dialled := null;
      if bounce != null {
        var destinations := HttpDestinations(bounce.physicalNotaries);
        var proxy := HttpProxy(physicalNotaries);
        if proxy.Err? {
          return Err(proxy.error), null;
        }
        if !ex.dialSucceeds {
          return Err(DialFailed), null;
        }
        dialled := new NotarySocket(destinations, proxy.value);
        if !ex.bounceSucceeds {
          return Err(BounceFailed), dialled;
        }
        dialled.BounceTo(BouncedDestinations(physicalNotaries));
        r := Ok(dialled);
      } else {
        var proxy := SslProxy(physicalNotaries);
        if proxy.Err? {
          return Err(proxy.error), null;
        }
        if !ex.dialSucceeds {
          return Err(DialFailed), null;
        }
        dialled := new NotarySocket(SslDestinations(physicalNotaries), proxy.value);
        r := Ok(dialled);
      }
    }

    /** Opens the socket, negotiates TLS and keeps the socket only when the
      notary's certificate matches the fingerprint of some configured
      endpoint; otherwise answers null. As written, a socket it does not
      hand back (handshake or bounce failure, pin mismatch) is never closed. */
    method MakeSslConnection(bounce: Notary?, ex: Exchange) returns (r: Result<NotarySocket?>, dialled: NotarySocket?)
      ensures (dialled != null) == Dials(physicalNotaries, ex)
      ensures dialled != null ==>
        fresh(dialled) && DialledFor(dialled, bounce, ex) && dialled.written == [] && dialled.closeCount == 0
      ensures r.Ok? <==> Dials(physicalNotaries, ex) && (bounce != null ==> ex.bounceSucceeds) && ex.presented.Some?
      ensures r.Ok? ==> (r.value != null <==> Pinned(physicalNotaries, bounce != null, ex))
      ensures r.Ok? && r.value != null ==> r.value == dialled
    {
      var connection;
      connection, dialled := MakeConnection(bounce, ex);
      if connection.Err? {
        return Err(connection.error), dialled;
      }
      match ex.presented
      case None =>
        r := Err(HandshakeFailed);
      case Some(sha1) =>
        if MatchingEndpoint(physicalNotaries, sha1).Some? {
          r := Ok(connection.value);
        } else {
          r := Ok(null);
        }
    }

    /** MakeSslConnection, closing the socket it dialled whenever it does not
      hand that socket back. */
    method MakeSslConnectionReleasing(bounce: Notary?, ex: Exchange) returns (r: Result<NotarySocket?>, dialled: NotarySocket?)
      ensures (dialled != null) == Dials(physicalNotaries, ex)
      ensures dialled != null ==> fresh(dialled) && DialledFor(dialled, bounce, ex) && dialled.written == []
      ensures dialled != null ==> dialled.closeCount == if r.Ok? && r.value != null then 0 else 1
      ensures r.Ok? <==> Dials(physicalNotaries, ex) && (bounce != null ==> ex.bounceSucceeds) && ex.presented.Some?
      ensures r.Ok? ==> (r.value != null <==> Pinned(physicalNotaries, bounce != null, ex))
      ensures r.Ok? && r.value != null ==> r.value == dialled
    {
      r, dialled := MakeSslConnection(bounce, ex);
      if dialled != null && !(r.Ok? && r.value != null) {
        dialled.Close();
      }
    }

    /** `checkValidity` as written: the verdict is ValidityVerdict, no failure
      escapes, the request is written only on a pinned socket, and that
      socket is closed exactly once; a dialled socket that failed the pin
      check or the handshake is left open. */
    method CheckValidity(host: string, port: int, ip: string, sha1: string, bounce: Notary?, ex: Exchange)
      returns (verdict: Verdict, dialled: NotarySocket?)
      ensures verdict == ValidityVerdict(physicalNotaries, bounce != null, ex, sha1)
      ensures (dialled != null) == Dials(physicalNotaries, ex)
      ensures dialled != null ==> fresh(dialled) && DialledFor(dialled, bounce, ex)
      ensures dialled != null ==>
        dialled.written == if Pinned(physicalNotaries, bounce != null, ex) && ex.writeSucceeds then [Request(host, port, ip, sha1)] else []
      ensures dialled != null ==> dialled.closeCount == if Pinned(physicalNotaries, bounce != null, ex) then 1 else 0
    {
      var connection;
      connection, dialled := MakeSslConnection(bounce, ex);
      verdict := Conclude(connection, host, port, ip, sha1, ex);
    }

    /** checkValidity with the socket released on every path: the same
      verdict and request, and every dialled socket closed exactly once. */
    method CheckValidityReleasing(host: string, port: int, ip: string, sha1: string, bounce: Notary?, ex: Exchange)
      returns (verdict: Verdict, dialled: NotarySocket?)
      ensures verdict == ValidityVerdict(physicalNotaries, bounce != null, ex, sha1)
      ensures (dialled != null) == Dials(physicalNotaries, ex)
      ensures dialled != null ==> fresh(dialled) && DialledFor(dialled, bounce, ex)
      ensures dialled != null ==>
        dialled.written == if Pinned(physicalNotaries, bounce != null, ex) && ex.writeSucceeds then [Request(host, port, ip, sha1)] else []
      ensures dialled != null ==> dialled.closeCount == 1
    {
      var connection;
      connection, dialled := MakeSslConnectionReleasing(bounce, ex);
      verdict := Conclude(connection, host, port, ip, sha1, ex);
    }

    /** `update`: only from an https:// bundle location; a rejected bundle
      changes nothing; otherwise name, bundle location and endpoints are
      replaced by the fetched bundle's. */
    method Update(fetched: BundleDocument, sha1Of: string -> string) returns (outcome: UpdateOutcome)
      modifies this`name, this`bundleLocation, this`physicalNotaries
      ensures outcome ==
        if !SecureLocation(old(bundleLocation)) then NotSecure
        else if BundleConfig(fetched, sha1Of).Err? then Rejected(BundleConfig(fetched, sha1Of).error)
        else Updated
      ensures outcome != Updated ==> Config() == old(Config())
      ensures outcome == Updated ==>
        var c := BundleConfig(fetched, sha1Of).value;
        Config() == old(Config()).(name := c.name, bundleLocation := c.bundleLocation, physicalNotaries := c.physicalNotaries)
      // a legacy bundle carries no bundle location, so it ends further updates
      ensures outcome == Updated && (fetched.version.None? || fetched.version == Some(0)) ==>
        !SecureLocation(bundleLocation)
    {
      if !SecureLocation(bundleLocation) {
        return NotSecure;
      }
      var parsed := ConstructFromBundle(fetched, sha1Of);
      if parsed.Err? {
        return Rejected(parsed.error);
      }
      var notary := parsed.value;
      SetName(notary.name);
      SetBundleLocation(notary.bundleLocation);
      SetPhysicalNotaries(notary.physicalNotaries);
      outcome := Updated;
    }

    /** `serializeForTransport`: `arrival[k]` is the endpoint whose callback
      fires k-th. The countdown reaches zero, and the callback receives the
      record, exactly once when there is at least one endpoint and every
      endpoint has called back; with no endpoints it never fires. */
    method SerializeForTransport(arrival: seq<nat>) returns (delivered: seq<TransportForm>)
      requires InRange(arrival, |physicalNotaries|)
      ensures |delivered| == if 0 < |physicalNotaries| <= |arrival| then 1 else 0
      ensures |delivered| == 1 ==> delivered[0] == TransportOf(Config(), arrival[..|physicalNotaries|])
    {
      var serialized: seq<PhysicalNotary> := [];
      var count: int := |physicalNotaries|;
      delivered := [];
      var k := 0;
      while k < |arrival|
        invariant 0 <= k <= |arrival|
        invariant count == |physicalNotaries| - k
        invariant serialized == Arrange(physicalNotaries, arrival[..k])
        invariant |delivered| == if 0 < |physicalNotaries| <= k then 1 else 0
        invariant |delivered| == 1 ==> delivered[0] == TransportOf(Config(), arrival[..|physicalNotaries|])
      {
        assert arrival[..k + 1] == arrival[..k] + [arrival[k]];
        ArrangeConcat(physicalNotaries, arrival[..k], [arrival[k]]);
        serialized := serialized + [physicalNotaries[arrival[k]]];
        count := count - 1;
        if count == 0 {
          delivered := delivered + [TransportForm(name, enabled, priority, bundleLocation, region, serialized)];
        }
        k := k + 1;
      }
    }

    /** `serialize`: the logical-notary element, one child per endpoint. */
    method Serialize(encode: PhysicalNotary -> Element) returns (e: Element)
      ensures e == SerializeConfig(Config(), encode)
    {
      var attributes := map["name" := NullableText(name), "enabled" := BoolText(enabled), "priority" := BoolText(priority)];
      if bundleLocation.Some? {
        attributes := attributes["bundle_location" := bundleLocation.value];
      }
      if region.Some? {
        attributes := attributes["region" := region.value];
      }
      var children: seq<Element> := [];
      var i := 0;
      while i < |physicalNotaries|
        invariant 0 <= i <= |physicalNotaries|
        invariant children == MapAll(physicalNotaries[..i], encode)
      {
        children := children + [encode(physicalNotaries[i])];
        i := i + 1;
      }
      assert physicalNotaries[..i] == physicalNotaries;
      e := Element(LogicalTag, attributes, children);
    }

    /** `deserialize`: reads the settings back from an element; endpoints are
      appended to those already held. */
    method Deserialize(element: Element, version: int, decode: Element -> PhysicalNotary)
      modifies this`name, this`enabled, this`priority, this`bundleLocation, this`region, this`physicalNotaries
      ensures Config() == DeserializedConfig(old(Config()), element, version, decode)
    {
      if version > 0 {
        name := Attribute(element, "name");
        enabled := Attribute(element, "enabled") == Some("true");
        priority := Attribute(element, "priority") == Some("true");
        if "bundle_location" in element.attributes {
          bundleLocation := Some(element.attributes["bundle_location"]);
        }
        if "region" in element.attributes {
          region := Some(element.attributes["region"]);
        }
        AppendDecoded(ElementsByTagName(element, PhysicalTag), decode);
      } else {
        name := Attribute(element, "host");
        enabled := Attribute(element, "enabled") == Some("true");
        physicalNotaries := physicalNotaries + [decode(element)];
      }
    }

    /** The loop of `deserialize` that pushes one decoded endpoint per found element. */
    method AppendDecoded(found: seq<Element>, decode: Element -> PhysicalNotary)
      modifies this`physicalNotaries
      ensures physicalNotaries == old(physicalNotaries) + MapAll(found, decode)
    {
      var i := 0;
      while i < |found|
        invariant 0 <= i <= |found|
        invariant physicalNotaries == old(physicalNotaries) + MapAll(found[..i], decode)
      {
        physicalNotaries := physicalNotaries + [decode(found[i])];
        i := i + 1;
      }
      assert found[..i] == found;
    }

    /** `constructFromV0Json`: a notary built through the setters from a legacy bundle. */
    static method ConstructFromV0Json(doc: BundleDocument, sha1Of: string -> string) returns (notary: Notary)
      ensures fresh(notary) && notary.Config() == V0Config(doc, sha1Of)
    {
      notary := new Notary();
      var endpoint := EndpointFrom(doc.host, doc.httpPort, doc.sslPort, doc.certificate, sha1Of);
      notary.SetName(Some(doc.host));
      notary.SetEnabled(true);
      notary.SetPhysicalNotaries([endpoint]);
    }

    /** `constructFromV1Json`: one endpoint per `hosts` entry, then the setters. */
    static method ConstructFromV1Json(doc: BundleDocument, sha1Of: string -> string) returns (r: Result<Notary>)
      ensures r.Ok? <==> V1Config(doc, sha1Of).Ok?
      ensures r.Ok? ==> fresh(r.value) && r.value.Config() == V1Config(doc, sha1Of).value
      ensures r.Err? ==> r.error == V1Config(doc, sha1Of).error
    {
      var notary := new Notary();
      if doc.hosts.None? {
        return Err(HostsMissing);
      }
      var hosts := doc.hosts.value;
      var endpoints: seq<PhysicalNotary> := [];
      var i := 0;
      while i < |hosts|
        invariant 0 <= i <= |hosts|
        invariant |endpoints| == i
        invariant forall j :: 0 <= j < i ==>
          endpoints[j] == EndpointFrom(hosts[j].host, hosts[j].httpPort, hosts[j].sslPort, hosts[j].certificate, sha1Of)
      {
        var h := hosts[i];
        endpoints := endpoints + [EndpointFrom(h.host, h.httpPort, h.sslPort, h.certificate, sha1Of)];
        i := i + 1;
      }
      assert endpoints == EndpointsFromHosts(hosts, sha1Of);
      notary.SetName(doc.name);
      notary.SetBundleLocation(doc.bundleLocation);
      notary.SetEnabled(true);
      notary.SetPhysicalNotaries(endpoints);
      if doc.region.Some? {
        notary.SetRegion(doc.region);
      }
      r := Ok(notary);
    }

    /** `constructFromBundle`: the version dispatch over an already parsed document. */
    static method ConstructFromBundle(doc: BundleDocument, sha1Of: string -> string) returns (r: Result<Notary>)
      ensures r.Ok? <==> BundleConfig(doc, sha1Of).Ok?
      ensures r.Ok? ==> fresh(r.value) && r.value.Config() == BundleConfig(doc, sha1Of).value
      ensures r.Err? ==> r.error == BundleConfig(doc, sha1Of).error
    {
      if doc.version.None? || doc.version.value == 0 {
        var notary := ConstructFromV0Json(doc, sha1Of);
        r := Ok(notary);
      } else if doc.version.value == 1 {
        r := ConstructFromV1Json(doc, sha1Of);
      } else {
        r := Err(UnsupportedVersion(doc.version.value));
      }
    }
  }
}

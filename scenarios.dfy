/** Whole consultations and round trips through the Notary class, on a
    concrete notary with one endpoint whose certificate digest is "AA:BB". */
module NotaryScenarios {
  import opened NotaryTypes
  import opened Settings
  import opened NotarySockets
  import opened LogicalNotary

  const Endpoint: PhysicalNotary := PhysicalNotary("notary.example", 80, 443, "-----CERT-----", "AA:BB", None, None)
  /** The site's certificate digest under question. */
  const SiteSha1: string := "11:22"
  const SiteRequest: Request := Request("site.example", 443, "192.0.2.1", SiteSha1)

  /** An exchange in which everything reaches the notary, which presents `presented`. */
  function Exchanged(presented: string, reply: Reply): Exchange
  {
    Exchange(true, true, Some(presented), true, Some(reply))
  }

  method ConfiguredNotary() returns (n: Notary)
    ensures fresh(n) && n.physicalNotaries == [Endpoint] && n.enabled
  {
    n := new Notary();
    n.SetName(Some("notary.example"));
    n.SetEnabled(true);
    n.SetPhysicalNotaries([Endpoint]);
  }

  /** The notary answers 200 listing the site's digest: success, and the one
      request went out over the socket, which is then closed. */
  method NotaryCorroborates() returns (verdict: Verdict, dialled: NotarySocket?)
    ensures verdict == VerificationSuccess
    ensures dialled != null && dialled.written == [SiteRequest] && dialled.closeCount == 1
  {
    var n := ConfiguredNotary();
    var ex := Exchanged("AA:BB", Reply(200, Some(ResponseBody(Some(["00:00", SiteSha1])))));
    verdict, dialled := n.CheckValidityReleasing(SiteRequest.host, SiteRequest.port, SiteRequest.ip, SiteSha1, null, ex);
  }

  /** A 200 whose list omits the site's digest is a verification failure. */
  method NotaryListsOtherCertificates() returns (verdict: Verdict)
    ensures verdict == VerificationFailure
  {
    var n := ConfiguredNotary();
    var ex := Exchanged("AA:BB", Reply(200, Some(ResponseBody(Some(["00:00"])))));
    var dialled;
    verdict, dialled := n.CheckValidityReleasing(SiteRequest.host, SiteRequest.port, SiteRequest.ip, SiteSha1, null, ex);
  }

  /** A 409 is a verification failure; a 303 is inconclusive. */
  method NotaryDisagreesOrAbstains() returns (disagrees: Verdict, abstains: Verdict)
    ensures disagrees == VerificationFailure && abstains == VerificationInconclusive
  {
    var n := ConfiguredNotary();
    var dialled;
    disagrees, dialled := n.CheckValidityReleasing(SiteRequest.host, SiteRequest.port, SiteRequest.ip, SiteSha1, null,
      Exchanged("AA:BB", Reply(409, None)));
    abstains, dialled := n.CheckValidityReleasing(SiteRequest.host, SiteRequest.port, SiteRequest.ip, SiteSha1, null,
      Exchanged("AA:BB", Reply(303, None)));
  }

  /** Bounced through a notary whose bounce connector fails: a connectivity
      failure. */
  method BounceRefused() returns (verdict: Verdict)
    ensures verdict == ConnectivityFailure
  {
    var n := ConfiguredNotary();
    var bounce := ConfiguredNotary();
    var ex := Exchange(true, false, Some("AA:BB"), true, Some(Reply(200, Some(ResponseBody(Some([SiteSha1]))))));
    var dialled;
    verdict, dialled := n.CheckValidityReleasing(SiteRequest.host, SiteRequest.port, SiteRequest.ip, SiteSha1, bounce, ex);
  }

  /** No endpoint answers the dial: a connectivity failure and no socket. */
  method DialRefused() returns (verdict: Verdict, dialled: NotarySocket?)
    ensures verdict == ConnectivityFailure && dialled == null
  {
    var n := ConfiguredNotary();
    var ex := Exchange(false, true, None, true, None);
    verdict, dialled := n.CheckValidityReleasing(SiteRequest.host, SiteRequest.port, SiteRequest.ip, SiteSha1, null, ex);
  }

  /** A server presenting a certificate that is no endpoint's: nothing is
      written and the verdict is a connectivity failure, but the socket
      checkValidity dialled is never closed. */
  method ImpostorLeavesSocketOpen() returns (verdict: Verdict, dialled: NotarySocket?)
    ensures verdict == ConnectivityFailure
    ensures dialled != null && dialled.written == [] && dialled.closeCount == 0
  {
    var n := ConfiguredNotary();
    var ex := Exchanged("ZZ:ZZ", Reply(200, Some(ResponseBody(Some([SiteSha1])))));
    verdict, dialled := n.CheckValidity(SiteRequest.host, SiteRequest.port, SiteRequest.ip, SiteSha1, null, ex);
  }

  /** The same impostor with the releasing connection: the socket is closed. */
  method ImpostorSocketReleased() returns (verdict: Verdict, dialled: NotarySocket?)
    ensures verdict == ConnectivityFailure
    ensures dialled != null && dialled.written == [] && dialled.closeCount == 1
  {
    var n := ConfiguredNotary();
    var ex := Exchanged("ZZ:ZZ", Reply(200, Some(ResponseBody(Some([SiteSha1])))));
    verdict, dialled := n.CheckValidityReleasing(SiteRequest.host, SiteRequest.port, SiteRequest.ip, SiteSha1, null, ex);
  }

  /** A notary sent across the worker boundary, with the callbacks arriving
      in endpoint order, is rebuilt with the same settings. */
  method CrossBoundary(n: Notary) returns (copy: Notary)
    requires |n.physicalNotaries| > 0
    ensures copy.Config() == n.Config()
  {
    var order := Indices(|n.physicalNotaries|);
    var delivered := n.SerializeForTransport(order);
    assert order[..|n.physicalNotaries|] == order;
    TransportRoundTrip(n.Config());
    copy := new Notary.FromTransport(delivered[0]);
  }

  /** A named notary saved to the settings document and loaded into a new
      notary comes back with the same settings. */
  method SaveAndLoad(n: Notary, encode: PhysicalNotary -> Element, decode: Element -> PhysicalNotary) returns (copy: Notary)
    requires n.name.Some?
    requires PhysicalRoundTrips(encode, decode)
    ensures copy.Config() == n.Config()
  {
    var e := n.Serialize(encode);
    copy := new Notary();
    copy.Deserialize(e, 1, decode);
    RoundTripIntoFreshNotary(n.Config(), 1, encode, decode);
  }
}

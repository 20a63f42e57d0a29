/** The two linear fingerprint scans of the notary: pinning the notary's own
    TLS certificate against the configured endpoints, and looking for the
    target certificate in the notary's answer. */
module Fingerprints {
  import opened NotaryTypes

  /** The first endpoint whose `sha1Fingerprint` equals the presented SHA-1,
      scanning every endpoint in order; None when none matches. */
  function MatchingEndpoint(endpoints: seq<PhysicalNotary>, sha1: string): (r: Option<nat>)
    ensures r.Some? ==> r.value < |endpoints| && endpoints[r.value].sha1Fingerprint == sha1
    ensures r.Some? ==> forall j :: 0 <= j < r.value ==> endpoints[j].sha1Fingerprint != sha1
    ensures r.None? <==> forall j :: 0 <= j < |endpoints| ==> endpoints[j].sha1Fingerprint != sha1
  {
    if endpoints == [] then None
    else if endpoints[0].sha1Fingerprint == sha1 then Some(0)
    else match MatchingEndpoint(endpoints[1..], sha1)
      case None => None
      case Some(i) => Some(i + 1)
  }

  /** The outcome of scanning a fingerprint list: the verdict and how many
      entries were compared before the scan stopped. */
  datatype Scan = Scan(verdict: Verdict, examined: nat)

  /** Compares the entries in order and stops at the first one equal to `sha1`. */
  function ScanFingerprints(fingerprints: seq<string>, sha1: string): (r: Scan)
    ensures r.examined <= |fingerprints|
    ensures r.verdict == VerificationSuccess || r.verdict == VerificationFailure
    ensures r.verdict == VerificationSuccess <==> sha1 in fingerprints
    ensures r.verdict == VerificationSuccess ==>
      0 < r.examined && fingerprints[r.examined - 1] == sha1 && sha1 !in fingerprints[..r.examined - 1]
    ensures r.verdict == VerificationFailure ==> r.examined == |fingerprints|
  {
    if fingerprints == [] then Scan(VerificationFailure, 0)
    else if fingerprints[0] == sha1 then Scan(VerificationSuccess, 1)
    else
      var rest := ScanFingerprints(fingerprints[1..], sha1);
      assert fingerprints == [fingerprints[0]] + fingerprints[1..];
      assert rest.verdict == VerificationSuccess ==>
        fingerprints[..rest.examined] == [fingerprints[0]] + fingerprints[1..][..rest.examined - 1];
      Scan(rest.verdict, rest.examined + 1)
  }

  /** The verdict on a 200 body: success exactly when the target's SHA-1 is
      listed; a body without a fingerprint list matches nothing. */
  function CheckFingerprintList(body: ResponseBody, sha1: string): (r: Verdict)
    ensures r == VerificationSuccess || r == VerificationFailure
    ensures r == VerificationSuccess <==> body.fingerprintList.Some? && sha1 in body.fingerprintList.value
  {
    match body.fingerprintList
    case None => VerificationFailure
    case Some(fingerprints) => ScanFingerprints(fingerprints, sha1).verdict
  }
}

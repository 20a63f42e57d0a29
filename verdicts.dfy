/** The verdict `checkValidity` reaches, as a function of the notary's
    endpoints and the abstract outcomes of the network calls. */
module Verdicts {
  import opened NotaryTypes
  import opened Fingerprints

  /** The status-code switch on a response read over a pinned channel. */
  function ReplyVerdict(reply: Reply, sha1: string): (r: Verdict)
    ensures reply.code == 303 ==> r == VerificationInconclusive
    ensures reply.code == 409 ==> r == VerificationFailure
    ensures reply.code == 200 && reply.body.None? ==> r == ConnectivityFailure
    ensures reply.code == 200 && reply.body.Some? ==>
      (r == VerificationSuccess || r == VerificationFailure) &&
      (r == VerificationSuccess <==> Lists(reply.body.value, sha1))
    ensures reply.code !in {200, 303, 409} ==> r == ConnectivityFailure
  {
    if reply.code == 303 then VerificationInconclusive
    else if reply.code == 409 then VerificationFailure
    else if reply.code == 200 then
      match reply.body
      case None => ConnectivityFailure
      case Some(body) => CheckFingerprintList(body, sha1)
    else ConnectivityFailure
  }

  /** The body names the certificate under question. */
  predicate Lists(body: ResponseBody, sha1: string)
  {
    body.fingerprintList.Some? && sha1 in body.fingerprintList.value
  }

  /** A notary socket object comes into existence: the proxy of endpoint 0
      could be read and the dial succeeded. */
  predicate Dials(endpoints: seq<PhysicalNotary>, ex: Exchange)
  {
    |endpoints| > 0 && ex.dialSucceeds
  }

  /** The channel reached the notary (through the bounce notary when
      `bounced`) and its certificate matches some configured endpoint. */
  predicate Pinned(endpoints: seq<PhysicalNotary>, bounced: bool, ex: Exchange)
  {
    && Dials(endpoints, ex)
    && (bounced ==> ex.bounceSucceeds)
    && ex.presented.Some?
    && MatchingEndpoint(endpoints, ex.presented.value).Some?
  }

  /** The request went out over a pinned channel and a response was parsed. */
  predicate Answered(endpoints: seq<PhysicalNotary>, bounced: bool, ex: Exchange)
  {
    Pinned(endpoints, bounced, ex) && ex.writeSucceeds && ex.reply.Some?
  }

  /** What the pinned-socket part of checkValidity answers: a failed write
      or an unreadable response throws and becomes a connectivity failure. */
  function ExchangeVerdict(ex: Exchange, sha1: string): Verdict
  {
    if !ex.writeSucceeds then ConnectivityFailure
    else match ex.reply
      case None => ConnectivityFailure
      case Some(reply) => ReplyVerdict(reply, sha1)
  }

  /** The verdict of one consultation. Success needs an answered request,
      a 200 and the certificate listed; inconclusive and failure come only
      from an answered request; everything else is a connectivity failure. */
  function ValidityVerdict(endpoints: seq<PhysicalNotary>, bounced: bool, ex: Exchange, sha1: string): (r: Verdict)
    ensures r == VerificationSuccess <==>
      Answered(endpoints, bounced, ex) && ex.reply.value.code == 200 &&
      ex.reply.value.body.Some? && Lists(ex.reply.value.body.value, sha1)
    ensures r == VerificationInconclusive <==>
      Answered(endpoints, bounced, ex) && ex.reply.value.code == 303
    ensures r == VerificationFailure <==>
      Answered(endpoints, bounced, ex) &&
      (ex.reply.value.code == 409 ||
       (ex.reply.value.code == 200 && ex.reply.value.body.Some? && !Lists(ex.reply.value.body.value, sha1)))
    ensures |endpoints| == 0 ==> r == ConnectivityFailure
    ensures !Pinned(endpoints, bounced, ex) ==> r == ConnectivityFailure
  {
    if Pinned(endpoints, bounced, ex) then ExchangeVerdict(ex, sha1) else ConnectivityFailure
  }
}

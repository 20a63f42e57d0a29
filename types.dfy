/** Values shared by every part of the logical-notary model: endpoints,
    destinations, verdicts, the abstract outcomes of the network calls,
    and the configuration record a notary holds. */
module NotaryTypes {

  datatype Option<+T> = None | Some(value: T)

  /** A value, or the reason the JavaScript code would have thrown. */
  datatype Result<+T> = Ok(value: T) | Err(error: Failure)

  /** Every way the connection and bundle operations of the notary can throw;
      a failed write or response read is caught inside checkValidity and
      is an `Exchange` outcome instead. */
  datatype Failure =
    | NoPhysicalNotary          // physicalNotaries[0] read from an empty list
    | DialFailed                // the notary socket could not be connected
    | BounceFailed              // the proxy connector could not reach the bounced destinations
    | HandshakeFailed           // the TLS negotiation threw
    | HostsMissing              // a version 1 bundle without a `hosts` list
    | UnsupportedVersion(version: int)

  /** One network-reachable instance of a notary. `certificate` is what
      the bundle supplied and `sha1Fingerprint` its SHA-1 digest. */
  datatype PhysicalNotary = PhysicalNotary(
    host: string,
    httpPort: int,
    sslPort: int,
    certificate: string,
    sha1Fingerprint: string,
    httpProxy: Option<string>,
    sslProxy: Option<string>)

  /** One entry of a destination list handed to the notary socket. */
  datatype Destination = Destination(host: string, port: int)

  /** The fixed port of a notary's hidden listener, reached through a bounce notary. */
  const BouncePort: int := 4242

  /** The four-valued outcome of consulting one notary. */
  datatype Verdict =
    | VerificationSuccess
    | VerificationFailure
    | VerificationInconclusive
    | ConnectivityFailure

  /** The JSON body of a 200 response; `fingerprintList` is None when the field is absent. */
  datatype ResponseBody = ResponseBody(fingerprintList: Option<seq<string>>)

  /** A parsed notary response; `body` is None when the body is not JSON. */
  datatype Reply = Reply(code: int, body: Option<ResponseBody>)

  /** What the foreign socket, proxy connector, TLS and HTTP code do on one
      consultation: whether the dial and the bounce succeed, the SHA-1 of the
      certificate the TLS negotiation yields (None: the negotiation throws),
      whether the request write succeeds, and the parsed response (None:
      reading it throws). */
  datatype Exchange = Exchange(
    dialSucceeds: bool,
    bounceSucceeds: bool,
    presented: Option<string>,
    writeSucceeds: bool,
    reply: Option<Reply>)

  /** The notarization request: the target host, port and IP and the SHA-1
      of the certificate under question. */
  datatype Request = Request(host: string, port: int, ip: string, fingerprint: string)

  /** The settings a logical notary holds; None stands for JavaScript null. */
  datatype NotaryConfig = NotaryConfig(
    name: Option<string>,
    region: Option<string>,
    bundleLocation: Option<string>,
    enabled: bool,
    priority: bool,
    physicalNotaries: seq<PhysicalNotary>)

  /** The settings of a notary built with no serialized form. */
  const DefaultConfig: NotaryConfig := NotaryConfig(None, None, None, false, false, [])
}

# Convergence logical notary, modelled in Dafny

This project models the `Notary` class of the Convergence Firefox client
(`client/chrome/content/ssl/Notary.js`). A logical notary is a named trust
authority made of one or more physical endpoints (host, HTTP port, SSL port,
certificate and its SHA-1 fingerprint, optional proxies). The class:

- holds its settings (name, region, bundle location, enabled, priority,
  endpoints) and changes them through setters;
- opens a notary socket, either directly to every endpoint's SSL port or
  bounced through another notary's HTTP ports to port 4242 of every endpoint;
- pins the TLS certificate the notary presents against the configured
  fingerprints;
- asks the notary about a site's certificate and turns the status code
  (303, 409, 200 with a fingerprint list, anything else) into one of four
  verdicts, with every failure becoming a connectivity failure;
- writes its settings to, and reads them from, an XML settings element and
  a plain transport record handed between the browser and its worker;
- builds itself from a version 0 or version 1 configuration bundle, and
  refreshes itself from its https bundle location.

Files and modules:

- `types.dfy` (`NotaryTypes`): the values. These are endpoints, destinations,
  verdicts, the settings record `NotaryConfig`, the request, and the
  `Exchange`. An `Exchange` holds the outcomes of the foreign socket, TLS and
  HTTP code for one consultation.
- `destinations.dfy` (`Destinations`): the three destination lists and the proxy lookups.
- `fingerprints.dfy` (`Fingerprints`): the two fingerprint scans.
- `verdicts.dfy` (`Verdicts`): the verdict of one consultation, as a function
  of the endpoints and the exchange.
- `settings.dfy` (`Settings`): the settings element, the transport record, and
  their round trips.
- `bundles.dfy` (`Bundles`): the settings a parsed bundle yields.
- `sockets.dfy` (`NotarySockets`): the notary socket as the notary sees it. It
  records where it was dialled, where it was bounced, what was written and how
  often it was closed.
- `notary.dfy` (`LogicalNotary`): the `Notary` class. Its methods are proved
  against the functions above.
- `scenarios.dfy` (`NotaryScenarios`): whole consultations on a concrete notary,
  and the two settings round trips driven through the class.

The source and the intended behaviour disagree in two places; the model
follows the source.

- Every consultation is meant to close its socket. The source leaves the
  socket open when the pin check fails, when the handshake throws, or when the
  bounce fails (see Findings).
- `update` is meant to skip a bundle whose version is older than the current
  one. Its guard compares `notary.version < this.version`. Inside the fetch
  callback `this` is not the notary, and no construction path sets `version`,
  so both sides are undefined and the guard never holds. `Update` therefore
  has no version guard.

## Model

| member | source | states |
|---|---|---|
| Destinations.DestinationsFor | client/chrome/content/ssl/Notary.js:58-100 | one destination per endpoint, in endpoint order, with that endpoint's host and the role's port |
| Destinations.HttpDestinations | client/chrome/content/ssl/Notary.js:58-69 | entry i is endpoint i's host with its HTTP port, and there are exactly as many entries as endpoints |
| Destinations.SslDestinations | client/chrome/content/ssl/Notary.js:79-88 | entry i is endpoint i's host with its SSL port, and there are exactly as many entries as endpoints |
| Destinations.BouncedDestinations | client/chrome/content/ssl/Notary.js:90-100 | entry i is endpoint i's host with the fixed port 4242, and there are exactly as many entries as endpoints |
| Destinations.HttpProxy | client/chrome/content/ssl/Notary.js:71-73 | endpoint 0's HTTP proxy; the read throws exactly when there is no endpoint |
| Destinations.SslProxy | client/chrome/content/ssl/Notary.js:75-77 | endpoint 0's SSL proxy; the read throws exactly when there is no endpoint |
| Fingerprints.MatchingEndpoint | client/chrome/content/ssl/Notary.js:127-137 | the first endpoint whose fingerprint equals the presented digest, with no match before it; none exactly when no endpoint matches |
| Fingerprints.ScanFingerprints | client/chrome/content/ssl/Notary.js:155-168 | success exactly when the digest is in the list, otherwise failure; the scan stops at the first occurrence and examines the whole list on failure |
| Fingerprints.CheckFingerprintList | client/chrome/content/ssl/Notary.js:155-168 | success exactly when the body's list exists and contains the digest; a missing list is a failure |
| Verdicts.ReplyVerdict | client/chrome/content/ssl/Notary.js:184-197 | 303 is inconclusive, 409 is a failure, 200 is success exactly when the body lists the digest, and a 200 with an unparseable body or any other code is a connectivity failure |
| Verdicts.ValidityVerdict | client/chrome/content/ssl/Notary.js:170-206 | success, inconclusive and failure each hold exactly when a pinned request was answered with the matching code and body; no endpoints or no pinned channel means a connectivity failure |
| Settings.TagSearchFindsChildren | client/chrome/content/ssl/Notary.js:335 | the tag search over a logical element returns exactly its physical children, in order, when those have no tagged descendants |
| Settings.DeserializeSerialize | client/chrome/content/ssl/Notary.js:303-353 | deserialize after serialize restores enabled, priority and every endpoint in order (appended to those held); it restores bundle location and region when set and keeps the target's otherwise; a null name comes back as the text "null" |
| Settings.RoundTripIntoFreshNotary | client/chrome/content/ssl/Notary.js:303-353 | a named notary's settings survive serialize followed by deserialize into a new notary unchanged |
| Settings.Arrange | client/chrome/content/ssl/Notary.js:287-297 | the transported endpoint list holds, at position k, the endpoint whose callback fired k-th |
| Settings.CallbacksPermuteEndpoints | client/chrome/content/ssl/Notary.js:287-297 | when each endpoint calls back once, in any order, the transported list is a permutation of the endpoints |
| Settings.TransportRoundTrip | client/chrome/content/ssl/Notary.js:282-300 | with the callbacks in endpoint order, the transport record rebuilds exactly the settings it came from |
| Bundles.EndpointsFromHosts | client/chrome/content/ssl/Notary.js:360-368 | one endpoint per hosts entry, in order, with its host, ports, certificate and the certificate's digest, and no proxies (see Left out) |
| Bundles.V0Config | client/chrome/content/ssl/Notary.js:381-397 | a legacy bundle gives one endpoint from the top-level fields, named after its host, enabled, no priority, no bundle location and no region |
| Bundles.V1Config | client/chrome/content/ssl/Notary.js:355-379 | a version 1 bundle gives one endpoint per hosts entry with name, bundle location and region copied, enabled and no priority; a missing hosts list throws |
| Bundles.BundleConfig | client/chrome/content/ssl/Notary.js:414-424 | no version or version 0 yields exactly the legacy settings V0Config, version 1 yields exactly V1Config (including its missing-hosts failure), and any other version throws carrying that version |
| LogicalNotary.Conclude | client/chrome/content/ssl/Notary.js:171-205 | a thrown or null connection is a connectivity failure; otherwise the request is written once, the verdict is that of the exchange, and the held socket is closed exactly once |
| LogicalNotary.Notary.constructor | client/chrome/content/ssl/Notary.js:28-37 | a new notary has no name, region or bundle location, is disabled, has no priority and no endpoints |
| LogicalNotary.Notary.FromTransport | client/chrome/content/ssl/Notary.js:38-51 | the settings are exactly those the transport record carries, endpoints in order |
| LogicalNotary.Notary.SetRegion | client/chrome/content/ssl/Notary.js:234-236 | sets the region and nothing else |
| LogicalNotary.Notary.SetName | client/chrome/content/ssl/Notary.js:246-248 | sets the name and nothing else |
| LogicalNotary.Notary.SetEnabled | client/chrome/content/ssl/Notary.js:254-256 | sets enabled and nothing else |
| LogicalNotary.Notary.SetPriority | client/chrome/content/ssl/Notary.js:262-264 | sets priority and nothing else |
| LogicalNotary.Notary.SetBundleLocation | client/chrome/content/ssl/Notary.js:266-268 | sets the bundle location and nothing else |
| LogicalNotary.Notary.SetPhysicalNotaries | client/chrome/content/ssl/Notary.js:278-280 | sets the endpoint list and nothing else |
| LogicalNotary.Notary.MakeConnection | client/chrome/content/ssl/Notary.js:103-120 | a socket exists exactly when there is an endpoint and the dial succeeds. Bounced, it is dialled to the bounce notary's HTTP destinations with this notary's HTTP proxy and forwarded to port 4242 of every host; otherwise it is dialled to the SSL destinations with the SSL proxy. Each thrown case carries its reason |
| LogicalNotary.Notary.MakeSslConnection | client/chrome/content/ssl/Notary.js:122-138 | the socket is handed back exactly when the presented certificate matches a configured fingerprint and null is returned otherwise; a socket it does not hand back is left unclosed |
| LogicalNotary.Notary.MakeSslConnectionReleasing | client/chrome/content/ssl/Notary.js:122-138 | as MakeSslConnection, but a dialled socket that is not handed back is closed exactly once |
| LogicalNotary.Notary.CheckValidity | client/chrome/content/ssl/Notary.js:170-206 | the verdict is ValidityVerdict and no failure escapes; the request is written only on a pinned socket; that socket is closed once, but a socket that failed pinning stays open |
| LogicalNotary.Notary.CheckValidityReleasing | client/chrome/content/ssl/Notary.js:170-206 | the same verdict and request as CheckValidity, and every dialled socket is closed exactly once |
| LogicalNotary.Notary.Update | client/chrome/content/ssl/Notary.js:208-232 | nothing happens unless the bundle location starts with https://; a rejected bundle changes nothing; otherwise name, bundle location and endpoints become the bundle's and nothing else changes; after a legacy bundle no further update is possible |
| LogicalNotary.Notary.SerializeForTransport | client/chrome/content/ssl/Notary.js:282-300 | the callback fires exactly once when there is an endpoint and all have called back, never with no endpoints, and carries the settings with the endpoints in arrival order |
| LogicalNotary.Notary.Serialize | client/chrome/content/ssl/Notary.js:303-321 | the element is the logical-notary element of the current settings (round trip in Settings.DeserializeSerialize) |
| LogicalNotary.Notary.Deserialize | client/chrome/content/ssl/Notary.js:323-353 | the settings become those read from the element for the given version, endpoints appended to those already held |
| LogicalNotary.Notary.AppendDecoded | client/chrome/content/ssl/Notary.js:337-344 | one decoded endpoint is pushed per found element, in document order, after the endpoints already held, and nothing else changes |
| LogicalNotary.Notary.ConstructFromV0Json | client/chrome/content/ssl/Notary.js:381-397 | a fresh notary holding the legacy bundle's settings |
| LogicalNotary.Notary.ConstructFromV1Json | client/chrome/content/ssl/Notary.js:355-379 | a fresh notary holding the version 1 bundle's settings, or the failure for a missing hosts list |
| LogicalNotary.Notary.ConstructFromBundle | client/chrome/content/ssl/Notary.js:414-424 | a fresh notary from the schema the version selects, or the failure the dispatch raises |
| NotaryScenarios.NotaryCorroborates | client/chrome/content/ssl/Notary.js:170-206 | a notary listing the site's digest under 200 gives success after one request, and the socket is closed once |
| NotaryScenarios.NotaryListsOtherCertificates | client/chrome/content/ssl/Notary.js:155-168 | a 200 whose list omits the site's digest gives a verification failure |
| NotaryScenarios.NotaryDisagreesOrAbstains | client/chrome/content/ssl/Notary.js:184-190 | 409 gives a verification failure and 303 is inconclusive |
| NotaryScenarios.BounceRefused | client/chrome/content/ssl/Notary.js:103-120 | a failed bounce gives a connectivity failure |
| NotaryScenarios.DialRefused | client/chrome/content/ssl/Notary.js:198-200 | a refused dial gives a connectivity failure and no socket |
| NotaryScenarios.ImpostorLeavesSocketOpen | client/chrome/content/ssl/Notary.js:122-138 | an impostor certificate gives a connectivity failure with nothing written, and the socket is never closed |
| NotaryScenarios.ImpostorSocketReleased | client/chrome/content/ssl/Notary.js:122-138 | with the releasing connection, the impostor's socket is closed once |
| NotaryScenarios.CrossBoundary | client/chrome/content/ssl/Notary.js:282-300 | a notary sent as a transport record and rebuilt has the same settings |
| NotaryScenarios.SaveAndLoad | client/chrome/content/ssl/Notary.js:303-353 | a named notary saved to an element and loaded into a new notary has the same settings |

## Left out

- Physical endpoints' own code is not part of this model. That covers
  `PhysicalNotary.serialize`, `deserialize`, `serializeForTransport` and
  `setCertificate`. The element (de)serialisation is a pair of function
  parameters, and the round trips assume they invert each other. The
  certificate digest is a function parameter. An endpoint's transport form is
  taken to be the endpoint record itself.
- The socket, TLS, proxy connector, request builder and response parser are
  foreign code. Their outcomes for one consultation are an `Exchange`
  (dial, bounce, presented digest, write, parsed reply). The request is the
  record of host, port, IP and digest, not its bytes.
- Bundle files are not read and JSON is not parsed. `constructFromBundle`
  takes a parsed document, so a file that fails to parse is not modelled.
- `update` fetches asynchronously, and the fetch is a parameter. The
  observer notification it sends is not modelled.
- LogicalNotary.Notary.Update: has no version guard, because the guard in the
  source compares two undefined values and never holds.
- LogicalNotary.Notary.Update: assumes the log call at line 222 does not throw.
  If the fetch callback's `this` is not the notary, as the guard's reading
  says, `this.log` is undefined there. The call would then throw before any
  setter runs, and no bundle would ever be applied. Whether it throws depends
  on how `ConvergenceUtil.persistUrl` invokes its callback. That code is not
  part of this model, so the model keeps the evidently intended replacement.
- The getters are plain field reads; `Config()` stands for all of them.
- Logging and the log prefix are left out.
- JavaScript loose equality and type coercion are left out. Ports are
  integers and versions are integers.
- Bundles.BundleConfig: treats a version field of `null` like a missing one.
  The source rejects it: `typeof null` is `'object'`, and `null == 0` and
  `null == 1` are both false, so line 422 throws carrying null.
- Settings.NullableText: writes both null and undefined names as `"null"`.
  The source writes an undefined name as `"undefined"`, for example from a
  version 1 bundle without `name`.
- Bundles.EndpointFrom: takes a new endpoint's HTTP and SSL proxies to be
  null. That default comes from `PhysicalNotary`'s constructor, which is not
  part of this model.
- Aliasing is not modelled. `getPhysicalNotaries` hands out the notary's own
  array, and `setPhysicalNotaries` keeps the caller's; here endpoint lists are
  values.
- The transport callback receives an array that later callbacks would keep
  growing; here it receives a snapshot.
- Concurrency is not modelled. That covers browser and worker contexts, and
  `update` racing in-flight consultations.
- I/O timeouts are not modelled.

## Findings

| source | as written | input that shows it | evidently intended | confidence | as-written member | corrected member |
|---|---|---|---|---|---|---|
| client/chrome/content/ssl/Notary.js:122-138 | `makeSSLConnection` returns null on a fingerprint mismatch, and throws on a failed handshake or bounce, without closing the socket `makeConnection` opened; `checkValidity`'s `finally` closes only a socket it received | one endpoint pinned to "AA:BB" whose server presents a certificate with digest "ZZ:ZZ" | every dialled notary socket is closed before `checkValidity` returns | high; not executed | NotaryScenarios.ImpostorLeavesSocketOpen | LogicalNotary.Notary.CheckValidityReleasing |

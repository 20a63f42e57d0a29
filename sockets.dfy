/** The notary socket as the logical notary sees it: where it was dialled,
    where the bounce connector forwarded it, what was written to it and how
    often it was closed. Dialling, TLS and reading happen in foreign code
    whose outcomes come from an `Exchange`. */
module NotarySockets {
  import opened NotaryTypes

  class NotarySocket {
    const destinations: seq<Destination>
    const proxy: Option<string>
    var bouncedTo: Option<seq<Destination>>
    var written: seq<Request>
    var closeCount: nat

    /** A connected socket to the first reachable destination. */
    constructor (destinations: seq<Destination>, proxy: Option<string>)
      ensures this.destinations == destinations && this.proxy == proxy
      ensures bouncedTo.None? && written == [] && closeCount == 0
    {
      this.destinations := destinations;
      this.proxy := proxy;
      bouncedTo := None;
      written := [];
      closeCount := 0;
    }

    /** The proxy connector asks the bounce notary to forward to `targets`. */
    method BounceTo(targets: seq<Destination>)
      modifies this`bouncedTo
      ensures bouncedTo == Some(targets)
    {
      bouncedTo := Some(targets);
    }

    method Write(request: Request)
      modifies this`written
      ensures written == old(written) + [request]
    {
      written := written + [request];
    }

    method Close()
      modifies this`closeCount
      ensures closeCount == old(closeCount) + 1
    {
      closeCount := closeCount + 1;
    }
  }
}

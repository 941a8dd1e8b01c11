/**
 * `Utilities.buildXHR(isCorsEnabled, isCorsWithCredentialsEnabled)`: the
 * choice of transport object. What the user agent offers (whether
 * `XDomainRequest` exists, whether an `XMLHttpRequest` has a
 * `withCredentials` property) is given as input; the objects themselves
 * are not modelled.
 */
module Transport {

  import opened Wrappers

  /** What the user agent provides. */
  datatype UserAgent = UserAgent(hasXDomainRequest: bool, supportsWithCredentials: bool)

  /** The transport the request is sent with. */
  datatype Xhr = XDomainRequest | XmlHttpRequest(withCredentials: bool)

  /** 'CORS is not supported by this user agent'. */
  datatype TransportError = CorsNotSupported

  /**
   * The decision, branch by branch. With CORS off the plain transport is
   * always used and never credentialed; with CORS on an `XDomainRequest` is
   * preferred, an `XMLHttpRequest` without `withCredentials` is refused,
   * and credentials are switched on only when asked for.
   */
  function BuildXhr(isCorsEnabled: bool, isCorsWithCredentialsEnabled: bool, agent: UserAgent): (r: Result<Xhr, TransportError>)
    ensures r.Err? <==> isCorsEnabled && !agent.hasXDomainRequest && !agent.supportsWithCredentials
    ensures r == Ok(XDomainRequest) <==> isCorsEnabled && agent.hasXDomainRequest
    ensures r == Ok(XmlHttpRequest(true)) <==>
      isCorsEnabled && isCorsWithCredentialsEnabled && !agent.hasXDomainRequest && agent.supportsWithCredentials
    ensures !isCorsEnabled ==> r == Ok(XmlHttpRequest(false))
  {
    if isCorsEnabled && agent.hasXDomainRequest then Ok(XDomainRequest)
    else if isCorsEnabled && !agent.supportsWithCredentials then Err(CorsNotSupported)
    else if isCorsEnabled && isCorsWithCredentialsEnabled && agent.supportsWithCredentials then Ok(XmlHttpRequest(true))
    else Ok(XmlHttpRequest(false))
  }
}

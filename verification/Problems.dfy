/** The outcomes a request can be refused with (src/errors.rs), and the codes the policy decision uses. */
module Problems {

  datatype Problem =
    | ConfigInvalid
    | ClientIdentityMissing
    | ClientIdentityDenied
    | RouteDenied
    | PurposeRequired
    | PurposeDenied
    | UpstreamAuthMissing
    | UpstreamUnavailable
    | BodyTooLarge
    | RequestTimeout
    | RateLimited
    | PdpDenied(code: PdpCode)

  /** The decision library's stable codes: those the connector names itself, the others it knows, the rest. */
  datatype PdpCode = EvidenceStale | UnsupportedPolicyTerm | PurposeNotPermitted | Known(name: string) | Unknown(name: string)

  /** `pdp_problem_code`. */
  function ProblemCode(code: PdpCode): PdpCode {
    if code.Unknown? then PurposeNotPermitted else code
  }
}

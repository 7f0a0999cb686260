/** The connector's configuration (src/config.rs), as far as policy and routing read it. */
module Config {
  import opened Basics
  import opened Text

  const U32_LIMIT: nat := 0x1_0000_0000

  type u32 = n: nat | n < U32_LIMIT
  type u64 = n: nat | n < U64_LIMIT

  datatype PurposeSource = ClientProvided | StaticRouteDefault | DeniedMissing

  datatype TrustedContext = TrustedContext(
    jurisdiction: Option<string>,
    assertedAssurance: Option<string>,
    legalBasisRef: Option<string>,
    consentRef: Option<string>,
    sourceObservedAgeSeconds: Option<u64>)

  datatype GovernedPolicy = GovernedPolicy(
    permittedPurposes: seq<string>,
    permittedJurisdictions: seq<string>,
    allowedAssurance: seq<string>,
    minimumAssurance: Option<string>,
    maxSourceAgeSeconds: Option<u64>,
    requireLegalBasis: bool,
    requireConsent: bool,
    redactionFields: seq<string>,
    unsupportedOdrlTerms: seq<string>,
    trustedContext: TrustedContext)

  datatype Route = Route(
    id: string,
    methods: seq<string>,
    localPrefix: Option<string>,
    upstreamPrefix: Option<string>,
    requirePurpose: bool,
    purposeSource: Option<PurposeSource>,
    clientIdentity: Option<string>,
    clientIdentities: seq<string>,
    upstreamAuthHeaderEnv: Option<string>,
    purposes: seq<string>,
    governedPolicy: Option<GovernedPolicy>,
    forwardClientIdentity: bool)

  datatype TrustAnchor = TrustAnchor(ca: string, trustDomain: string, dnsIdentities: seq<string>)

  datatype Entitlement = Entitlement(clientIdentity: string, trustedContext: TrustedContext)

  datatype ClientTrust = ClientTrust(
    allowedIdentities: seq<string>,
    trustAnchors: seq<TrustAnchor>,
    deniedFingerprints: seq<string>,
    entitlements: seq<Entitlement>)

  datatype Limits = Limits(
    upstreamTimeoutSeconds: u64,
    requestTimeoutSeconds: u64,
    tlsHandshakeTimeoutSeconds: u64,
    http1HeaderReadTimeoutSeconds: u64,
    maxConcurrentRequests: nat,
    maxConcurrentConnections: nat,
    maxRequestsPerIdentityPerMinute: u32)

  datatype Upstream = Upstream(
    basePath: string,
    authHeaderName: string,
    authHeaderScheme: string,
    defaultAuthHeaderEnv: Option<string>)

  datatype Connector = Connector(
    hasServerIdentity: bool,
    clientTrust: Option<ClientTrust>,
    upstream: Option<Upstream>,
    hasServer: bool,
    hasClientIdentity: bool,
    defaultPurpose: Option<string>,
    hashSecretEnv: Option<string>,
    allowUnkeyedHashing: bool,
    limits: Limits,
    routes: seq<Route>,
    allowDnsSanIdentity: bool)

  // ---------------------------------------------------------------- what a request brings and what is made of it

  datatype Header = Header(name: string, value: string)

  /** Header names are lower case. */
  type Headers = seq<Header>

  /** The identity and the fingerprint read from a peer's leaf certificate (src/identity.rs). */
  datatype PeerIdentity = PeerIdentity(value: string, fingerprint: string)

  /** A found route with the path for the upstream (src/routing.rs). */
  datatype RouteMatch = RouteMatch(route: Route, upstreamPath: string)

  // ---------------------------------------------------------------- identities

  /** Every identity text a route names, the single field first. */
  function IdentityTexts(route: Route): seq<string> {
    (if route.clientIdentity.Some? then [route.clientIdentity.value] else []) + route.clientIdentities
  }

  /** Identity texts as the policy reads them: trimmed, blanks dropped. */
  ghost function Identities(texts: seq<string>): set<string> {
    set text | text in texts && !Blank(text) :: Trim(text)
  }

  /** The identities a route is bound to. */
  ghost function RouteIdentities(route: Route): set<string> {
    Identities(IdentityTexts(route))
  }

  lemma IdentitiesPush(texts: seq<string>, text: string)
    ensures Identities(texts + [text]) == Identities(texts) + if Blank(text) then {} else {Trim(text)}
  {
  }

  /** `route_client_identities`: the set is grown field by field. */
  method RouteClientIdentities(route: Route) returns (identities: seq<string>)
    ensures forall y :: y in identities <==> y in RouteIdentities(route)
  {
    identities := [];
    ghost var texts: seq<string> := [];
    if route.clientIdentity.Some? {
      IdentitiesPush(texts, route.clientIdentity.value);
      texts := texts + [route.clientIdentity.value];
      if Trim(route.clientIdentity.value) != "" {
        identities := Insert(identities, Trim(route.clientIdentity.value));
      }
    }
    ghost var single := texts;
    for i := 0 to |route.clientIdentities|
      invariant texts == single + route.clientIdentities[..i]
      invariant forall y :: y in identities <==> y in Identities(texts)
    {
      IdentitiesPush(texts, route.clientIdentities[i]);
      texts := texts + [route.clientIdentities[i]];
      var identity := Trim(route.clientIdentities[i]);
      if identity != "" {
        identities := Insert(identities, identity);
      }
    }
    assert texts == IdentityTexts(route);
  }

  /** `strip_prefix("spiffe://")`, then up to the next '/', unless empty. */
  function SpiffeTrustDomain(identity: string): (r: Option<string>)
    ensures r.Some? ==> StartsWith(identity, "spiffe://" + r.value) && r.value != "" && '/' !in r.value
  {
    match StripPrefix(identity, "spiffe://")
    case None => None
    case Some(rest) =>
      SplitFirst(rest, '/');
      var domain := Split(rest, '/')[0];
      if domain == "" then None else Some(domain)
  }

  /** The trust domain is the whole authority part: up to the next '/' or the end. */
  lemma SpiffeTrustDomainMeans(identity: string, d: string)
    ensures SpiffeTrustDomain(identity) == Some(d) <==>
            && d != "" && '/' !in d
            && (identity == "spiffe://" + d || StartsWith(identity, "spiffe://" + d + "/"))
  {
    if StartsWith(identity, "spiffe://") {
      var rest := StripPrefix(identity, "spiffe://").value;
      SplitFirst(rest, '/');
      var k := FirstIndex(rest, '/');
      assert Split(rest, '/')[0] == rest[..k];
      Authority(identity, rest, d);
      if '/' !in d && d <= rest && (rest == d || rest[|d|] == '/') { DomainEnds(rest, d); }
    } else {
      assert "spiffe://" <= "spiffe://" + d;
    }
  }

  lemma Authority(identity: string, rest: string, d: string)
    requires identity == "spiffe://" + rest
    ensures identity == "spiffe://" + d || StartsWith(identity, "spiffe://" + d + "/") <==>
            d <= rest && (rest == d || rest[|d|] == '/')
  {
    var p := "spiffe://";
    assert identity[|p|..] == rest;
    assert identity == p + d ==> rest == (p + d)[|p|..] == d;
    if StartsWith(identity, p + d + "/") {
      assert rest[..|d| + 1] == (p + d + "/")[|p|..] == d + "/";
    }
    if d <= rest && rest != d && rest[|d|] == '/' {
      assert rest[..|d| + 1] == d + "/";
      assert identity[..|p| + |d| + 1] == p + (d + "/");
    }
  }

  lemma DomainEnds(rest: string, d: string)
    requires '/' !in d && d <= rest && (rest == d || rest[|d|] == '/')
    ensures FirstIndex(rest, '/') == |d| && rest[..|d|] == d
  {
  }
}

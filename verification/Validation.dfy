/**
 Start-up validation (src/config.rs): the loops that record errors, proved to record none exactly
 when the configuration has the stated property. Checks that read files, environment variables or
 foreign libraries are the booleans and the predicate of `Outside`.
 */
module Validation {
  import opened Basics
  import opened Text
  import opened Config
  import opened Paths

  datatype Finding =
    | RoutesMissing | LimitZero | AuditSecretMissing
    | RouteIdMissing | RouteIdDuplicate | RouteMethodsMissing | PrefixInvalid | EntryBlank
    | PolicyWithoutGate | MaxSourceAgeZero | TrustedAgeZero
    | SectionMissing | OutsideCheckFailed | ListEmpty | FingerprintInvalid
    | EntitlementDuplicate | EntitlementUnknown | EntitlementEmpty
    | IdentityWithoutAnchor | DnsFallbackDisabled | BasePathNotRoot
    | UpstreamPrefixMissing | LocalPrefixMissing | RouteIdentityMissing | RouteIdentityUnknown
    | DefaultPurposeMissing

  datatype Outside = Outside(
    identityFilesOk: bool,
    authHeaderNameOk: bool,
    environmentOk: bool,
    listenAndUrlOk: bool,
    caOk: string -> bool)

  // ---------------------------------------------------------------- lists without blanks

  ghost predicate NoBlank(xs: seq<string>) {
    forall i :: 0 <= i < |xs| ==> !Blank(xs[i])
  }

  ghost predicate NotBlank(o: Option<string>) {
    o.Some? ==> !Blank(o.value)
  }

  method CheckEntries(xs: seq<string>) returns (errors: seq<Finding>)
    ensures errors == [] <==> NoBlank(xs)
  {
    errors := [];
    for i := 0 to |xs|
      invariant errors == [] <==> NoBlank(xs[..i])
    {
      assert xs[..i + 1] == xs[..i] + [xs[i]];
      if Trim(xs[i]) == "" {
        errors := errors + [EntryBlank];
      }
    }
    assert xs[..|xs|] == xs;
  }

  method CheckOptional(o: Option<string>) returns (errors: seq<Finding>)
    ensures errors == [] <==> NotBlank(o)
  {
    errors := if o.Some? && Trim(o.value) == "" then [EntryBlank] else [];
  }

  // ---------------------------------------------------------------- governed policies

  ghost predicate TrustedContextOk(t: TrustedContext) {
    && NotBlank(t.jurisdiction) && NotBlank(t.assertedAssurance)
    && NotBlank(t.legalBasisRef) && NotBlank(t.consentRef)
    && t.sourceObservedAgeSeconds != Some(0)
  }

  /** `validate_trusted_context_fields`. */
  method ValidateTrustedContext(t: TrustedContext) returns (errors: seq<Finding>)
    ensures errors == [] <==> TrustedContextOk(t)
  {
    errors := CheckOptional(t.jurisdiction);
    var assurance := CheckOptional(t.assertedAssurance);
    var basis := CheckOptional(t.legalBasisRef);
    var consent := CheckOptional(t.consentRef);
    errors := errors + assurance + basis + consent;
    if t.sourceObservedAgeSeconds == Some(0) {
      errors := errors + [TrustedAgeZero];
    }
  }

  predicate SomeEntry(xs: seq<string>) {
    exists i :: 0 <= i < |xs| && !Blank(xs[i])
  }

  /** `governed_route_policy_has_gate`. */
  predicate HasGate(p: GovernedPolicy) {
    || SomeEntry(p.permittedPurposes) || SomeEntry(p.permittedJurisdictions) || SomeEntry(p.allowedAssurance)
    || (p.minimumAssurance.Some? && !Blank(p.minimumAssurance.value))
    || (p.maxSourceAgeSeconds.Some? && p.maxSourceAgeSeconds.value > 0)
    || p.requireLegalBasis || p.requireConsent
    || SomeEntry(p.redactionFields) || SomeEntry(p.unsupportedOdrlTerms)
  }

  /** `trusted_context_has_assertion`. */
  predicate HasAssertion(t: TrustedContext) {
    || (t.jurisdiction.Some? && !Blank(t.jurisdiction.value))
    || (t.assertedAssurance.Some? && !Blank(t.assertedAssurance.value))
    || (t.legalBasisRef.Some? && !Blank(t.legalBasisRef.value))
    || (t.consentRef.Some? && !Blank(t.consentRef.value))
    || (t.sourceObservedAgeSeconds.Some? && t.sourceObservedAgeSeconds.value > 0)
  }

  ghost predicate PolicyOk(p: GovernedPolicy) {
    && HasGate(p)
    && NoBlank(p.permittedPurposes) && NoBlank(p.permittedJurisdictions) && NoBlank(p.allowedAssurance)
    && NotBlank(p.minimumAssurance) && p.maxSourceAgeSeconds != Some(0)
    && NoBlank(p.redactionFields) && NoBlank(p.unsupportedOdrlTerms)
    && TrustedContextOk(p.trustedContext)
  }

  /** `validate_governed_route_policy`. */
  method ValidateGovernedPolicy(p: GovernedPolicy) returns (errors: seq<Finding>)
    ensures errors == [] <==> PolicyOk(p)
  {
    errors := if HasGate(p) then [] else [PolicyWithoutGate];
    var e1 := CheckEntries(p.permittedPurposes);
    var e2 := CheckEntries(p.permittedJurisdictions);
    var e3 := CheckEntries(p.allowedAssurance);
    var e4 := CheckOptional(p.minimumAssurance);
    errors := errors + e1 + e2 + e3 + e4;
    if p.maxSourceAgeSeconds == Some(0) {
      errors := errors + [MaxSourceAgeZero];
    }
    var e5 := CheckEntries(p.redactionFields);
    var e6 := CheckEntries(p.unsupportedOdrlTerms);
    var e7 := ValidateTrustedContext(p.trustedContext);
    errors := errors + e5 + e6 + e7;
  }

  // ---------------------------------------------------------------- checks common to both modes

  /** `validate_route_prefix`: being non-empty and absolute is implied by canonicalisation. */
  method ValidatePrefix(prefix: Option<string>) returns (errors: seq<Finding>)
    ensures errors == [] <==> PrefixOk(prefix)
  {
    errors := [];
    if prefix.Some? {
      if prefix.value == "" || !StartsWith(prefix.value, "/") {
        return [PrefixInvalid];
      }
      var r := CanonicalRequestPath(prefix.value);
      if r.Err? {
        errors := [PrefixInvalid];
      }
    }
  }

  ghost predicate PrefixOk(prefix: Option<string>) {
    prefix.Some? ==> Canonical(prefix.value).Ok?
  }

  ghost predicate RouteOk(r: Route) {
    && !Blank(r.id) && r.methods != []
    && PrefixOk(r.localPrefix) && PrefixOk(r.upstreamPrefix)
    && NoBlank(r.purposes) && NoBlank(r.clientIdentities)
    && (r.governedPolicy.Some? ==> PolicyOk(r.governedPolicy.value))
  }

  method ValidateRoute(r: Route) returns (errors: seq<Finding>)
    ensures !Blank(r.id) ==> (errors == [] <==> RouteOk(r))
  {
    errors := if r.methods == [] then [RouteMethodsMissing] else [];
    var e1 := ValidatePrefix(r.localPrefix);
    var e2 := ValidatePrefix(r.upstreamPrefix);
    var e3 := CheckEntries(r.purposes);
    var e4 := CheckEntries(r.clientIdentities);
    errors := errors + e1 + e2 + e3 + e4;
    if r.governedPolicy.Some? {
      var e5 := ValidateGovernedPolicy(r.governedPolicy.value);
      errors := errors + e5;
    }
  }

  ghost predicate DistinctIds(routes: seq<Route>, n: nat)
    requires n <= |routes|
  {
    forall i, j :: 0 <= i < j < n ==> routes[i].id != routes[j].id
  }

  /** The first `n` routes pass and their ids differ. */
  ghost predicate RoutesOk(routes: seq<Route>, n: nat)
    requires n <= |routes|
  {
    (forall i :: 0 <= i < n ==> RouteOk(routes[i])) && DistinctIds(routes, n)
  }

  method ValidateRoutes(routes: seq<Route>) returns (errors: seq<Finding>)
    ensures errors == [] <==> RoutesOk(routes, |routes|)
  {
    errors := [];
    var ids: seq<string> := [];
    for i := 0 to |routes|
      invariant errors == [] <==> RoutesOk(routes, i)
      invariant errors == [] ==> forall y :: y in ids <==> exists j :: 0 <= j < i && routes[j].id == y
    {
      var r := routes[i];
      var e := ValidateRoute(r);
      if Trim(r.id) == "" {
        errors := errors + [RouteIdMissing];
      } else if r.id in ids {
        errors := errors + [RouteIdDuplicate];
      } else {
        ids := Insert(ids, r.id);
      }
      errors := errors + e;
    }
  }

  ghost predicate LimitsOk(l: Limits) {
    && l.upstreamTimeoutSeconds > 0 && l.requestTimeoutSeconds > 0
    && l.tlsHandshakeTimeoutSeconds > 0 && l.http1HeaderReadTimeoutSeconds > 0
    && l.maxConcurrentRequests > 0 && l.maxConcurrentConnections > 0
    && l.maxRequestsPerIdentityPerMinute > 0
  }

  ghost predicate AuditOk(c: Connector) {
    if c.hashSecretEnv.Some? then !Blank(c.hashSecretEnv.value) else c.allowUnkeyedHashing
  }

  ghost predicate CommonOk(c: Connector) {
    c.routes != [] && LimitsOk(c.limits) && AuditOk(c) && RoutesOk(c.routes, |c.routes|)
  }

  /** `validate_common`. */
  method ValidateCommon(c: Connector) returns (errors: seq<Finding>)
    ensures errors == [] <==> CommonOk(c)
  {
    var l := c.limits;
    errors := if c.routes == [] then [RoutesMissing] else [];
    if l.upstreamTimeoutSeconds == 0 { errors := errors + [LimitZero]; }
    if l.requestTimeoutSeconds == 0 { errors := errors + [LimitZero]; }
    if l.tlsHandshakeTimeoutSeconds == 0 { errors := errors + [LimitZero]; }
    if l.http1HeaderReadTimeoutSeconds == 0 { errors := errors + [LimitZero]; }
    if l.maxConcurrentRequests == 0 { errors := errors + [LimitZero]; }
    if l.maxConcurrentConnections == 0 { errors := errors + [LimitZero]; }
    if l.maxRequestsPerIdentityPerMinute == 0 { errors := errors + [LimitZero]; }
    match c.hashSecretEnv {
      case Some(value) => if Trim(value) == "" { errors := errors + [AuditSecretMissing]; }
      case None => if !c.allowUnkeyedHashing { errors := errors + [AuditSecretMissing]; }
    }
    var e := ValidateRoutes(c.routes);
    errors := errors + e;
  }

  // ---------------------------------------------------------------- client mode

  ghost predicate ClientRouteOk(c: Connector, r: Route) {
    && OrEmpty(r.localPrefix) != "" && OrEmpty(r.upstreamPrefix) != ""
    && (r.requirePurpose && r.purposeSource == Some(StaticRouteDefault) ==> !Blank(OrEmpty(c.defaultPurpose)))
  }

  ghost predicate ClientOk(c: Connector, o: Outside) {
    && o.listenAndUrlOk && c.hasServer && c.hasClientIdentity && o.identityFilesOk && o.environmentOk
    && forall i :: 0 <= i < |c.routes| ==> ClientRouteOk(c, c.routes[i])
  }

  /** `validate_client`, with its two early returns. */
  method ValidateClient(c: Connector, o: Outside) returns (errors: seq<Finding>)
    ensures errors == [] <==> ClientOk(c, o)
  {
    errors := if o.listenAndUrlOk then [] else [OutsideCheckFailed];
    if !c.hasServer {
      return errors + [SectionMissing];
    }
    if !c.hasClientIdentity {
      return errors + [SectionMissing];
    }
    if !o.identityFilesOk { errors := errors + [OutsideCheckFailed]; }
    ghost var before := errors;
    for i := 0 to |c.routes|
      invariant errors == [] <==> before == [] && forall j :: 0 <= j < i ==> ClientRouteOk(c, c.routes[j])
    {
      var r := c.routes[i];
      if OrEmpty(r.localPrefix) == "" { errors := errors + [LocalPrefixMissing]; }
      if OrEmpty(r.upstreamPrefix) == "" { errors := errors + [UpstreamPrefixMissing]; }
      if r.requirePurpose && r.purposeSource == Some(StaticRouteDefault) && Trim(OrEmpty(c.defaultPurpose)) == "" {
        errors := errors + [DefaultPurposeMissing];
      }
    }
    if !o.environmentOk { errors := errors + [OutsideCheckFailed]; }
  }

  // ---------------------------------------------------------------- server mode

  predicate IsSha256(s: string) {
    |s| == 64 && forall i :: 0 <= i < |s| ==> IsHex(s[i])
  }

  ghost predicate HexDigit(c: char) {
    exists v: nat :: Digit(c, v)
  }

  lemma HexDigitIff(c: char)
    ensures IsHex(c) <==> HexDigit(c)
  {
    if IsHex(c) { DigitValue(c, HexValue(c)); }
    if v: nat :| Digit(c, v) { DigitValue(c, v); }
  }

  /** Sixty-four digits, each of one of the two tables. */
  lemma Sha256Iff(s: string)
    ensures IsSha256(s) <==> |s| == 64 && forall i :: 0 <= i < |s| ==> HexDigit(s[i])
  {
    forall i | 0 <= i < |s| ensures IsHex(s[i]) <==> HexDigit(s[i]) { HexDigitIff(s[i]); }
  }

  predicate Allowed(t: ClientTrust, identity: string) {
    exists i :: 0 <= i < |t.allowedIdentities| && Trim(t.allowedIdentities[i]) == identity
  }

  ghost predicate EntitlementOk(t: ClientTrust, e: Entitlement) {
    && !Blank(e.clientIdentity) && Allowed(t, Trim(e.clientIdentity))
    && HasAssertion(e.trustedContext) && TrustedContextOk(e.trustedContext)
  }

  ghost predicate DistinctHolders(es: seq<Entitlement>, n: nat)
    requires n <= |es|
  {
    forall i, j :: 0 <= i < j < n ==> Trim(es[i].clientIdentity) != Trim(es[j].clientIdentity)
  }

  ghost predicate HeldBefore(es: seq<Entitlement>, n: nat, identity: string)
    requires n <= |es|
  {
    exists j :: 0 <= j < n && Trim(es[j].clientIdentity) == identity
  }

  ghost predicate EntitlementsOk(t: ClientTrust, es: seq<Entitlement>, n: nat)
    requires n <= |es|
  {
    (forall i :: 0 <= i < n ==> EntitlementOk(t, es[i])) && DistinctHolders(es, n)
  }

  /** `validate_trust_context_entitlement`. */
  method ValidateEntitlement(t: ClientTrust, e: Entitlement, seen: seq<string>)
    returns (errors: seq<Finding>, seen': seq<string>)
    ensures errors == [] <==> EntitlementOk(t, e) && Trim(e.clientIdentity) !in seen
    ensures errors == [] ==> forall y :: y in seen' <==> y in seen || y == Trim(e.clientIdentity)
  {
    errors, seen' := [], seen;
    var identity := Trim(e.clientIdentity);
    if identity == "" {
      errors := [EntryBlank];
      return;
    }
    if identity in seen { errors := errors + [EntitlementDuplicate]; }
    seen' := Insert(seen, identity);
    if !Allowed(t, identity) { errors := errors + [EntitlementUnknown]; }
    if !HasAssertion(e.trustedContext) { errors := errors + [EntitlementEmpty]; }
    var more := ValidateTrustedContext(e.trustedContext);
    errors := errors + more;
  }

  /** All entitlements, with the growing set of seen identities. */
  method ValidateEntitlements(t: ClientTrust) returns (errors: seq<Finding>)
    ensures errors == [] <==> EntitlementsOk(t, t.entitlements, |t.entitlements|)
  {
    errors := [];
    var es, seen: seq<string> := t.entitlements, [];
    for i := 0 to |es|
      invariant errors == [] <==> EntitlementsOk(t, es, i)
      invariant errors == [] ==> forall y :: y in seen <==> HeldBefore(es, i, y)
    {
      NextEntitlement(t, es, i);
      var more;
      more, seen := ValidateEntitlement(t, es[i], seen);
      errors := errors + more;
    }
  }

  lemma NextEntitlement(t: ClientTrust, es: seq<Entitlement>, i: nat)
    requires i < |es|
    ensures EntitlementsOk(t, es, i + 1) <==>
            EntitlementsOk(t, es, i) && EntitlementOk(t, es[i]) && !HeldBefore(es, i, Trim(es[i].clientIdentity))
    ensures forall y :: HeldBefore(es, i + 1, y) <==> HeldBefore(es, i, y) || y == Trim(es[i].clientIdentity)
  {
  }

  ghost predicate AnchorOk(o: Outside, a: TrustAnchor) {
    o.caOk(a.ca) && !Blank(a.trustDomain) && NoBlank(a.dnsIdentities)
  }

  /** One of the first `n` anchors is for trust domain `d`. */
  ghost predicate InDomain(t: ClientTrust, n: nat, d: string)
    requires n <= |t.trustAnchors|
  {
    exists i :: 0 <= i < n && t.trustAnchors[i].trustDomain == d
  }

  /** The anchor loop, which also gathers the trust domains. */
  method ValidateAnchors(t: ClientTrust, o: Outside) returns (errors: seq<Finding>, domains: seq<string>)
    ensures errors == [] <==> forall i :: 0 <= i < |t.trustAnchors| ==> AnchorOk(o, t.trustAnchors[i])
    ensures forall d :: d in domains <==> !Blank(d) && InDomain(t, |t.trustAnchors|, d)
  {
    errors, domains := [], [];
    for i := 0 to |t.trustAnchors|
      invariant errors == [] <==> forall j :: 0 <= j < i ==> AnchorOk(o, t.trustAnchors[j])
      invariant forall d :: d in domains <==> !Blank(d) && InDomain(t, i, d)
    {
      var a := t.trustAnchors[i];
      if Trim(a.trustDomain) == "" {
        errors := errors + [EntryBlank];
      } else {
        domains := Insert(domains, a.trustDomain);
      }
      var e := CheckEntries(a.dnsIdentities);
      errors := errors + e;
      if !o.caOk(a.ca) { errors := errors + [OutsideCheckFailed]; }
    }
  }

  /** Some anchor is bound to the SPIFFE trust domain or to the DNS identity. */
  ghost predicate HasAnchor(t: ClientTrust, identity: string) {
    match SpiffeTrustDomain(identity)
    case Some(domain) => InDomain(t, |t.trustAnchors|, domain)
    case None => BoundDns(t, identity)
  }

  predicate BoundDns(t: ClientTrust, identity: string) {
    exists i :: 0 <= i < |t.trustAnchors| && identity in t.trustAnchors[i].dnsIdentities
  }

  ghost predicate AllowedEntryOk(c: Connector, t: ClientTrust, identity: string) {
    && !Blank(identity) && HasAnchor(t, identity)
    && (SpiffeTrustDomain(identity).None? ==> c.allowDnsSanIdentity)
  }

  ghost predicate EntryAgainst(c: Connector, t: ClientTrust, domains: seq<string>, identity: string) {
    && !Blank(identity)
    && match SpiffeTrustDomain(identity)
       case Some(domain) => domain in domains
       case None => c.allowDnsSanIdentity && BoundDns(t, identity)
  }

  method ValidateAllowed(c: Connector, t: ClientTrust, domains: seq<string>) returns (errors: seq<Finding>)
    ensures errors == [] <==>
            forall i :: 0 <= i < |t.allowedIdentities| ==> EntryAgainst(c, t, domains, t.allowedIdentities[i])
  {
    errors := [];
    for i := 0 to |t.allowedIdentities|
      invariant errors == [] <==> forall j :: 0 <= j < i ==> EntryAgainst(c, t, domains, t.allowedIdentities[j])
    {
      var identity := t.allowedIdentities[i];
      var domain := SpiffeTrustDomain(identity);
      if Trim(identity) == "" {
        errors := errors + [EntryBlank];
        continue;
      }
      if domain.Some? {
        if domain.value !in domains { errors := errors + [IdentityWithoutAnchor]; }
      } else if !c.allowDnsSanIdentity {
        errors := errors + [DnsFallbackDisabled];
      } else if !BoundDns(t, identity) {
        errors := errors + [IdentityWithoutAnchor];
      }
    }
  }

  lemma EntryAgainstAnchors(c: Connector, o: Outside, t: ClientTrust, domains: seq<string>, identity: string)
    requires forall i :: 0 <= i < |t.trustAnchors| ==> AnchorOk(o, t.trustAnchors[i])
    requires forall d :: d in domains <==> !Blank(d) && InDomain(t, |t.trustAnchors|, d)
    ensures EntryAgainst(c, t, domains, identity) <==> AllowedEntryOk(c, t, identity)
  {
  }

  ghost predicate ServerRouteOk(t: ClientTrust, r: Route) {
    && OrEmpty(r.upstreamPrefix) != "" && RouteIdentities(r) != {}
    && forall identity :: identity in RouteIdentities(r) ==> Allowed(t, identity)
  }

  method ValidateServerRoute(t: ClientTrust, r: Route) returns (errors: seq<Finding>)
    ensures errors == [] <==> ServerRouteOk(t, r)
  {
    errors := if OrEmpty(r.upstreamPrefix) == "" then [UpstreamPrefixMissing] else [];
    var identities := RouteClientIdentities(r);
    if identities == [] {
      assert RouteIdentities(r) == {};
      return errors + [RouteIdentityMissing];
    }
    assert identities[0] in RouteIdentities(r);
    ghost var before := errors;
    for i := 0 to |identities|
      invariant errors == [] <==> before == [] && forall j :: 0 <= j < i ==> Allowed(t, identities[j])
    {
      if !Allowed(t, identities[i]) { errors := errors + [RouteIdentityUnknown]; }
    }
    assert (forall j :: 0 <= j < |identities| ==> Allowed(t, identities[j])) <==>
           forall identity :: identity in RouteIdentities(r) ==> Allowed(t, identity) by {
      assert forall identity :: identity in RouteIdentities(r) ==> identity in identities;
    }
  }

  ghost predicate TrustOk(c: Connector, o: Outside, t: ClientTrust) {
    && t.allowedIdentities != [] && t.trustAnchors != []
    && (forall i :: 0 <= i < |t.deniedFingerprints| ==> IsSha256(t.deniedFingerprints[i]))
    && EntitlementsOk(t, t.entitlements, |t.entitlements|)
    && (forall i :: 0 <= i < |t.trustAnchors| ==> AnchorOk(o, t.trustAnchors[i]))
    && (forall i :: 0 <= i < |t.allowedIdentities| ==> AllowedEntryOk(c, t, t.allowedIdentities[i]))
  }

  method ValidateTrust(c: Connector, o: Outside, t: ClientTrust) returns (errors: seq<Finding>)
    ensures errors == [] <==> TrustOk(c, o, t)
  {
    errors := if t.allowedIdentities == [] then [ListEmpty] else [];
    if t.trustAnchors == [] { errors := errors + [ListEmpty]; }
    ghost var before := errors;
    for i := 0 to |t.deniedFingerprints|
      invariant errors == [] <==> before == [] && forall j :: 0 <= j < i ==> IsSha256(t.deniedFingerprints[j])
    {
      if !IsSha256(t.deniedFingerprints[i]) { errors := errors + [FingerprintInvalid]; }
    }
    var e1 := ValidateEntitlements(t);
    var e2, domains := ValidateAnchors(t, o);
    var e3 := ValidateAllowed(c, t, domains);
    errors := errors + e1 + e2 + e3;
    if e2 == [] {
      forall i | 0 <= i < |t.allowedIdentities|
        ensures EntryAgainst(c, t, domains, t.allowedIdentities[i]) <==> AllowedEntryOk(c, t, t.allowedIdentities[i])
      {
        EntryAgainstAnchors(c, o, t, domains, t.allowedIdentities[i]);
      }
    }
  }

  ghost predicate RouteEnvsOk(routes: seq<Route>) {
    forall i :: 0 <= i < |routes| ==> NotBlank(routes[i].upstreamAuthHeaderEnv)
  }

  method ValidateRouteEnvs(routes: seq<Route>) returns (errors: seq<Finding>)
    ensures errors == [] <==> RouteEnvsOk(routes)
  {
    errors := [];
    for i := 0 to |routes|
      invariant errors == [] <==> forall j :: 0 <= j < i ==> NotBlank(routes[j].upstreamAuthHeaderEnv)
    {
      var e := CheckOptional(routes[i].upstreamAuthHeaderEnv);
      errors := errors + e;
    }
  }

  ghost predicate ServerRoutesOk(t: ClientTrust, routes: seq<Route>) {
    forall i :: 0 <= i < |routes| ==> ServerRouteOk(t, routes[i])
  }

  method ValidateServerRoutes(t: ClientTrust, routes: seq<Route>) returns (errors: seq<Finding>)
    ensures errors == [] <==> ServerRoutesOk(t, routes)
  {
    errors := [];
    for i := 0 to |routes|
      invariant errors == [] <==> forall j :: 0 <= j < i ==> ServerRouteOk(t, routes[j])
    {
      var e := ValidateServerRoute(t, routes[i]);
      errors := errors + e;
    }
  }

  ghost predicate ServerOk(c: Connector, o: Outside) {
    && c.hasServerIdentity && o.identityFilesOk && c.clientTrust.Some? && c.upstream.Some?
    && TrustOk(c, o, c.clientTrust.value)
    && (c.upstream.value.basePath == "" || c.upstream.value.basePath == "/")
    && o.authHeaderNameOk && NotBlank(c.upstream.value.defaultAuthHeaderEnv) && o.environmentOk
    && RouteEnvsOk(c.routes) && ServerRoutesOk(c.clientTrust.value, c.routes)
  }

  /** `validate_server`, with its three early returns. */
  method ValidateServer(c: Connector, o: Outside) returns (errors: seq<Finding>)
    ensures errors == [] <==> ServerOk(c, o)
  {
    if !c.hasServerIdentity {
      return [SectionMissing];
    }
    errors := if o.identityFilesOk then [] else [OutsideCheckFailed];
    if c.clientTrust.None? {
      return errors + [SectionMissing];
    }
    var t := c.clientTrust.value;
    var trust := ValidateTrust(c, o, t);
    errors := errors + trust;
    if c.upstream.None? {
      return errors + [SectionMissing];
    }
    var u := c.upstream.value;
    if u.basePath != "" && u.basePath != "/" { errors := errors + [BasePathNotRoot]; }
    if !o.authHeaderNameOk { errors := errors + [OutsideCheckFailed]; }
    var env := CheckOptional(u.defaultAuthHeaderEnv);
    var envs := ValidateRouteEnvs(c.routes);
    errors := errors + env + envs;
    if !o.environmentOk { errors := errors + [OutsideCheckFailed]; }
    var routes := ValidateServerRoutes(t, c.routes);
    errors := errors + routes;
  }

  // ---------------------------------------------------------------- start-up

  datatype Mode = Client | Server

  ghost predicate Accepted(c: Connector, o: Outside, mode: Mode) {
    CommonOk(c) && if mode == Client then ClientOk(c, o) else ServerOk(c, o)
  }

  /** `validate_config`. */
  method ValidateConfig(c: Connector, o: Outside, mode: Mode) returns (errors: seq<Finding>)
    ensures errors == [] <==> Accepted(c, o, mode)
  {
    if mode == Client {
      errors := ValidateClient(c, o);
    } else {
      errors := ValidateServer(c, o);
    }
    var e := ValidateCommon(c);
    errors := errors + e;
  }
}

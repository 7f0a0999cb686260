/**
 The purpose decision (src/proxy.rs): what is sent to the policy decision function and what its answer
 means for the request. The decision function and the hash are parameters.
 */
module Purpose {
  import opened Basics
  import opened Text
  import opened Config
  import opened Routing
  import opened TrustContext
  import opened Problems
  import opened Validation
  import PolicyHash

  const DATA_PURPOSE := "data-purpose"

  // ---------------------------------------------------------------- gates

  datatype Gate =
    | PolicyIdentity | RequestedFact | RequestedDisclosure | SourceBinding | RouteIdentity
    | PurposeGate | JurisdictionGate | AssuranceAllowedSet | MinimumAssurance | SourceFreshness
    | LegalBasisRequired | ConsentRequired | OdrlTerms | Redaction

  function GateName(g: Gate): string {
    match g
    case PolicyIdentity => "policy_identity"
    case RequestedFact => "requested_fact"
    case RequestedDisclosure => "requested_disclosure"
    case SourceBinding => "source_binding"
    case RouteIdentity => "route_identity"
    case PurposeGate => "purpose"
    case JurisdictionGate => "jurisdiction"
    case AssuranceAllowedSet => "assurance"
    case MinimumAssurance => "minimum_assurance"
    case SourceFreshness => "source_freshness"
    case LegalBasisRequired => "legal_basis"
    case ConsentRequired => "consent"
    case OdrlTerms => "odrl_terms"
    case Redaction => "redaction"
  }

  function RuleId(routeId: string, g: Gate): string {
    "trust-connector.route." + routeId + "." + GateName(g)
  }

  predicate Fixed(g: Gate) {
    g.PolicyIdentity? || g.RequestedFact? || g.RequestedDisclosure? || g.SourceBinding? || g.RouteIdentity?
  }

  type RuleIds = map<Gate, seq<string>>

  /** The gates a route names for audit. */
  predicate Named(g: Gate, route: Route) {
    match g
    case PurposeGate =>
      route.purposes != [] || (route.governedPolicy.Some? && route.governedPolicy.value.permittedPurposes != [])
    case _ =>
      Fixed(g) || (route.governedPolicy.Some? && NamedByPolicy(g, route.governedPolicy.value))
  }

  predicate NamedByPolicy(g: Gate, p: GovernedPolicy) {
    match g
    case JurisdictionGate => p.permittedJurisdictions != []
    case AssuranceAllowedSet => p.allowedAssurance != []
    case MinimumAssurance => p.minimumAssurance.Some?
    case SourceFreshness => p.maxSourceAgeSeconds.Some?
    case LegalBasisRequired => p.requireLegalBasis
    case ConsentRequired => p.requireConsent
    case OdrlTerms => p.unsupportedOdrlTerms != []
    case Redaction => p.redactionFields != []
    case _ => false
  }

  function RuleIdsByGate(route: Route): RuleIds {
    map g: Gate | Named(g, route) :: [RuleId(route.id, g)]
  }

  function Put(rules: RuleIds, on: bool, g: Gate, ruleId: string): RuleIds {
    if on then rules[g := [ruleId]] else rules
  }

  /** Order of insertion. */
  function GateRank(g: Gate): nat {
    match g
    case PolicyIdentity => 0 case RequestedFact => 1 case RequestedDisclosure => 2
    case SourceBinding => 3 case RouteIdentity => 4 case PurposeGate => 5
    case JurisdictionGate => 6 case AssuranceAllowedSet => 7 case MinimumAssurance => 8
    case SourceFreshness => 9 case LegalBasisRequired => 10 case ConsentRequired => 11
    case OdrlTerms => 12 case Redaction => 13
  }

  /** The gates below rank `n` that the route names, with their rule ids. */
  ghost predicate RulesBelow(rules: RuleIds, route: Route, n: nat) {
    && (forall g: Gate :: g in rules <==> GateRank(g) < n && Named(g, route))
    && (forall g: Gate :: g in rules ==> rules[g] == [RuleId(route.id, g)])
  }

  lemma PutNamed(rules: RuleIds, route: Route, g: Gate, on: bool)
    requires RulesBelow(rules, route, GateRank(g)) && on == Named(g, route)
    ensures RulesBelow(Put(rules, on, g, RuleId(route.id, g)), route, GateRank(g) + 1)
  {
  }

  lemma AllRules(rules: RuleIds, route: Route)
    requires RulesBelow(rules, route, 14)
    ensures rules == RuleIdsByGate(route)
  {
  }

  /** `route_pdp_rule_ids_by_gate`: the five fixed gates, then an insertion for each rule that is set. */
  method BuildRuleIds(route: Route) returns (rules: RuleIds)
    ensures rules == RuleIdsByGate(route)
  {
    var prefix := "trust-connector.route." + route.id + ".";
    rules := map[
      PolicyIdentity := [prefix + "policy_identity"], RequestedFact := [prefix + "requested_fact"],
      RequestedDisclosure := [prefix + "requested_disclosure"], SourceBinding := [prefix + "source_binding"],
      RouteIdentity := [prefix + "route_identity"]];
    var stated := route.purposes != [] ||
      (route.governedPolicy.Some? && route.governedPolicy.value.permittedPurposes != []);
    PutNamed(rules, route, PurposeGate, stated);
    rules := Put(rules, stated, PurposeGate, prefix + "purpose");
    if route.governedPolicy.Some? {
      rules := PutContextRules(rules, route, route.governedPolicy.value);
      rules := PutObligationRules(rules, route, route.governedPolicy.value);
    }
    AllRules(rules, route);
  }

  method PutContextRules(rules: RuleIds, route: Route, p: GovernedPolicy) returns (r: RuleIds)
    requires route.governedPolicy == Some(p) && RulesBelow(rules, route, 6)
    ensures RulesBelow(r, route, 10)
  {
    var prefix := "trust-connector.route." + route.id + ".";
    PutNamed(rules, route, JurisdictionGate, p.permittedJurisdictions != []);
    r := Put(rules, p.permittedJurisdictions != [], JurisdictionGate, prefix + "jurisdiction");
    PutNamed(r, route, AssuranceAllowedSet, p.allowedAssurance != []);
    r := Put(r, p.allowedAssurance != [], AssuranceAllowedSet, prefix + "assurance");
    PutNamed(r, route, MinimumAssurance, p.minimumAssurance.Some?);
    r := Put(r, p.minimumAssurance.Some?, MinimumAssurance, prefix + "minimum_assurance");
    PutNamed(r, route, SourceFreshness, p.maxSourceAgeSeconds.Some?);
    r := Put(r, p.maxSourceAgeSeconds.Some?, SourceFreshness, prefix + "source_freshness");
  }

  method PutObligationRules(rules: RuleIds, route: Route, p: GovernedPolicy) returns (r: RuleIds)
    requires route.governedPolicy == Some(p) && RulesBelow(rules, route, 10)
    ensures RulesBelow(r, route, 14)
  {
    var prefix := "trust-connector.route." + route.id + ".";
    PutNamed(rules, route, LegalBasisRequired, p.requireLegalBasis);
    r := Put(rules, p.requireLegalBasis, LegalBasisRequired, prefix + "legal_basis");
    PutNamed(r, route, ConsentRequired, p.requireConsent);
    r := Put(r, p.requireConsent, ConsentRequired, prefix + "consent");
    PutNamed(r, route, OdrlTerms, p.unsupportedOdrlTerms != []);
    r := Put(r, p.unsupportedOdrlTerms != [], OdrlTerms, prefix + "odrl_terms");
    PutNamed(r, route, Redaction, p.redactionFields != []);
    r := Put(r, p.redactionFields != [], Redaction, prefix + "redaction");
  }

  // ---------------------------------------------------------------- what the decision function sees

  datatype RequestContext = RequestContext(
    purpose: string, legalBasisRef: Option<string>, consentRef: Option<string>,
    assertedAssurance: Option<string>, jurisdiction: Option<string>, requesterIdentity: string,
    subjectRef: Option<string>, relationship: Option<string>, onBehalfOf: Option<string>,
    requestedFact: string, requestedDisclosure: string, credentialFormat: Option<string>,
    sourceBinding: string, routeIdentity: string, observedAt: Option<nat>, observedAge: Option<nat>)

  /** The fields of the policy input that are not constant. */
  datatype PolicyInput = PolicyInput(
    policyId: string, policyHash: string, ruleIds: seq<string>, ruleIdsByGate: RuleIds,
    purposeConstraints: seq<seq<string>>, permittedJurisdictions: seq<string>, allowedAssurance: seq<string>,
    minimumAssurance: Option<string>, maxSourceAgeSeconds: Option<u64>,
    requireLegalBasis: bool, requireConsent: bool, redactionFields: seq<string>,
    allowedRequestedFacts: seq<string>, allowedRequestedDisclosures: seq<string>,
    allowedSourceBindings: seq<string>, allowedRouteIdentities: seq<string>, unsupportedOdrlTerms: seq<string>)

  datatype Decision = Permit | PermitWithRedaction | Deny(code: PdpCode)

  type Decide = (RequestContext, PolicyInput) -> Decision

  /** `single_data_purpose`: the readable, non-blank values, of which there may be at most one. */
  function Purposes(values: seq<string>): seq<string> {
    if values == [] then []
    else (if Readable(values[0]) && Trim(values[0]) != "" then [Trim(values[0])] else []) + Purposes(values[1..])
  }

  function SinglePurpose(headers: Headers): Result<Option<string>, Problem> {
    AtMostOne(Purposes(GetAll(headers, DATA_PURPOSE)))
  }

  function AtMostOne(ps: seq<string>): Result<Option<string>, Problem> {
    if ps == [] then Ok(None) else if |ps| == 1 then Ok(Some(ps[0])) else Err(PurposeDenied)
  }

  predicate Counts(value: string) {
    Readable(value) && !Blank(value)
  }

  /** `single_data_purpose` steps the filtered values: the first that counts, then any second. */
  method SingleDataPurpose(headers: Headers) returns (r: Result<Option<string>, Problem>)
    ensures r == SinglePurpose(headers)
  {
    var values := GetAll(headers, DATA_PURPOSE);
    ghost var all := Purposes(values);
    var first: Option<string> := None;
    assert values[0..] == values;
    for i := 0 to |values|
      invariant first.None? ==> all == Purposes(values[i..])
      invariant first.Some? ==> all == [first.value] + Purposes(values[i..])
    {
      PurposesStep(values, i);
      if Counts(values[i]) {
        if first.Some? {
          assert |all| >= 2;
          return Err(PurposeDenied);
        }
        first := Some(Trim(values[i]));
      }
    }
    assert all == if first.Some? then [first.value] else [];
    return Ok(first);
  }

  lemma PurposesStep(values: seq<string>, i: nat)
    requires i < |values|
    ensures Purposes(values[i..]) == (if Counts(values[i]) then [Trim(values[i])] else []) + Purposes(values[i + 1..])
  {
  }

  /** The header at position `i` states a purpose. */
  predicate StatesAt(headers: Headers, i: int) {
    0 <= i < |headers| && headers[i].name == "data-purpose" && Counts(headers[i].value)
  }

  function PurposesIn(headers: Headers): seq<string> {
    Purposes(GetAll(headers, DATA_PURPOSE))
  }

  /** Where the later headers stand. */
  lemma StatedLater(headers: Headers, i: int)
    requires headers != []
    ensures StatesAt(headers[1..], i) <==> i >= 0 && StatesAt(headers, i + 1)
  {
  }

  lemma {:induction false} SomeStated(headers: Headers)
    ensures PurposesIn(headers) == [] <==> forall i :: !StatesAt(headers, i)
    ensures forall i :: StatesAt(headers, i) ==> Trim(headers[i].value) in PurposesIn(headers)
  {
    if headers == [] {
    } else {
      var rest := headers[1..];
      SomeStated(rest);
      GetAllFirst(headers);
      forall i ensures StatesAt(rest, i) ==> StatesAt(headers, i + 1) {
        StatedLater(headers, i);
      }
      forall i | StatesAt(headers, i) && i != 0 ensures StatesAt(rest, i - 1) {
        StatedLater(headers, i - 1);
      }
    }
  }

  ghost predicate TwoState(headers: Headers) {
    exists i, j :: i < j && StatesAt(headers, i) && StatesAt(headers, j)
  }

  lemma {:induction false} TwoStated(headers: Headers)
    ensures |PurposesIn(headers)| >= 2 <==> TwoState(headers)
  {
    if headers == [] {
    } else {
      TwoStated(headers[1..]);
      SomeStated(headers[1..]);
      GetAllFirst(headers);
      TwoOfRest(headers);
    }
  }

  /** Two headers state a purpose: two later ones, or the first and a later one. */
  lemma TwoOfRest(headers: Headers)
    requires headers != []
    ensures TwoState(headers) <==>
            TwoState(headers[1..]) || (StatesAt(headers, 0) && exists i :: StatesAt(headers[1..], i))
  {
    var p, q := Stater(headers), Stater(headers[1..]);
    forall i ensures q(i) <==> i >= 0 && p(i + 1) { StatedLater(headers, i); }
    TwoShifted(p, q);
    TwoStaters(headers);
    TwoStaters(headers[1..]);
    if StatesAt(headers, 0) && exists i :: StatesAt(headers[1..], i) {
      var i :| StatesAt(headers[1..], i);
      assert q(i);
    }
  }

  function Stater(headers: Headers): int -> bool {
    i => StatesAt(headers, i)
  }

  ghost predicate Two(p: int -> bool) {
    exists i, j :: i < j && p(i) && p(j)
  }

  lemma TwoStaters(headers: Headers)
    ensures TwoState(headers) <==> Two(Stater(headers))
  {
    var p := Stater(headers);
    if i, j :| i < j && StatesAt(headers, i) && StatesAt(headers, j) { assert p(i) && p(j); }
    if i, j :| i < j && p(i) && p(j) { assert StatesAt(headers, i) && StatesAt(headers, j); }
  }

  lemma TwoShifted(p: int -> bool, q: int -> bool)
    requires forall i :: q(i) <==> i >= 0 && p(i + 1)
    requires forall i :: p(i) ==> i >= 0
    ensures Two(p) <==> Two(q) || (p(0) && exists i :: q(i))
  {
    if i, j :| i < j && q(i) && q(j) { assert p(i + 1) && p(j + 1); }
    if i :| q(i) { assert p(i + 1); }
    if i, j :| i < j && p(i) && p(j) {
      assert q(j - 1);
      if i > 0 { assert q(i - 1); }
    }
  }

  lemma GetAllFirst(headers: Headers)
    requires headers != []
    ensures PurposesIn(headers) ==
            (if StatesAt(headers, 0) then [Trim(headers[0].value)] else []) + PurposesIn(headers[1..])
  {
    var values := GetAll(headers, DATA_PURPOSE);
    if headers[0].name == DATA_PURPOSE {
      assert values[1..] == GetAll(headers[1..], DATA_PURPOSE);
    } else {
      assert values == GetAll(headers[1..], DATA_PURPOSE);
    }
  }

  /** None, one or several headers state a purpose: absent, the purpose, refused. */
  lemma SinglePurposeMeans(headers: Headers, p: string)
    ensures SinglePurpose(headers) == Ok(None) <==> forall i :: !StatesAt(headers, i)
    ensures SinglePurpose(headers) == Err(PurposeDenied) <==> TwoState(headers)
    ensures SinglePurpose(headers) == Ok(Some(p)) <==>
            exists i :: StatesAt(headers, i) && Trim(headers[i].value) == p && forall j :: StatesAt(headers, j) ==> j == i
  {
    var ps := PurposesIn(headers);
    SomeStated(headers);
    TwoStated(headers);
    if |ps| == 1 {
      var i :| StatesAt(headers, i);
      assert Trim(headers[i].value) == ps[0];
      assert forall j :: StatesAt(headers, j) ==> j == i;
    }
  }

  function PurposeConstraints(route: Route): seq<seq<string>> {
    (if route.purposes == [] then [] else [route.purposes]) +
    (if route.governedPolicy.Some? && route.governedPolicy.value.permittedPurposes != []
     then [route.governedPolicy.value.permittedPurposes] else [])
  }

  function SourceBindingOf(m: RouteMatch): string {
    "trust-connector:" + m.upstreamPath
  }

  /** `request_pdp_context`, for what was observed about the source. */
  function Assemble(m: RouteMatch, purpose: string, headers: Headers, identity: string, scopes: seq<string>,
                    at: Result<Option<nat>, Problem>, age: Result<Option<nat>, Problem>): Result<RequestContext, Problem>
  {
    match at
    case Err(e) => Err(e)
    case Ok(observedAt) =>
      match age
      case Err(e) => Err(e)
      case Ok(observedAge) =>
        Ok(RequestContext(
          purpose,
          VerifiedHeader(headers, scopes, "x-registry-trust-legal-basis", LegalBasis),
          VerifiedHeader(headers, scopes, "x-registry-trust-consent", Consent),
          VerifiedHeader(headers, scopes, "x-registry-trust-assurance", Assurance),
          VerifiedHeader(headers, scopes, "x-registry-trust-jurisdiction", Jurisdiction),
          identity,
          TrustHeader(headers, "x-registry-subject-ref"),
          TrustHeader(headers, "x-registry-relationship"),
          TrustHeader(headers, "x-registry-on-behalf-of"),
          SourceBindingOf(m), "proxy_forward",
          TrustHeader(headers, "x-registry-credential-format"),
          SourceBindingOf(m), m.route.id, observedAt, observedAge))
  }

  function ContextFor(m: RouteMatch, purpose: string, headers: Headers, identity: string, scopes: seq<string>,
                      clockAt: Option<nat>, clockAge: Option<nat>): Result<RequestContext, Problem>
  {
    Assemble(m, purpose, headers, identity, scopes,
             ObservedAt(headers, AgeLimit(scopes), clockAt), ObservedAge(headers, AgeLimit(scopes), clockAge))
  }

  function InputFor(m: RouteMatch, hash: string -> string): PolicyInput {
    var route, policy := m.route, m.route.governedPolicy;
    PolicyInput(
      "trust-connector.route." + route.id,
      "sha256:" + hash(PolicyHash.Material(route)),
      ["route-purpose:" + route.id],
      RuleIdsByGate(route),
      PurposeConstraints(route),
      if policy.Some? then policy.value.permittedJurisdictions else [],
      if policy.Some? then policy.value.allowedAssurance else [],
      if policy.Some? then policy.value.minimumAssurance else None,
      if policy.Some? then policy.value.maxSourceAgeSeconds else None,
      policy.Some? && policy.value.requireLegalBasis,
      policy.Some? && policy.value.requireConsent,
      if policy.Some? then Collect(policy.value.redactionFields) else [],
      [SourceBindingOf(m)], ["proxy_forward"], [SourceBindingOf(m)], [route.id],
      if policy.Some? then policy.value.unsupportedOdrlTerms else [])
  }

  /** A route without any purpose policy. */
  predicate Unconstrained(route: Route) {
    route.purposes == [] && !route.requirePurpose && route.governedPolicy.None?
  }

  /** The connector cannot redact, so a permit that asks for it is a refusal. */
  function Outcome(decision: Decision, purpose: Option<string>): Result<Option<string>, Problem> {
    match decision
    case Permit => Ok(purpose)
    case PermitWithRedaction => Err(PdpDenied(UnsupportedPolicyTerm))
    case Deny(code) => Err(PdpDenied(ProblemCode(code)))
  }

  /** The part of authorisation that reaches the decision function, unless an age is unreadable. */
  function AskDecision(m: RouteMatch, purpose: string, headers: Headers, identity: string, trust: Option<ClientTrust>,
                       clockAt: Option<nat>, clockAge: Option<nat>, hash: string -> string, decide: Decide)
    : Result<Option<string>, Problem>
  {
    var scopes := TrustedScopes(m.route.governedPolicy, trust, identity);
    match ContextFor(m, purpose, headers, identity, scopes, clockAt, clockAge)
    case Err(e) => Err(e)
    case Ok(context) => Outcome(decide(context, InputFor(m, hash)), Some(purpose))
  }

  /** `authorize_server_purpose`; the two clock readings are those behind the timestamp and the age. */
  function Authorize(m: RouteMatch, headers: Headers, identity: string, trust: Option<ClientTrust>,
                     clockAt: Option<nat>, clockAge: Option<nat>, hash: string -> string, decide: Decide)
    : Result<Option<string>, Problem>
  {
    match SinglePurpose(headers)
    case Err(e) => Err(e)
    case Ok(purpose) =>
      if m.route.purposes == [] && !m.route.requirePurpose && m.route.governedPolicy.None? then Ok(purpose)
      else if purpose.None? then Err(PurposeRequired)
      else if m.route.requirePurpose && PurposeConstraints(m.route) == [] then Err(PurposeDenied)
      else AskDecision(m, purpose.value, headers, identity, trust, clockAt, clockAge, hash, decide)
  }

  // ---------------------------------------------------------------- gates agree with constraints

  /** The constraint behind a gate is present in the policy input. */
  predicate Enforced(g: Gate, input: PolicyInput) {
    match g
    case PolicyIdentity => input.policyId != ""
    case RequestedFact => input.allowedRequestedFacts != []
    case RequestedDisclosure => input.allowedRequestedDisclosures != []
    case SourceBinding => input.allowedSourceBindings != []
    case RouteIdentity => input.allowedRouteIdentities != []
    case PurposeGate => input.purposeConstraints != []
    case JurisdictionGate => input.permittedJurisdictions != []
    case AssuranceAllowedSet => input.allowedAssurance != []
    case MinimumAssurance => input.minimumAssurance.Some?
    case SourceFreshness => input.maxSourceAgeSeconds.Some?
    case LegalBasisRequired => input.requireLegalBasis
    case ConsentRequired => input.requireConsent
    case OdrlTerms => input.unsupportedOdrlTerms != []
    case Redaction => input.redactionFields != []
  }

  lemma CollectEmpty(xs: seq<string>)
    ensures Collect(xs) == [] <==> xs == []
  {
  }

  lemma NamedIsEnforced(m: RouteMatch, hash: string -> string, g: Gate)
    ensures Named(g, m.route) <==> Enforced(g, InputFor(m, hash))
  {
    match g
    case PurposeGate =>
    case Redaction =>
      if m.route.governedPolicy.Some? {
        CollectEmpty(m.route.governedPolicy.value.redactionFields);
      }
    case _ =>
  }

  /** The gates named for audit are exactly those whose constraint is sent to the decision function. */
  lemma GatesAgree(m: RouteMatch, hash: string -> string, g: Gate)
    ensures var input := InputFor(m, hash);
            && (g in input.ruleIdsByGate <==> Enforced(g, input))
            && (g in input.ruleIdsByGate ==> input.ruleIdsByGate[g] == [RuleId(m.route.id, g)])
  {
    NamedIsEnforced(m, hash, g);
    assert InputFor(m, hash).ruleIdsByGate == RuleIdsByGate(m.route);
  }

  /** A governed policy that passes validation names a gate beyond the five fixed ones. */
  lemma ValidPolicyHasGate(m: RouteMatch, hash: string -> string) returns (g: Gate)
    requires m.route.governedPolicy.Some? && PolicyOk(m.route.governedPolicy.value)
    ensures !Fixed(g) && g in InputFor(m, hash).ruleIdsByGate && Enforced(g, InputFor(m, hash))
  {
    var p := m.route.governedPolicy.value;
    g := if p.permittedPurposes != [] then PurposeGate
         else if p.permittedJurisdictions != [] then JurisdictionGate
         else if p.allowedAssurance != [] then AssuranceAllowedSet
         else if p.minimumAssurance.Some? then MinimumAssurance
         else if p.maxSourceAgeSeconds.Some? then SourceFreshness
         else if p.requireLegalBasis then LegalBasisRequired
         else if p.requireConsent then ConsentRequired
         else if p.redactionFields != [] then Redaction
         else OdrlTerms;
    GatesAgree(m, hash, g);
  }

  /** Conversely, for a policy that has no blank entry and no zero age: validation finds a gate exactly when the policy
      names one. */
  lemma HasGateIff(p: GovernedPolicy)
    requires NoBlank(p.permittedPurposes) && NoBlank(p.permittedJurisdictions) && NoBlank(p.allowedAssurance)
    requires NotBlank(p.minimumAssurance) && p.maxSourceAgeSeconds != Some(0)
    requires NoBlank(p.redactionFields) && NoBlank(p.unsupportedOdrlTerms)
    ensures HasGate(p) <==> p.permittedPurposes != [] || exists g: Gate :: NamedByPolicy(g, p)
  {
    EntryIff(p.permittedPurposes);
    EntryIff(p.permittedJurisdictions);
    EntryIff(p.allowedAssurance);
    EntryIff(p.redactionFields);
    EntryIff(p.unsupportedOdrlTerms);
    SomeNamed(p);
  }

  lemma SomeNamed(p: GovernedPolicy)
    ensures (exists g: Gate :: NamedByPolicy(g, p)) <==>
            || p.permittedJurisdictions != [] || p.allowedAssurance != [] || p.minimumAssurance.Some?
            || p.maxSourceAgeSeconds.Some? || p.requireLegalBasis || p.requireConsent
            || p.unsupportedOdrlTerms != [] || p.redactionFields != []
  {
    var g := if p.permittedJurisdictions != [] then JurisdictionGate
             else if p.allowedAssurance != [] then AssuranceAllowedSet
             else if p.minimumAssurance.Some? then MinimumAssurance
             else if p.maxSourceAgeSeconds.Some? then SourceFreshness
             else if p.requireLegalBasis then LegalBasisRequired
             else if p.requireConsent then ConsentRequired
             else if p.redactionFields != [] then Redaction
             else OdrlTerms;
    assert p.unsupportedOdrlTerms != [] || g != OdrlTerms ==> NamedByPolicy(g, p);
  }

  lemma EntryIff(xs: seq<string>)
    requires NoBlank(xs)
    ensures SomeEntry(xs) <==> xs != []
  {
    if xs != [] { assert !Blank(xs[0]); }
  }

  /** Likewise for a trusted context: it asserts something exactly when it sets a field. */
  lemma HasAssertionIff(t: TrustedContext)
    requires TrustedContextOk(t)
    ensures HasAssertion(t) <==> !SetsNothing(t)
  {
    assert Grant(t, Jurisdiction) == t.jurisdiction && Grant(t, Assurance) == t.assertedAssurance;
    assert Grant(t, LegalBasis) == t.legalBasisRef && Grant(t, Consent) == t.consentRef;
    assert Grant(t, SourceAge).Some? <==> t.sourceObservedAgeSeconds.Some?;
  }

  // ---------------------------------------------------------------- the two ways of answering

  /** The request and the route let a stated purpose through to the decision. */
  predicate Reaches(m: RouteMatch, headers: Headers) {
    && !Unconstrained(m.route)
    && SinglePurpose(headers).Ok? && SinglePurpose(headers).value.Some?
    && !(m.route.requirePurpose && PurposeConstraints(m.route) == [])
  }

  /** The answer when no decision is asked for. */
  function Early(route: Route, stated: Result<Option<string>, Problem>): Result<Option<string>, Problem> {
    match stated
    case Err(e) => Err(e)
    case Ok(purpose) =>
      if Unconstrained(route) then Ok(purpose) else if purpose.None? then Err(PurposeRequired) else Err(PurposeDenied)
  }

  lemma ReachedIsAsked(m: RouteMatch, headers: Headers, identity: string, trust: Option<ClientTrust>,
                       clockAt: Option<nat>, clockAge: Option<nat>, hash: string -> string, decide: Decide)
    requires Reaches(m, headers)
    ensures Authorize(m, headers, identity, trust, clockAt, clockAge, hash, decide) ==
            AskDecision(m, SinglePurpose(headers).value.value, headers, identity, trust, clockAt, clockAge, hash, decide)
  {
  }

  lemma UnreachedIsEarly(m: RouteMatch, headers: Headers, identity: string, trust: Option<ClientTrust>,
                         clockAt: Option<nat>, clockAge: Option<nat>, hash: string -> string, decide: Decide)
    requires !Reaches(m, headers)
    ensures Authorize(m, headers, identity, trust, clockAt, clockAge, hash, decide) ==
            Early(m.route, SinglePurpose(headers))
  {
  }

  // ---------------------------------------------------------------- refusals without a decision

  /** A timestamp is stated that is no number, or that no clock can be held against. */
  predicate TimestampUnreadable(headers: Headers, clock: Option<nat>) {
    var at := TrustHeader(headers, "x-registry-source-observed-at-unix-seconds");
    at.Some? && (ParseU64(at.value).None? || clock.None?)
  }

  predicate AgeUnreadable(headers: Headers, clock: Option<nat>) {
    var age := TrustHeader(headers, "x-registry-source-observed-age-seconds");
    if age.Some? then ParseU64(age.value).None? else TimestampUnreadable(headers, clock)
  }

  /** Some age limit is granted, so that the source's age is read, and what is stated about it cannot be read. */
  ghost predicate Unreadable(m: RouteMatch, headers: Headers, identity: string, trust: Option<ClientTrust>,
                             clockAt: Option<nat>, clockAge: Option<nat>) {
    && AgeAllowed(m.route.governedPolicy, trust, identity, 0)
    && (TimestampUnreadable(headers, clockAt) || AgeUnreadable(headers, clockAge))
  }

  lemma UnreadableIff(headers: Headers, limit: Option<nat>, clock: Option<nat>)
    ensures ObservedAt(headers, limit, clock).Err? <==> limit.Some? && TimestampUnreadable(headers, clock)
    ensures ObservedAge(headers, limit, clock).Err? <==> limit.Some? && AgeUnreadable(headers, clock)
    ensures ObservedAt(headers, limit, clock).Err? ==> ObservedAt(headers, limit, clock).error == PdpDenied(EvidenceStale)
    ensures ObservedAge(headers, limit, clock).Err? ==> ObservedAge(headers, limit, clock).error == PdpDenied(EvidenceStale)
  {
  }

  /** The decision's context is missing exactly when the source's age is unreadable. */
  lemma StaleIffUnreadable(m: RouteMatch, purpose: string, headers: Headers, identity: string,
                           trust: Option<ClientTrust>, clockAt: Option<nat>, clockAge: Option<nat>)
    ensures var context := ContextFor(m, purpose, headers, identity,
              TrustedScopes(m.route.governedPolicy, trust, identity), clockAt, clockAge);
            && (context.Err? <==> Unreadable(m, headers, identity, trust, clockAt, clockAge))
            && (context.Err? ==> context.error == PdpDenied(EvidenceStale))
  {
    var limit := AgeLimit(TrustedScopes(m.route.governedPolicy, trust, identity));
    LimitAllows(m.route.governedPolicy, trust, identity, 0);
    UnreadableIff(headers, limit, clockAt);
    UnreadableIff(headers, limit, clockAge);
  }

  lemma DecisionRefusals(m: RouteMatch, purpose: string, headers: Headers, identity: string,
                         trust: Option<ClientTrust>, clockAt: Option<nat>, clockAge: Option<nat>,
                         hash: string -> string, decide: Decide)
    ensures var r := AskDecision(m, purpose, headers, identity, trust, clockAt, clockAge, hash, decide);
            && (r.Err? ==> r.error.PdpDenied?)
            && (Unreadable(m, headers, identity, trust, clockAt, clockAge) ==> r == Err(PdpDenied(EvidenceStale)))
  {
    StaleIffUnreadable(m, purpose, headers, identity, trust, clockAt, clockAge);
  }

  /** The three refusals that never reach the decision function. */
  lemma RefusedBeforeDecision(m: RouteMatch, headers: Headers, identity: string, trust: Option<ClientTrust>,
                              clockAt: Option<nat>, clockAge: Option<nat>, hash: string -> string, decide: Decide)
    ensures var r := Authorize(m, headers, identity, trust, clockAt, clockAge, hash, decide);
            && (r == Err(PurposeRequired) <==> !Unconstrained(m.route) && SinglePurpose(headers) == Ok(None))
            && (r == Err(PurposeDenied) <==>
                || SinglePurpose(headers).Err?
                || (&& SinglePurpose(headers).value.Some? && m.route.requirePurpose
                    && PurposeConstraints(m.route) == []))
            && (Reaches(m, headers) && Unreadable(m, headers, identity, trust, clockAt, clockAge) ==>
                  r == Err(PdpDenied(EvidenceStale)))
  {
    if Reaches(m, headers) {
      ReachedIsAsked(m, headers, identity, trust, clockAt, clockAge, hash, decide);
      DecisionRefusals(m, SinglePurpose(headers).value.value, headers, identity, trust, clockAt, clockAge, hash, decide);
    } else {
      UnreachedIsEarly(m, headers, identity, trust, clockAt, clockAge, hash, decide);
    }
  }

  /** The answers under two decision functions. */
  ghost predicate Differ(m: RouteMatch, headers: Headers, identity: string, trust: Option<ClientTrust>,
                         clockAt: Option<nat>, clockAge: Option<nat>, hash: string -> string, d: Decide, d': Decide) {
    Authorize(m, headers, identity, trust, clockAt, clockAge, hash, d) !=
    Authorize(m, headers, identity, trust, clockAt, clockAge, hash, d')
  }

  /** The decision function has a say exactly when a stated purpose gets through and the source's age can be read. */
  lemma DecisionAskedIff(m: RouteMatch, headers: Headers, identity: string, trust: Option<ClientTrust>,
                         clockAt: Option<nat>, clockAge: Option<nat>, hash: string -> string)
    ensures (exists d: Decide, d': Decide :: Differ(m, headers, identity, trust, clockAt, clockAge, hash, d, d'))
            <==> Reaches(m, headers) && !Unreadable(m, headers, identity, trust, clockAt, clockAge)
  {
    if Reaches(m, headers) && !Unreadable(m, headers, identity, trust, clockAt, clockAge) {
      AskedDiffers(m, headers, identity, trust, clockAt, clockAge, hash);
    } else {
      forall d: Decide, d': Decide ensures !Differ(m, headers, identity, trust, clockAt, clockAge, hash, d, d') {
        UnaskedIsSame(m, headers, identity, trust, clockAt, clockAge, hash, d, d');
      }
    }
  }

  lemma AskedDiffers(m: RouteMatch, headers: Headers, identity: string, trust: Option<ClientTrust>,
                     clockAt: Option<nat>, clockAge: Option<nat>, hash: string -> string)
    requires Reaches(m, headers) && !Unreadable(m, headers, identity, trust, clockAt, clockAge)
    ensures exists d: Decide, d': Decide :: Differ(m, headers, identity, trust, clockAt, clockAge, hash, d, d')
  {
    ConstantAnswer(m, headers, identity, trust, clockAt, clockAge, hash, Always(Permit), Permit);
    ConstantAnswer(m, headers, identity, trust, clockAt, clockAge, hash, Always(PermitWithRedaction), PermitWithRedaction);
    assert Differ(m, headers, identity, trust, clockAt, clockAge, hash, Always(Permit), Always(PermitWithRedaction));
  }

  function Always(decision: Decision): Decide {
    (context: RequestContext, input: PolicyInput) => decision
  }

  lemma ConstantAnswer(m: RouteMatch, headers: Headers, identity: string, trust: Option<ClientTrust>,
                       clockAt: Option<nat>, clockAge: Option<nat>, hash: string -> string,
                       decide: Decide, decision: Decision)
    requires Reaches(m, headers) && !Unreadable(m, headers, identity, trust, clockAt, clockAge)
    requires forall context, input :: decide(context, input) == decision
    ensures Authorize(m, headers, identity, trust, clockAt, clockAge, hash, decide) ==
            Outcome(decision, SinglePurpose(headers).value)
  {
    StaleIffUnreadable(m, SinglePurpose(headers).value.value, headers, identity, trust, clockAt, clockAge);
    ReachedIsAsked(m, headers, identity, trust, clockAt, clockAge, hash, decide);
  }

  lemma UnaskedIsSame(m: RouteMatch, headers: Headers, identity: string, trust: Option<ClientTrust>,
                      clockAt: Option<nat>, clockAge: Option<nat>, hash: string -> string, d: Decide, d': Decide)
    requires !Reaches(m, headers) || Unreadable(m, headers, identity, trust, clockAt, clockAge)
    ensures !Differ(m, headers, identity, trust, clockAt, clockAge, hash, d, d')
  {
    if Reaches(m, headers) {
      RefusedBeforeDecision(m, headers, identity, trust, clockAt, clockAge, hash, d);
      RefusedBeforeDecision(m, headers, identity, trust, clockAt, clockAge, hash, d');
    } else {
      UnreachedIsEarly(m, headers, identity, trust, clockAt, clockAge, hash, d);
      UnreachedIsEarly(m, headers, identity, trust, clockAt, clockAge, hash, d');
    }
  }
}

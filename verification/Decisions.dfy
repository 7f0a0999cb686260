/**
 What the policy decision function is asked, in terms of the request and the configuration alone, and what its
 answer means (src/proxy.rs).
 */
module Decisions {
  import opened Basics
  import opened Text
  import opened Config
  import opened TrustContext
  import opened Problems
  import opened Validation
  import opened Purpose
  import PolicyHash

  // ---------------------------------------------------------------- what the decision sees

  /** Field `f` holds `v` exactly when the request states it under `name` and it is granted there. */
  ghost predicate SeenIffGranted(seen: Option<string>, m: RouteMatch, headers: Headers, identity: string,
                                 trust: Option<ClientTrust>, name: string, f: Field, v: string) {
    seen == Some(v) <==>
    TrustHeader(headers, name) == Some(v) && Granted(m.route.governedPolicy, trust, identity, f, v)
  }

  /** The context says what the request says: its one purpose, the peer, what its headers state of the subject, and
      of trust what is granted; the fact and the source are the path, the disclosure is the forwarding. */
  ghost predicate IsContext(context: RequestContext, m: RouteMatch, purpose: string, headers: Headers, identity: string,
                            trust: Option<ClientTrust>, clockAt: Option<nat>, clockAge: Option<nat>) {
    && context.purpose == purpose && context.requesterIdentity == identity && context.routeIdentity == m.route.id
    && context.requestedFact == context.sourceBinding == "trust-connector:" + m.upstreamPath
    && context.requestedDisclosure == "proxy_forward"
    && context.subjectRef == TrustHeader(headers, "x-registry-subject-ref")
    && context.relationship == TrustHeader(headers, "x-registry-relationship")
    && context.onBehalfOf == TrustHeader(headers, "x-registry-on-behalf-of")
    && context.credentialFormat == TrustHeader(headers, "x-registry-credential-format")
    && IsTrusted(context, m, headers, identity, trust)
    && IsObserved(context, m, headers, identity, trust, clockAt, clockAge)
  }

  /** Each verified field holds a value exactly when the request states it in that field's header and it is granted. */
  ghost predicate IsTrusted(context: RequestContext, m: RouteMatch, headers: Headers, identity: string,
                            trust: Option<ClientTrust>) {
    forall v ::
      && SeenIffGranted(context.legalBasisRef, m, headers, identity, trust, "x-registry-trust-legal-basis", LegalBasis, v)
      && SeenIffGranted(context.consentRef, m, headers, identity, trust, "x-registry-trust-consent", Consent, v)
      && SeenIffGranted(context.assertedAssurance, m, headers, identity, trust, "x-registry-trust-assurance", Assurance, v)
      && SeenIffGranted(context.jurisdiction, m, headers, identity, trust, "x-registry-trust-jurisdiction", Jurisdiction, v)
  }

  /** Age and timestamp are there exactly when they come from the request and are within the granted limit. */
  ghost predicate IsObserved(context: RequestContext, m: RouteMatch, headers: Headers, identity: string,
                             trust: Option<ClientTrust>, clockAt: Option<nat>, clockAge: Option<nat>) {
    && (forall n: nat :: context.observedAge == Some(n) <==> AgeSeen(m, headers, identity, trust, clockAge, n))
    && (forall n: nat :: context.observedAt == Some(n) <==> TimestampSeen(m, headers, identity, trust, clockAt, n))
  }

  ghost predicate AgeSeen(m: RouteMatch, headers: Headers, identity: string, trust: Option<ClientTrust>,
                          clock: Option<nat>, n: nat) {
    AgeSource(headers, clock, n) && AgeAllowed(m.route.governedPolicy, trust, identity, n)
  }

  ghost predicate TimestampSeen(m: RouteMatch, headers: Headers, identity: string, trust: Option<ClientTrust>,
                                clock: Option<nat>, n: nat) {
    TimestampSource(headers, clock, n) && AgeAllowed(m.route.governedPolicy, trust, identity, clock.value - n)
  }

  lemma ContextTrusted(m: RouteMatch, purpose: string, headers: Headers, identity: string,
                       trust: Option<ClientTrust>, clockAt: Option<nat>, clockAge: Option<nat>)
    requires ContextFor(m, purpose, headers, identity, TrustedScopes(m.route.governedPolicy, trust, identity),
                        clockAt, clockAge).Ok?
    ensures IsTrusted(ContextFor(m, purpose, headers, identity, TrustedScopes(m.route.governedPolicy, trust, identity),
                                 clockAt, clockAge).value, m, headers, identity, trust)
  {
    var policy := m.route.governedPolicy;
    var context := ContextFor(m, purpose, headers, identity, TrustedScopes(policy, trust, identity), clockAt, clockAge).value;
    forall v
      ensures SeenIffGranted(context.legalBasisRef, m, headers, identity, trust, "x-registry-trust-legal-basis", LegalBasis, v)
      ensures SeenIffGranted(context.consentRef, m, headers, identity, trust, "x-registry-trust-consent", Consent, v)
      ensures SeenIffGranted(context.assertedAssurance, m, headers, identity, trust, "x-registry-trust-assurance", Assurance, v)
      ensures SeenIffGranted(context.jurisdiction, m, headers, identity, trust, "x-registry-trust-jurisdiction", Jurisdiction, v)
    {
      HeaderCountsIffGranted(headers, policy, trust, identity, "x-registry-trust-legal-basis", LegalBasis, v);
      HeaderCountsIffGranted(headers, policy, trust, identity, "x-registry-trust-consent", Consent, v);
      HeaderCountsIffGranted(headers, policy, trust, identity, "x-registry-trust-assurance", Assurance, v);
      HeaderCountsIffGranted(headers, policy, trust, identity, "x-registry-trust-jurisdiction", Jurisdiction, v);
    }
  }

  lemma ContextObserved(m: RouteMatch, purpose: string, headers: Headers, identity: string,
                        trust: Option<ClientTrust>, clockAt: Option<nat>, clockAge: Option<nat>)
    requires ContextFor(m, purpose, headers, identity, TrustedScopes(m.route.governedPolicy, trust, identity),
                        clockAt, clockAge).Ok?
    ensures IsObserved(ContextFor(m, purpose, headers, identity, TrustedScopes(m.route.governedPolicy, trust, identity),
                                  clockAt, clockAge).value, m, headers, identity, trust, clockAt, clockAge)
  {
    var policy := m.route.governedPolicy;
    var context := ContextFor(m, purpose, headers, identity, TrustedScopes(policy, trust, identity), clockAt, clockAge).value;
    forall n: nat ensures context.observedAge == Some(n) <==> AgeSeen(m, headers, identity, trust, clockAge, n) {
      AgeWithinGrant(headers, policy, trust, identity, clockAge, n);
    }
    forall n: nat ensures context.observedAt == Some(n) <==> TimestampSeen(m, headers, identity, trust, clockAt, n) {
      TimestampWithinGrant(headers, policy, trust, identity, clockAt, n);
    }
  }

  lemma SameOption<T>(a: Option<T>, b: Option<T>)
    requires forall v :: a == Some(v) <==> b == Some(v)
    ensures a == b
  {
    if a.Some? { assert a == Some(a.value); } else if b.Some? { assert b == Some(b.value); }
  }

  lemma TrustedUnique(c: RequestContext, d: RequestContext, m: RouteMatch, headers: Headers, identity: string,
                      trust: Option<ClientTrust>)
    requires IsTrusted(c, m, headers, identity, trust) && IsTrusted(d, m, headers, identity, trust)
    ensures c.legalBasisRef == d.legalBasisRef && c.consentRef == d.consentRef
    ensures c.assertedAssurance == d.assertedAssurance && c.jurisdiction == d.jurisdiction
  {
    forall v
      ensures c.legalBasisRef == Some(v) <==> d.legalBasisRef == Some(v)
      ensures c.consentRef == Some(v) <==> d.consentRef == Some(v)
      ensures c.assertedAssurance == Some(v) <==> d.assertedAssurance == Some(v)
      ensures c.jurisdiction == Some(v) <==> d.jurisdiction == Some(v)
    {
      assert SeenIffGranted(c.legalBasisRef, m, headers, identity, trust, "x-registry-trust-legal-basis", LegalBasis, v);
      assert SeenIffGranted(d.legalBasisRef, m, headers, identity, trust, "x-registry-trust-legal-basis", LegalBasis, v);
    }
    SameOption(c.legalBasisRef, d.legalBasisRef);
    SameOption(c.consentRef, d.consentRef);
    SameOption(c.assertedAssurance, d.assertedAssurance);
    SameOption(c.jurisdiction, d.jurisdiction);
  }

  lemma ObservedUnique(c: RequestContext, d: RequestContext, m: RouteMatch, headers: Headers, identity: string,
                       trust: Option<ClientTrust>, clockAt: Option<nat>, clockAge: Option<nat>)
    requires IsObserved(c, m, headers, identity, trust, clockAt, clockAge)
    requires IsObserved(d, m, headers, identity, trust, clockAt, clockAge)
    ensures c.observedAge == d.observedAge && c.observedAt == d.observedAt
  {
    SameOption(c.observedAge, d.observedAge);
    SameOption(c.observedAt, d.observedAt);
  }

  /** What reaches the decision function is the context that the request gives, unless its source age is unreadable. */
  lemma DecisionSeesRequest(m: RouteMatch, purpose: string, headers: Headers, identity: string, trust: Option<ClientTrust>,
                            clockAt: Option<nat>, clockAge: Option<nat>, context: RequestContext)
    ensures ContextFor(m, purpose, headers, identity, TrustedScopes(m.route.governedPolicy, trust, identity),
                       clockAt, clockAge) == Ok(context) <==>
            && !Unreadable(m, headers, identity, trust, clockAt, clockAge)
            && IsContext(context, m, purpose, headers, identity, trust, clockAt, clockAge)
  {
    var sent := ContextFor(m, purpose, headers, identity, TrustedScopes(m.route.governedPolicy, trust, identity),
                           clockAt, clockAge);
    StaleIffUnreadable(m, purpose, headers, identity, trust, clockAt, clockAge);
    if sent.Ok? {
      ContextTrusted(m, purpose, headers, identity, trust, clockAt, clockAge);
      ContextObserved(m, purpose, headers, identity, trust, clockAt, clockAge);
      if IsContext(context, m, purpose, headers, identity, trust, clockAt, clockAge) {
        TrustedUnique(context, sent.value, m, headers, identity, trust);
        ObservedUnique(context, sent.value, m, headers, identity, trust, clockAt, clockAge);
      }
    }
  }

  /** The input says what the route says: its identity and material, the rule of each gate whose constraint is there,
      and of the governed policy, if there is one, every constraint as configured. */
  ghost predicate IsInput(input: PolicyInput, m: RouteMatch, hash: string -> string) {
    var route := m.route;
    && input.policyId == "trust-connector.route." + route.id
    && input.policyHash == "sha256:" + hash(PolicyHash.Material(route))
    && input.ruleIds == ["route-purpose:" + route.id]
    && (forall g: Gate :: g in input.ruleIdsByGate <==> Enforced(g, input))
    && (forall g: Gate :: g in input.ruleIdsByGate ==> input.ruleIdsByGate[g] == [RuleId(route.id, g)])
    && input.allowedRequestedFacts == input.allowedSourceBindings == ["trust-connector:" + m.upstreamPath]
    && input.allowedRequestedDisclosures == ["proxy_forward"] && input.allowedRouteIdentities == [route.id]
    && match route.governedPolicy
       case None =>
         && IsPurposes(input.purposeConstraints, route.purposes, [])
         && input.permittedJurisdictions == [] && input.allowedAssurance == [] && input.minimumAssurance == None
         && input.maxSourceAgeSeconds == None && !input.requireLegalBasis && !input.requireConsent
         && input.redactionFields == [] && input.unsupportedOdrlTerms == []
       case Some(p) =>
         && IsPurposes(input.purposeConstraints, route.purposes, p.permittedPurposes)
         && input.permittedJurisdictions == p.permittedJurisdictions && input.allowedAssurance == p.allowedAssurance
         && input.minimumAssurance == p.minimumAssurance && input.maxSourceAgeSeconds == p.maxSourceAgeSeconds
         && input.requireLegalBasis == p.requireLegalBasis && input.requireConsent == p.requireConsent
         && Ascending(input.redactionFields) && SetOf(input.redactionFields) == SetOf(p.redactionFields)
         && input.unsupportedOdrlTerms == p.unsupportedOdrlTerms
  }

  /** The purposes of the route and those of its policy, each only if there are any. */
  ghost predicate IsPurposes(constraints: seq<seq<string>>, own: seq<string>, governed: seq<string>) {
    && |constraints| == (if own != [] then 1 else 0) + (if governed != [] then 1 else 0)
    && (own != [] ==> constraints[0] == own)
    && (governed != [] ==> constraints[|constraints| - 1] == governed)
  }

  lemma InputIs(m: RouteMatch, hash: string -> string)
    ensures IsInput(InputFor(m, hash), m, hash)
  {
    forall g: Gate
      ensures g in InputFor(m, hash).ruleIdsByGate <==> Enforced(g, InputFor(m, hash))
      ensures g in InputFor(m, hash).ruleIdsByGate ==> InputFor(m, hash).ruleIdsByGate[g] == [RuleId(m.route.id, g)]
    {
      GatesAgree(m, hash, g);
    }
    if m.route.governedPolicy.Some? {
      CollectAscending(m.route.governedPolicy.value.redactionFields);
      CollectElements(m.route.governedPolicy.value.redactionFields);
    }
  }

  lemma PurposesUnique(c: seq<seq<string>>, d: seq<seq<string>>, own: seq<string>, governed: seq<string>)
    requires IsPurposes(c, own, governed) && IsPurposes(d, own, governed)
    ensures c == d
  {
  }

  lemma EnforcedIgnoresRules(g: Gate, input: PolicyInput, rules: RuleIds)
    ensures Enforced(g, input.(ruleIdsByGate := rules)) <==> Enforced(g, input)
  {
  }

  lemma RulesUnique(i: PolicyInput, j: PolicyInput, m: RouteMatch, hash: string -> string)
    requires IsInput(i, m, hash) && IsInput(j, m, hash)
    requires forall g: Gate :: Enforced(g, i) <==> Enforced(g, j)
    ensures i.ruleIdsByGate == j.ruleIdsByGate
  {
  }

  lemma FieldsUnique(i: PolicyInput, j: PolicyInput, m: RouteMatch, hash: string -> string)
    requires IsInput(i, m, hash) && IsInput(j, m, hash)
    ensures i == j.(ruleIdsByGate := i.ruleIdsByGate)
  {
    var p := m.route.governedPolicy;
    PurposesUnique(i.purposeConstraints, j.purposeConstraints, m.route.purposes,
                   if p.Some? then p.value.permittedPurposes else []);
    if p.Some? { SameListing(i.redactionFields, j.redactionFields); }
  }

  lemma SameListing(s: seq<string>, t: seq<string>)
    requires Ascending(s) && Ascending(t) && SetOf(s) == SetOf(t)
    ensures s == t
  {
    assert forall y :: y in s <==> y in SetOf(s);
    assert forall y :: y in t <==> y in SetOf(t);
    AscendingUnique(s, t);
  }

  /** What reaches the decision function of the route is the input that the configuration gives. */
  lemma DecisionSeesRoute(m: RouteMatch, hash: string -> string, input: PolicyInput)
    ensures input == InputFor(m, hash) <==> IsInput(input, m, hash)
  {
    InputIs(m, hash);
    if IsInput(input, m, hash) {
      var sent := InputFor(m, hash);
      FieldsUnique(input, sent, m, hash);
      forall g: Gate ensures Enforced(g, input) <==> Enforced(g, sent) {
        EnforcedIgnoresRules(g, sent, input.ruleIdsByGate);
      }
      RulesUnique(input, sent, m, hash);
    }
  }

  // ---------------------------------------------------------------- what a success means

  /** The request gets as far as the decision function. */
  ghost predicate IsAsked(m: RouteMatch, headers: Headers, identity: string, trust: Option<ClientTrust>,
                          clockAt: Option<nat>, clockAge: Option<nat>) {
    Reaches(m, headers) && !Unreadable(m, headers, identity, trust, clockAt, clockAge)
  }

  lemma UnaskedFail(m: RouteMatch, headers: Headers, identity: string, trust: Option<ClientTrust>,
                    clockAt: Option<nat>, clockAge: Option<nat>, hash: string -> string, decide: Decide)
    requires !Unconstrained(m.route) && !IsAsked(m, headers, identity, trust, clockAt, clockAge)
    ensures Authorize(m, headers, identity, trust, clockAt, clockAge, hash, decide).Err?
  {
    if Reaches(m, headers) {
      RefusedBeforeDecision(m, headers, identity, trust, clockAt, clockAge, hash, decide);
    } else {
      UnreachedIsEarly(m, headers, identity, trust, clockAt, clockAge, hash, decide);
    }
  }

  /** The decision function is asked about this request on this route, and answers `decision`. */
  ghost predicate Decided(m: RouteMatch, purpose: string, headers: Headers, identity: string, trust: Option<ClientTrust>,
                          clockAt: Option<nat>, clockAge: Option<nat>, hash: string -> string, decide: Decide,
                          decision: Decision) {
    exists context, input ::
      && IsContext(context, m, purpose, headers, identity, trust, clockAt, clockAge) && IsInput(input, m, hash)
      && decide(context, input) == decision
  }

  /** What a decision comes to. */
  function Answer(decision: Decision, purpose: string): Result<Option<string>, Problem> {
    match decision
    case Permit => Ok(Some(purpose))
    case PermitWithRedaction => Err(PdpDenied(UnsupportedPolicyTerm))
    case Deny(Unknown(_)) => Err(PdpDenied(PurposeNotPermitted))
    case Deny(code) => Err(PdpDenied(code))
  }

  /** A stated purpose that gets through with a readable source age gets the answer of the decision function, with
      a permit that asks for redaction and an unknown code turned into refusals of their own. */
  lemma AnswerIsDecision(m: RouteMatch, headers: Headers, identity: string, trust: Option<ClientTrust>,
                         clockAt: Option<nat>, clockAge: Option<nat>, hash: string -> string, decide: Decide)
    returns (decision: Decision)
    requires IsAsked(m, headers, identity, trust, clockAt, clockAge)
    ensures Decided(m, SinglePurpose(headers).value.value, headers, identity, trust, clockAt, clockAge, hash, decide, decision)
    ensures var purpose := SinglePurpose(headers).value.value;
            forall d :: Decided(m, purpose, headers, identity, trust, clockAt, clockAge, hash, decide, d) ==> d == decision
    ensures Authorize(m, headers, identity, trust, clockAt, clockAge, hash, decide) ==
            Answer(decision, SinglePurpose(headers).value.value)
  {
    var purpose := SinglePurpose(headers).value.value;
    ReachedIsAsked(m, headers, identity, trust, clockAt, clockAge, hash, decide);
    decision := AskedIsDecided(m, purpose, headers, identity, trust, clockAt, clockAge, hash, decide);
  }

  lemma AskedIsDecided(m: RouteMatch, purpose: string, headers: Headers, identity: string, trust: Option<ClientTrust>,
                       clockAt: Option<nat>, clockAge: Option<nat>, hash: string -> string, decide: Decide)
    returns (decision: Decision)
    requires !Unreadable(m, headers, identity, trust, clockAt, clockAge)
    ensures forall d :: Decided(m, purpose, headers, identity, trust, clockAt, clockAge, hash, decide, d) <==> d == decision
    ensures AskDecision(m, purpose, headers, identity, trust, clockAt, clockAge, hash, decide) == Answer(decision, purpose)
  {
    StaleIffUnreadable(m, purpose, headers, identity, trust, clockAt, clockAge);
    var sent := ContextFor(m, purpose, headers, identity,
                           TrustedScopes(m.route.governedPolicy, trust, identity), clockAt, clockAge);
    decision := decide(sent.value, InputFor(m, hash));
    AskedAnswers(m, purpose, headers, identity, trust, clockAt, clockAge, hash, decide, sent.value);
    DecidedIs(m, purpose, headers, identity, trust, clockAt, clockAge, hash, decide, sent.value);
  }

  lemma AskedAnswers(m: RouteMatch, purpose: string, headers: Headers, identity: string, trust: Option<ClientTrust>,
                     clockAt: Option<nat>, clockAge: Option<nat>, hash: string -> string, decide: Decide, sent: RequestContext)
    requires ContextFor(m, purpose, headers, identity, TrustedScopes(m.route.governedPolicy, trust, identity),
                        clockAt, clockAge) == Ok(sent)
    ensures AskDecision(m, purpose, headers, identity, trust, clockAt, clockAge, hash, decide) ==
            Answer(decide(sent, InputFor(m, hash)), purpose)
  {
  }

  lemma DecidedIs(m: RouteMatch, purpose: string, headers: Headers, identity: string, trust: Option<ClientTrust>,
                  clockAt: Option<nat>, clockAge: Option<nat>, hash: string -> string, decide: Decide, sent: RequestContext)
    requires ContextFor(m, purpose, headers, identity, TrustedScopes(m.route.governedPolicy, trust, identity),
                        clockAt, clockAge) == Ok(sent)
    ensures forall d :: Decided(m, purpose, headers, identity, trust, clockAt, clockAge, hash, decide, d) <==>
                        d == decide(sent, InputFor(m, hash))
  {
    DecisionSeesRequest(m, purpose, headers, identity, trust, clockAt, clockAge, sent);
    DecisionSeesRoute(m, hash, InputFor(m, hash));
    forall context, input | IsContext(context, m, purpose, headers, identity, trust, clockAt, clockAge) && IsInput(input, m, hash)
      ensures context == sent && input == InputFor(m, hash)
    {
      DecisionSeesRequest(m, purpose, headers, identity, trust, clockAt, clockAge, context);
      DecisionSeesRoute(m, hash, input);
    }
  }

  /** Success means: the one purpose the request states, and either a route without any purpose policy or a plain
      permit of the decision function, asked about this very request on this very route. */
  lemma AuthorizedMeans(m: RouteMatch, headers: Headers, identity: string, trust: Option<ClientTrust>,
                        clockAt: Option<nat>, clockAge: Option<nat>, hash: string -> string, decide: Decide,
                        purpose: Option<string>)
    ensures Authorize(m, headers, identity, trust, clockAt, clockAge, hash, decide) == Ok(purpose) <==>
            && SinglePurpose(headers) == Ok(purpose)
            && (|| Unconstrained(m.route)
                || (&& purpose.Some? && (m.route.requirePurpose ==> PurposeConstraints(m.route) != [])
                    && !Unreadable(m, headers, identity, trust, clockAt, clockAge)
                    && Decided(m, purpose.value, headers, identity, trust, clockAt, clockAge, hash, decide, Permit)))
  {
    if IsAsked(m, headers, identity, trust, clockAt, clockAge) {
      AskedMeans(m, SinglePurpose(headers).value.value, headers, identity, trust, clockAt, clockAge, hash, decide, purpose);
    } else {
      UnaskedMeans(m, headers, identity, trust, clockAt, clockAge, hash, decide, purpose);
    }
  }

  lemma AskedMeans(m: RouteMatch, stated: string, headers: Headers, identity: string, trust: Option<ClientTrust>,
                   clockAt: Option<nat>, clockAge: Option<nat>, hash: string -> string, decide: Decide,
                   purpose: Option<string>)
    requires IsAsked(m, headers, identity, trust, clockAt, clockAge) && SinglePurpose(headers) == Ok(Some(stated))
    ensures Authorize(m, headers, identity, trust, clockAt, clockAge, hash, decide) == Ok(purpose) <==>
            purpose == Some(stated) && Decided(m, stated, headers, identity, trust, clockAt, clockAge, hash, decide, Permit)
  {
    var decision := AnswerIsDecision(m, headers, identity, trust, clockAt, clockAge, hash, decide);
    PermitIsSuccess(decision, stated, purpose);
  }

  lemma PermitIsSuccess(decision: Decision, stated: string, purpose: Option<string>)
    ensures Answer(decision, stated) == Ok(purpose) <==> purpose == Some(stated) && decision == Permit
  {
  }

  lemma UnaskedMeans(m: RouteMatch, headers: Headers, identity: string, trust: Option<ClientTrust>,
                     clockAt: Option<nat>, clockAge: Option<nat>, hash: string -> string, decide: Decide,
                     purpose: Option<string>)
    requires !IsAsked(m, headers, identity, trust, clockAt, clockAge)
    ensures Authorize(m, headers, identity, trust, clockAt, clockAge, hash, decide) == Ok(purpose) <==>
            Unconstrained(m.route) && SinglePurpose(headers) == Ok(purpose)
  {
    if Unconstrained(m.route) {
      UnreachedIsEarly(m, headers, identity, trust, clockAt, clockAge, hash, decide);
    } else {
      UnaskedFail(m, headers, identity, trust, clockAt, clockAge, hash, decide);
    }
  }

  // ---------------------------------------------------------------- single-minded decision functions

  // Decision functions that look at one thing only, and permit one value of it.
  ghost predicate PermitsPurpose(decide: Decide, q: string) {
    forall context, input :: decide(context, input) == Permit <==> context.purpose == q
  }

  ghost predicate PermitsRequester(decide: Decide, q: string) {
    forall context, input :: decide(context, input) == Permit <==> context.requesterIdentity == q
  }

  ghost predicate PermitsPath(decide: Decide, q: string) {
    forall context, input :: decide(context, input) == Permit <==> context.requestedFact == "trust-connector:" + q
  }

  lemma AskedSucceed(m: RouteMatch, headers: Headers, identity: string, trust: Option<ClientTrust>,
                     clockAt: Option<nat>, clockAge: Option<nat>, hash: string -> string, decide: Decide)
    returns (context: RequestContext, input: PolicyInput)
    requires IsAsked(m, headers, identity, trust, clockAt, clockAge)
    ensures IsContext(context, m, SinglePurpose(headers).value.value, headers, identity, trust, clockAt, clockAge)
    ensures Authorize(m, headers, identity, trust, clockAt, clockAge, hash, decide).Ok? <==> decide(context, input) == Permit
  {
    var purpose := SinglePurpose(headers).value.value;
    var decision := AnswerIsDecision(m, headers, identity, trust, clockAt, clockAge, hash, decide);
    context, input := DecidedOn(m, purpose, headers, identity, trust, clockAt, clockAge, hash, decide, decision);
  }

  lemma DecidedOn(m: RouteMatch, purpose: string, headers: Headers, identity: string, trust: Option<ClientTrust>,
                  clockAt: Option<nat>, clockAge: Option<nat>, hash: string -> string, decide: Decide, decision: Decision)
    returns (context: RequestContext, input: PolicyInput)
    requires Decided(m, purpose, headers, identity, trust, clockAt, clockAge, hash, decide, decision)
    ensures IsContext(context, m, purpose, headers, identity, trust, clockAt, clockAge)
    ensures decide(context, input) == decision
  {
    context, input :| IsContext(context, m, purpose, headers, identity, trust, clockAt, clockAge) &&
                      IsInput(input, m, hash) && decide(context, input) == decision;
  }

  /** Under a decision function that permits one purpose only, success on a route with a purpose policy means that the
      request states that purpose. */
  lemma AskedAboutPurpose(m: RouteMatch, headers: Headers, identity: string, trust: Option<ClientTrust>,
                          clockAt: Option<nat>, clockAge: Option<nat>, hash: string -> string, decide: Decide, q: string)
    requires !Unconstrained(m.route) && PermitsPurpose(decide, q)
    ensures Authorize(m, headers, identity, trust, clockAt, clockAge, hash, decide).Ok? <==>
            IsAsked(m, headers, identity, trust, clockAt, clockAge) && SinglePurpose(headers) == Ok(Some(q))
  {
    if IsAsked(m, headers, identity, trust, clockAt, clockAge) {
      var context, input := AskedSucceed(m, headers, identity, trust, clockAt, clockAge, hash, decide);
    } else {
      UnaskedFail(m, headers, identity, trust, clockAt, clockAge, hash, decide);
    }
  }

  /** Under one that permits one requester only, that the verified peer is that requester. */
  lemma AskedAboutRequester(m: RouteMatch, headers: Headers, identity: string, trust: Option<ClientTrust>,
                            clockAt: Option<nat>, clockAge: Option<nat>, hash: string -> string, decide: Decide, q: string)
    requires !Unconstrained(m.route) && PermitsRequester(decide, q)
    ensures Authorize(m, headers, identity, trust, clockAt, clockAge, hash, decide).Ok? <==>
            IsAsked(m, headers, identity, trust, clockAt, clockAge) && identity == q
  {
    if IsAsked(m, headers, identity, trust, clockAt, clockAge) {
      var context, input := AskedSucceed(m, headers, identity, trust, clockAt, clockAge, hash, decide);
    } else {
      UnaskedFail(m, headers, identity, trust, clockAt, clockAge, hash, decide);
    }
  }

  /** Under one that permits one path only, that the request is for that path. */
  lemma AskedAboutPath(m: RouteMatch, headers: Headers, identity: string, trust: Option<ClientTrust>,
                       clockAt: Option<nat>, clockAge: Option<nat>, hash: string -> string, decide: Decide, q: string)
    requires !Unconstrained(m.route) && PermitsPath(decide, q)
    ensures Authorize(m, headers, identity, trust, clockAt, clockAge, hash, decide).Ok? <==>
            IsAsked(m, headers, identity, trust, clockAt, clockAge) && m.upstreamPath == q
  {
    if IsAsked(m, headers, identity, trust, clockAt, clockAge) {
      var context, input := AskedSucceed(m, headers, identity, trust, clockAt, clockAge, hash, decide);
    } else {
      UnaskedFail(m, headers, identity, trust, clockAt, clockAge, hash, decide);
    }
    PathApart(m.upstreamPath, q);
  }

  lemma PathApart(path: string, q: string)
    ensures "trust-connector:" + path == "trust-connector:" + q <==> path == q
  {
    var prefix := "trust-connector:";
    assert (prefix + path)[|prefix|..] == path && (prefix + q)[|prefix|..] == q;
  }
}

/**
 What the policy hash commits to: exactly when routes of equal material authorise alike, for every request and
 for every decision function that reads its lists as sets.
 */
module Commitment {
  import opened Basics
  import opened Text
  import opened Config
  import opened Routing
  import opened TrustContext
  import opened Problems
  import opened Validation
  import opened Purpose
  import PolicyHash

  // ---------------------------------------------------------------- lists read as sets

  ghost predicate SameSets(xs: seq<seq<string>>, ys: seq<seq<string>>) {
    |xs| == |ys| && forall i :: 0 <= i < |xs| ==> SetOf(xs[i]) == SetOf(ys[i])
  }

  /** The two inputs differ at most in order and repetition within lists. */
  ghost predicate SameReading(p: PolicyInput, q: PolicyInput) {
    && SameSets(p.purposeConstraints, q.purposeConstraints)
    && SetOf(p.permittedJurisdictions) == SetOf(q.permittedJurisdictions)
    && SetOf(p.allowedAssurance) == SetOf(q.allowedAssurance)
    && SetOf(p.unsupportedOdrlTerms) == SetOf(q.unsupportedOdrlTerms)
    && q == p.(purposeConstraints := q.purposeConstraints, permittedJurisdictions := q.permittedJurisdictions,
               allowedAssurance := q.allowedAssurance, unsupportedOdrlTerms := q.unsupportedOdrlTerms)
  }

  ghost predicate ReadsListsAsSets(decide: Decide) {
    forall context, p, q :: SameReading(p, q) ==> decide(context, p) == decide(context, q)
  }

  /** The two routes give the same answer to every request, whatever the identity, the trust configuration, the
      clock, the hash and the decision function. */
  ghost predicate AuthorizeAlike(r: Route, s: Route) {
    forall path: string, headers: Headers, identity: string, trust: Option<ClientTrust>, clockAt: Option<nat>,
      clockAge: Option<nat>, hash: string -> string, decide: Decide ::
      ReadsListsAsSets(decide) ==> SameAnswer(r, s, path, headers, identity, trust, clockAt, clockAge, hash, decide)
  }

  ghost predicate SameAnswer(r: Route, s: Route, path: string, headers: Headers, identity: string,
                             trust: Option<ClientTrust>, clockAt: Option<nat>, clockAge: Option<nat>,
                             hash: string -> string, decide: Decide) {
    Authorize(RouteMatch(r, path), headers, identity, trust, clockAt, clockAge, hash, decide) ==
    Authorize(RouteMatch(s, path), headers, identity, trust, clockAt, clockAge, hash, decide)
  }

  // ---------------------------------------------------------------- the condition

  /** What material does not show of two policies: whether an empty text is set. It can matter in two places, the
      minimum assurance that is sent, and whether the trusted context sets anything at all. */
  ghost predicate SetAlike(p: GovernedPolicy, q: GovernedPolicy) {
    && p.minimumAssurance == q.minimumAssurance
    && (SetsNothing(p.trustedContext) <==> SetsNothing(q.trustedContext))
  }

  /** No policy, or no request that reaches the decision function, or policies that are set alike. */
  ghost predicate Undivided(r: Route, s: Route) {
    || r.governedPolicy.None?
    || (r.requirePurpose && PurposeConstraints(r) == [])
    || (s.governedPolicy.Some? && SetAlike(r.governedPolicy.value, s.governedPolicy.value))
  }

  // ---------------------------------------------------------------- it suffices

  lemma SameEmptiness(xs: seq<string>, ys: seq<string>)
    requires SetOf(xs) == SetOf(ys)
    ensures xs == [] <==> ys == []
  {
    if xs != [] { assert xs[0] in SetOf(ys); }
    if ys != [] { assert ys[0] in SetOf(xs); }
  }

  lemma AgreeOnConstraints(r: Route, s: Route)
    requires PolicyHash.Normalize(r) == PolicyHash.Normalize(s)
    ensures SameSets(PurposeConstraints(r), PurposeConstraints(s))
    ensures Unconstrained(r) <==> Unconstrained(s)
    ensures PurposeConstraints(r) == [] <==> PurposeConstraints(s) == []
  {
    SameEmptiness(r.purposes, s.purposes);
    if r.governedPolicy.Some? {
      SameEmptiness(r.governedPolicy.value.permittedPurposes, s.governedPolicy.value.permittedPurposes);
    }
  }

  lemma AgreeOnNames(r: Route, s: Route, g: Gate)
    requires PolicyHash.Normalize(r) == PolicyHash.Normalize(s)
    requires r.governedPolicy.Some? ==> SetAlike(r.governedPolicy.value, s.governedPolicy.value)
    ensures Named(g, r) <==> Named(g, s)
  {
    SameEmptiness(r.purposes, s.purposes);
    if r.governedPolicy.Some? {
      var p, q := r.governedPolicy.value, s.governedPolicy.value;
      SameEmptiness(p.permittedPurposes, q.permittedPurposes);
      SameEmptiness(p.permittedJurisdictions, q.permittedJurisdictions);
      SameEmptiness(p.allowedAssurance, q.allowedAssurance);
      SameEmptiness(p.unsupportedOdrlTerms, q.unsupportedOdrlTerms);
      SameEmptiness(p.redactionFields, q.redactionFields);
    }
  }

  lemma AgreeOnInput(r: Route, s: Route, path: string, hash: string -> string)
    requires PolicyHash.Normalize(r) == PolicyHash.Normalize(s) && PolicyHash.Material(r) == PolicyHash.Material(s)
    requires r.governedPolicy.Some? ==> SetAlike(r.governedPolicy.value, s.governedPolicy.value)
    ensures SameReading(InputFor(RouteMatch(r, path), hash), InputFor(RouteMatch(s, path), hash))
  {
    AgreeOnConstraints(r, s);
    forall g: Gate ensures Named(g, r) <==> Named(g, s) {
      AgreeOnNames(r, s, g);
    }
    assert RuleIdsByGate(r) == RuleIdsByGate(s);
    if r.governedPolicy.Some? {
      CollectNormal(r.governedPolicy.value.redactionFields, s.governedPolicy.value.redactionFields);
    }
  }

  /** A value that is not empty is granted by both policies or by neither. */
  lemma AgreeOnGrants(p: GovernedPolicy, q: GovernedPolicy, trust: Option<ClientTrust>, identity: string, f: Field, v: string)
    requires PolicyHash.NormalizePolicy(p) == PolicyHash.NormalizePolicy(q) && SetAlike(p, q) && v != ""
    ensures Granted(Some(p), trust, identity, f, v) <==> Granted(Some(q), trust, identity, f, v)
  {
  }

  ghost predicate SameHeader(headers: Headers, scopes: seq<string>, scopes': seq<string>, name: string, f: Field) {
    VerifiedHeader(headers, scopes, name, f) == VerifiedHeader(headers, scopes', name, f)
  }

  lemma AgreeOnHeader(p: GovernedPolicy, q: GovernedPolicy, trust: Option<ClientTrust>, identity: string,
                      headers: Headers, name: string, f: Field)
    requires PolicyHash.NormalizePolicy(p) == PolicyHash.NormalizePolicy(q) && SetAlike(p, q)
    ensures SameHeader(headers, TrustedScopes(Some(p), trust, identity), TrustedScopes(Some(q), trust, identity), name, f)
  {
    var value := TrustHeader(headers, name);
    if value.Some? {
      AgreeOnGrants(p, q, trust, identity, f, value.value);
      ScopesAreGrants(Some(p), trust, identity, f, value.value);
      ScopesAreGrants(Some(q), trust, identity, f, value.value);
    }
  }

  lemma AgreeOnAgeLimit(p: GovernedPolicy, q: GovernedPolicy, trust: Option<ClientTrust>, identity: string)
    requires PolicyHash.NormalizePolicy(p) == PolicyHash.NormalizePolicy(q) && SetAlike(p, q)
    ensures AgeLimit(TrustedScopes(Some(p), trust, identity)) == AgeLimit(TrustedScopes(Some(q), trust, identity))
  {
    var a, b := AgeLimit(TrustedScopes(Some(p), trust, identity)), AgeLimit(TrustedScopes(Some(q), trust, identity));
    if a.Some? {
      AgeLimitIsGrant(Some(p), trust, identity, a.value);
      AgeLimitIsGrant(Some(q), trust, identity, a.value);
    } else if b.Some? {
      AgeLimitIsGrant(Some(p), trust, identity, b.value);
      AgeLimitIsGrant(Some(q), trust, identity, b.value);
    }
  }

  /** The decision's context depends on the scopes only through the headers that count and the age limit. */
  lemma AssembledAlike(m: RouteMatch, m': RouteMatch, purpose: string, headers: Headers, identity: string,
                       scopes: seq<string>, scopes': seq<string>,
                       at: Result<Option<nat>, Problem>, age: Result<Option<nat>, Problem>)
    requires m.route.id == m'.route.id && m.upstreamPath == m'.upstreamPath
    requires SameHeader(headers, scopes, scopes', "x-registry-trust-legal-basis", LegalBasis)
    requires SameHeader(headers, scopes, scopes', "x-registry-trust-consent", Consent)
    requires SameHeader(headers, scopes, scopes', "x-registry-trust-assurance", Assurance)
    requires SameHeader(headers, scopes, scopes', "x-registry-trust-jurisdiction", Jurisdiction)
    ensures Assemble(m, purpose, headers, identity, scopes, at, age) ==
            Assemble(m', purpose, headers, identity, scopes', at, age)
  {
  }

  lemma AgreeOnContext(r: Route, s: Route, path: string, purpose: string, headers: Headers, identity: string,
                       trust: Option<ClientTrust>, clockAt: Option<nat>, clockAge: Option<nat>)
    requires PolicyHash.Normalize(r) == PolicyHash.Normalize(s)
    requires r.governedPolicy.Some? ==> SetAlike(r.governedPolicy.value, s.governedPolicy.value)
    ensures ContextFor(RouteMatch(r, path), purpose, headers, identity,
                       TrustedScopes(r.governedPolicy, trust, identity), clockAt, clockAge) ==
            ContextFor(RouteMatch(s, path), purpose, headers, identity,
                       TrustedScopes(s.governedPolicy, trust, identity), clockAt, clockAge)
  {
    var scopes, scopes' := TrustedScopes(r.governedPolicy, trust, identity), TrustedScopes(s.governedPolicy, trust, identity);
    if r.governedPolicy.Some? {
      var p, q := r.governedPolicy.value, s.governedPolicy.value;
      AgreeOnAgeLimit(p, q, trust, identity);
      AgreeOnHeader(p, q, trust, identity, headers, "x-registry-trust-legal-basis", LegalBasis);
      AgreeOnHeader(p, q, trust, identity, headers, "x-registry-trust-consent", Consent);
      AgreeOnHeader(p, q, trust, identity, headers, "x-registry-trust-assurance", Assurance);
      AgreeOnHeader(p, q, trust, identity, headers, "x-registry-trust-jurisdiction", Jurisdiction);
    }
    AssembledAlike(RouteMatch(r, path), RouteMatch(s, path), purpose, headers, identity, scopes, scopes',
                   ObservedAt(headers, AgeLimit(scopes), clockAt), ObservedAge(headers, AgeLimit(scopes), clockAge));
  }

  lemma AskedAlike(r: Route, s: Route, path: string, purpose: string, headers: Headers, identity: string,
                   trust: Option<ClientTrust>, clockAt: Option<nat>, clockAge: Option<nat>,
                   hash: string -> string, decide: Decide)
    requires PolicyHash.Normalize(r) == PolicyHash.Normalize(s) && PolicyHash.Material(r) == PolicyHash.Material(s)
    requires r.governedPolicy.Some? ==> SetAlike(r.governedPolicy.value, s.governedPolicy.value)
    requires ReadsListsAsSets(decide)
    ensures AskDecision(RouteMatch(r, path), purpose, headers, identity, trust, clockAt, clockAge, hash, decide) ==
            AskDecision(RouteMatch(s, path), purpose, headers, identity, trust, clockAt, clockAge, hash, decide)
  {
    AgreeOnContext(r, s, path, purpose, headers, identity, trust, clockAt, clockAge);
    AgreeOnInput(r, s, path, hash);
  }

  lemma ReachedTogether(r: Route, s: Route, path: string, headers: Headers)
    requires PolicyHash.Normalize(r) == PolicyHash.Normalize(s)
    ensures Reaches(RouteMatch(r, path), headers) <==> Reaches(RouteMatch(s, path), headers)
    ensures Early(r, SinglePurpose(headers)) == Early(s, SinglePurpose(headers))
  {
    AgreeOnConstraints(r, s);
  }

  lemma UndividedSuffices(r: Route, s: Route, path: string, headers: Headers, identity: string,
                          trust: Option<ClientTrust>, clockAt: Option<nat>, clockAge: Option<nat>,
                          hash: string -> string, decide: Decide)
    requires PolicyHash.Normalize(r) == PolicyHash.Normalize(s) && PolicyHash.Material(r) == PolicyHash.Material(s)
    requires Undivided(r, s) && ReadsListsAsSets(decide)
    ensures SameAnswer(r, s, path, headers, identity, trust, clockAt, clockAge, hash, decide)
  {
    ReachedTogether(r, s, path, headers);
    var m, m' := RouteMatch(r, path), RouteMatch(s, path);
    if Reaches(m, headers) {
      AskedAlike(r, s, path, SinglePurpose(headers).value.value, headers, identity, trust, clockAt, clockAge, hash, decide);
      ReachedIsAsked(m, headers, identity, trust, clockAt, clockAge, hash, decide);
      ReachedIsAsked(m', headers, identity, trust, clockAt, clockAge, hash, decide);
    } else {
      UnreachedIsEarly(m, headers, identity, trust, clockAt, clockAge, hash, decide);
      UnreachedIsEarly(m', headers, identity, trust, clockAt, clockAge, hash, decide);
    }
  }

  // ---------------------------------------------------------------- it is necessary

  const ID := "id"
  const JURISDICTION := "x-registry-trust-jurisdiction"

  /** A request that states a purpose and a jurisdiction, and a peer to whom that jurisdiction is granted. */
  const HEADERS: Headers := [Header(DATA_PURPOSE, "p"), Header(JURISDICTION, "j")]

  const TRUST := ClientTrust([], [], [], [Entitlement(ID, TrustedContext(Some("j"), None, None, None, None))])

  function ByMinimum(): Decide {
    (context: RequestContext, input: PolicyInput) =>
      if input.minimumAssurance.Some? then Deny(PurposeNotPermitted) else Permit
  }

  function ByJurisdiction(): Decide {
    (context: RequestContext, input: PolicyInput) =>
      if context.jurisdiction.Some? then Deny(PurposeNotPermitted) else Permit
  }

  lemma HeadersRead()
    ensures SinglePurpose(HEADERS) == Ok(Some("p")) && TrustHeader(HEADERS, JURISDICTION) == Some("j")
    ensures TrustHeader(HEADERS, OBSERVED_AT) == None && TrustHeader(HEADERS, OBSERVED_AGE) == None
  {
    HeaderNames();
    TwoHeaders(HEADERS[0], HEADERS[1], DATA_PURPOSE);
    TwoHeaders(HEADERS[0], HEADERS[1], JURISDICTION);
    TwoHeaders(HEADERS[0], HEADERS[1], OBSERVED_AT);
    TwoHeaders(HEADERS[0], HEADERS[1], OBSERVED_AGE);
    assert Purposes(["p"]) == ["p"] by { assert ["p"][1..] == []; }
  }

  lemma TwoHeaders(a: Header, b: Header, name: string)
    ensures GetAll([a, b], name) == (if a.name == name then [a.value] else []) + if b.name == name then [b.value] else []
  {
    assert [a, b][1..] == [b] && [b][1..] == [];
    assert GetAll([b], name) == if b.name == name then [b.value] else [];
  }

  lemma HeaderNames()
    ensures JURISDICTION != DATA_PURPOSE && OBSERVED_AT != DATA_PURPOSE && OBSERVED_AGE != DATA_PURPOSE
    ensures OBSERVED_AT != JURISDICTION && OBSERVED_AGE != JURISDICTION
  {
    assert |DATA_PURPOSE| == 12 && |JURISDICTION| == 29 && |OBSERVED_AT| == 42 && |OBSERVED_AGE| == 38;
  }

  /** On this request a governed route that lets a stated purpose through asks the decision function. */
  lemma Asked(r: Route, hash: string -> string, decide: Decide) returns (context: RequestContext)
    requires r.governedPolicy.Some? && !(r.requirePurpose && PurposeConstraints(r) == [])
    ensures Authorize(RouteMatch(r, ""), HEADERS, ID, Some(TRUST), None, None, hash, decide) ==
            Outcome(decide(context, InputFor(RouteMatch(r, ""), hash)), Some("p"))
    ensures context.jurisdiction.Some? <==> Granted(r.governedPolicy, Some(TRUST), ID, Jurisdiction, "j")
  {
    HeadersRead();
    var scopes := TrustedScopes(r.governedPolicy, Some(TRUST), ID);
    var result := ContextFor(RouteMatch(r, ""), "p", HEADERS, ID, scopes, None, None);
    assert result.Ok?;
    context := result.value;
    ScopesAreGrants(r.governedPolicy, Some(TRUST), ID, Jurisdiction, "j");
  }

  /** The answer to it, as a plain function of what the decision function looks at. */
  function Answer(denied: bool): Result<Option<string>, Problem> {
    Outcome(if denied then Deny(PurposeNotPermitted) else Permit, Some("p"))
  }

  lemma AnswerByMinimum(r: Route, hash: string -> string)
    requires r.governedPolicy.Some? && !(r.requirePurpose && PurposeConstraints(r) == [])
    ensures Authorize(RouteMatch(r, ""), HEADERS, ID, Some(TRUST), None, None, hash, ByMinimum()) ==
            Answer(r.governedPolicy.value.minimumAssurance.Some?)
  {
    var context := Asked(r, hash, ByMinimum());
  }

  lemma AnswerByJurisdiction(r: Route, hash: string -> string)
    requires r.governedPolicy.Some? && !(r.requirePurpose && PurposeConstraints(r) == [])
    ensures Authorize(RouteMatch(r, ""), HEADERS, ID, Some(TRUST), None, None, hash, ByJurisdiction()) ==
            Answer(Granted(r.governedPolicy, Some(TRUST), ID, Jurisdiction, "j"))
  {
    var context := Asked(r, hash, ByJurisdiction());
  }

  lemma GrantedByPeer(p: GovernedPolicy)
    ensures Granted(Some(p), Some(TRUST), ID, Jurisdiction, "j") <==>
            SetsNothing(p.trustedContext) || p.trustedContext.jurisdiction == Some("j")
  {
    assert PeerContext(Some(TRUST), ID) == Some(TRUST.entitlements[0].trustedContext) by {
      assert Trim(ID) == ID;
    }
  }

  lemma DividedDiffers(r: Route, s: Route, hash: string -> string)
    returns (path: string, headers: Headers, identity: string, trust: Option<ClientTrust>, clock: Option<nat>, decide: Decide)
    requires PolicyHash.Normalize(r) == PolicyHash.Normalize(s) && !Undivided(r, s)
    ensures ReadsListsAsSets(decide)
    ensures !SameAnswer(r, s, path, headers, identity, trust, clock, clock, hash, decide)
  {
    AgreeOnConstraints(r, s);
    path, headers, identity, trust, clock := "", HEADERS, ID, Some(TRUST), None;
    if r.governedPolicy.value.minimumAssurance == s.governedPolicy.value.minimumAssurance {
      decide := ByJurisdiction();
      JurisdictionTells(r.governedPolicy.value, s.governedPolicy.value);
      AnswerByJurisdiction(r, hash);
      AnswerByJurisdiction(s, hash);
    } else {
      decide := ByMinimum();
      AnswerByMinimum(r, hash);
      AnswerByMinimum(s, hash);
    }
  }

  lemma JurisdictionTells(p: GovernedPolicy, q: GovernedPolicy)
    requires PolicyHash.NormalizePolicy(p) == PolicyHash.NormalizePolicy(q)
    requires SetsNothing(p.trustedContext) != SetsNothing(q.trustedContext)
    ensures Granted(Some(p), Some(TRUST), ID, Jurisdiction, "j") != Granted(Some(q), Some(TRUST), ID, Jurisdiction, "j")
  {
    GrantedByPeer(p);
    GrantedByPeer(q);
    assert Grant(p.trustedContext, Jurisdiction) == p.trustedContext.jurisdiction;
    assert Grant(q.trustedContext, Jurisdiction) == q.trustedContext.jurisdiction;
  }

  // ---------------------------------------------------------------- the results

  lemma UndividedAlike(r: Route, s: Route)
    requires PolicyHash.Normalize(r) == PolicyHash.Normalize(s) && PolicyHash.Material(r) == PolicyHash.Material(s)
    requires Undivided(r, s)
    ensures AuthorizeAlike(r, s)
  {
    forall path: string, headers: Headers, identity: string, trust: Option<ClientTrust>, clockAt: Option<nat>,
      clockAge: Option<nat>, hash: string -> string, decide: Decide | ReadsListsAsSets(decide)
      ensures SameAnswer(r, s, path, headers, identity, trust, clockAt, clockAge, hash, decide)
    {
      UndividedSuffices(r, s, path, headers, identity, trust, clockAt, clockAge, hash, decide);
    }
  }

  lemma DividedNotAlike(r: Route, s: Route)
    requires PolicyHash.Normalize(r) == PolicyHash.Normalize(s) && !Undivided(r, s)
    ensures !AuthorizeAlike(r, s)
  {
    var hash := (text: string) => text;
    var path, headers, identity, trust, clock, decide := DividedDiffers(r, s, hash);
  }

  /** Exactly when routes of equal material authorise alike. */
  lemma AuthorizeAlikeIff(r: Route, s: Route)
    requires PolicyHash.Material(r) == PolicyHash.Material(s)
    ensures AuthorizeAlike(r, s) <==> Undivided(r, s)
  {
    PolicyHash.MaterialIsNormalForm(r, s);
    if Undivided(r, s) {
      UndividedAlike(r, s);
    } else {
      DividedNotAlike(r, s);
    }
  }

  lemma PresentTexts(a: Option<string>, b: Option<string>)
    requires NotBlank(a) && NotBlank(b) && OrEmpty(a) == OrEmpty(b)
    ensures a == b
  {
  }

  lemma ValidPoliciesSetAlike(p: GovernedPolicy, q: GovernedPolicy)
    requires PolicyOk(p) && PolicyOk(q) && PolicyHash.NormalizePolicy(p) == PolicyHash.NormalizePolicy(q)
    ensures p.minimumAssurance == q.minimumAssurance && p.trustedContext == q.trustedContext
  {
    PresentTexts(p.minimumAssurance, q.minimumAssurance);
    PresentTexts(p.trustedContext.jurisdiction, q.trustedContext.jurisdiction);
    PresentTexts(p.trustedContext.assertedAssurance, q.trustedContext.assertedAssurance);
    PresentTexts(p.trustedContext.legalBasisRef, q.trustedContext.legalBasisRef);
    PresentTexts(p.trustedContext.consentRef, q.trustedContext.consentRef);
  }

  /** The hash commits to the decision: validated routes of equal material authorise alike. */
  lemma EqualMaterialAuthorizesAlike(r: Route, s: Route)
    requires RouteOk(r) && RouteOk(s) && PolicyHash.Material(r) == PolicyHash.Material(s)
    ensures AuthorizeAlike(r, s)
  {
    PolicyHash.MaterialIsNormalForm(r, s);
    if r.governedPolicy.Some? {
      ValidPoliciesSetAlike(r.governedPolicy.value, s.governedPolicy.value);
    }
    AuthorizeAlikeIff(r, s);
  }

  function Bare(minimumAssurance: Option<string>): Route {
    var policy := GovernedPolicy([], [], [], minimumAssurance, None, true, false, [], [],
                                 TrustedContext(None, None, None, None, None));
    Route("r", ["GET"], None, Some("/r"), false, None, Some("id"), [], None, [], Some(policy), false)
  }

  /** Without validation, which refuses the second route, an empty minimum assurance and none have the same
      material and are decided differently. */
  lemma UnvalidatedMayDiffer()
    ensures PolicyHash.Material(Bare(None)) == PolicyHash.Material(Bare(Some("")))
    ensures !AuthorizeAlike(Bare(None), Bare(Some(""))) && !RouteOk(Bare(Some("")))
  {
    var r, s := Bare(None), Bare(Some(""));
    assert PolicyHash.Normalize(r) == PolicyHash.Normalize(s);
    PolicyHash.MaterialIsNormalForm(r, s);
    AuthorizeAlikeIff(r, s);
  }
}

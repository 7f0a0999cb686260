/** The policy fingerprint (src/proxy.rs): the fields of a route's policy and the material they make. */
module PolicyHash {
  import opened Basics
  import opened Text
  import opened Config
  import opened HashLines

  // ---------------------------------------------------------------- the fields of a route

  datatype Tag =
    | Schema | RouteId | ClientIdentity | LocalPrefix | UpstreamPrefix | RequirePurpose | MethodName | Purpose
    | Governed | MinimumAssurance | MaxSourceAge | RequireLegalBasis | RequireConsent
    | PermittedPurpose | PermittedJurisdiction | AllowedAssurance | RedactionField | UnsupportedOdrlTerm
    | TrustedJurisdiction | TrustedAssurance | TrustedLegalBasis | TrustedConsent | TrustedAge

  const TAGS: seq<Tag> := [
    Schema, RouteId, ClientIdentity, LocalPrefix, UpstreamPrefix, RequirePurpose, MethodName, Purpose,
    Governed, MinimumAssurance, MaxSourceAge, RequireLegalBasis, RequireConsent,
    PermittedPurpose, PermittedJurisdiction, AllowedAssurance, RedactionField, UnsupportedOdrlTerm,
    TrustedJurisdiction, TrustedAssurance, TrustedLegalBasis, TrustedConsent, TrustedAge]

  function Name(tag: Tag): string {
    match tag
    case Schema => "schema"
    case RouteId => "route_id"
    case ClientIdentity => "client_identity"
    case LocalPrefix => "local_prefix"
    case UpstreamPrefix => "upstream_prefix"
    case RequirePurpose => "require_purpose"
    case MethodName => "method"
    case Purpose => "purpose"
    case Governed => "governed_policy"
    case MinimumAssurance => "governed_minimum_assurance"
    case MaxSourceAge => "governed_max_source_age_seconds"
    case RequireLegalBasis => "governed_require_legal_basis"
    case RequireConsent => "governed_require_consent"
    case PermittedPurpose => "governed_permitted_purpose"
    case PermittedJurisdiction => "governed_permitted_jurisdiction"
    case AllowedAssurance => "governed_allowed_assurance"
    case RedactionField => "governed_redaction_field"
    case UnsupportedOdrlTerm => "governed_unsupported_odrl_term"
    case TrustedJurisdiction => "trusted_jurisdiction"
    case TrustedAssurance => "trusted_asserted_assurance"
    case TrustedLegalBasis => "trusted_legal_basis_ref"
    case TrustedConsent => "trusted_consent_ref"
    case TrustedAge => "trusted_source_observed_age_seconds"
  }

  /** Position of a tag in the material. */
  function Rank(tag: Tag): nat {
    match tag
    case Schema => 0 case RouteId => 1 case ClientIdentity => 2 case LocalPrefix => 3
    case UpstreamPrefix => 4 case RequirePurpose => 5 case MethodName => 6 case Purpose => 7
    case Governed => 8 case MinimumAssurance => 9 case MaxSourceAge => 10 case RequireLegalBasis => 11
    case RequireConsent => 12 case PermittedPurpose => 13 case PermittedJurisdiction => 14
    case AllowedAssurance => 15 case RedactionField => 16 case UnsupportedOdrlTerm => 17
    case TrustedJurisdiction => 18 case TrustedAssurance => 19 case TrustedLegalBasis => 20
    case TrustedConsent => 21 case TrustedAge => 22
  }

  lemma TagsRanked()
    ensures |TAGS| == 23
    ensures forall i :: 0 <= i < |TAGS| ==> Rank(TAGS[i]) == i
    ensures forall t :: Rank(t) < |TAGS| && TAGS[Rank(t)] == t
  {
  }

  lemma NamesDiffer(t: Tag, u: Tag)
    requires Name(t) == Name(u)
    ensures t == u
  {
  }

  lemma NamesHaveNoColon(t: Tag)
    ensures ':' !in Name(t)
  {
    if Rank(t) < 9 { RouteNames(t); } else if Rank(t) < 13 { RuleNames(t); }
    else if Rank(t) < 18 { ListNames(t); } else { TrustedNames(t); }
  }

  lemma RouteNames(t: Tag)
    requires Rank(t) < 9
    ensures ':' !in Name(t)
  {
  }

  lemma RuleNames(t: Tag)
    requires 9 <= Rank(t) < 13
    ensures ':' !in Name(t)
  {
  }

  lemma ListNames(t: Tag)
    requires 13 <= Rank(t) < 18
    ensures ':' !in Name(t)
  {
  }

  lemma TrustedNames(t: Tag)
    requires 18 <= Rank(t)
    ensures ':' !in Name(t)
  {
  }

  /** The trimmed, non-blank texts, in order. */
  function TrimmedTexts(xs: seq<string>): seq<string> {
    if xs == [] then []
    else TrimmedTexts(xs[..|xs| - 1]) + if Blank(xs[|xs| - 1]) then [] else [Trim(xs[|xs| - 1])]
  }

  function BoolText(b: bool): string {
    if b then "true" else "false"
  }

  function AgeText(age: Option<u64>): string {
    if age.Some? then Decimal(age.value) else ""
  }

  /** The values pushed under one name for a governed policy. */
  function PolicyValues(p: GovernedPolicy, tag: Tag): seq<string> {
    match tag
    case Governed => ["true"]
    case MinimumAssurance => [OrEmpty(p.minimumAssurance)]
    case MaxSourceAge => [if p.maxSourceAgeSeconds.Some? then Decimal(p.maxSourceAgeSeconds.value) else ""]
    case RequireLegalBasis => [if p.requireLegalBasis then "true" else "false"]
    case RequireConsent => [if p.requireConsent then "true" else "false"]
    case PermittedPurpose => Collect(p.permittedPurposes)
    case PermittedJurisdiction => Collect(p.permittedJurisdictions)
    case AllowedAssurance => Collect(p.allowedAssurance)
    case RedactionField => Collect(p.redactionFields)
    case UnsupportedOdrlTerm => Collect(p.unsupportedOdrlTerms)
    case TrustedJurisdiction => [OrEmpty(p.trustedContext.jurisdiction)]
    case TrustedAssurance => [OrEmpty(p.trustedContext.assertedAssurance)]
    case TrustedLegalBasis => [OrEmpty(p.trustedContext.legalBasisRef)]
    case TrustedConsent => [OrEmpty(p.trustedContext.consentRef)]
    case TrustedAge =>
      var age := p.trustedContext.sourceObservedAgeSeconds;
      [if age.Some? then Decimal(age.value) else ""]
    case _ => []
  }

  /** The values pushed under one name for a route. */
  function Values(r: Route, tag: Tag): seq<string> {
    match tag
    case Schema => ["route-purpose-policy-v3"]
    case RouteId => [r.id]
    case ClientIdentity => [Trim(OrEmpty(r.clientIdentity))] + Collect(TrimmedTexts(r.clientIdentities))
    case LocalPrefix => [OrEmpty(r.localPrefix)]
    case UpstreamPrefix => [OrEmpty(r.upstreamPrefix)]
    case RequirePurpose => [if r.requirePurpose then "true" else "false"]
    case MethodName => Collect(r.methods)
    case Purpose => Collect(r.purposes)
    case _ => if r.governedPolicy.Some? then PolicyValues(r.governedPolicy.value, tag) else []
  }

  // ---------------------------------------------------------------- what is pushed, in order

  function RouteGroups(r: Route): seq<Group> {
    [Group("schema", ["route-purpose-policy-v3"]),
     Group("route_id", [r.id]),
     Group("client_identity", [Trim(OrEmpty(r.clientIdentity))] + Collect(TrimmedTexts(r.clientIdentities))),
     Group("local_prefix", [OrEmpty(r.localPrefix)]),
     Group("upstream_prefix", [OrEmpty(r.upstreamPrefix)]),
     Group("require_purpose", [BoolText(r.requirePurpose)]),
     Group("method", Collect(r.methods)),
     Group("purpose", Collect(r.purposes))]
  }

  function PolicyRuleGroups(p: GovernedPolicy): seq<Group> {
    [Group("governed_policy", ["true"]),
     Group("governed_minimum_assurance", [OrEmpty(p.minimumAssurance)]),
     Group("governed_max_source_age_seconds", [AgeText(p.maxSourceAgeSeconds)]),
     Group("governed_require_legal_basis", [BoolText(p.requireLegalBasis)]),
     Group("governed_require_consent", [BoolText(p.requireConsent)])]
  }

  function PolicyListGroups(p: GovernedPolicy): seq<Group> {
    [Group("governed_permitted_purpose", Collect(p.permittedPurposes)),
     Group("governed_permitted_jurisdiction", Collect(p.permittedJurisdictions)),
     Group("governed_allowed_assurance", Collect(p.allowedAssurance)),
     Group("governed_redaction_field", Collect(p.redactionFields)),
     Group("governed_unsupported_odrl_term", Collect(p.unsupportedOdrlTerms))]
  }

  function TrustedGroups(t: TrustedContext): seq<Group> {
    [Group("trusted_jurisdiction", [OrEmpty(t.jurisdiction)]),
     Group("trusted_asserted_assurance", [OrEmpty(t.assertedAssurance)]),
     Group("trusted_legal_basis_ref", [OrEmpty(t.legalBasisRef)]),
     Group("trusted_consent_ref", [OrEmpty(t.consentRef)]),
     Group("trusted_source_observed_age_seconds", [AgeText(t.sourceObservedAgeSeconds)])]
  }

  function PushedGroups(r: Route): seq<Group> {
    RouteGroups(r) +
    if r.governedPolicy.None? then []
    else
      var p := r.governedPolicy.value;
      PolicyRuleGroups(p) + PolicyListGroups(p) + TrustedGroups(p.trustedContext)
  }

  function Material(r: Route): string {
    Serialize(Flatten(PushedGroups(r)))
  }

  /** The appending part of `route_purpose_policy_hash`. */
  method BuildMaterial(r: Route) returns (material: string)
    ensures material == Material(r)
  {
    material := PushGroups(PushedGroups(r));
  }

  // ---------------------------------------------------------------- the same fields by name

  function Groups(r: Route): (groups: seq<Group>)
    ensures |groups| == |TAGS|
    ensures forall i :: 0 <= i < |TAGS| ==> groups[i] == Group(Name(TAGS[i]), Values(r, TAGS[i]))
  {
    seq(|TAGS|, i requires 0 <= i < |TAGS| => Group(Name(TAGS[i]), Values(r, TAGS[i])))
  }

  lemma RouteGroupsAre(r: Route)
    ensures Groups(r)[..8] == RouteGroups(r)
  {
  }

  lemma PolicyRuleGroupsAre(r: Route)
    requires r.governedPolicy.Some?
    ensures Groups(r)[8..13] == PolicyRuleGroups(r.governedPolicy.value)
  {
  }

  lemma PolicyListGroupsAre(r: Route)
    requires r.governedPolicy.Some?
    ensures Groups(r)[13..18] == PolicyListGroups(r.governedPolicy.value)
  {
  }

  lemma TrustedGroupsAre(r: Route)
    requires r.governedPolicy.Some?
    ensures Groups(r)[18..] == TrustedGroups(r.governedPolicy.value.trustedContext)
  {
  }

  lemma {:induction false} EmptyGroupsAddNothing(groups: seq<Group>, k: nat, n: nat)
    requires k <= n <= |groups| && forall i :: k <= i < n ==> groups[i].values == []
    ensures Flatten(groups[..n]) == Flatten(groups[..k])
  {
    if n == k {
    } else {
      FlattenLast(groups, n);
      EmptyGroupsAddNothing(groups, k, n - 1);
    }
  }

  lemma UngovernedEndsEarly(r: Route)
    requires r.governedPolicy.None?
    ensures Flatten(Groups(r)) == Flatten(Groups(r)[..8])
  {
    var gs := Groups(r);
    TagsRanked();
    forall i | 8 <= i < |TAGS| ensures gs[i].values == [] {
      UngovernedValues(r, TAGS[i]);
    }
    EmptyGroupsAddNothing(gs, 8, |gs|);
    assert gs[..|gs|] == gs;
  }

  lemma UngovernedValues(r: Route, t: Tag)
    requires r.governedPolicy.None? && Rank(t) >= 8
    ensures Values(r, t) == []
  {
  }

  /** The list of pushes is the tagged one, up to groups that push nothing. */
  lemma PushedAreTagged(r: Route)
    ensures Flatten(PushedGroups(r)) == Flatten(Groups(r))
  {
    var gs := Groups(r);
    RouteGroupsAre(r);
    if r.governedPolicy.Some? {
      PolicyRuleGroupsAre(r);
      PolicyListGroupsAre(r);
      TrustedGroupsAre(r);
      assert gs == gs[..8] + (gs[8..13] + gs[13..18] + gs[18..]);
    } else {
      UngovernedEndsEarly(r);
      assert PushedGroups(r) == RouteGroups(r);
    }
  }

  lemma GroupNames(r: Route)
    ensures DistinctNames(Groups(r))
    ensures forall i :: 0 <= i < |TAGS| ==> ':' !in Groups(r)[i].name
  {
    TagsRanked();
    forall i, j | 0 <= i < j < |TAGS| ensures Groups(r)[i].name != Groups(r)[j].name {
      if Name(TAGS[i]) == Name(TAGS[j]) { NamesDiffer(TAGS[i], TAGS[j]); }
    }
    forall i | 0 <= i < |TAGS| ensures ':' !in Groups(r)[i].name {
      NamesHaveNoColon(TAGS[i]);
    }
  }

  ghost predicate SameValues(r: Route, s: Route, t: Tag) {
    Values(r, t) == Values(s, t)
  }

  /** Equal material, equal values under every name. */
  lemma MaterialDetermines(r: Route, s: Route)
    ensures Material(r) == Material(s) <==> forall t :: SameValues(r, s, t)
  {
    PushedAreTagged(r);
    PushedAreTagged(s);
    if Material(r) == Material(s) {
      GroupNames(r);
      SerializedGroups(Groups(r), Groups(s));
      TagsRanked();
      forall t ensures SameValues(r, s, t) {
        assert Groups(r)[Rank(t)] == Groups(s)[Rank(t)];
      }
    }
    if forall t :: SameValues(r, s, t) {
      assert forall i :: 0 <= i < |TAGS| ==> SameValues(r, s, TAGS[i]);
      assert Groups(r) == Groups(s);
    }
  }

  // ---------------------------------------------------------------- normal forms

  datatype NormalPolicy = NormalPolicy(
    minimumAssurance: string, maxSourceAge: Option<u64>, requireLegalBasis: bool, requireConsent: bool,
    permittedPurposes: set<string>, permittedJurisdictions: set<string>, allowedAssurance: set<string>,
    redactionFields: set<string>, unsupportedOdrlTerms: set<string>,
    trustedJurisdiction: string, trustedAssurance: string, trustedLegalBasis: string, trustedConsent: string,
    trustedAge: Option<u64>)

  datatype NormalRoute = NormalRoute(
    id: string, clientIdentity: string, clientIdentities: set<string>, localPrefix: string, upstreamPrefix: string,
    requirePurpose: bool, methods: set<string>, purposes: set<string>, governed: Option<NormalPolicy>)

  ghost function NormalizePolicy(p: GovernedPolicy): NormalPolicy {
    NormalPolicy(
      OrEmpty(p.minimumAssurance), p.maxSourceAgeSeconds, p.requireLegalBasis, p.requireConsent,
      SetOf(p.permittedPurposes), SetOf(p.permittedJurisdictions), SetOf(p.allowedAssurance),
      SetOf(p.redactionFields), SetOf(p.unsupportedOdrlTerms),
      OrEmpty(p.trustedContext.jurisdiction), OrEmpty(p.trustedContext.assertedAssurance),
      OrEmpty(p.trustedContext.legalBasisRef), OrEmpty(p.trustedContext.consentRef),
      p.trustedContext.sourceObservedAgeSeconds)
  }

  /** Trimmed identities, lists as sets, absent texts as empty. */
  ghost function Normalize(r: Route): NormalRoute {
    NormalRoute(
      r.id, Trim(OrEmpty(r.clientIdentity)), Identities(r.clientIdentities),
      OrEmpty(r.localPrefix), OrEmpty(r.upstreamPrefix), r.requirePurpose, SetOf(r.methods), SetOf(r.purposes),
      if r.governedPolicy.Some? then Some(NormalizePolicy(r.governedPolicy.value)) else None)
  }

  lemma AgeTextInjective(a: Option<u64>, b: Option<u64>)
    ensures AgeText(a) == AgeText(b) <==> a == b
  {
    if a.Some? { DecimalRoundTrip(a.value); }
    if b.Some? { DecimalRoundTrip(b.value); }
  }

  lemma BoolTextInjective(a: bool, b: bool)
    ensures BoolText(a) == BoolText(b) <==> a == b
  {
  }

  lemma {:induction false} TrimmedTextsSet(xs: seq<string>)
    ensures SetOf(TrimmedTexts(xs)) == Identities(xs)
  {
    if xs == [] {
    } else {
      var init, last := xs[..|xs| - 1], xs[|xs| - 1];
      TrimmedTextsSet(init);
      assert xs == init + [last];
      IdentitiesPush(init, last);
    }
  }

  ghost predicate SameAt(p: GovernedPolicy, q: GovernedPolicy, t: Tag) {
    PolicyValues(p, t) == PolicyValues(q, t)
  }

  lemma PolicyListsNormal(p: GovernedPolicy, q: GovernedPolicy)
    ensures SameAt(p, q, PermittedPurpose) <==> SetOf(p.permittedPurposes) == SetOf(q.permittedPurposes)
    ensures SameAt(p, q, PermittedJurisdiction) <==> SetOf(p.permittedJurisdictions) == SetOf(q.permittedJurisdictions)
    ensures SameAt(p, q, AllowedAssurance) <==> SetOf(p.allowedAssurance) == SetOf(q.allowedAssurance)
  {
    ListNormal(p, q, PermittedPurpose, p.permittedPurposes, q.permittedPurposes);
    ListNormal(p, q, PermittedJurisdiction, p.permittedJurisdictions, q.permittedJurisdictions);
    ListNormal(p, q, AllowedAssurance, p.allowedAssurance, q.allowedAssurance);
  }

  lemma PolicyObligationsNormal(p: GovernedPolicy, q: GovernedPolicy)
    ensures SameAt(p, q, RedactionField) <==> SetOf(p.redactionFields) == SetOf(q.redactionFields)
    ensures SameAt(p, q, UnsupportedOdrlTerm) <==> SetOf(p.unsupportedOdrlTerms) == SetOf(q.unsupportedOdrlTerms)
  {
    ListNormal(p, q, RedactionField, p.redactionFields, q.redactionFields);
    ListNormal(p, q, UnsupportedOdrlTerm, p.unsupportedOdrlTerms, q.unsupportedOdrlTerms);
  }

  lemma ListNormal(p: GovernedPolicy, q: GovernedPolicy, t: Tag, xs: seq<string>, ys: seq<string>)
    requires PolicyValues(p, t) == Collect(xs) && PolicyValues(q, t) == Collect(ys)
    ensures SameAt(p, q, t) <==> SetOf(xs) == SetOf(ys)
  {
    CollectNormal(xs, ys);
  }

  lemma PolicyScalarsNormal(p: GovernedPolicy, q: GovernedPolicy)
    ensures SameAt(p, q, MaxSourceAge) <==> p.maxSourceAgeSeconds == q.maxSourceAgeSeconds
    ensures SameAt(p, q, RequireLegalBasis) <==> p.requireLegalBasis == q.requireLegalBasis
    ensures SameAt(p, q, RequireConsent) <==> p.requireConsent == q.requireConsent
    ensures SameAt(p, q, TrustedAge) <==>
            p.trustedContext.sourceObservedAgeSeconds == q.trustedContext.sourceObservedAgeSeconds
  {
    AgeTextInjective(p.maxSourceAgeSeconds, q.maxSourceAgeSeconds);
    AgeTextInjective(p.trustedContext.sourceObservedAgeSeconds, q.trustedContext.sourceObservedAgeSeconds);
    BoolTextInjective(p.requireLegalBasis, q.requireLegalBasis);
    BoolTextInjective(p.requireConsent, q.requireConsent);
  }

  lemma PolicyTextsNormal(p: GovernedPolicy, q: GovernedPolicy)
    ensures SameAt(p, q, MinimumAssurance) <==> OrEmpty(p.minimumAssurance) == OrEmpty(q.minimumAssurance)
    ensures SameAt(p, q, TrustedJurisdiction) <==>
            OrEmpty(p.trustedContext.jurisdiction) == OrEmpty(q.trustedContext.jurisdiction)
    ensures SameAt(p, q, TrustedAssurance) <==>
            OrEmpty(p.trustedContext.assertedAssurance) == OrEmpty(q.trustedContext.assertedAssurance)
    ensures SameAt(p, q, TrustedLegalBasis) <==>
            OrEmpty(p.trustedContext.legalBasisRef) == OrEmpty(q.trustedContext.legalBasisRef)
    ensures SameAt(p, q, TrustedConsent) <==>
            OrEmpty(p.trustedContext.consentRef) == OrEmpty(q.trustedContext.consentRef)
  {
  }

  lemma PolicyNormal(p: GovernedPolicy, q: GovernedPolicy)
    ensures (forall t :: SameAt(p, q, t)) <==> NormalizePolicy(p) == NormalizePolicy(q)
  {
    PolicyListsNormal(p, q);
    PolicyObligationsNormal(p, q);
    PolicyScalarsNormal(p, q);
    PolicyTextsNormal(p, q);
    if NormalizePolicy(p) == NormalizePolicy(q) {
      AllSame(p, q);
    }
  }

  lemma AllSame(p: GovernedPolicy, q: GovernedPolicy)
    requires SameAt(p, q, MinimumAssurance) && SameAt(p, q, MaxSourceAge)
    requires SameAt(p, q, RequireLegalBasis) && SameAt(p, q, RequireConsent)
    requires SameAt(p, q, PermittedPurpose) && SameAt(p, q, PermittedJurisdiction)
    requires SameAt(p, q, AllowedAssurance) && SameAt(p, q, RedactionField) && SameAt(p, q, UnsupportedOdrlTerm)
    requires SameAt(p, q, TrustedJurisdiction) && SameAt(p, q, TrustedAssurance)
    requires SameAt(p, q, TrustedLegalBasis) && SameAt(p, q, TrustedConsent) && SameAt(p, q, TrustedAge)
    ensures forall t :: SameAt(p, q, t)
  {
    forall t ensures SameAt(p, q, t) {
      if Rank(t) <= 8 {
        SameFixed(p, q, t);
      } else if Rank(t) <= 15 {
        RuleTags(t);
      } else {
        ObligationTags(t);
      }
    }
  }

  lemma RuleTags(t: Tag)
    requires 9 <= Rank(t) <= 15
    ensures t in [MinimumAssurance, MaxSourceAge, RequireLegalBasis, RequireConsent,
                  PermittedPurpose, PermittedJurisdiction, AllowedAssurance]
  {
  }

  lemma ObligationTags(t: Tag)
    requires 16 <= Rank(t)
    ensures t in [RedactionField, UnsupportedOdrlTerm, TrustedJurisdiction, TrustedAssurance,
                  TrustedLegalBasis, TrustedConsent, TrustedAge]
  {
  }

  lemma SameFixed(p: GovernedPolicy, q: GovernedPolicy, t: Tag)
    requires Rank(t) <= 8
    ensures SameAt(p, q, t)
  {
  }

  lemma IdentityValuesNormal(r: Route, s: Route)
    ensures SameValues(r, s, ClientIdentity) <==>
            && Trim(OrEmpty(r.clientIdentity)) == Trim(OrEmpty(s.clientIdentity))
            && Identities(r.clientIdentities) == Identities(s.clientIdentities)
  {
    var a, b := Values(r, ClientIdentity), Values(s, ClientIdentity);
    assert a[1..] == Collect(TrimmedTexts(r.clientIdentities));
    assert b[1..] == Collect(TrimmedTexts(s.clientIdentities));
    assert a == b <==> a[0] == b[0] && a[1..] == b[1..];
    CollectNormal(TrimmedTexts(r.clientIdentities), TrimmedTexts(s.clientIdentities));
    TrimmedTextsSet(r.clientIdentities);
    TrimmedTextsSet(s.clientIdentities);
  }

  lemma RouteValuesNormal(r: Route, s: Route)
    ensures SameValues(r, s, Schema)
    ensures SameValues(r, s, RouteId) <==> r.id == s.id
    ensures SameValues(r, s, LocalPrefix) <==> OrEmpty(r.localPrefix) == OrEmpty(s.localPrefix)
    ensures SameValues(r, s, UpstreamPrefix) <==> OrEmpty(r.upstreamPrefix) == OrEmpty(s.upstreamPrefix)
    ensures SameValues(r, s, RequirePurpose) <==> r.requirePurpose == s.requirePurpose
    ensures SameValues(r, s, MethodName) <==> SetOf(r.methods) == SetOf(s.methods)
    ensures SameValues(r, s, Purpose) <==> SetOf(r.purposes) == SetOf(s.purposes)
  {
    BoolTextInjective(r.requirePurpose, s.requirePurpose);
    CollectNormal(r.methods, s.methods);
    CollectNormal(r.purposes, s.purposes);
  }

  lemma GovernedValuesNormal(r: Route, s: Route)
    ensures (forall t :: Rank(t) >= 8 ==> SameValues(r, s, t)) <==> Normalize(r).governed == Normalize(s).governed
  {
    var p, q := r.governedPolicy, s.governedPolicy;
    assert forall t :: Rank(t) < 8 && p.Some? && q.Some? ==> SameAt(p.value, q.value, t);
    assert SameValues(r, s, Governed) <==> (p.Some? <==> q.Some?);
    assert Rank(Governed) >= 8;
    if p.Some? && q.Some? {
      assert forall t :: Rank(t) >= 8 ==> (SameValues(r, s, t) <==> SameAt(p.value, q.value, t));
      PolicyNormal(p.value, q.value);
    }
  }

  lemma AllSameRoute(r: Route, s: Route)
    requires SameValues(r, s, Schema) && SameValues(r, s, RouteId) && SameValues(r, s, ClientIdentity)
    requires SameValues(r, s, LocalPrefix) && SameValues(r, s, UpstreamPrefix) && SameValues(r, s, RequirePurpose)
    requires SameValues(r, s, MethodName) && SameValues(r, s, Purpose)
    requires forall t :: Rank(t) >= 8 ==> SameValues(r, s, t)
    ensures forall t :: SameValues(r, s, t)
  {
    forall t ensures SameValues(r, s, t) {
      if Rank(t) < 8 { RouteTags(t); }
    }
  }

  lemma RouteTags(t: Tag)
    requires Rank(t) < 8
    ensures t in [Schema, RouteId, ClientIdentity, LocalPrefix, UpstreamPrefix, RequirePurpose, MethodName, Purpose]
  {
  }

  lemma ValuesAreNormalForm(r: Route, s: Route)
    ensures (forall t :: SameValues(r, s, t)) <==> Normalize(r) == Normalize(s)
  {
    IdentityValuesNormal(r, s);
    RouteValuesNormal(r, s);
    GovernedValuesNormal(r, s);
    if Normalize(r) == Normalize(s) {
      AllSameRoute(r, s);
    }
  }

  /** Two routes have equal material if and only if they have equal normal forms. */
  lemma MaterialIsNormalForm(r: Route, s: Route)
    ensures Material(r) == Material(s) <==> Normalize(r) == Normalize(s)
  {
    MaterialDetermines(r, s);
    ValuesAreNormalForm(r, s);
  }
}

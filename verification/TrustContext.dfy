/**
 Trust-context grants (src/proxy.rs): what a peer may assert on a route, encoded as scope strings,
 and which request headers count because of it.
 */
module TrustContext {
  import opened Basics
  import opened Text
  import opened Config
  import opened Problems

  // ---------------------------------------------------------------- headers

  /** `HeaderMap::get_all`. */
  function GetAll(headers: Headers, name: string): seq<string> {
    if headers == [] then []
    else (if headers[0].name == name then [headers[0].value] else []) + GetAll(headers[1..], name)
  }

  /** `HeaderValue::to_str`: visible ASCII and tab only. */
  predicate Readable(value: string) {
    forall i :: 0 <= i < |value| ==> ' ' <= value[i] <= '~' || value[i] == '\t'
  }

  /** The first value under the name, trimmed, unless unreadable or blank. */
  function TrustHeader(headers: Headers, name: string): (r: Option<string>)
    ensures r.Some? ==> r.value != "" && Trim(r.value) == r.value
  {
    var values := GetAll(headers, name);
    if values == [] || !Readable(values[0]) || Trim(values[0]) == "" then None else Some(Trim(values[0]))
  }

  /** Position `i` holds the first header of that name. */
  predicate FirstNamed(headers: Headers, name: string, i: int) {
    0 <= i < |headers| && headers[i].name == name && forall j :: 0 <= j < i ==> headers[j].name != name
  }

  lemma {:induction false} FirstValue(headers: Headers, name: string)
    ensures GetAll(headers, name) != [] <==> exists i :: FirstNamed(headers, name, i)
    ensures forall i :: FirstNamed(headers, name, i) ==> GetAll(headers, name) != [] && GetAll(headers, name)[0] == headers[i].value
  {
    if headers == [] {
    } else {
      var rest := headers[1..];
      FirstValue(rest, name);
      if headers[0].name == name {
        assert FirstNamed(headers, name, 0);
      } else {
        forall i ensures FirstNamed(rest, name, i) ==> FirstNamed(headers, name, i + 1) {
        }
        forall i | FirstNamed(headers, name, i) ensures FirstNamed(rest, name, i - 1) {
          assert forall j :: 0 <= j < i - 1 ==> rest[j] == headers[j + 1];
        }
      }
    }
  }

  /** A trust header reads `v` exactly when the first header of that name is readable and is `v` but for white space. */
  lemma TrustHeaderMeans(headers: Headers, name: string, v: string)
    ensures TrustHeader(headers, name) == Some(v) <==>
            v != "" && exists i :: FirstNamed(headers, name, i) && Readable(headers[i].value) && Trim(headers[i].value) == v
  {
    FirstValue(headers, name);
  }

  // ---------------------------------------------------------------- scopes

  datatype Field = Jurisdiction | Assurance | LegalBasis | Consent | SourceAge

  function FieldName(f: Field): string {
    match f
    case Jurisdiction => "jurisdiction"
    case Assurance => "assurance"
    case LegalBasis => "legal_basis"
    case Consent => "consent"
    case SourceAge => "source_observed_age_seconds"
  }

  const SCOPE_PREFIX := "registry:trust:"

  function Scope(f: Field, value: string): string {
    SCOPE_PREFIX + FieldName(f) + ":" + value
  }

  lemma FieldNames(f: Field, g: Field)
    ensures ':' !in FieldName(f)
    ensures FieldName(f) == FieldName(g) ==> f == g
  {
  }

  /** Two texts cut at their first ':'. */
  lemma FirstColon(n: string, v: string, n': string, v': string)
    requires ':' !in n && ':' !in n' && n + ":" + v == n' + ":" + v'
    ensures n == n' && v == v'
  {
    var s := n + ":" + v;
    assert s[|n|] == ':' && s[|n'|] == ':';
    assert |n| == |n'|;
    assert n == s[..|n|] && n' == s[..|n|];
    assert v == s[|n| + 1..] && v' == s[|n| + 1..];
  }

  /** No value of one field can pass for a value of another. */
  lemma ScopeInjective(f: Field, v: string, g: Field, w: string)
    ensures Scope(f, v) == Scope(g, w) <==> f == g && v == w
  {
    if Scope(f, v) == Scope(g, w) {
      FieldNames(f, g);
      FieldNames(g, f);
      var p := |SCOPE_PREFIX|;
      assert Scope(f, v)[p..] == FieldName(f) + ":" + v;
      assert Scope(g, w)[p..] == FieldName(g) + ":" + w;
      FirstColon(FieldName(f), v, FieldName(g), w);
    }
  }

  /** What a context says in one field, as text. */
  function Grant(context: TrustedContext, f: Field): Option<string> {
    match f
    case Jurisdiction => context.jurisdiction
    case Assurance => context.assertedAssurance
    case LegalBasis => context.legalBasisRef
    case Consent => context.consentRef
    case SourceAge =>
      if context.sourceObservedAgeSeconds.Some? then Some(Decimal(context.sourceObservedAgeSeconds.value)) else None
  }

  ghost predicate SetsNothing(context: TrustedContext) {
    forall f :: Grant(context, f).None?
  }

  function InsertGrant(scopes: seq<string>, context: TrustedContext, f: Field): (r: seq<string>)
    ensures forall y :: y in r <==> y in scopes || (Grant(context, f).Some? && y == Scope(f, Grant(context, f).value))
  {
    if Grant(context, f).Some? then Insert(scopes, Scope(f, Grant(context, f).value)) else scopes
  }

  /** The scopes of a context: one for each field it sets, and nothing else. */
  function ContextScopes(context: TrustedContext): (scopes: seq<string>)
    ensures forall f, v :: Scope(f, v) in scopes <==> Grant(context, f) == Some(v)
    ensures forall y :: y in scopes ==> exists f: Field :: Grant(context, f).Some? && y == Scope(f, Grant(context, f).value)
  {
    var s1 := InsertGrant([], context, Jurisdiction);
    var s2 := InsertGrant(s1, context, Assurance);
    var s3 := InsertGrant(s2, context, LegalBasis);
    var s4 := InsertGrant(s3, context, Consent);
    var s5 := InsertGrant(s4, context, SourceAge);
    assert forall f, v :: Scope(f, v) in s5 <==> Grant(context, f) == Some(v) by {
      forall f, v ensures Scope(f, v) in s5 <==> Grant(context, f) == Some(v) {
        ScopesExact(context, s5, f, v);
      }
    }
    s5
  }

  lemma ScopesExact(context: TrustedContext, scopes: seq<string>, f: Field, v: string)
    requires forall y :: y in scopes <==>
               exists g: Field :: Grant(context, g).Some? && y == Scope(g, Grant(context, g).value)
    ensures Scope(f, v) in scopes <==> Grant(context, f) == Some(v)
  {
    if Scope(f, v) in scopes {
      var g: Field :| Grant(context, g).Some? && Scope(f, v) == Scope(g, Grant(context, g).value);
      ScopeInjective(f, v, g, Grant(context, g).value);
    }
  }

  lemma ScopeTexts(v: string)
    ensures Scope(Jurisdiction, v) == "registry:trust:jurisdiction:" + v
    ensures Scope(Assurance, v) == "registry:trust:assurance:" + v
    ensures Scope(LegalBasis, v) == "registry:trust:legal_basis:" + v
    ensures Scope(Consent, v) == "registry:trust:consent:" + v
  {
    assert SCOPE_PREFIX + "jurisdiction" + ":" == "registry:trust:jurisdiction:";
    assert SCOPE_PREFIX + "assurance" + ":" == "registry:trust:assurance:";
    assert SCOPE_PREFIX + "legal_basis" + ":" == "registry:trust:legal_basis:";
    assert SCOPE_PREFIX + "consent" + ":" == "registry:trust:consent:";
  }

  /** `context_scopes`: one insertion for each field that is set. */
  method BuildContextScopes(context: TrustedContext) returns (scopes: seq<string>)
    ensures scopes == ContextScopes(context)
  {
    scopes := [];
    if context.jurisdiction.Some? {
      ScopeTexts(context.jurisdiction.value);
      scopes := Insert(scopes, "registry:trust:jurisdiction:" + context.jurisdiction.value);
    }
    if context.assertedAssurance.Some? {
      ScopeTexts(context.assertedAssurance.value);
      scopes := Insert(scopes, "registry:trust:assurance:" + context.assertedAssurance.value);
    }
    if context.legalBasisRef.Some? {
      ScopeTexts(context.legalBasisRef.value);
      scopes := Insert(scopes, "registry:trust:legal_basis:" + context.legalBasisRef.value);
    }
    if context.consentRef.Some? {
      ScopeTexts(context.consentRef.value);
      scopes := Insert(scopes, "registry:trust:consent:" + context.consentRef.value);
    }
    if context.sourceObservedAgeSeconds.Some? {
      scopes := Insert(scopes, Scope(SourceAge, Decimal(context.sourceObservedAgeSeconds.value)));
    }
  }

  // ---------------------------------------------------------------- peer and route

  /** The first entitlement of the identity, if any. */
  function FindEntitlement(entitlements: seq<Entitlement>, identity: string): Option<TrustedContext> {
    if entitlements == [] then None
    else if Trim(entitlements[0].clientIdentity) == identity then Some(entitlements[0].trustedContext)
    else FindEntitlement(entitlements[1..], identity)
  }

  /** The lookup is the first match; where holders are distinct, as validation demands, the only one. */
  lemma {:induction false} EntitlementFound(es: seq<Entitlement>, identity: string, t: TrustedContext)
    ensures FindEntitlement(es, identity) == Some(t) <==>
            exists i :: 0 <= i < |es| && FirstFor(es, identity, i) && es[i].trustedContext == t
  {
    if es == [] {
    } else {
      var rest := es[1..];
      EntitlementFound(rest, identity, t);
      if i :| 0 <= i < |rest| && FirstFor(rest, identity, i) && rest[i].trustedContext == t {
        if Trim(es[0].clientIdentity) != identity {
          assert forall j :: 0 < j <= i ==> es[j] == rest[j - 1];
          assert es[i + 1] == rest[i] && FirstFor(es, identity, i + 1);
        }
      }
      if i :| 0 <= i < |es| && FirstFor(es, identity, i) && es[i].trustedContext == t {
        if i > 0 {
          assert Trim(es[0].clientIdentity) != identity;
          assert forall j :: 0 <= j < i - 1 ==> rest[j] == es[j + 1];
          assert rest[i - 1] == es[i] && FirstFor(rest, identity, i - 1);
        } else {
          assert FirstFor(es, identity, 0);
        }
      }
      if Trim(es[0].clientIdentity) == identity {
        assert FirstFor(es, identity, 0);
      }
    }
  }

  ghost predicate FirstFor(es: seq<Entitlement>, identity: string, i: int) {
    && 0 <= i < |es| && Trim(es[i].clientIdentity) == identity
    && forall j :: 0 <= j < i ==> Trim(es[j].clientIdentity) != identity
  }

  function PeerContext(trust: Option<ClientTrust>, identity: string): Option<TrustedContext> {
    if trust.Some? then FindEntitlement(trust.value.entitlements, identity) else None
  }

  /** The peer's context is that of the first entitlement of its identity, if client trust is configured at all. */
  lemma PeerContextMeans(trust: Option<ClientTrust>, identity: string, t: TrustedContext)
    ensures PeerContext(trust, identity) == Some(t) <==>
            trust.Some? && exists i :: FirstFor(trust.value.entitlements, identity, i) && trust.value.entitlements[i].trustedContext == t
  {
    if trust.Some? {
      EntitlementFound(trust.value.entitlements, identity, t);
    }
  }

  function Intersection(a: seq<string>, b: seq<string>): (r: seq<string>)
    ensures forall y :: y in r <==> y in a && y in b
  {
    if a == [] then []
    else (if a[0] in b then [a[0]] else []) + Intersection(a[1..], b)
  }

  /** `trusted_context_scopes`. */
  function TrustedScopes(policy: Option<GovernedPolicy>, trust: Option<ClientTrust>, identity: string): seq<string> {
    var peer := PeerContext(trust, identity);
    var peerScopes := if peer.Some? then ContextScopes(peer.value) else [];
    var routeScopes := if policy.Some? then ContextScopes(policy.value.trustedContext) else [];
    if routeScopes == [] then peerScopes else Intersection(peerScopes, routeScopes)
  }

  /** The specification without strings: the peer grants exactly `v` in field `f`, and the route's trusted
      context either sets no field at all or grants exactly `v` there too. */
  ghost predicate Granted(policy: Option<GovernedPolicy>, trust: Option<ClientTrust>, identity: string,
                          f: Field, v: string) {
    && PeerContext(trust, identity).Some? && Grant(PeerContext(trust, identity).value, f) == Some(v)
    && (policy.None? || SetsNothing(policy.value.trustedContext) || Grant(policy.value.trustedContext, f) == Some(v))
  }

  lemma EmptyScopes(context: TrustedContext)
    ensures ContextScopes(context) == [] <==> SetsNothing(context)
  {
  }

  /** The scope-string encoding refines field-wise grants. */
  lemma ScopesAreGrants(policy: Option<GovernedPolicy>, trust: Option<ClientTrust>, identity: string,
                        f: Field, v: string)
    ensures Scope(f, v) in TrustedScopes(policy, trust, identity) <==> Granted(policy, trust, identity, f, v)
  {
    if policy.Some? { EmptyScopes(policy.value.trustedContext); }
  }

  /** Every trusted scope is the scope of some granted value. */
  lemma OnlyGrants(policy: Option<GovernedPolicy>, trust: Option<ClientTrust>, identity: string, y: string)
    returns (f: Field, v: string)
    requires y in TrustedScopes(policy, trust, identity)
    ensures y == Scope(f, v) && Granted(policy, trust, identity, f, v)
  {
    var peer := PeerContext(trust, identity);
    assert peer.Some? && y in ContextScopes(peer.value);
    f :| Grant(peer.value, f).Some? && y == Scope(f, Grant(peer.value, f).value);
    v := Grant(peer.value, f).value;
    ScopesAreGrants(policy, trust, identity, f, v);
  }

  /** `verified_trust_header_value`. */
  function VerifiedHeader(headers: Headers, scopes: seq<string>, name: string, f: Field): Option<string> {
    var value := TrustHeader(headers, name);
    if value.Some? && Scope(f, value.value) in scopes then value else None
  }

  /** A trust header counts as `v` exactly when it reads `v` and `v` is granted in that very field. */
  lemma HeaderCountsIffGranted(headers: Headers, policy: Option<GovernedPolicy>, trust: Option<ClientTrust>,
                               identity: string, name: string, f: Field, v: string)
    ensures VerifiedHeader(headers, TrustedScopes(policy, trust, identity), name, f) == Some(v) <==>
            TrustHeader(headers, name) == Some(v) && Granted(policy, trust, identity, f, v)
  {
    ScopesAreGrants(policy, trust, identity, f, v);
  }

  // ---------------------------------------------------------------- source age

  const AGE_SCOPE := "registry:trust:source_observed_age_seconds:"

  /** The largest age limit among the scopes: strip the prefix, parse, take the maximum. */
  function AgeLimit(scopes: seq<string>): Option<nat> {
    if scopes == [] then None
    else
      var rest := AgeLimit(scopes[1..]);
      var text := StripPrefix(scopes[0], AGE_SCOPE);
      var here := if text.Some? then ParseU64(text.value) else None;
      if here.None? then rest
      else if rest.None? || here.value > rest.value then here
      else rest
  }

  /** The granted age limit, as a number. */
  ghost predicate AgeGranted(policy: Option<GovernedPolicy>, trust: Option<ClientTrust>, identity: string, n: nat) {
    && PeerContext(trust, identity).Some?
    && PeerContext(trust, identity).value.sourceObservedAgeSeconds == Some(n)
    && (|| policy.None? || SetsNothing(policy.value.trustedContext)
        || policy.value.trustedContext.sourceObservedAgeSeconds == Some(n))
  }

  lemma AgeGrantAsText(policy: Option<GovernedPolicy>, trust: Option<ClientTrust>, identity: string, v: string)
    ensures Granted(policy, trust, identity, SourceAge, v) <==>
            exists n: nat :: AgeGranted(policy, trust, identity, n) && v == Decimal(n)
  {
    var peer := PeerContext(trust, identity);
    if Granted(policy, trust, identity, SourceAge, v) {
      var n := peer.value.sourceObservedAgeSeconds.value;
      if policy.Some? && policy.value.trustedContext.sourceObservedAgeSeconds.Some? {
        DecimalRoundTrip(n);
        DecimalRoundTrip(policy.value.trustedContext.sourceObservedAgeSeconds.value);
      }
      assert AgeGranted(policy, trust, identity, n);
    }
  }

  /** If every listed limit is `n`, so is the maximum. */
  lemma {:induction false} AgeLimitConstant(scopes: seq<string>, n: nat)
    requires forall i :: 0 <= i < |scopes| && StripPrefix(scopes[i], AGE_SCOPE).Some? ==>
               ParseU64(StripPrefix(scopes[i], AGE_SCOPE).value) == Some(n)
    ensures AgeLimit(scopes) ==
            if exists i :: 0 <= i < |scopes| && StripPrefix(scopes[i], AGE_SCOPE).Some? then Some(n) else None
  {
    if scopes == [] {
    } else {
      var rest := scopes[1..];
      AgeLimitConstant(rest, n);
      if i :| 0 <= i < |rest| && StripPrefix(rest[i], AGE_SCOPE).Some? {
        assert scopes[i + 1] == rest[i];
      }
      if i :| 0 < i < |scopes| && StripPrefix(scopes[i], AGE_SCOPE).Some? {
        assert rest[i - 1] == scopes[i];
      }
    }
  }

  lemma AgeScope(v: string)
    ensures Scope(SourceAge, v) == AGE_SCOPE + v
  {
  }

  /** Printing, intersecting, parsing and maximising recover exactly the granted number. */
  lemma AgeLimitIsGrant(policy: Option<GovernedPolicy>, trust: Option<ClientTrust>, identity: string, n: nat)
    ensures AgeLimit(TrustedScopes(policy, trust, identity)) == Some(n) <==> AgeGranted(policy, trust, identity, n)
  {
    var scopes, peer := TrustedScopes(policy, trust, identity), PeerContext(trust, identity);
    forall i | 0 <= i < |scopes| && StripPrefix(scopes[i], AGE_SCOPE).Some?
      ensures peer.Some? && peer.value.sourceObservedAgeSeconds.Some?
      ensures AgeGranted(policy, trust, identity, peer.value.sourceObservedAgeSeconds.value)
      ensures ParseU64(StripPrefix(scopes[i], AGE_SCOPE).value) == Some(peer.value.sourceObservedAgeSeconds.value)
    {
      var text := StripPrefix(scopes[i], AGE_SCOPE).value;
      var f, v := OnlyGrants(policy, trust, identity, scopes[i]);
      AgeScope(text);
      ScopeInjective(f, v, SourceAge, text);
      AgeGrantAsText(policy, trust, identity, text);
      ParsePrinted(peer.value.sourceObservedAgeSeconds.value);
    }
    if peer.Some? && peer.value.sourceObservedAgeSeconds.Some? {
      var m := peer.value.sourceObservedAgeSeconds.value;
      AgeLimitConstant(scopes, m);
      if AgeGranted(policy, trust, identity, m) {
        AgeGrantAsText(policy, trust, identity, Decimal(m));
        ScopesAreGrants(policy, trust, identity, SourceAge, Decimal(m));
        AgeScope(Decimal(m));
        var i :| 0 <= i < |scopes| && scopes[i] == Scope(SourceAge, Decimal(m));
        assert StripPrefix(scopes[i], AGE_SCOPE).Some?;
      }
    } else {
      AgeLimitConstant(scopes, 0);
    }
  }

  const OBSERVED_AGE := "x-registry-source-observed-age-seconds"
  const OBSERVED_AT := "x-registry-source-observed-at-unix-seconds"

  /** `source_observed_at_with_age`; the clock reading is absent before the epoch. */
  function ObservedWithAge(headers: Headers, limit: Option<nat>, clock: Option<nat>): Result<Option<(nat, nat)>, Problem> {
    var value := TrustHeader(headers, OBSERVED_AT);
    if value.None? || limit.None? then Ok(None)
    else
      var at := ParseU64(value.value);
      if at.None? || clock.None? then Err(PdpDenied(EvidenceStale))
      else
        var age := if clock.value >= at.value then clock.value - at.value else 0;
        if at.value > clock.value || age > limit.value then Ok(None) else Ok(Some((at.value, age)))
  }

  /** `source_observed_at_unix_seconds`, for the age limit that the scopes give. */
  function ObservedAt(headers: Headers, limit: Option<nat>, clock: Option<nat>): Result<Option<nat>, Problem> {
    match ObservedWithAge(headers, limit, clock)
    case Err(e) => Err(e)
    case Ok(None) => Ok(None)
    case Ok(Some(pair)) => Ok(Some(pair.0))
  }

  /** `source_observed_age_seconds`: a stated age takes precedence over a timestamp. */
  function ObservedAge(headers: Headers, limit: Option<nat>, clock: Option<nat>): Result<Option<nat>, Problem> {
    var value := TrustHeader(headers, OBSERVED_AGE);
    if value.Some? then
      if limit.None? then Ok(None)
      else
        var age := ParseU64(value.value);
        if age.None? then Err(PdpDenied(EvidenceStale))
        else if age.value > limit.value then Ok(None)
        else Ok(age)
    else match ObservedWithAge(headers, limit, clock)
      case Err(e) => Err(e)
      case Ok(None) => Ok(None)
      case Ok(Some(pair)) => Ok(Some(pair.1))
  }

  /** The header text that an age of `age` seconds came from. */
  ghost predicate AgeSource(headers: Headers, clock: Option<nat>, age: nat) {
    var stated, at := TrustHeader(headers, "x-registry-source-observed-age-seconds"), TrustHeader(headers, "x-registry-source-observed-at-unix-seconds");
    if stated.Some? then ParseU64(stated.value) == Some(age)
    else
      && at.Some? && clock.Some? && ParseU64(at.value).Some?
      && ParseU64(at.value).value + age == clock.value
  }

  /** The request states the timestamp `at`, and it is not in the future. */
  ghost predicate TimestampSource(headers: Headers, clock: Option<nat>, at: nat) {
    var stated := TrustHeader(headers, "x-registry-source-observed-at-unix-seconds");
    stated.Some? && ParseU64(stated.value) == Some(at) && clock.Some? && at <= clock.value
  }

  /** Some limit is granted and it allows `age`. */
  ghost predicate AgeAllowed(policy: Option<GovernedPolicy>, trust: Option<ClientTrust>, identity: string, age: nat) {
    exists n: nat :: AgeGranted(policy, trust, identity, n) && age <= n
  }

  lemma LimitAllows(policy: Option<GovernedPolicy>, trust: Option<ClientTrust>, identity: string, age: nat)
    ensures var limit := AgeLimit(TrustedScopes(policy, trust, identity));
            (limit.Some? && age <= limit.value) <==> AgeAllowed(policy, trust, identity, age)
  {
    var limit := AgeLimit(TrustedScopes(policy, trust, identity));
    if limit.Some? { AgeLimitIsGrant(policy, trust, identity, limit.value); }
    if n: nat :| AgeGranted(policy, trust, identity, n) && age <= n {
      AgeLimitIsGrant(policy, trust, identity, n);
    }
  }

  lemma AgeFromLimit(headers: Headers, limit: Option<nat>, clock: Option<nat>, age: nat)
    ensures ObservedAge(headers, limit, clock) == Ok(Some(age)) <==>
            AgeSource(headers, clock, age) && limit.Some? && age <= limit.value
  {
  }

  /** An age reaches the decision exactly when it is within the granted limit and comes from the request:
      stated, or as the distance from a timestamp that is not in the future to the clock. */
  lemma AgeWithinGrant(headers: Headers, policy: Option<GovernedPolicy>, trust: Option<ClientTrust>,
                       identity: string, clock: Option<nat>, age: nat)
    ensures ObservedAge(headers, AgeLimit(TrustedScopes(policy, trust, identity)), clock) == Ok(Some(age)) <==>
            AgeSource(headers, clock, age) && AgeAllowed(policy, trust, identity, age)
  {
    AgeFromLimit(headers, AgeLimit(TrustedScopes(policy, trust, identity)), clock, age);
    LimitAllows(policy, trust, identity, age);
  }

  lemma TimestampFromLimit(headers: Headers, limit: Option<nat>, clock: Option<nat>, at: nat)
    ensures ObservedAt(headers, limit, clock) == Ok(Some(at)) <==>
            TimestampSource(headers, clock, at) && limit.Some? && clock.value - at <= limit.value
  {
  }

  /** A timestamp reaches the decision exactly when it is not in the future and its age is allowed. */
  lemma TimestampWithinGrant(headers: Headers, policy: Option<GovernedPolicy>, trust: Option<ClientTrust>,
                             identity: string, clock: Option<nat>, at: nat)
    ensures ObservedAt(headers, AgeLimit(TrustedScopes(policy, trust, identity)), clock) == Ok(Some(at)) <==>
            TimestampSource(headers, clock, at) && AgeAllowed(policy, trust, identity, clock.value - at)
  {
    TimestampFromLimit(headers, AgeLimit(TrustedScopes(policy, trust, identity)), clock, at);
    if clock.Some? && at <= clock.value {
      LimitAllows(policy, trust, identity, clock.value - at);
    }
  }
}

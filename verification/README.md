# Registry Trust Connector: a verified model

The Registry Trust Connector is a pair of proxies. A client connector takes a caller's request, rewrites its
path and passes it on over mutual TLS. A server connector identifies the peer, finds the route, decides the
purpose, limits the rate and forwards to the registry. This project models the logic between the sockets in
Dafny and proves what that logic is for:

- **Paths and routing** (`Paths`, `DotSegments`, `Prefixes`, `Routing`). Canonicalisation is the exact inverse of
  percent-encoding with literal slashes (section 2.1 of RFC 3986); its results are fixed points of
  remove-dot-segments (section 5.2.4). The string test for prefixes is the list-prefix test on segments. The
  route loops compute the declarative first longest match, and configuration order matters, in either lookup,
  exactly where different routes tie. Two hops compose.
- **The policy fingerprint** (`HashLines`, `PolicyHash`, `HashCache`, `Commitment`). The length-prefixed material
  can be parsed back, so two routes have equal material if and only if they have equal normal forms. Routes of
  equal material authorise every request alike under an exact condition that validation ensures.
- **The rate limiter** (`RateLimiter`). Sharp bounds over every run, causes of every refusal, and independence of
  identity and route pairs under the joined-string key. The limiter reads the clock before it waits for its
  lock, so the model gives a call two instants, and the bounds are stated for both.
- **Grants and the purpose decision** (`TrustContext`, `Purpose`, `Decisions`, `Handlers`). The scope-string encoding
  refines field-wise grants; ages survive printing, intersecting, parsing and maximising; the decision function is
  asked about this very request on this very route, field by field, and its answer decides; the gates named for
  audit are the constraints sent; the purpose travels through both connectors.
- **Start-up and the server as a whole** (`Validation`, `Anchors`, `Deployment`, `Pipeline`, `Outcomes`, `Server`,
  `AcceptLoop`). The validators accept exactly the configurations described by predicates. Passing the server's gates
  is being entitled, both ways. In every interleaving each forward has its own admission and an entitled request
  behind it and bears that request's headers and path, every closed request has its reason, and an entitled request
  that the limiter admits goes out. Connection permits are conserved, and each exit gives back exactly one.

`Basics`, `Text`, `Utf8`, `Config` and `Problems` hold the shared vocabulary.

## How to read the model

- A Rust `str` is a Dafny `string` with one `char` per UTF-8 byte, so lengths, byte order and literals agree with
  the program. UTF-8 validity is the grammar of section 4 of RFC 3629 (`Utf8.ValidIff`).
- A `BTreeSet<String>` is an ascending `seq<string>` grown by insertion; `Text.AscendingUnique` shows that such a
  listing is determined by its elements.
- Loops and in-place updates of the program are methods and classes here, each proved equal to a function or
  equivalent to a predicate; everything else is a function. The limiter and the hash cache are classes. The
  request pipeline and the accept loop are step systems over all interleavings; the pipeline is stated over any
  gates (`Pipeline`, `Outcomes`) and then for the server's own (`Server`).
- What a function computes is stated without it: through tables and literal names, positions in the input, or the
  steps of the run.
- Foreign code is a parameter: the policy decision function, the hash, the loading of a CA file, the reading of a
  leaf certificate, the verification of a chain, the filter of proxy headers, and the file, environment and URL
  checks of start-up (`Validation.Outside`). The clock is a parameter too; the two readings of the wall clock
  within one authorisation are separate.
- `dafny verify dfyconfig.toml` checks the project.

## Where a natural claim fails

Each of these is stated with its exact condition.

- A refusal does not mean exactly `limit` admissions in the last minute (`RateLimiter.MoreThanLimitInAMinute`). It
  means exactly `limit` since the window opened, and at least `limit` and fewer than twice `limit` in the last
  minute, exactly `limit` if and only if none of them is older than the window (`RateLimiter.RefusalIsDeserved`).
- With clock readings out of lock order, admissions by reading have no bound if the wait for the lock has none
  (`RateLimiter.LateReadingsUnbounded`). With waits of at most j minutes they have one
  (`RateLimiter.ReadingBound`), and by the instant of the lock a smaller one (`RateLimiter.AdmissionBound`).
- An identity with a NUL can share another pair's window (`RateLimiter.NulMergesPairs`). Other pairs' calls can change
  a pair's verdict in some run if and only if one of its two texts holds a NUL (`RateLimiter.InterferenceIff`).
- Canonicalisation is not idempotent: it leaves a canonical path alone if and only if the path has no '%'
  (`Paths.CanonicalFixedPoint`, `Routing.HopKeepsPath`). Decoding a second time never leads out of a prefix
  without '%' (`Routing.TwoHops`).
- Rewriting back does not always restore a path; `Prefixes.RewriteBack` gives the one exception exactly.
- Configuration order matters, for a path and prefixes that are well formed, if and only if two different routes
  tie for the longest prefix (`Routing.OrderIrrelevantIff`, `Routing.ClientOrderIrrelevantIff`).
- An allow-list entry is validated as written but compared trimmed, so an accepted server may list one that nothing
  can vouch for. Acceptance guarantees an anchor for the trimmed identity if and only if trimming keeps the entry's
  trust domain, or the whole entry where it is a DNS name, or no server can list the entry at all
  (`Deployment.EntryIsAliveIff`).
- Equal material does not always mean equal decisions. It does if and only if there is no governed policy, or no
  request reaches the decision, or both policies set or leave out the minimum assurance alike and both or neither
  set anything in the trusted context (`Commitment.AuthorizeAlikeIff`). Start-up validation (src/main.rs:117-123)
  refuses every route that could make a difference, so the example in `Commitment.UnvalidatedMayDiffer` is outside
  what start-up lets run.
- The upstream sees the authorised purpose alone, unless the authentication header is itself named `data-purpose`
  (`Handlers.ServerSends`). A configured default purpose outside ASCII is sent but not read by the server
  (`Handlers.PurposeTravels`).

One disagreement between code and documentation: `docs/security-model.md`, `docs/troubleshooting.md`,
`docs/configuration-reference.md` and `docs/demo-test-environment.md` say that a purpose outside the route's list is
answered with `connector.purpose_denied`. In the code that answer is given for
repeated purposes and for a route that requires a purpose but lists none; a purpose outside the list is answered
with the code of the policy decision. The model follows the code (`Purpose.RefusedBeforeDecision`).

## Model

| member | source | states |
|---|---|---|
| `Paths.CheckPercentEncoding` | src/routing.rs:147-164 | The index loop accepts exactly the texts in which every '%' opens a two-digit escape. |
| `Paths.WrittenIsRead` | src/routing.rs:131-164 | An escape opens the text and is read as the byte c if and only if '%' stands there followed by the digits at positions c / 16 and c mod 16 of "0123456789abcdef" or "0123456789ABCDEF". |
| `Paths.CanonicalRequestPath` | src/routing.rs:114-129 | The checks in their order, with the early-return scan, compute the canonical path or the error of the first check that fails. |
| `Paths.CanonicalInvertsSpelling` | src/routing.rs:114-164 | A raw path is accepted with result c if and only if it spells c byte by byte, literally or as %XX with the two digits of the byte in either hex table, with '/' always literal and '%' always escaped, and c is absolute, valid UTF-8 and without dot segments; a backslash only in a path without escapes. |
| `Paths.EncodeSpells` | src/routing.rs:114-145 | Escaping '%' alone is a spelling of every text. |
| `Paths.CanonicalRoundTrip` | src/routing.rs:114-145 | Every canonical path comes back from its encoding, and has some raw form if and only if it does not mix a backslash with '%'. |
| `Paths.EscapedRoundTrip` | src/routing.rs:114-145 | A canonical path comes back from the text in which every byte but '/' is escaped, in either hex case, unless it has a backslash, which is refused as an encoded delimiter. |
| `Paths.EscapedSlashRefused` | src/routing.rs:131-145 | An escaped slash is refused as an encoded delimiter, wherever it stands in an absolute path of well-formed escapes and text. |
| `Paths.CanonicalFixedPoint` | src/routing.rs:114-129 | Canonicalising a canonical path changes nothing if and only if it has no '%'. |
| `Paths.DecodingKeepsSegments` | src/routing.rs:114-145 | On accepted paths decoding commutes with splitting on '/': as many segments, each decoded by itself. |
| `Paths.DecodedSlashes` | src/routing.rs:131-145 | Decoding never loses a slash, so the count comparison detects exactly the encoded ones. |
| `DotSegments.FixedPoints` | src/routing.rs:123-128 | The absolute paths that remove-dot-segments leaves alone are exactly those the dot-segment check lets through. |
| `DotSegments.CanonicalNeedsNoRemoval` | src/routing.rs:114-129 | Every accepted path is a fixed point of remove-dot-segments. |
| `Prefixes.MatchingIsListPrefix` | src/routing.rs:166-174 | The string test holds if and only if the prefix's segments open the path's, a trailing '/' asking for one more segment; for all texts. |
| `Prefixes.MatchingIsPartialOrder` | src/routing.rs:166-174 | Lying under a prefix is reflexive, antisymmetric and transitive. |
| `Prefixes.RewrittenMatches` | src/routing.rs:176-185 | Every rewritten path lies under the upstream prefix. |
| `Prefixes.RewriteBack` | src/routing.rs:166-185 | Rewriting there and back restores a matching path if and only if it is not the one case in which the first rewriting inserts a '/'. |
| `Prefixes.RewriteBackWhenSlashesAgree` | src/routing.rs:166-185 | In particular when the local prefix has no trailing '/' or the upstream prefix has one. |
| `Prefixes.RemainingSegments` | src/routing.rs:166-185 | What follows a matched prefix is a whole number of segments. |
| `Prefixes.RewriteExchangesSegments` | src/routing.rs:176-185 | Rewriting replaces the prefix's segments by the upstream prefix's and keeps the rest, up to an empty segment at the seam. |
| `Prefixes.RewriteKeepsCanonical` | src/routing.rs:176-185 | A canonical path rewritten between canonical prefixes is canonical. |
| `Prefixes.RewriteAddsNoPercent` | src/routing.rs:176-185 | Rewriting brings in no '%'. |
| `Text.TrimMeans` | src/config.rs:847-864 | Trimming, as the connector uses it everywhere, gives the one text without white space at its ends that is left when white space is cut off both ends. |
| `Text.SpaceIff` | src/config.rs:847-864 | What is cut at either end is an encoded code point with the property White_Space, and only that. |
| `Text.ParsesIff` | src/proxy.rs:634-636 | A text is read as the number n if and only if it is an optional '+', zeros and the decimal digits of n, and n is below 2 to the 64th. |
| `Utf8.ValidIff` | src/routing.rs:114-129 | Text is accepted as UTF-8 if and only if it is the encoding, by the table in section 3 of RFC 3629, of a sequence of scalar values. |
| `Config.RouteClientIdentities` | src/config.rs:847-864 | The set grown field by field is the set of trimmed, non-blank identities of the route. |
| `Config.SpiffeTrustDomainMeans` | src/config.rs:911-916 | The trust domain is exactly the non-empty text between the scheme and the next '/' or the end. |
| `Routing.FindServerRoute` | src/routing.rs:52-88 | The loop with its running best returns the declarative selection: an error if a prefix it reaches is malformed, else the first match of maximal prefix length. |
| `Routing.FindClientRoute` | src/routing.rs:12-50 | The client loop returns the declarative selection by local prefix. |
| `Routing.ServerRouteIff` | src/routing.rs:52-88 | A route is found if and only if the path is well spelled, no prefix in play is malformed, and the route stands at the first position of maximal prefix length among those that apply; the path is refused if and only if one of the first two fails. |
| `Routing.ClientRouteIff` | src/routing.rs:12-50 | The same for the client and its local prefixes, with the rewritten path. |
| `Routing.SelectsUnique` | src/routing.rs:12-88 | The declarative selection admits one answer only. |
| `Routing.LookupIsTotal` | src/routing.rs:52-88 | With well-formed prefixes lookup refuses a path for its spelling alone, and succeeds if and only if some route applies. |
| `Routing.SelectedIsLongest` | src/routing.rs:52-88 | The selected route is configured, applies, and no applicable route has a longer prefix; equally long ones have the same prefix. |
| `Routing.AppliesMeans` | src/routing.rs:60-97 | A route applies if and only if it names the method and the identity and its prefix covers the path; lookup's identity test agrees with the identity set that validation computes. |
| `Routing.DistinctPrefixesSuffice` | src/routing.rs:73-85 | Distinct prefixes among competing routes make the longest one unique. |
| `Routing.OrderIrrelevant` | src/routing.rs:52-88 | With a unique longest route the server's answer depends on the set of routes alone. |
| `Routing.OrderIrrelevantIff` | src/routing.rs:52-88 | The server's answer is the same under every reordering of the routes if and only if the path or a prefix in play is malformed or the longest route is unique. |
| `Routing.SelectionUnordered` | src/routing.rs:12-88 | For either lookup: where all longest matches agree, or a prefix is malformed, the selection depends on the set of verdicts alone. |
| `Routing.TieReorders` | src/routing.rs:12-88 | For either lookup: where two longest matches differ, exchanging routes changes the selection. |
| `Routing.SelectionOrderIff` | src/routing.rs:12-88 | For either lookup: no reordering of the routes changes the selection if and only if a prefix is malformed or all longest matches agree. |
| `Routing.ClientOrderIrrelevantIff` | src/routing.rs:12-50 | Route and rewritten path are the same under every reordering of the client's routes if and only if the path or a prefix in play is malformed or the longest local prefix belongs to one route. |
| `Routing.ClientDistinctPrefixesSuffice` | src/routing.rs:38-47 | Distinct local prefixes among competing client routes make the longest one unique. |
| `Routing.NoDeadRoute` | src/routing.rs:52-97 | For its methods and identities a route's own prefix finds a route with exactly that canonical prefix. |
| `Routing.ClientLookupIsTotal` | src/routing.rs:12-50 | The client refuses a path for its spelling alone, finds a route if and only if one covers the path, and then one with the longest local prefix. |
| `Routing.ClientRewrites` | src/routing.rs:12-50 | A found client route is configured for the method and the path lies under its local prefix; the path sent is the rewritten one, and canonical. |
| `Routing.HopKeepsPath` | src/routing.rs:12-129 | The server reads the client's path back unchanged if and only if it has no '%'. |
| `Routing.TwoHops` | src/routing.rs:12-185 | The server refuses the spelling of what the client sends, or reaches a route whose prefix is at least as long as that of any route for the client's upstream prefix, method and identity; a path without '%' is reached unchanged. |
| `Validation.ValidateTrustedContext` | src/config.rs:536-558 | No error if and only if no text is blank and the age is not zero. |
| `Validation.ValidateGovernedPolicy` | src/config.rs:444-534 | No error if and only if the policy has a gate, no blank entry, no zero age and a valid trusted context. |
| `Validation.ValidatePrefix` | src/routing.rs:99-112 | No error if and only if the prefix, if given, can be canonicalised. |
| `Validation.ValidateRoutes` | src/config.rs:406-441 | No error if and only if every route is well formed and all ids differ. |
| `Validation.ValidateCommon` | src/config.rs:365-442 | No error if and only if there are routes, positive limits, an audit secret or leave to do without, and valid routes. |
| `Validation.ValidateClient` | src/config.rs:582-639 | No error if and only if both sections are present, both prefixes are given on every route, and a required static purpose exists. |
| `Validation.ValidateEntitlement` | src/config.rs:804-845 | No error if and only if the entitlement names a new, allow-listed identity and asserts something valid. |
| `Validation.ValidateEntitlements` | src/config.rs:665-673 | No error if and only if every entitlement is valid and no identity has two. |
| `Validation.ValidateAnchors` | src/config.rs:674-693 | No error if and only if every anchor is valid; the domains gathered are exactly the non-blank ones. |
| `Validation.ValidateAllowed` | src/config.rs:694-718 | No error if and only if every entry has an anchor for its domain, or is a permitted DNS identity with one. |
| `Validation.EntryAgainstAnchors` | src/config.rs:674-718 | For valid anchors the test against the gathered domains is the existence of a bound anchor. |
| `Validation.ValidateTrust` | src/config.rs:651-718 | No error if and only if the whole client-trust section has the stated property. |
| `Validation.Sha256Iff` | src/config.rs:1077-1079 | A fingerprint is well formed if and only if it has sixty-four digits, each in the table of small or of capital hex digits. |
| `Validation.ValidateServerRoute` | src/config.rs:769-801 | No error if and only if the route has an upstream prefix and at least one identity, all of them allow-listed. |
| `Validation.ValidateRouteEnvs` | src/config.rs:731-739 | No error if and only if no route names a blank environment variable. |
| `Validation.ValidateServer` | src/config.rs:641-802 | No error, through its three early returns, if and only if the server predicate holds. |
| `Validation.ValidateConfig` | src/config.rs:328-344 | A configuration is accepted if and only if the mode's predicate and the common one hold. |
| `RateLimiter.RequestRateLimiter.Check` | src/proxy.rs:1069-1091 | One call moves exactly the window of its key, rolls it over after sixty whole seconds and admits below the limit. |
| `RateLimiter.Rollover` | src/proxy.rs:1082-1085 | Counting whole seconds with a saturating difference agrees with comparing instants. |
| `RateLimiter.NeverOverLimit` | src/proxy.rs:1070-1091 | Over every run no window counts beyond the limit, whatever the clock does. |
| `RateLimiter.CountIsExact` | src/proxy.rs:1070-1091 | With readings in lock order the counter is the number of admissions since the window opened. |
| `RateLimiter.Spread` | src/proxy.rs:1070-1091 | Each further minute between a span and the current window costs at most one more full window, and the call that opened the earliest lies before the span. |
| `RateLimiter.SpanBound` | src/proxy.rs:1070-1091 | For one key: with readings at most j minutes old a span of k minutes holds at most (k + j + 1) * limit - 1 admissions. |
| `RateLimiter.Projection` | src/proxy.rs:1070-1091 | The shared map is a product of independent windows, one per key. |
| `RateLimiter.AdmissionBound` | src/proxy.rs:1059-1091 | Over every run a span of k minutes holds at most (k + j + 1) * limit - 1 admissions of a pair; j is zero by readings in lock order, and by lock instants it bounds the wait for the lock in minutes. |
| `RateLimiter.BoundIsAttained` | src/proxy.rs:1070-1091 | The bound is sharp: for every limit and every number of minutes a run of prompt calls attains it. |
| `RateLimiter.ReadingBound` | src/proxy.rs:1070-1091 | By clock reading, in whatever order the readings come to the lock: with waits of at most j minutes a span of k minutes holds at most (k + 2j + 1) * limit - 1 admissions of a pair. |
| `RateLimiter.PositionsAreAdmissions` | src/proxy.rs:1070-1091 | The counted admissions are the admitted positions of the run. |
| `RateLimiter.RefusalHasCause` | src/proxy.rs:1086-1088 | A refused pair was itself admitted `limit` times, at most a minute and the wait for the lock earlier. |
| `RateLimiter.RefusalWithinMinute` | src/proxy.rs:1086-1088 | For one key: at least `limit` and fewer than twice `limit` admissions in the last minute, exactly `limit` if and only if none is older than the window. |
| `RateLimiter.RefusalIsDeserved` | src/proxy.rs:1070-1091 | The same for a pair in a run over the shared map, with exactly `limit` admissions since its window opened less than a minute ago. |
| `RateLimiter.JoinKeyInjective` | src/proxy.rs:1076 | Keys of NUL-free identities are equal if and only if the pairs are. |
| `RateLimiter.CollisionIffNul` | src/proxy.rs:1076 | A pair shares its key with some other pair if and only if one of its texts holds a NUL. |
| `RateLimiter.InterferenceIff` | src/proxy.rs:1070-1091 | In some run other pairs' calls change a pair's verdict if and only if one of its two texts holds a NUL. |
| `RateLimiter.OutcomeIsOwn` | src/proxy.rs:1070-1091 | With NUL-free identities a verdict is a function of the pair's own calls. |
| `RateLimiter.MoreThanLimitInAMinute` | src/proxy.rs:1082-1088 | A run in which a refusal has more than `limit` admissions in its last minute. |
| `RateLimiter.LateReadingsUnbounded` | src/proxy.rs:1071-1085 | Runs with ever longer waits in which one clock instant gathers as many admissions as there are minutes. |
| `RateLimiter.NulMergesPairs` | src/proxy.rs:1076 | A run in which a pair without admissions is refused because of a NUL. |
| `HashLines.ParseLine` | src/proxy.rs:936-943 | A pushed line is read back, whatever the value holds. |
| `HashLines.ParseSerialized` | src/proxy.rs:936-943 | A whole list of pushed fields is read back. |
| `HashLines.SerializedGroups` | src/proxy.rs:936-943 | Equal texts of groups with the same distinct names mean equal values under every name. |
| `HashLines.PushGroups` | src/proxy.rs:784-943 | The appending loops build the serialisation of the groups in order. |
| `PolicyHash.BuildMaterial` | src/proxy.rs:784-934 | The pushes build the material of the route. |
| `PolicyHash.PushedAreTagged` | src/proxy.rs:784-934 | What is pushed, in order, is every field under its own name, with nothing for an absent governed policy. |
| `PolicyHash.MaterialDetermines` | src/proxy.rs:784-943 | Materials are equal if and only if the values under every name are. |
| `PolicyHash.MaterialIsNormalForm` | src/proxy.rs:784-943 | Materials are equal if and only if the normal forms are: identities trimmed, lists as sets, absent texts as empty. |
| `HashCache.PolicyHashCache.GetOrCompute` | src/config.rs:238-256 | Returns the stored hash on equal material, else computes and replaces the stored pair. |
| `HashCache.CacheHoldsLast` | src/config.rs:238-256 | After any run the cache holds the last material with its hash. |
| `HashCache.CacheIsTransparent` | src/config.rs:227-256 | Over every run a lookup returns what a fresh computation would, and the number of computations is the number of changes of material. |
| `Commitment.AuthorizeAlikeIff` | src/proxy.rs:329-451 | Routes of equal material authorise every request alike, for every identity, trust configuration, clock, hash and set-reading decision function, if and only if there is no governed policy, or no request reaches the decision, or minimum assurance and the emptiness of the trusted context are set alike. |
| `Commitment.EqualMaterialAuthorizesAlike` | src/proxy.rs:784-943 | Validated routes of equal material authorise every request alike. |
| `Commitment.UnvalidatedMayDiffer` | src/proxy.rs:784-934 | An empty minimum assurance, which validation refuses, and none have the same material and are decided differently. |
| `TrustContext.ScopeInjective` | src/proxy.rs:622-624 | Scope strings are equal if and only if field and value are; no value of one field passes for another's. |
| `TrustContext.ContextScopes` | src/proxy.rs:715-736 | A scope of field f and value v is listed if and only if the context sets f to v, and nothing else is listed. |
| `TrustContext.BuildContextScopes` | src/proxy.rs:715-736 | The insertions build that listing. |
| `TrustContext.EntitlementFound` | src/proxy.rs:703-713 | The entitlement found is the first of the trimmed identity. |
| `TrustContext.PeerContextMeans` | src/proxy.rs:703-713 | The context granted to a peer is that of the first entitlement of its identity, and there is none without client trust or such an entitlement. |
| `TrustContext.ScopesAreGrants` | src/proxy.rs:688-713 | A scope is trusted if and only if the peer grants the value in that field and the route sets nothing or grants it too. |
| `TrustContext.OnlyGrants` | src/proxy.rs:688-713 | Every trusted scope is the scope of a granted value. |
| `TrustContext.TrustHeaderMeans` | src/proxy.rs:602-608 | A trust header reads v if and only if the first header of that name is readable and not blank and trims to v. |
| `TrustContext.HeaderCountsIffGranted` | src/proxy.rs:602-624 | A trust header counts as v if and only if it reads v and v is granted in that very field. |
| `TrustContext.AgeLimitIsGrant` | src/proxy.rs:679-686 | Printing, intersecting, parsing and maximising recover exactly the granted number. |
| `TrustContext.AgeWithinGrant` | src/proxy.rs:626-677 | An age reaches the decision if and only if it is within a granted limit and is the stated age, or with the stated timestamp adds up to the clock. |
| `TrustContext.TimestampWithinGrant` | src/proxy.rs:646-677 | A timestamp reaches the decision if and only if it is stated, not in the future, and of an allowed age. |
| `Purpose.BuildRuleIds` | src/proxy.rs:453-543 | The insertions name the five fixed gates and exactly the gates whose rule is set. |
| `Purpose.SingleDataPurpose` | src/proxy.rs:945-961 | Stepping the values computes the one purpose, none, or a refusal. |
| `Purpose.SinglePurposeMeans` | src/proxy.rs:945-961 | No purpose if and only if no header states one, refused if and only if two positions do, and p if and only if exactly one header named `data-purpose` is readable and not blank, and it trims to p. |
| `Purpose.GatesAgree` | src/proxy.rs:346-543 | A gate is named for audit if and only if its constraint is sent to the decision function. |
| `Purpose.ValidPolicyHasGate` | src/config.rs:444-534 | A governed policy that passes validation names a gate beyond the fixed five. |
| `Purpose.HasGateIff` | src/config.rs:506-534 | For a policy without blank entries and zero age: validation finds a gate if and only if the policy sets one of its nine rules. |
| `Purpose.HasAssertionIff` | src/config.rs:560-580 | A valid trusted context asserts something if and only if it sets one of its five fields. |
| `Purpose.RefusedBeforeDecision` | src/proxy.rs:329-359 | When the three refusals that never reach the decision function are given: a missing purpose; a repeated one, or one on a route that requires a purpose but lists none; an unreadable age under a granted limit. |
| `Purpose.StaleIffUnreadable` | src/proxy.rs:545-677 | The decision's context is missing, with the stale-evidence problem, if and only if an age limit is granted and what the request states about the source's age cannot be read. |
| `Purpose.DecisionAskedIff` | src/proxy.rs:329-451 | The decision function can make a difference if and only if a stated purpose gets through and the source's age can be read. |
| `Decisions.DecisionSeesRequest` | src/proxy.rs:545-600 | The context sent to the decision is the one that says of this request, field by field: its purpose, the verified identity, the route, the path as fact and source, what its headers state of the subject, each trusted field as stated and granted, age and timestamp as read and within the granted limit; none is sent if and only if the source age is unreadable. |
| `Decisions.DecisionSeesRoute` | src/proxy.rs:369-406 | The input sent is the one that says of this route, field by field: its id, the hash of its material, its purposes and every constraint of its policy as configured, and the rule of each gate whose constraint is there. |
| `Decisions.AnswerIsDecision` | src/proxy.rs:407-451 | A purpose that gets through is answered as the decision on that context and that input says; a permit that asks for redaction and an unknown code become refusals of their own. |
| `Decisions.AuthorizedMeans` | src/proxy.rs:329-451 | Success with a purpose if and only if it is the request's one purpose and the route has no purpose policy or the decision on the context and the input above is a plain permit. |
| `Decisions.AskedAboutPurpose` | src/proxy.rs:329-451 | Under a decision that permits one purpose alone, exactly the requests that state it succeed. |
| `Decisions.AskedAboutRequester` | src/proxy.rs:329-451 | Under a decision that permits one requester alone, exactly those of that verified peer succeed. |
| `Decisions.AskedAboutPath` | src/proxy.rs:329-451 | Under a decision that permits one path alone, exactly those for that path succeed. |
| `Handlers.GetAllInsert` | src/proxy.rs:160-180 | Header insertion replaces every value under its name and touches no other. |
| `Handlers.ResolvedFrom` | src/proxy.rs:294-327 | A purpose is resolved if and only if it is the caller's first readable, non-blank value where the route asks the caller or requires none, or the configured default where the route asks for that; a route that requires one refuses otherwise, and no other does. |
| `Handlers.StaticDefaultResolves` | src/proxy.rs:294-327 | In an accepted client configuration a static default never fails. |
| `Handlers.EditClientHeaders` | src/proxy.rs:167-181 | The edits with their early returns give the client's headers. |
| `Handlers.ClientSendsEach` | src/proxy.rs:160-181 | Under every header name: the connector's own value where it sets one, and what the filter left under all others. |
| `Handlers.ClientSends` | src/proxy.rs:160-181 | The purposes that leave the client are the resolved one alone, or those that came in. |
| `Handlers.EditServerHeaders` | src/proxy.rs:248-269 | The edits with their early returns give the server's headers or the problem of the first that fails. |
| `Handlers.UpstreamAuthMeans` | src/proxy.rs:963-987 | The credential is the secret in the route's variable, or else the default one, with the scheme before it unless that is blank; missing if and only if no such variable holds a non-blank text. |
| `Handlers.ServerSendsEach` | src/proxy.rs:252-269 | Under every header name: forwarded identity, credential, request id and purpose, in this order of precedence, and what the filter left under all others. |
| `Handlers.ServerSends` | src/proxy.rs:252-269 | The upstream sees the authorised purpose alone, unless the authentication header has that name. |
| `Handlers.ServerAuthenticates` | src/proxy.rs:252-269 | The upstream sees the configured credential alone, whatever the caller sent under that name. |
| `Handlers.PurposeTravels` | src/proxy.rs:150-451 | A purpose resolved by the client reaches the server as the only one; the server reads it, trimmed, if and only if it is plain ASCII, and authorises what it read. |
| `Anchors.TrustDomainMap` | src/config.rs:881-891 | The map lists for each domain its anchors' CA files in order, and no other domain. |
| `Anchors.DnsIdentityMap` | src/config.rs:893-905 | The map lists for each DNS identity the CA files of the anchors naming it. |
| `Anchors.DomainCasExact` | src/config.rs:881-891 | A CA is listed for a domain if and only if an anchor of that domain has it. |
| `Anchors.DnsCasExact` | src/config.rs:893-905 | A CA is listed for a DNS identity if and only if an anchor naming it has it. |
| `Anchors.RootStore` | src/tls.rs:147-156 | All certificates of the files, or a failure if and only if one does not load. |
| `Anchors.FromConfig` | src/tls.rs:29-56 | The trust policy is built if and only if every CA loads; its stores hold precisely the CAs of the anchors bound to each key, and its deny list precisely the configured fingerprints in small letters. |
| `Anchors.LoweredIff` | src/tls.rs:39-49 | A text in small letters is letter by letter the one at the same position of the alphabet, all else unchanged. |
| `Anchors.DenyListDecides` | src/tls.rs:39-69 | A peer whose fingerprint a configured one matches but for letter case is refused; any other is judged as without the list. |
| `Anchors.VerifiedMeans` | src/tls.rs:58-92 | A peer is accepted if and only if its leaf reads as the identity, its fingerprint is no configured one in small letters, and the chain verifies against the anchors bound to that identity and no others. |
| `Anchors.AcceptedEntriesHaveRoots` | src/config.rs:674-718 | In an accepted server the policy can be built, and every allow-list entry has a root that can vouch for it as written, and for its trimmed identity if trimming keeps its key. |
| `Deployment.DeadEntry` | src/config.rs:694-718 | For every entry that some server can list and whose key trimming changes, a server is accepted that lists it with no anchor for the identity it allows. |
| `Deployment.EntryIsAliveIff` | src/config.rs:674-718 | Acceptance guarantees a root for the trimmed identity of an entry if and only if trimming keeps its key or no server can list it. |
| `Deployment.PaddedEntries` | src/config.rs:694-718 | White space after a SPIFFE path is harmless, after a trust domain or before a DNS name it is not. |
| `Deployment.AcceptedRoutes` | src/config.rs:365-442 | Every route of an accepted server has a well-formed prefix, a valid policy and allow-listed identities. |
| `Deployment.AcceptedRouteIsAlive` | src/config.rs:769-801 | No accepted route is dead: its own prefix leads, for each of its methods and identities, to a route with that prefix. |
| `Deployment.AcceptedRouteHasUse` | src/config.rs:769-801 | Every accepted route has a method and an identity. |
| `Deployment.AcceptedLookup` | src/routing.rs:52-97 | In an accepted server lookup never fails because of a configured prefix. |
| `Deployment.AcceptedClientLookup` | src/routing.rs:12-50 | Nor in an accepted client, where the longest local prefix wins. |
| `Deployment.AcceptedHops` | src/routing.rs:12-185 | The same between two accepted connectors. |
| `Deployment.SomeConnectorIsAccepted` | src/config.rs:328-344 | Acceptance is possible: one small connector is accepted in both modes. |
| `Pipeline.NextKeeps` | src/proxy.rs:192-292 | Every step of every request keeps the invariant. |
| `Pipeline.RunKeeps` | src/proxy.rs:94-148 | The invariant holds after every interleaving, with timeouts anywhere. |
| `Pipeline.CallsPassed` | src/proxy.rs:192-241 | Whatever the gates: counters move only for requests that passed every earlier one, once each, under their own identity and route. |
| `Pipeline.ForwardsBacked` | src/proxy.rs:192-292 | Whatever the gates: every forward has an admission of its own and is what its own request and ticket give. |
| `Outcomes.RunsStraight` | src/proxy.rs:192-292 | After any run a new request that then runs by itself ends as the straight line of checks says: with the problem of the first that refuses, or sent with what its own ticket gives. |
| `Outcomes.PassedIsForwarded` | src/proxy.rs:192-292 | In particular one that passes the gates and whose call the limiter admits goes out, under its own admission. |
| `Outcomes.RunExplained` | src/proxy.rs:94-292 | In every interleaving each closed request has its reason: its own timeout, a refusal of a gate, the limiter, the body or the forward, or the upstream's answer; and what was sent had its body within the limit. |
| `Outcomes.TimeoutCloses` | src/proxy.rs:105-116 | A timeout closes an open request in whatever phase, with the timeout problem, and changes nothing else. |
| `Outcomes.ClosedIsFinal` | src/proxy.rs:105-121 | What is closed keeps its outcome and is not sent afterwards, whatever the other requests do. |
| `Pipeline.ForwardBound` | src/proxy.rs:192-292 | Of the requests admitted in a span of m minutes at most (m + j + 1) * limit - 1 per identity and route are ever forwarded. |
| `Server.PassedIsEntitled` | src/proxy.rs:192-241 | Having passed the server's gates means a verified, allow-listed identity, the longest route for method, path and identity, and a permitted purpose. |
| `Server.IdentifiedMeans` | src/proxy.rs:192-224 | The first gate lets an identity through if and only if the chain verifies for it and it is allow-listed, a DNS identity only where permitted; a missing chain and a denied peer have their own problems. |
| `Server.RoutedMeans` | src/proxy.rs:225-231 | The second gives the first longest route for method, path and identity, or the one problem. |
| `Server.PassedIffEntitled` | src/proxy.rs:192-241 | Passing all gates and being entitled are the same, the purpose requirement of the route included. |
| `Server.AcceptedRouted` | src/config.rs:641-802 | In an accepted server no configured prefix stands in the way of an entitled request, and there are a trust section and an upstream. |
| `Server.CallsAreEntitled` | src/proxy.rs:192-241 | In every run counters move only for entitled requests, once each, under their own identity and route. |
| `Server.OutgoingBears` | src/proxy.rs:243-269 | What goes upstream bears the ticket's path, the forwarded identity where asked for, the configured credential, the request id and the authorised purpose, and under every other name what the filter left. |
| `Server.OutgoingIff` | src/proxy.rs:243-269 | It can be built if and only if there is an upstream with a header name and a sendable credential, and request id and forwarded identity are sendable; a purpose that was read always is. |
| `Server.OutgoingRefused` | src/proxy.rs:243-269 | Otherwise the problem is a missing credential, if and only if there is an upstream, the request id can be sent and no secret is found, or the configuration. |
| `Server.EntitledIsForwarded` | src/proxy.rs:192-292 | After any run an entitled request that can be sent and that the limiter admits goes out, under its own admission, bearing what its ticket says. |
| `Server.ForwardsAreBacked` | src/proxy.rs:192-292 | In every run each forward has an admission of its own and an entitled request behind it and bears that request's path, purpose and credential; no two share a request. |
| `AcceptLoop.StepConserves` | src/main.rs:242-309 | Every step of the loop and of the tasks keeps the sum of free, held and owned permits. |
| `AcceptLoop.PermitsConserved` | src/main.rs:242-309 | Over every run free, held and owned permits add up to the configured maximum, so live connections never exceed it. |
| `AcceptLoop.Fills` | src/main.rs:242-309 | The maximum is reached: for every number up to it some run has that many connections served at once. |
| `AcceptLoop.ExitReleases` | src/main.rs:266-309 | A connection can leave by each of the five exits exactly in the phase the exit belongs to, and then it is gone, its one permit is free, and nothing else has changed. |
| `AcceptLoop.TasksFromRun` | src/main.rs:266-309 | A connection is in its handshake if and only if the last thing that happened to it was its acceptance, and is served if and only if it was the end of the handshake. |
| `AcceptLoop.LoopFromRun` | src/main.rs:242-265 | The loop holds a permit if and only if it last took one, and pauses if and only if its last accept failed. |
| `AcceptLoop.ServedAfterHandshake` | src/main.rs:266-309 | A served connection was accepted and then finished its handshake, with nothing of its own between. |
| `AcceptLoop.HeldUpOnlyWhenFull` | src/main.rs:242-265 | The loop can take a permit if and only if fewer connections than the maximum are open. |
| `AcceptLoop.Drains` | src/main.rs:242-309 | From every reachable state the open connections can end in any order, each by any of its exits, and then every permit is back. |

## Left out

- TLS handshakes, X.509 and PEM parsing, certificate validity and SHA-256: foreign libraries, present as parameters.
- The policy decision function and the proxy-header filter of the platform crates: parameters.
- URL building, body reading and the exchange with the upstream, including any re-encoding of the path on the wire
  between the hops; whether a body is within the limit and how sending ends are inputs of the pipeline steps.
- The environment and the reading of header names: parameters of the server's gates.
- Start-up checks of files, key permissions, environment variables, listen addresses and URLs: single booleans; the
  texts of validation errors, of which the model keeps only the kind.
- Configuration fields the modelled logic does not read, and the constant fields of the policy input.
- Generation and checking of request ids, logging, redaction, the audit records, the JSON reports of the command
  line, and the tables of problem codes, titles and statuses.
- The layer that limits concurrent requests, the failure of a poisoned lock and the closing of the semaphore.
- Termination and fairness of the server loop: the step systems say what every run keeps, and `AcceptLoop.Drains`
  what can always still happen.
- Scripts, containers and the mock relay of the test environment.

/**
 The server's own gates (src/proxy.rs, `handle_server`), and what the pipeline over them guarantees in every run.
 */
module Server {
  import opened Basics
  import opened Text
  import opened Config
  import opened Problems
  import opened Paths
  import opened Routing
  import opened TrustContext
  import opened Validation
  import opened Anchors
  import opened Deployment
  import opened Purpose
  import opened Decisions
  import opened Handlers
  import opened RateLimiter
  import opened Pipeline
  import opened Outcomes

  /** Besides configuration and policy: the reading of leaves, the chain check, the hash, the decision function, the
      filter of proxy headers, the environment, and the reading of header names. */
  datatype World = World(
    config: Connector, policy: TrustPolicy, read: Reader, chainOk: ChainCheck,
    hash: string -> string, decide: Decide,
    filter: Headers -> Headers, env: string -> Option<string>, headerName: string -> Option<string>)

  // ---------------------------------------------------------------- the gates

  function IdentifyPeer(w: World, request: Request): Result<PeerIdentity, Problem> {
    if request.chain.None? then Err(ClientIdentityMissing)
    else match VerifyPeer(w.policy, request.chain.value, w.read, w.chainOk)
      case None => Err(ClientIdentityDenied)
      case Some(identity) =>
        if w.config.clientTrust.Some? && Allowed(w.config.clientTrust.value, identity.value) then Ok(identity)
        else Err(ClientIdentityDenied)
  }

  ghost function RouteFor(w: World, request: Request, identity: PeerIdentity): Result<RouteMatch, Problem> {
    match ServerRoute(w.config.routes, request.method_, request.path, identity.value)
    case Err(_) => Err(RouteDenied)
    case Ok(found) => Ok(found)
  }

  function PurposeFor(w: World, request: Request, identity: PeerIdentity, found: RouteMatch,
                      clockAt: Option<nat>, clockAge: Option<nat>): Result<Option<string>, Problem> {
    Authorize(found, request.headers, identity.value, w.config.clientTrust, clockAt, clockAge, w.hash, w.decide)
  }

  /** The path and the headers for the upstream, or the problem that building them meets. */
  function OutgoingFor(w: World, request: Request, t: Ticket): Result<Outgoing, Problem> {
    if w.config.upstream.None? then Err(ConfigInvalid)
    else
      match ServerHeaders(w.filter(request.headers), t.purpose, request.requestId, AuthFor(w, t), ForwardedIdentity(t))
      case Err(problem) => Err(problem)
      case Ok(headers) => Ok(Outgoing(t.found.upstreamPath, headers))
  }

  function AuthFor(w: World, t: Ticket): Auth
    requires w.config.upstream.Some?
  {
    var upstream := w.config.upstream.value;
    Auth(UpstreamAuth(upstream, t.found.route, w.env), w.headerName(upstream.authHeaderName))
  }

  function ForwardedIdentity(t: Ticket): Option<string> {
    if t.found.route.forwardClientIdentity then Some(t.identity.value) else None
  }

  ghost function GatesOf(w: World): Gates {
    Gates(
      w.config.limits.maxRequestsPerIdentityPerMinute,
      request => IdentifyPeer(w, request),
      (request, identity) => RouteFor(w, request, identity),
      (request, identity, found, clockAt, clockAge) => PurposeFor(w, request, identity, found, clockAt, clockAge),
      (request, t) => OutgoingFor(w, request, t))
  }

  // ---------------------------------------------------------------- what passing them means

  /** A chain that verifies against the anchors bound to an allow-listed identity, the first of the longest routes for
      method, path and identity, and a permitted purpose. */
  ghost predicate Entitled(w: World, load: Loader, request: Request, t: Ticket) {
    && request.chain.Some? && PeerEntitled(w, load, request.chain.value, t.identity)
    && w.config.clientTrust.Some? && Allowed(w.config.clientTrust.value, t.identity.value)
    && RouteEntitled(w, request, t)
    && SinglePurpose(request.headers) == Ok(t.purpose)
    && (Unconstrained(t.found.route) || Permitted(w, request, t))
  }

  ghost predicate PeerEntitled(w: World, load: Loader, chain: seq<string>, identity: PeerIdentity) {
    && chain != [] && w.read(chain[0], w.config.allowDnsSanIdentity) == Some(identity)
    && !Denied(w.config, identity.fingerprint)
    && Bound(w.config, identity.value) && w.chainOk(RootsFor(w.config, load, identity.value), chain)
    && (SpiffeTrustDomain(identity.value).None? ==> w.config.allowDnsSanIdentity)
  }

  ghost predicate RouteEntitled(w: World, request: Request, t: Ticket) {
    && Canonical(request.path) == Ok(t.found.upstreamPath)
    && !ServerMalformed(w.config.routes, request.method_, t.identity.value)
    && FirstLongestRoute(w.config.routes, request.method_, t.found.upstreamPath, t.identity.value, t.found.route)
  }

  ghost predicate Permitted(w: World, request: Request, t: Ticket) {
    && t.purpose.Some? && (t.found.route.requirePurpose ==> PurposeConstraints(t.found.route) != [])
    && !Unreadable(t.found, request.headers, t.identity.value, w.config.clientTrust, t.clockAt, t.clockAge)
    && Decided(t.found, t.purpose.value, request.headers, t.identity.value, w.config.clientTrust,
               t.clockAt, t.clockAge, w.hash, w.decide, Permit)
  }

  /** The first gate, exactly: no chain is one problem, a peer that does not verify or is not listed the other. */
  lemma IdentifiedMeans(w: World, load: Loader, request: Request, identity: PeerIdentity)
    requires IsPolicy(w.config, load, w.policy)
    ensures IdentifyPeer(w, request) == Ok(identity) <==>
            && request.chain.Some? && PeerEntitled(w, load, request.chain.value, identity)
            && w.config.clientTrust.Some? && Allowed(w.config.clientTrust.value, identity.value)
    ensures IdentifyPeer(w, request) == Err(ClientIdentityMissing) <==> request.chain.None?
    ensures IdentifyPeer(w, request).Err? ==> IdentifyPeer(w, request).error in {ClientIdentityMissing, ClientIdentityDenied}
  {
    if request.chain.Some? {
      VerifiedMeans(w.config, load, w.policy, request.chain.value, w.read, w.chainOk, identity);
    }
  }

  /** The second gate: the route that lookup finds, or one problem. */
  lemma RoutedMeans(w: World, request: Request, t: Ticket)
    ensures RouteFor(w, request, t.identity) == Ok(t.found) <==> RouteEntitled(w, request, t)
    ensures RouteFor(w, request, t.identity).Err? ==> RouteFor(w, request, t.identity).error == RouteDenied
  {
    ServerRouteIff(w.config.routes, request.method_, request.path, t.identity.value, t.found);
  }

  /** Passing the gates is being entitled, both ways. */
  lemma PassedIffEntitled(w: World, load: Loader, request: Request, t: Ticket)
    requires IsPolicy(w.config, load, w.policy)
    ensures Passed(GatesOf(w), request, t) <==> Entitled(w, load, request, t)
  {
    IdentifiedMeans(w, load, request, t.identity);
    RoutedMeans(w, request, t);
    PurposeMeans(w, request, t);
  }

  lemma PurposeMeans(w: World, request: Request, t: Ticket)
    ensures PurposeFor(w, request, t.identity, t.found, t.clockAt, t.clockAge) == Ok(t.purpose) <==>
            SinglePurpose(request.headers) == Ok(t.purpose) && (Unconstrained(t.found.route) || Permitted(w, request, t))
  {
    AuthorizedMeans(t.found, request.headers, t.identity.value, w.config.clientTrust, t.clockAt, t.clockAge,
                    w.hash, w.decide, t.purpose);
  }

  /** In an accepted server no configured prefix stands in the way: the path's spelling and the first longest route
      decide alone, and there are a trust section and an upstream. */
  lemma AcceptedRouted(w: World, o: Outside, request: Request, t: Ticket)
    requires Accepted(w.config, o, Mode.Server)
    ensures w.config.clientTrust.Some? && w.config.upstream.Some?
    ensures RouteEntitled(w, request, t) <==>
            && Canonical(request.path) == Ok(t.found.upstreamPath)
            && FirstLongestRoute(w.config.routes, request.method_, t.found.upstreamPath, t.identity.value, t.found.route)
  {
    forall i | 0 <= i < |w.config.routes| ensures !MalformedFor(w.config.routes[i], request.method_, t.identity.value) {
      AcceptedRoutes(w.config, o, w.config.routes[i]);
    }
  }

  lemma PassedIsEntitled(w: World, load: Loader, request: Request, t: Ticket)
    requires IsPolicy(w.config, load, w.policy) && Passed(GatesOf(w), request, t)
    ensures Entitled(w, load, request, t)
  {
    PassedIffEntitled(w, load, request, t);
  }

  // ---------------------------------------------------------------- what goes upstream

  /** What goes upstream bears the ticket's path; the forwarded identity, if the route asks for it; the credential; the
      request id; the authorised purpose alone; and under every other name what the filter left. Of headers that are
      configured with one name the first in this order prevails. */
  ghost predicate Bears(w: World, request: Request, t: Ticket, outgoing: Outgoing) {
    && outgoing.path == t.found.upstreamPath
    && w.config.upstream.Some? && w.headerName(w.config.upstream.value.authHeaderName).Some?
    && exists credential :: IsCredential(w.config.upstream.value, t.found.route, w.env, credential) &&
         forall name :: BearsUnder(w, request, t, outgoing, credential, name)
  }

  ghost predicate BearsUnder(w: World, request: Request, t: Ticket, outgoing: Outgoing, credential: string, name: string)
    requires w.config.upstream.Some?
  {
    GetAll(outgoing.headers, name) ==
    if t.found.route.forwardClientIdentity && name == "x-registry-connector-client-identity" then [t.identity.value]
    else if Some(name) == w.headerName(w.config.upstream.value.authHeaderName) then [credential]
    else if name == "x-request-id" then [request.requestId]
    else if name == "data-purpose" then (if t.purpose.Some? then [t.purpose.value] else [])
    else GetAll(w.filter(request.headers), name)
  }

  lemma OutgoingBears(w: World, request: Request, t: Ticket, outgoing: Outgoing)
    requires OutgoingFor(w, request, t) == Ok(outgoing)
    ensures Bears(w, request, t, outgoing)
  {
    var filtered, auth, forwarded := w.filter(request.headers), AuthFor(w, t), ForwardedIdentity(t);
    ServerSendsEach(filtered, t.purpose, request.requestId, auth, forwarded, "");
    var credential := auth.value.value;
    UpstreamAuthMeans(w.config.upstream.value, t.found.route, w.env, credential);
    forall name ensures BearsUnder(w, request, t, outgoing, credential, name) {
      ServerSendsEach(filtered, t.purpose, request.requestId, auth, forwarded, name);
    }
  }

  /** Everything that has to be sent can be: the credential exists and is sendable, its header name is one, and so are
      the request id and, if it is forwarded, the identity. */
  ghost predicate CanSend(w: World, request: Request, t: Ticket) {
    && w.config.upstream.Some? && w.headerName(w.config.upstream.value.authHeaderName).Some?
    && (exists credential :: IsCredential(w.config.upstream.value, t.found.route, w.env, credential) && Sendable(credential))
    && Sendable(request.requestId) && (t.found.route.forwardClientIdentity ==> Sendable(t.identity.value))
  }

  /** A purpose that the request states can be sent on. */
  lemma StatedIsSendable(headers: Headers, p: string)
    requires SinglePurpose(headers) == Ok(Some(p))
    ensures Sendable(p)
  {
    SinglePurposeMeans(headers, p);
    var i :| StatesAt(headers, i) && Trim(headers[i].value) == p;
    var a, b := TrimCuts(headers[i].value);
    assert forall k :: 0 <= k < |p| ==> p[k] == headers[i].value[|a| + k];
  }

  lemma OutgoingIff(w: World, request: Request, t: Ticket)
    requires SinglePurpose(request.headers) == Ok(t.purpose)
    ensures OutgoingFor(w, request, t).Ok? <==> CanSend(w, request, t)
  {
    if t.purpose.Some? { StatedIsSendable(request.headers, t.purpose.value); }
    if w.config.upstream.Some? {
      var upstream, route := w.config.upstream.value, t.found.route;
      var r := UpstreamAuth(upstream, route, w.env);
      if r.Ok? { UpstreamAuthMeans(upstream, route, w.env, r.value); }
      if v :| IsCredential(upstream, route, w.env, v) && Sendable(v) { UpstreamAuthMeans(upstream, route, w.env, v); }
    }
  }

  /** Otherwise the problem is a missing credential, if all before it can be sent, or the configuration. */
  lemma OutgoingRefused(w: World, request: Request, t: Ticket)
    requires SinglePurpose(request.headers) == Ok(t.purpose)
    ensures OutgoingFor(w, request, t) == Err(UpstreamAuthMissing) <==>
            && w.config.upstream.Some? && Sendable(request.requestId)
            && forall secret :: !HasSecret(w.config.upstream.value, t.found.route, w.env, secret)
    ensures OutgoingFor(w, request, t).Err? ==> OutgoingFor(w, request, t).error in {UpstreamAuthMissing, ConfigInvalid}
  {
    if t.purpose.Some? { StatedIsSendable(request.headers, t.purpose.value); }
    if w.config.upstream.Some? { UpstreamAuthMeans(w.config.upstream.value, t.found.route, w.env, ""); }
  }

  // ---------------------------------------------------------------- what holds of every run

  /** Counters move only for entitled requests, once each, under their own identity and route. */
  lemma CallsAreEntitled(w: World, load: Loader, steps: seq<Step>, k: nat)
    requires IsPolicy(w.config, load, w.policy) && k < |Run(GatesOf(w), steps).calls|
    ensures var s := Run(GatesOf(w), steps);
            && |s.calls| == |s.owners| == |s.tickets| && s.owners[k] in s.requests
            && Entitled(w, load, s.requests[s.owners[k]], s.tickets[k])
            && s.calls[k].identity == s.tickets[k].identity.value
            && s.calls[k].routeId == s.tickets[k].found.route.id
            && (forall j :: 0 <= j < |s.calls| && j != k ==> s.owners[j] != s.owners[k])
  {
    var s := Run(GatesOf(w), steps);
    CallsPassed(GatesOf(w), steps, k);
    PassedIsEntitled(w, load, s.requests[s.owners[k]], s.tickets[k]);
  }

  /** Conversely: after any run, a new request that is entitled, that can be sent and whose call the limiter admits goes
      out, under its own admission and bearing what its ticket says. */
  lemma EntitledIsForwarded(w: World, load: Loader, steps: seq<Step>, id: nat, request: Request, t: Ticket, stamp: Stamp)
    requires IsPolicy(w.config, load, w.policy) && Entitled(w, load, request, t) && CanSend(w, request, t)
    requires id !in Run(GatesOf(w), steps).requests
    requires Admitted(Run(GatesOf(w), steps).calls + [CallFor(t, stamp)], w.config.limits.maxRequestsPerIdentityPerMinute)
    ensures var s := Run(GatesOf(w), steps);
            var s' := Run(GatesOf(w), steps + StraightSteps(id, request, t.clockAt, t.clockAge, stamp, true));
            && s'.forwards == s.forwards + [|s.calls|] && s'.calls == s.calls + [CallFor(t, stamp)]
            && s'.owners == s.owners + [id] && s'.tickets == s.tickets + [t]
            && |s'.sent| == |s.sent| + 1 && Bears(w, request, t, s'.sent[|s.sent|])
  {
    PassedIffEntitled(w, load, request, t);
    OutgoingIff(w, request, t);
    PassedIsForwarded(GatesOf(w), steps, id, request, t, stamp);
    OutgoingBears(w, request, t, OutgoingFor(w, request, t).value);
  }

  /** Every forward, in every interleaving, is backed by an admission of its own and an entitled request, and bears
      the path, the purpose and the credential of that request's ticket. */
  lemma ForwardsAreBacked(w: World, load: Loader, steps: seq<Step>, i: nat)
    requires IsPolicy(w.config, load, w.policy) && i < |Run(GatesOf(w), steps).forwards|
    ensures var s := Run(GatesOf(w), steps);
            var k := s.forwards[i];
            && k < |s.calls| == |s.owners| == |s.tickets| && |s.sent| == |s.forwards|
            && AdmittedAt(s.calls, w.config.limits.maxRequestsPerIdentityPerMinute, k)
            && s.owners[k] in s.requests && Entitled(w, load, s.requests[s.owners[k]], s.tickets[k])
            && s.calls[k].identity == s.tickets[k].identity.value
            && s.calls[k].routeId == s.tickets[k].found.route.id
            && Bears(w, s.requests[s.owners[k]], s.tickets[k], s.sent[i])
    ensures var s := Run(GatesOf(w), steps);
            forall j :: 0 <= j < |s.forwards| && j != i ==>
              s.forwards[j] != s.forwards[i] && s.forwards[j] < |s.owners| && s.owners[s.forwards[j]] != s.owners[s.forwards[i]]
  {
    var s := Run(GatesOf(w), steps);
    ForwardsBacked(GatesOf(w), steps, i);
    var k := s.forwards[i];
    CallsAreEntitled(w, load, steps, k);
    OutgoingBears(w, s.requests[s.owners[k]], s.tickets[k], s.sent[i]);
  }
}

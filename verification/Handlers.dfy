/**
 The header edits of the two handlers (src/proxy.rs) and the journey of the data purpose: resolved by the
 client connector, read and authorised by the server connector, set for the upstream. The filter that both
 apply to incoming headers first is foreign code, so what is left after it is a parameter.
 */
module Handlers {
  import opened Basics
  import opened Text
  import opened Config
  import opened Routing
  import opened TrustContext
  import opened Problems
  import opened Validation
  import opened Purpose
  import opened Decisions

  const REQUEST_ID := "x-request-id"
  const CONNECTOR_ID := "x-registry-connector-id"
  const CONNECTOR_VERSION := "x-registry-connector-version"
  const CLIENT_IDENTITY := "x-registry-connector-client-identity"

  // ---------------------------------------------------------------- header maps

  /** `HeaderMap::remove`. */
  function Remove(headers: Headers, name: string): Headers {
    if headers == [] then []
    else (if headers[0].name == name then [] else [headers[0]]) + Remove(headers[1..], name)
  }

  /** `HeaderMap::insert`: replaces every value under the name. */
  function Insert(headers: Headers, name: string, value: string): Headers {
    Remove(headers, name) + [Header(name, value)]
  }

  /** `HeaderValue::from_str` accepts every byte but control characters, tab excepted. */
  predicate Sendable(value: string) {
    forall i :: 0 <= i < |value| ==> (value[i] >= ' ' && value[i] as int != 127) || value[i] == '\t'
  }

  /** What can be read back as text is what can be sent and is plain ASCII. */
  lemma ReadableIff(value: string)
    ensures Readable(value) <==> Sendable(value) && forall i :: 0 <= i < |value| ==> value[i] as int < 128
  {
  }

  lemma {:induction false} GetAllConcat(a: Headers, b: Headers, name: string)
    ensures GetAll(a + b, name) == GetAll(a, name) + GetAll(b, name)
  {
    if a == [] {
      assert a + b == b;
    } else {
      assert (a + b)[1..] == a[1..] + b;
      GetAllConcat(a[1..], b, name);
    }
  }

  lemma {:induction false} GetAllRemove(headers: Headers, name: string, other: string)
    ensures GetAll(Remove(headers, name), other) == if name == other then [] else GetAll(headers, other)
  {
    if headers == [] {
    } else {
      var first := if headers[0].name == name then [] else [headers[0]];
      GetAllRemove(headers[1..], name, other);
      GetAllConcat(first, Remove(headers[1..], name), other);
      assert first != [] ==> GetAll(first, other) == (if first[0].name == other then [first[0].value] else []) + GetAll(first[1..], other);
    }
  }

  /** Insertion is exact and local. */
  lemma GetAllInsert(headers: Headers, name: string, value: string, other: string)
    ensures GetAll(Insert(headers, name, value), other) == if name == other then [value] else GetAll(headers, other)
  {
    GetAllRemove(headers, name, other);
    var added := [Header(name, value)];
    GetAllConcat(Remove(headers, name), added, other);
    assert GetAll(added, other) == (if name == other then [value] else []) + GetAll(added[1..], other);
  }

  // ---------------------------------------------------------------- client side

  /** `get(..)`, readable and not blank, as it stands. */
  function StatedPurpose(headers: Headers): Option<string> {
    var values := GetAll(headers, DATA_PURPOSE);
    if values == [] || !Readable(values[0]) || Blank(values[0]) then None else Some(values[0])
  }

  /** `resolve_client_purpose`. */
  function ResolvePurpose(route: Route, defaultPurpose: Option<string>, headers: Headers): Result<Option<string>, Problem> {
    if !route.requirePurpose then Ok(StatedPurpose(headers))
    else match (if route.purposeSource.Some? then route.purposeSource.value else DeniedMissing)
      case StaticRouteDefault =>
        if defaultPurpose.Some? && !Blank(defaultPurpose.value) then Ok(defaultPurpose) else Err(PurposeRequired)
      case ClientProvided =>
        if StatedPurpose(headers).Some? then Ok(StatedPurpose(headers)) else Err(PurposeRequired)
      case DeniedMissing => Err(PurposeRequired)
  }

  /** The caller's first purpose header is `p`, readable and not blank. */
  ghost predicate FirstStated(headers: Headers, p: string) {
    exists i :: FirstNamed(headers, "data-purpose", i) && headers[i].value == p && Readable(p) && !Blank(p)
  }

  lemma StatedMeans(headers: Headers, p: string)
    ensures StatedPurpose(headers) == Some(p) <==> FirstStated(headers, p)
  {
    FirstValue(headers, DATA_PURPOSE);
  }

  /** What resolves to `p`, exactly: the configured default on a route that requires a purpose and names the default,
      the caller's first value on a route that requires one and asks the caller, and on a route that requires none. */
  ghost predicate Resolves(route: Route, defaultPurpose: Option<string>, headers: Headers, p: string) {
    if !route.requirePurpose || route.purposeSource == Some(ClientProvided) then FirstStated(headers, p)
    else route.purposeSource == Some(StaticRouteDefault) && defaultPurpose == Some(p) && !Blank(p)
  }

  /** A route that requires a purpose resolves one or refuses; one that requires none never refuses. */
  lemma ResolvedFrom(route: Route, defaultPurpose: Option<string>, headers: Headers)
    ensures var r := ResolvePurpose(route, defaultPurpose, headers);
            && (forall p :: r == Ok(Some(p)) <==> Resolves(route, defaultPurpose, headers, p))
            && (r == Ok(None) <==> !route.requirePurpose && forall p :: !Resolves(route, defaultPurpose, headers, p))
            && (r == Err(PurposeRequired) <==> route.requirePurpose && forall p :: !Resolves(route, defaultPurpose, headers, p))
  {
    var r := ResolvePurpose(route, defaultPurpose, headers);
    forall p ensures StatedPurpose(headers) == Some(p) <==> FirstStated(headers, p) { StatedMeans(headers, p); }
    if r.Ok? && r.value.Some? { assert Resolves(route, defaultPurpose, headers, r.value.value); }
  }

  /** In an accepted client configuration a static default never fails. */
  lemma StaticDefaultResolves(c: Connector, o: Outside, route: Route, headers: Headers)
    requires Accepted(c, o, Client) && route in c.routes
    requires route.requirePurpose && route.purposeSource == Some(StaticRouteDefault)
    ensures ResolvePurpose(route, c.defaultPurpose, headers) == Ok(c.defaultPurpose)
  {
  }

  /** The headers `handle_client` sends. */
  function ClientHeaders(filtered: Headers, requestId: string, version: string, connectorId: Option<string>,
                         purpose: Option<string>): Result<Headers, Problem>
  {
    if !Sendable(requestId) || (connectorId.Some? && !Sendable(connectorId.value)) ||
       (purpose.Some? && !Sendable(purpose.value)) then Err(ConfigInvalid)
    else
      var h1 := Insert(Insert(filtered, REQUEST_ID, requestId), CONNECTOR_VERSION, version);
      var h2 := if connectorId.Some? then Insert(h1, CONNECTOR_ID, connectorId.value) else h1;
      Ok(if purpose.Some? then Insert(h2, DATA_PURPOSE, purpose.value) else h2)
  }

  /** The edits of `handle_client`, one after another. */
  method EditClientHeaders(filtered: Headers, requestId: string, version: string, connectorId: Option<string>,
                           purpose: Option<string>) returns (r: Result<Headers, Problem>)
    ensures r == ClientHeaders(filtered, requestId, version, connectorId, purpose)
  {
    var headers := filtered;
    if !Sendable(requestId) {
      return Err(ConfigInvalid);
    }
    headers := Insert(headers, REQUEST_ID, requestId);
    headers := Insert(headers, CONNECTOR_VERSION, version);
    if connectorId.Some? {
      if !Sendable(connectorId.value) {
        return Err(ConfigInvalid);
      }
      headers := Insert(headers, CONNECTOR_ID, connectorId.value);
    }
    if purpose.Some? {
      if !Sendable(purpose.value) {
        return Err(ConfigInvalid);
      }
      headers := Insert(headers, DATA_PURPOSE, purpose.value);
    }
    return Ok(headers);
  }

  lemma NamesDiffer()
    ensures REQUEST_ID != DATA_PURPOSE && CONNECTOR_VERSION != DATA_PURPOSE
    ensures CONNECTOR_ID != DATA_PURPOSE && CLIENT_IDENTITY != DATA_PURPOSE
    ensures REQUEST_ID != CONNECTOR_ID && REQUEST_ID != CONNECTOR_VERSION && CONNECTOR_ID != CONNECTOR_VERSION
  {
    assert |DATA_PURPOSE| == 12 && |REQUEST_ID| == 12 && DATA_PURPOSE[0] == 'd' && REQUEST_ID[0] == 'x';
    assert |CONNECTOR_VERSION| == 28 && |CONNECTOR_ID| == 23 && |CLIENT_IDENTITY| == 36;
  }

  /** What leaves the client under each name: the edits' own values, and what came in under every other name. */
  lemma ClientSendsEach(filtered: Headers, requestId: string, version: string, connectorId: Option<string>,
                        purpose: Option<string>, name: string)
    requires ClientHeaders(filtered, requestId, version, connectorId, purpose).Ok?
    ensures GetAll(ClientHeaders(filtered, requestId, version, connectorId, purpose).value, name) ==
            if purpose.Some? && name == "data-purpose" then [purpose.value]
            else if connectorId.Some? && name == "x-registry-connector-id" then [connectorId.value]
            else if name == "x-registry-connector-version" then [version]
            else if name == "x-request-id" then [requestId]
            else GetAll(filtered, name)
  {
    NamesDiffer();
    var h0 := Insert(filtered, REQUEST_ID, requestId);
    var h1 := Insert(h0, CONNECTOR_VERSION, version);
    GetAllInsert(filtered, REQUEST_ID, requestId, name);
    GetAllInsert(h0, CONNECTOR_VERSION, version, name);
    var h2 := if connectorId.Some? then Insert(h1, CONNECTOR_ID, connectorId.value) else h1;
    if connectorId.Some? { GetAllInsert(h1, CONNECTOR_ID, connectorId.value, name); }
    if purpose.Some? { GetAllInsert(h2, DATA_PURPOSE, purpose.value, name); }
  }

  /** The purpose values that leave the client: the resolved one alone, or those that came in. */
  lemma ClientSends(filtered: Headers, requestId: string, version: string, connectorId: Option<string>,
                    purpose: Option<string>)
    requires ClientHeaders(filtered, requestId, version, connectorId, purpose).Ok?
    ensures GetAll(ClientHeaders(filtered, requestId, version, connectorId, purpose).value, DATA_PURPOSE) ==
            if purpose.Some? then [purpose.value] else GetAll(filtered, DATA_PURPOSE)
  {
    NamesDiffer();
    ClientSendsEach(filtered, requestId, version, connectorId, purpose, DATA_PURPOSE);
  }

  // ---------------------------------------------------------------- server side

  /** The authentication header: the value or the problem that looking it up in the environment gives, and the
      configured name, absent if it is no header name. */
  datatype Auth = Auth(value: Result<string, Problem>, name: Option<string>)

  /** `upstream_auth_header`: the secret in the route's own variable, or else in the default one, after the scheme. */
  function UpstreamAuth(upstream: Upstream, route: Route, env: string -> Option<string>): Result<string, Problem> {
    var variable := if route.upstreamAuthHeaderEnv.Some? then route.upstreamAuthHeaderEnv else upstream.defaultAuthHeaderEnv;
    if variable.None? then Err(UpstreamAuthMissing)
    else
      var secret := env(variable.value);
      if secret.None? || Blank(secret.value) then Err(UpstreamAuthMissing)
      else
        var value := if Blank(upstream.authHeaderScheme) then secret.value else upstream.authHeaderScheme + " " + secret.value;
        if Sendable(value) then Ok(value) else Err(ConfigInvalid)
  }

  /** The variable that names the secret: the route's own, or else the upstream's default. */
  predicate NamesSecret(upstream: Upstream, route: Route, variable: string) {
    route.upstreamAuthHeaderEnv == Some(variable) ||
    (route.upstreamAuthHeaderEnv == None && upstream.defaultAuthHeaderEnv == Some(variable))
  }

  /** The environment holds a secret that is not blank under that variable. */
  ghost predicate HasSecret(upstream: Upstream, route: Route, env: string -> Option<string>, secret: string) {
    exists variable :: NamesSecret(upstream, route, variable) && env(variable) == Some(secret) && !Blank(secret)
  }

  /** The credential is the secret, after the scheme and a blank unless the scheme is blank. */
  ghost predicate IsCredential(upstream: Upstream, route: Route, env: string -> Option<string>, v: string) {
    exists secret :: HasSecret(upstream, route, env, secret) &&
      v == if Blank(upstream.authHeaderScheme) then secret else upstream.authHeaderScheme + " " + secret
  }

  lemma UpstreamAuthMeans(upstream: Upstream, route: Route, env: string -> Option<string>, v: string)
    ensures UpstreamAuth(upstream, route, env) == Ok(v) <==> IsCredential(upstream, route, env, v) && Sendable(v)
    ensures UpstreamAuth(upstream, route, env) == Err(UpstreamAuthMissing) <==>
            forall secret :: !HasSecret(upstream, route, env, secret)
    ensures UpstreamAuth(upstream, route, env).Err? ==>
            UpstreamAuth(upstream, route, env).error in {UpstreamAuthMissing, ConfigInvalid}
  {
    var variable := if route.upstreamAuthHeaderEnv.Some? then route.upstreamAuthHeaderEnv else upstream.defaultAuthHeaderEnv;
    if variable.Some? {
      assert NamesSecret(upstream, route, variable.value);
      if env(variable.value).Some? && !Blank(env(variable.value).value) {
        assert HasSecret(upstream, route, env, env(variable.value).value);
      }
    }
  }

  /** The headers `handle_server` sends upstream. */
  function ServerHeaders(filtered: Headers, purpose: Option<string>, requestId: string, auth: Auth,
                         forwardedIdentity: Option<string>): Result<Headers, Problem>
  {
    if (purpose.Some? && !Sendable(purpose.value)) || !Sendable(requestId) then Err(ConfigInvalid)
    else if auth.value.Err? then Err(auth.value.error)
    else if auth.name.None? || (forwardedIdentity.Some? && !Sendable(forwardedIdentity.value)) then Err(ConfigInvalid)
    else
      var h1 := Remove(filtered, DATA_PURPOSE);
      var h2 := if purpose.Some? then Insert(h1, DATA_PURPOSE, purpose.value) else h1;
      var h3 := Insert(Insert(h2, REQUEST_ID, requestId), auth.name.value, auth.value.value);
      Ok(if forwardedIdentity.Some? then Insert(h3, CLIENT_IDENTITY, forwardedIdentity.value) else h3)
  }

  /** The edits of `handle_server`, one after another. */
  method EditServerHeaders(filtered: Headers, purpose: Option<string>, requestId: string, auth: Auth,
                           forwardedIdentity: Option<string>) returns (r: Result<Headers, Problem>)
    ensures r == ServerHeaders(filtered, purpose, requestId, auth, forwardedIdentity)
  {
    var headers := Remove(filtered, DATA_PURPOSE);
    if purpose.Some? {
      if !Sendable(purpose.value) {
        return Err(ConfigInvalid);
      }
      headers := Insert(headers, DATA_PURPOSE, purpose.value);
    }
    if !Sendable(requestId) {
      return Err(ConfigInvalid);
    }
    headers := Insert(headers, REQUEST_ID, requestId);
    if auth.value.Err? {
      return Err(auth.value.error);
    }
    if auth.name.None? {
      return Err(ConfigInvalid);
    }
    headers := Insert(headers, auth.name.value, auth.value.value);
    if forwardedIdentity.Some? {
      if !Sendable(forwardedIdentity.value) {
        return Err(ConfigInvalid);
      }
      headers := Insert(headers, CLIENT_IDENTITY, forwardedIdentity.value);
    }
    return Ok(headers);
  }

  /** What the upstream sees under each name, later edits before earlier ones, and what the filter left under every
      other name. */
  lemma ServerSendsEach(filtered: Headers, purpose: Option<string>, requestId: string, auth: Auth,
                        forwardedIdentity: Option<string>, name: string)
    requires ServerHeaders(filtered, purpose, requestId, auth, forwardedIdentity).Ok?
    ensures auth.name.Some? && auth.value.Ok?
    ensures GetAll(ServerHeaders(filtered, purpose, requestId, auth, forwardedIdentity).value, name) ==
            if forwardedIdentity.Some? && name == "x-registry-connector-client-identity" then [forwardedIdentity.value]
            else if name == auth.name.value then [auth.value.value]
            else if name == "x-request-id" then [requestId]
            else if name == "data-purpose" then (if purpose.Some? then [purpose.value] else [])
            else GetAll(filtered, name)
  {
    NamesDiffer();
    var h1 := Remove(filtered, DATA_PURPOSE);
    GetAllRemove(filtered, DATA_PURPOSE, name);
    var h2 := if purpose.Some? then Insert(h1, DATA_PURPOSE, purpose.value) else h1;
    if purpose.Some? { GetAllInsert(h1, DATA_PURPOSE, purpose.value, name); }
    var h3 := Insert(h2, REQUEST_ID, requestId);
    GetAllInsert(h2, REQUEST_ID, requestId, name);
    var h4 := Insert(h3, auth.name.value, auth.value.value);
    GetAllInsert(h3, auth.name.value, auth.value.value, name);
    if forwardedIdentity.Some? { GetAllInsert(h4, CLIENT_IDENTITY, forwardedIdentity.value, name); }
  }

  /** The upstream sees the authorised purpose and nothing else under that name, unless the authentication
      header is configured with the very same name. */
  lemma ServerSends(filtered: Headers, purpose: Option<string>, requestId: string, auth: Auth,
                    forwardedIdentity: Option<string>)
    requires ServerHeaders(filtered, purpose, requestId, auth, forwardedIdentity).Ok?
    ensures auth.name.Some? && auth.value.Ok?
    ensures GetAll(ServerHeaders(filtered, purpose, requestId, auth, forwardedIdentity).value, DATA_PURPOSE) ==
            if auth.name.value == DATA_PURPOSE then [auth.value.value]
            else if purpose.Some? then [purpose.value] else []
  {
    NamesDiffer();
    ServerSendsEach(filtered, purpose, requestId, auth, forwardedIdentity, DATA_PURPOSE);
  }

  /** The upstream authenticates the connector with the configured value alone; only the forwarded identity
      may overwrite it, when both are given the same name. */
  lemma ServerAuthenticates(filtered: Headers, purpose: Option<string>, requestId: string, auth: Auth,
                            forwardedIdentity: Option<string>)
    requires ServerHeaders(filtered, purpose, requestId, auth, forwardedIdentity).Ok?
    ensures auth.name.Some? && auth.value.Ok?
    ensures GetAll(ServerHeaders(filtered, purpose, requestId, auth, forwardedIdentity).value, auth.name.value) ==
            if forwardedIdentity.Some? && auth.name.value == CLIENT_IDENTITY then [forwardedIdentity.value]
            else [auth.value.value]
  {
    assert auth.name.Some?;
    ServerSendsEach(filtered, purpose, requestId, auth, forwardedIdentity, auth.name.value);
  }

  // ---------------------------------------------------------------- end to end

  lemma SoleValue(headers: Headers, p: string)
    requires GetAll(headers, DATA_PURPOSE) == [p] && !Blank(p)
    ensures SinglePurpose(headers) == Ok(if Readable(p) then Some(Trim(p)) else None)
  {
    assert Purposes([p]) == (if Readable(p) && Trim(p) != "" then [Trim(p)] else []) + Purposes([p][1..]);
  }

  /**
   A purpose the client resolves reaches the server as the only one, whatever the caller sent; the server
   reads it, trimmed, exactly when it is plain ASCII; and what the server authorises is what it read.
   */
  lemma PurposeTravels(
    route: Route, defaultPurpose: Option<string>, original: Headers, filtered: Headers, requestId: string,
    version: string, connectorId: Option<string>, p: string, m: RouteMatch, identity: string,
    trust: Option<ClientTrust>, clockAt: Option<nat>, clockAge: Option<nat>, hash: string -> string, decide: Decide)
    requires ResolvePurpose(route, defaultPurpose, original) == Ok(Some(p))
    requires ClientHeaders(filtered, requestId, version, connectorId, Some(p)).Ok?
    ensures var received := ClientHeaders(filtered, requestId, version, connectorId, Some(p)).value;
            var answer := Authorize(m, received, identity, trust, clockAt, clockAge, hash, decide);
            && (SinglePurpose(received) == Ok(Some(Trim(p))) <==> Readable(p))
            && (answer.Ok? ==> answer.value == if Readable(p) then Some(Trim(p)) else None)
            && (route.purposeSource != Some(StaticRouteDefault) || !route.requirePurpose ==> Readable(p))
  {
    var received := ClientHeaders(filtered, requestId, version, connectorId, Some(p)).value;
    assert !Blank(p);
    ClientSends(filtered, requestId, version, connectorId, Some(p));
    SoleValue(received, p);
    var answer := Authorize(m, received, identity, trust, clockAt, clockAge, hash, decide);
    if answer.Ok? {
      AuthorizedMeans(m, received, identity, trust, clockAt, clockAge, hash, decide, answer.value);
    }
  }
}

/** Route lookup in both directions (src/routing.rs). */
module Routing {
  import opened Basics
  import opened Text
  import opened Config
  import opened Paths
  import opened Prefixes

  datatype RoutingError = BadPath | NoRoute

  /** What one route says about a request: nothing, an early exit, or a match of some prefix length. */
  datatype Verdict = Skip | BadPrefix | Match(length: nat, found: RouteMatch)

  predicate MatchesIdentity(route: Route, identity: string) {
    || (route.clientIdentity.Some? && Trim(route.clientIdentity.value) == Trim(identity))
    || exists i :: 0 <= i < |route.clientIdentities| && Trim(route.clientIdentities[i]) == Trim(identity)
  }

  function ServerVerdict(route: Route, method_: string, path: string, identity: string): Verdict {
    if method_ !in route.methods || !MatchesIdentity(route, identity) || route.upstreamPrefix.None? then Skip
    else match Canonical(route.upstreamPrefix.value)
      case Err(_) => BadPrefix
      case Ok(prefix) =>
        if PrefixMatches(path, prefix) then Match(|prefix|, RouteMatch(route, path)) else Skip
  }

  /** Without an upstream prefix the canonical local prefix is used, canonicalised once more. */
  function ClientVerdict(route: Route, method_: string, path: string): Verdict {
    if method_ !in route.methods || route.localPrefix.None? then Skip
    else match Canonical(route.localPrefix.value)
      case Err(_) => BadPrefix
      case Ok(local) =>
        if !PrefixMatches(path, local) then Skip
        else match Canonical(if route.upstreamPrefix.Some? then route.upstreamPrefix.value else local)
          case Err(_) => BadPrefix
          case Ok(upstream) => Match(|local|, RouteMatch(route, Rewrite(path, local, upstream)))
  }

  function ServerVerdicts(routes: seq<Route>, method_: string, path: string, identity: string): (vs: seq<Verdict>)
    ensures |vs| == |routes|
    ensures forall i :: 0 <= i < |routes| ==> vs[i] == ServerVerdict(routes[i], method_, path, identity)
  {
    seq(|routes|, i requires 0 <= i < |routes| => ServerVerdict(routes[i], method_, path, identity))
  }

  function ClientVerdicts(routes: seq<Route>, method_: string, path: string): (vs: seq<Verdict>)
    ensures |vs| == |routes|
    ensures forall i :: 0 <= i < |routes| ==> vs[i] == ClientVerdict(routes[i], method_, path)
  {
    seq(|routes|, i requires 0 <= i < |routes| => ClientVerdict(routes[i], method_, path))
  }

  // ---------------------------------------------------------------- longest match, declaratively

  /** Position `k` holds a match of maximal length. */
  ghost predicate LongestAt(vs: seq<Verdict>, k: int) {
    && 0 <= k < |vs| && vs[k].Match?
    && forall j :: 0 <= j < |vs| && vs[j].Match? ==> vs[j].length <= vs[k].length
  }

  /** Position `k` holds the first match of maximal length. */
  ghost predicate FirstLongest(vs: seq<Verdict>, k: int) {
    LongestAt(vs, k) && forall j :: 0 <= j < k && vs[j].Match? ==> vs[j].length < vs[k].length
  }

  lemma {:induction false} FirstLongestExists(vs: seq<Verdict>) returns (k: int)
    requires exists i :: 0 <= i < |vs| && vs[i].Match?
    ensures FirstLongest(vs, k)
  {
    var n := |vs| - 1;
    var init := vs[..n];
    if exists i :: 0 <= i < n && init[i].Match? {
      k := FirstLongestExists(init);
      if vs[n].Match? && vs[n].length > vs[k].length {
        k := n;
      }
    } else {
      k := n;
    }
  }

  /** Any bad prefix refuses the lookup; otherwise the first longest match wins. */
  ghost predicate Selects(vs: seq<Verdict>, r: Result<RouteMatch, RoutingError>) {
    if BadPrefix in vs then r == Err(BadPath)
    else match r
      case Ok(m) => exists k :: FirstLongest(vs, k) && vs[k].found == m
      case Err(e) => e == NoRoute && forall i :: 0 <= i < |vs| ==> vs[i].Skip?
  }

  lemma SelectsUnique(vs: seq<Verdict>, r: Result<RouteMatch, RoutingError>, r': Result<RouteMatch, RoutingError>)
    requires Selects(vs, r) && Selects(vs, r')
    ensures r == r'
  {
  }

  /** The lookups as functions of configuration and request. */
  ghost function Selected(vs: seq<Verdict>): (r: Result<RouteMatch, RoutingError>)
    ensures Selects(vs, r)
  {
    if BadPrefix in vs then Err(BadPath)
    else if m: RouteMatch :| Selects(vs, Ok(m)) then Ok(m)
    else
      assert forall i :: 0 <= i < |vs| ==> vs[i].Skip? by {
        if i :| 0 <= i < |vs| && !vs[i].Skip? {
          assert vs[i].Match?;
          var k := FirstLongestExists(vs);
          assert Selects(vs, Ok(vs[k].found));
        }
      }
      Err(NoRoute)
  }

  ghost function ServerRoute(routes: seq<Route>, method_: string, path: string, identity: string)
    : Result<RouteMatch, RoutingError>
  {
    match Canonical(path)
    case Err(_) => Err(BadPath)
    case Ok(c) => Selected(ServerVerdicts(routes, method_, c, identity))
  }

  ghost function ClientRoute(routes: seq<Route>, method_: string, path: string): Result<RouteMatch, RoutingError> {
    match Canonical(path)
    case Err(_) => Err(BadPath)
    case Ok(c) => Selected(ClientVerdicts(routes, method_, c))
  }

  // ---------------------------------------------------------------- the loops

  /** The running best after the first `i` routes, with the position it came from. */
  ghost predicate BestSoFar(vs: seq<Verdict>, i: nat, best: Option<(nat, RouteMatch)>, k: int)
    requires i <= |vs|
  {
    && BadPrefix !in vs[..i]
    && match best
       case None => forall j :: 0 <= j < i ==> vs[j].Skip?
       case Some(b) => FirstLongest(vs[..i], k) && vs[k] == Match(b.0, b.1)
  }

  lemma BestSoFarStep(vs: seq<Verdict>, i: nat, best: Option<(nat, RouteMatch)>, k: int)
    requires i < |vs| && BestSoFar(vs, i, best, k)
    ensures vs[i].Skip? ==> BestSoFar(vs, i + 1, best, k)
    ensures vs[i].BadPrefix? ==> BadPrefix in vs
    ensures vs[i].Match? ==>
              if best.None? || vs[i].length > best.value.0
              then BestSoFar(vs, i + 1, Some((vs[i].length, vs[i].found)), i)
              else BestSoFar(vs, i + 1, best, k)
  {
  }

  lemma BestAtEnd(vs: seq<Verdict>, best: Option<(nat, RouteMatch)>, k: int)
    requires BestSoFar(vs, |vs|, best, k)
    ensures Selected(vs) == if best.Some? then Ok(best.value.1) else Err(NoRoute)
  {
  }

  /** `find_server_route`. */
  method FindServerRoute(routes: seq<Route>, method_: string, path: string, identity: string)
    returns (r: Result<RouteMatch, RoutingError>)
    ensures r == ServerRoute(routes, method_, path, identity)
  {
    var canonical := CanonicalRequestPath(path);
    if canonical.Err? {
      return Err(BadPath);
    }
    var c := canonical.value;
    ghost var vs, k := ServerVerdicts(routes, method_, c, identity), -1;
    var best: Option<(nat, RouteMatch)> := None;
    for i := 0 to |routes|
      invariant BestSoFar(vs, i, best, k)
    {
      var route := routes[i];
      BestSoFarStep(vs, i, best, k);
      if method_ !in route.methods { continue; }
      if !MatchesIdentity(route, identity) { continue; }
      if route.upstreamPrefix.None? { continue; }
      var prefix := CanonicalRequestPath(route.upstreamPrefix.value);
      if prefix.Err? {
        return Err(BadPath);
      }
      if PrefixMatches(c, prefix.value) {
        if best.None? || |prefix.value| > best.value.0 {
          best := Some((|prefix.value|, RouteMatch(route, c)));
          k := i;
        }
      }
    }
    BestAtEnd(vs, best, k);
    return if best.Some? then Ok(best.value.1) else Err(NoRoute);
  }

  /** The body of the client loop for one route: skip, refuse, or offer a rewritten match. */
  method ConsiderClientRoute(route: Route, method_: string, c: string) returns (v: Verdict)
    ensures v == ClientVerdict(route, method_, c)
  {
    if method_ !in route.methods || route.localPrefix.None? {
      return Skip;
    }
    var local := CanonicalRequestPath(route.localPrefix.value);
    if local.Err? {
      return BadPrefix;
    }
    if !PrefixMatches(c, local.value) {
      return Skip;
    }
    var upstream :=
      CanonicalRequestPath(if route.upstreamPrefix.Some? then route.upstreamPrefix.value else local.value);
    if upstream.Err? {
      return BadPrefix;
    }
    return Match(|local.value|, RouteMatch(route, Rewrite(c, local.value, upstream.value)));
  }

  /** `find_client_route`. */
  method FindClientRoute(routes: seq<Route>, method_: string, path: string)
    returns (r: Result<RouteMatch, RoutingError>)
    ensures r == ClientRoute(routes, method_, path)
  {
    var canonical := CanonicalRequestPath(path);
    if canonical.Err? {
      return Err(BadPath);
    }
    var c := canonical.value;
    ghost var vs, k := ClientVerdicts(routes, method_, c), -1;
    var best: Option<(nat, RouteMatch)> := None;
    for i := 0 to |routes|
      invariant BestSoFar(vs, i, best, k)
    {
      BestSoFarStep(vs, i, best, k);
      var v := ConsiderClientRoute(routes[i], method_, c);
      if v.BadPrefix? {
        return Err(BadPath);
      }
      if v.Match? && (best.None? || v.length > best.value.0) {
        best := Some((v.length, v.found));
        k := i;
      }
    }
    BestAtEnd(vs, best, k);
    return if best.Some? then Ok(best.value.1) else Err(NoRoute);
  }

  // ---------------------------------------------------------------- what lookup guarantees

  /** A route that applies to the request: it names the method and the identity, and its prefix covers the path. */
  ghost predicate ServerApplies(route: Route, method_: string, path: string, identity: string) {
    ServerVerdict(route, method_, path, identity).Match?
  }

  /** No configured upstream prefix is malformed, as validation ensures. */
  ghost predicate PrefixesOk(routes: seq<Route>) {
    forall i :: 0 <= i < |routes| && routes[i].upstreamPrefix.Some? ==>
      Canonical(routes[i].upstreamPrefix.value).Ok?
  }

  function PrefixOf(route: Route): string
    requires route.upstreamPrefix.Some? && Canonical(route.upstreamPrefix.value).Ok?
  {
    Canonical(route.upstreamPrefix.value).value
  }

  /** Lookup refuses a path for its spelling alone, never for a configured prefix; it succeeds when a route applies. */
  lemma LookupIsTotal(routes: seq<Route>, method_: string, raw: string, identity: string)
    requires PrefixesOk(routes)
    ensures ServerRoute(routes, method_, raw, identity) == Err(BadPath) <==> Canonical(raw).Err?
    ensures ServerRoute(routes, method_, raw, identity).Ok? <==>
              Canonical(raw).Ok? &&
              exists i :: 0 <= i < |routes| && ServerApplies(routes[i], method_, Canonical(raw).value, identity)
  {
  }

  /** An applicable route that no applicable route exceeds in prefix length. */
  ghost predicate Longest(routes: seq<Route>, method_: string, path: string, identity: string, r: Route) {
    && r in routes && ServerApplies(r, method_, path, identity)
    && forall s :: s in routes && ServerApplies(s, method_, path, identity) ==> |PrefixOf(s)| <= |PrefixOf(r)|
  }

  /** The selected route applies, is configured, and no applicable route has a longer prefix. */
  lemma SelectedIsLongest(routes: seq<Route>, method_: string, raw: string, identity: string)
    requires ServerRoute(routes, method_, raw, identity).Ok?
    ensures Canonical(raw).Ok?
    ensures var c, m := Canonical(raw).value, ServerRoute(routes, method_, raw, identity).value;
            && Longest(routes, method_, c, identity, m.route) && m.upstreamPath == c
            && (forall r :: r in routes && ServerApplies(r, method_, c, identity) ==>
                  (|PrefixOf(r)| == |PrefixOf(m.route)| ==> PrefixOf(r) == PrefixOf(m.route)))
  {
  }

  /** When a route applies, in terms of the configuration. */
  lemma AppliesMeans(r: Route, method_: string, c: string, identity: string)
    ensures ServerApplies(r, method_, c, identity) <==>
            && method_ in r.methods && MatchesIdentity(r, identity)
            && r.upstreamPrefix.Some? && Canonical(r.upstreamPrefix.value).Ok?
            && PrefixMatches(c, PrefixOf(r))
    ensures !Blank(identity) ==> (MatchesIdentity(r, identity) <==> Trim(identity) in RouteIdentities(r))
  {
  }

  ghost predicate UniqueLongest(routes: seq<Route>, method_: string, path: string, identity: string) {
    forall r, s :: Longest(routes, method_, path, identity, r) && Longest(routes, method_, path, identity, s) ==> r == s
  }

  /** Distinct prefixes among the applicable routes are enough for that. */
  lemma DistinctPrefixesSuffice(routes: seq<Route>, method_: string, path: string, identity: string)
    requires forall r, s :: r in routes && s in routes ==>
               (ServerApplies(r, method_, path, identity) && ServerApplies(s, method_, path, identity) ==>
               (PrefixOf(r) == PrefixOf(s) ==> r == s))
    ensures UniqueLongest(routes, method_, path, identity)
  {
  }

  // ---------------------------------------------------------------- configuration order, for both lookups

  /** Every route judged by `f`. */
  function Judged(routes: seq<Route>, f: Route -> Verdict): (vs: seq<Verdict>)
    ensures |vs| == |routes|
    ensures forall i :: 0 <= i < |routes| ==> vs[i] == f(routes[i])
  {
    seq(|routes|, i requires 0 <= i < |routes| => f(routes[i]))
  }

  /** All longest matches give the same answer. */
  ghost predicate OneLongest(vs: seq<Verdict>) {
    forall i, j :: LongestAt(vs, i) && LongestAt(vs, j) ==> vs[i].found == vs[j].found
  }

  lemma LongestCarriesOver(vs: seq<Verdict>, vs': seq<Verdict>, k: int) returns (i: int)
    requires LongestAt(vs, k) && forall v :: v in vs <==> v in vs'
    ensures LongestAt(vs', i) && vs'[i] == vs[k]
  {
    assert vs[k] in vs';
    i :| 0 <= i < |vs'| && vs'[i] == vs[k];
    forall j | 0 <= j < |vs'| && vs'[j].Match? ensures vs'[j].length <= vs[k].length {
      assert vs'[j] in vs;
    }
  }

  /** Where no prefix is malformed and all longest matches agree, or some prefix is malformed, the selection
      depends on the set of verdicts alone. */
  lemma SelectionUnordered(vs: seq<Verdict>, vs': seq<Verdict>)
    requires forall v :: v in vs <==> v in vs'
    requires BadPrefix in vs || OneLongest(vs)
    ensures Selected(vs') == Selected(vs)
  {
    if BadPrefix !in vs {
      if exists i :: 0 <= i < |vs| && vs[i].Match? {
        var k := FirstLongestExists(vs);
        var i := LongestCarriesOver(vs, vs', k);
        var k' := FirstLongestExists(vs');
        var j := LongestCarriesOver(vs', vs, k');
        assert vs[k].found == vs[j].found == vs'[k'].found;
        SelectsUnique(vs, Selected(vs), Ok(vs[k].found));
        SelectsUnique(vs', Selected(vs'), Ok(vs'[k'].found));
      } else {
        forall i | 0 <= i < |vs'| ensures vs'[i].Skip? { assert vs'[i] in vs; }
      }
    }
  }

  /** Where two longest matches differ, exchanging the selected one with another changes the selection. */
  lemma TieReorders(routes: seq<Route>, f: Route -> Verdict) returns (routes': seq<Route>)
    requires BadPrefix !in Judged(routes, f) && !OneLongest(Judged(routes, f))
    ensures multiset(routes') == multiset(routes)
    ensures Selected(Judged(routes', f)) != Selected(Judged(routes, f))
  {
    var vs := Judged(routes, f);
    var i, j :| LongestAt(vs, i) && LongestAt(vs, j) && vs[i].found != vs[j].found;
    var k := FirstLongestExists(vs);
    SelectsUnique(vs, Selected(vs), Ok(vs[k].found));
    var other := if vs[i].found != vs[k].found then i else j;
    SwappedSelection(vs, k, other);
    routes' := routes[k := routes[other]][other := routes[k]];
    assert Judged(routes', f) == vs[k := vs[other]][other := vs[k]];
    SwapKeepsMultiset(routes, k, other);
  }

  lemma SwappedSelection(vs: seq<Verdict>, k: nat, other: nat)
    requires FirstLongest(vs, k) && BadPrefix !in vs && other < |vs|
    requires vs[other].Match? && vs[other].length == vs[k].length
    ensures Selected(vs[k := vs[other]][other := vs[k]]) == Ok(vs[other].found)
  {
    var vs' := vs[k := vs[other]][other := vs[k]];
    assert FirstLongest(vs', k);
    forall v | v in vs' ensures v != BadPrefix {
      var i :| 0 <= i < |vs'| && vs'[i] == v;
      assert v == vs[i] || v == vs[k] || v == vs[other];
    }
    SelectsUnique(vs', Selected(vs'), Ok(vs'[k].found));
  }

  lemma SwapKeepsMultiset(routes: seq<Route>, i: nat, j: nat)
    requires i < |routes| && j < |routes|
    ensures multiset(routes[i := routes[j]][j := routes[i]]) == multiset(routes)
  {
  }

  lemma SameElements(routes: seq<Route>, routes': seq<Route>, f: Route -> Verdict)
    requires forall r :: r in routes ==> r in routes'
    ensures forall v :: v in Judged(routes, f) ==> v in Judged(routes', f)
  {
    var vs, vs' := Judged(routes, f), Judged(routes', f);
    forall v | v in vs ensures v in vs' {
      var i :| 0 <= i < |vs| && vs[i] == v;
      assert routes[i] in routes';
      var j :| 0 <= j < |routes'| && routes'[j] == routes[i];
      assert vs'[j] == v;
    }
  }

  lemma JudgedUnordered(routes: seq<Route>, routes': seq<Route>, f: Route -> Verdict)
    requires forall r :: r in routes <==> r in routes'
    requires BadPrefix in Judged(routes, f) || OneLongest(Judged(routes, f))
    ensures Selected(Judged(routes', f)) == Selected(Judged(routes, f))
  {
    SameElements(routes, routes', f);
    SameElements(routes', routes, f);
    SelectionUnordered(Judged(routes, f), Judged(routes', f));
  }

  /** Exactly when no reordering of the routes changes the selection. */
  lemma SelectionOrderIff(routes: seq<Route>, f: Route -> Verdict)
    ensures (forall routes': seq<Route> :: multiset(routes') == multiset(routes) ==>
               Selected(Judged(routes', f)) == Selected(Judged(routes, f)))
            <==> BadPrefix in Judged(routes, f) || OneLongest(Judged(routes, f))
  {
    if BadPrefix in Judged(routes, f) || OneLongest(Judged(routes, f)) {
      forall routes': seq<Route> | multiset(routes') == multiset(routes)
        ensures Selected(Judged(routes', f)) == Selected(Judged(routes, f))
      {
        forall r ensures r in routes <==> r in routes' {
          assert r in routes <==> r in multiset(routes);
          assert r in routes' <==> r in multiset(routes');
        }
        JudgedUnordered(routes, routes', f);
      }
    } else {
      var routes' := TieReorders(routes, f);
    }
  }

  /** The server's verdict and the client's as functions of the route. */
  function ServerJudge(method_: string, path: string, identity: string): Route -> Verdict {
    route => ServerVerdict(route, method_, path, identity)
  }

  function ClientJudge(method_: string, path: string): Route -> Verdict {
    route => ClientVerdict(route, method_, path)
  }

  lemma ServerIsJudged(routes: seq<Route>, method_: string, path: string, identity: string)
    ensures ServerVerdicts(routes, method_, path, identity) == Judged(routes, ServerJudge(method_, path, identity))
  {
  }

  lemma ClientIsJudged(routes: seq<Route>, method_: string, path: string)
    ensures ClientVerdicts(routes, method_, path) == Judged(routes, ClientJudge(method_, path))
  {
  }

  /** Some route for the method and the identity has a malformed prefix; validation excludes it. */
  ghost predicate ServerMalformed(routes: seq<Route>, method_: string, identity: string) {
    exists i :: 0 <= i < |routes| && MalformedFor(routes[i], method_, identity)
  }

  ghost predicate MalformedFor(r: Route, method_: string, identity: string) {
    && method_ in r.methods && MatchesIdentity(r, identity)
    && r.upstreamPrefix.Some? && Canonical(r.upstreamPrefix.value).Err?
  }

  lemma ServerMalformedIff(routes: seq<Route>, method_: string, c: string, identity: string)
    ensures BadPrefix in ServerVerdicts(routes, method_, c, identity) <==> ServerMalformed(routes, method_, identity)
  {
    var vs := ServerVerdicts(routes, method_, c, identity);
    if i :| 0 <= i < |routes| && MalformedFor(routes[i], method_, identity) {
      assert vs[i] == BadPrefix;
    }
    if i :| 0 <= i < |vs| && vs[i] == BadPrefix {
      assert MalformedFor(routes[i], method_, identity);
    }
  }

  lemma ServerUniqueIff(routes: seq<Route>, method_: string, c: string, identity: string)
    ensures OneLongest(ServerVerdicts(routes, method_, c, identity)) <==> UniqueLongest(routes, method_, c, identity)
  {
    var vs := ServerVerdicts(routes, method_, c, identity);
    forall i, j | LongestAt(vs, i) && LongestAt(vs, j)
      ensures UniqueLongest(routes, method_, c, identity) ==> vs[i].found == vs[j].found
    {
      ServerLongestAt(routes, method_, c, identity, i);
      ServerLongestAt(routes, method_, c, identity, j);
    }
    forall r, s | Longest(routes, method_, c, identity, r) && Longest(routes, method_, c, identity, s)
      ensures OneLongest(vs) ==> r == s
    {
      var i :| 0 <= i < |routes| && routes[i] == r;
      var j :| 0 <= j < |routes| && routes[j] == s;
      ServerLongestAt(routes, method_, c, identity, i);
      ServerLongestAt(routes, method_, c, identity, j);
    }
  }

  lemma ServerLongestAt(routes: seq<Route>, method_: string, c: string, identity: string, i: nat)
    requires i < |routes|
    ensures LongestAt(ServerVerdicts(routes, method_, c, identity), i) <==>
            Longest(routes, method_, c, identity, routes[i])
  {
    var vs := ServerVerdicts(routes, method_, c, identity);
    if Longest(routes, method_, c, identity, routes[i]) {
      forall j | 0 <= j < |vs| && vs[j].Match? ensures vs[j].length <= vs[i].length {
        assert routes[j] in routes && ServerApplies(routes[j], method_, c, identity);
      }
    }
  }

  /** With a unique longest route the server's answer depends on the set of routes alone. */
  lemma OrderIrrelevant(routes: seq<Route>, routes': seq<Route>, method_: string, raw: string, identity: string)
    requires forall r :: r in routes <==> r in routes'
    requires Canonical(raw).Ok? ==> UniqueLongest(routes, method_, Canonical(raw).value, identity)
    ensures ServerRoute(routes, method_, raw, identity) == ServerRoute(routes', method_, raw, identity)
  {
    if Canonical(raw).Ok? {
      var c := Canonical(raw).value;
      ServerMalformedIff(routes, method_, c, identity);
      ServerUniqueIff(routes, method_, c, identity);
      ServerIsJudged(routes, method_, c, identity);
      ServerIsJudged(routes', method_, c, identity);
      JudgedUnordered(routes, routes', ServerJudge(method_, c, identity));
    }
  }

  /** Exactly when configuration order does not matter for a request to the server. */
  lemma OrderIrrelevantIff(routes: seq<Route>, method_: string, raw: string, identity: string)
    ensures (forall routes': seq<Route> :: multiset(routes') == multiset(routes) ==>
               ServerRoute(routes', method_, raw, identity) == ServerRoute(routes, method_, raw, identity))
            <==>
            || Canonical(raw).Err? || ServerMalformed(routes, method_, identity)
            || UniqueLongest(routes, method_, Canonical(raw).value, identity)
  {
    if Canonical(raw).Ok? {
      var c := Canonical(raw).value;
      forall routes': seq<Route>
        ensures ServerRoute(routes', method_, raw, identity) ==
                Selected(Judged(routes', ServerJudge(method_, c, identity)))
      {
        ServerIsJudged(routes', method_, c, identity);
      }
      ServerMalformedIff(routes, method_, c, identity);
      ServerUniqueIff(routes, method_, c, identity);
      ServerIsJudged(routes, method_, c, identity);
      SelectionOrderIff(routes, ServerJudge(method_, c, identity));
    }
  }

  /** The first of the applicable routes with the longest prefix. */
  ghost predicate FirstLongestRoute(routes: seq<Route>, method_: string, path: string, identity: string, r: Route) {
    exists k :: 0 <= k < |routes| && routes[k] == r && FirstAmong(routes, method_, path, identity, k)
  }

  ghost predicate FirstAmong(routes: seq<Route>, method_: string, path: string, identity: string, k: int) {
    && 0 <= k < |routes| && ServerApplies(routes[k], method_, path, identity)
    && (forall j :: 0 <= j < |routes| && ServerApplies(routes[j], method_, path, identity) ==>
          |PrefixOf(routes[j])| <= |PrefixOf(routes[k])|)
    && (forall j :: 0 <= j < k && ServerApplies(routes[j], method_, path, identity) ==>
          |PrefixOf(routes[j])| < |PrefixOf(routes[k])|)
  }

  lemma FirstAmongVerdicts(routes: seq<Route>, method_: string, path: string, identity: string, k: int)
    ensures FirstLongest(ServerVerdicts(routes, method_, path, identity), k) <==> FirstAmong(routes, method_, path, identity, k)
  {
    var vs := ServerVerdicts(routes, method_, path, identity);
    forall j | 0 <= j < |routes| ensures vs[j].Match? <==> ServerApplies(routes[j], method_, path, identity)
      ensures vs[j].Match? ==> vs[j].length == |PrefixOf(routes[j])|
    {
      AppliesMeans(routes[j], method_, path, identity);
    }
  }

  /** Server lookup, exactly: the first longest route with the canonical path; a bad path for a spelling or a malformed
      prefix in play; otherwise no route. */
  lemma ServerRouteIff(routes: seq<Route>, method_: string, raw: string, identity: string, found: RouteMatch)
    ensures ServerRoute(routes, method_, raw, identity) == Ok(found) <==>
            && Canonical(raw) == Ok(found.upstreamPath) && !ServerMalformed(routes, method_, identity)
            && FirstLongestRoute(routes, method_, found.upstreamPath, identity, found.route)
    ensures ServerRoute(routes, method_, raw, identity) == Err(BadPath) <==>
            Canonical(raw).Err? || ServerMalformed(routes, method_, identity)
  {
    if Canonical(raw).Ok? {
      var c := Canonical(raw).value;
      var vs := ServerVerdicts(routes, method_, c, identity);
      ServerMalformedIff(routes, method_, c, identity);
      if BadPrefix !in vs {
        if ServerRoute(routes, method_, raw, identity).Ok? {
          var k :| FirstLongest(vs, k) && vs[k].found == Selected(vs).value;
          FirstAmongVerdicts(routes, method_, c, identity, k);
        }
        if FirstLongestRoute(routes, method_, c, identity, found.route) && found.upstreamPath == c {
          var k :| 0 <= k < |routes| && routes[k] == found.route && FirstAmong(routes, method_, c, identity, k);
          FirstAmongVerdicts(routes, method_, c, identity, k);
          SelectsUnique(vs, Selected(vs), Ok(vs[k].found));
        }
      }
    }
  }

  // ---------------------------------------------------------------- whole-configuration properties

  /** The part of server validation that routing relies on. */
  ghost predicate Routable(routes: seq<Route>) {
    forall i :: 0 <= i < |routes| ==>
      routes[i].upstreamPrefix.Some? && Canonical(routes[i].upstreamPrefix.value).Ok?
  }

  /** No route is dead: for its methods and identities its own prefix selects a route with that prefix. */
  lemma NoDeadRoute(routes: seq<Route>, route: Route, method_: string, identity: string)
    requires Routable(routes) && route in routes
    requires method_ in route.methods && identity in RouteIdentities(route)
    ensures route.upstreamPrefix.Some?
    ensures var r := ServerRoute(routes, method_, route.upstreamPrefix.value, identity);
            && r.Ok? && r.value.route in routes && r.value.route.upstreamPrefix.Some?
            && Canonical(r.value.route.upstreamPrefix.value) == Canonical(route.upstreamPrefix.value)
            && method_ in r.value.route.methods && MatchesIdentity(r.value.route, identity)
  {
    var raw := route.upstreamPrefix.value;
    var c := Canonical(raw).value;
    var i :| 0 <= i < |routes| && routes[i] == route;
    assert Trim(identity) == identity && !Blank(identity);
    AppliesMeans(route, method_, c, identity);
    assert PrefixMatches(c, c);
    LookupIsTotal(routes, method_, raw, identity);
    SelectedIsLongest(routes, method_, raw, identity);
    var found := ServerRoute(routes, method_, raw, identity).value.route;
    AppliesMeans(found, method_, c, identity);
    MatchingIsPartialOrder(c, PrefixOf(found), c);
  }

  // ---------------------------------------------------------------- the client's lookup

  /** Both prefixes of every route are present and well formed, as client validation ensures. */
  ghost predicate Rewritable(routes: seq<Route>) {
    forall i :: 0 <= i < |routes| ==>
      && routes[i].localPrefix.Some? && Canonical(routes[i].localPrefix.value).Ok?
      && routes[i].upstreamPrefix.Some? && Canonical(routes[i].upstreamPrefix.value).Ok?
  }

  function LocalOf(route: Route): string
    requires route.localPrefix.Some? && Canonical(route.localPrefix.value).Ok?
  {
    Canonical(route.localPrefix.value).value
  }

  ghost predicate ClientApplies(route: Route, method_: string, path: string) {
    ClientVerdict(route, method_, path).Match?
  }

  lemma ClientAppliesMeans(r: Route, method_: string, c: string)
    ensures ClientApplies(r, method_, c) <==>
            && method_ in r.methods && r.localPrefix.Some? && Canonical(r.localPrefix.value).Ok?
            && PrefixMatches(c, LocalOf(r)) && UpstreamOf(r).Ok?
  {
  }

  /** The canonical upstream prefix of a client route: the configured one, or the canonical local prefix once more. */
  function UpstreamOf(route: Route): Result<string, PathError>
    requires route.localPrefix.Some? && Canonical(route.localPrefix.value).Ok?
  {
    Canonical(if route.upstreamPrefix.Some? then route.upstreamPrefix.value else LocalOf(route))
  }

  /** An applicable route that no applicable route exceeds in local prefix length. */
  ghost predicate ClientLongest(routes: seq<Route>, method_: string, path: string, r: Route) {
    && r in routes && ClientApplies(r, method_, path)
    && forall s :: s in routes && ClientApplies(s, method_, path) ==> |LocalOf(s)| <= |LocalOf(r)|
  }

  ghost predicate ClientUniqueLongest(routes: seq<Route>, method_: string, path: string) {
    forall r, s :: ClientLongest(routes, method_, path, r) && ClientLongest(routes, method_, path, s) ==> r == s
  }

  /** Distinct local prefixes among the applicable routes are enough for that. */
  lemma ClientDistinctPrefixesSuffice(routes: seq<Route>, method_: string, path: string)
    requires forall r, s :: r in routes && s in routes ==>
               (ClientApplies(r, method_, path) && ClientApplies(s, method_, path) ==>
               (LocalOf(r) == LocalOf(s) ==> r == s))
    ensures ClientUniqueLongest(routes, method_, path)
  {
  }

  ghost predicate ClientCovers(routes: seq<Route>, method_: string, path: string)
    requires Rewritable(routes)
  {
    exists i :: 0 <= i < |routes| && method_ in routes[i].methods && PrefixMatches(path, LocalOf(routes[i]))
  }

  lemma ClientLongestAt(routes: seq<Route>, method_: string, c: string, i: nat)
    requires i < |routes|
    ensures LongestAt(ClientVerdicts(routes, method_, c), i) <==> ClientLongest(routes, method_, c, routes[i])
  {
    var vs := ClientVerdicts(routes, method_, c);
    if ClientLongest(routes, method_, c, routes[i]) {
      forall j | 0 <= j < |vs| && vs[j].Match? ensures vs[j].length <= vs[i].length {
        assert routes[j] in routes && ClientApplies(routes[j], method_, c);
      }
    }
  }

  /** The client refuses a path for its spelling alone, finds a route whenever one covers the path, and then one
      whose local prefix no other applicable route exceeds. */
  lemma ClientLookupIsTotal(routes: seq<Route>, method_: string, raw: string)
    requires Rewritable(routes)
    ensures var r := ClientRoute(routes, method_, raw);
            && (r == Err(BadPath) <==> Canonical(raw).Err?)
            && (r.Ok? <==> Canonical(raw).Ok? && ClientCovers(routes, method_, Canonical(raw).value))
            && (r.Ok? ==> ClientLongest(routes, method_, Canonical(raw).value, r.value.route))
  {
    if Canonical(raw).Ok? {
      var c := Canonical(raw).value;
      var vs := ClientVerdicts(routes, method_, c);
      forall i | 0 <= i < |routes|
        ensures vs[i].Match? <==> method_ in routes[i].methods && PrefixMatches(c, LocalOf(routes[i]))
        ensures vs[i] != BadPrefix
      {
        ClientAppliesMeans(routes[i], method_, c);
      }
      if ClientRoute(routes, method_, raw).Ok? {
        var k :| FirstLongest(vs, k) && vs[k].found == ClientRoute(routes, method_, raw).value;
        ClientLongestAt(routes, method_, c, k);
      }
    }
  }

  /** Some route for the method has a malformed local prefix, or covers the path and has a malformed upstream prefix. */
  ghost predicate ClientMalformed(routes: seq<Route>, method_: string, path: string) {
    exists i :: 0 <= i < |routes| && ClientMalformedFor(routes[i], method_, path)
  }

  ghost predicate ClientMalformedFor(r: Route, method_: string, path: string) {
    && method_ in r.methods && r.localPrefix.Some?
    && (Canonical(r.localPrefix.value).Err? || (PrefixMatches(path, LocalOf(r)) && UpstreamOf(r).Err?))
  }

  lemma ClientMalformedIff(routes: seq<Route>, method_: string, c: string)
    ensures BadPrefix in ClientVerdicts(routes, method_, c) <==> ClientMalformed(routes, method_, c)
  {
    var vs := ClientVerdicts(routes, method_, c);
    if i :| 0 <= i < |routes| && ClientMalformedFor(routes[i], method_, c) {
      assert vs[i] == BadPrefix;
    }
    if i :| 0 <= i < |vs| && vs[i] == BadPrefix {
      assert ClientMalformedFor(routes[i], method_, c);
    }
  }

  lemma ClientUniqueIff(routes: seq<Route>, method_: string, c: string)
    ensures OneLongest(ClientVerdicts(routes, method_, c)) <==> ClientUniqueLongest(routes, method_, c)
  {
    var vs := ClientVerdicts(routes, method_, c);
    forall i, j | LongestAt(vs, i) && LongestAt(vs, j)
      ensures ClientUniqueLongest(routes, method_, c) ==> vs[i].found == vs[j].found
    {
      ClientLongestAt(routes, method_, c, i);
      ClientLongestAt(routes, method_, c, j);
    }
    forall r, s | ClientLongest(routes, method_, c, r) && ClientLongest(routes, method_, c, s)
      ensures OneLongest(vs) ==> r == s
    {
      var i :| 0 <= i < |routes| && routes[i] == r;
      var j :| 0 <= j < |routes| && routes[j] == s;
      ClientLongestAt(routes, method_, c, i);
      ClientLongestAt(routes, method_, c, j);
    }
  }

  /** Exactly when configuration order does not matter for a request to the client: only then are route and
      rewritten path the same under every reordering. */
  lemma ClientOrderIrrelevantIff(routes: seq<Route>, method_: string, raw: string)
    ensures (forall routes': seq<Route> :: multiset(routes') == multiset(routes) ==>
               ClientRoute(routes', method_, raw) == ClientRoute(routes, method_, raw))
            <==>
            || Canonical(raw).Err? || ClientMalformed(routes, method_, Canonical(raw).value)
            || ClientUniqueLongest(routes, method_, Canonical(raw).value)
  {
    if Canonical(raw).Ok? {
      var c := Canonical(raw).value;
      forall routes': seq<Route>
        ensures ClientRoute(routes', method_, raw) == Selected(Judged(routes', ClientJudge(method_, c)))
      {
        ClientIsJudged(routes', method_, c);
      }
      ClientMalformedIff(routes, method_, c);
      ClientUniqueIff(routes, method_, c);
      ClientIsJudged(routes, method_, c);
      SelectionOrderIff(routes, ClientJudge(method_, c));
    }
  }

  ghost predicate ClientFirstAmong(routes: seq<Route>, method_: string, path: string, k: int) {
    && 0 <= k < |routes| && ClientApplies(routes[k], method_, path)
    && (forall j :: 0 <= j < |routes| && ClientApplies(routes[j], method_, path) ==>
          |LocalOf(routes[j])| <= |LocalOf(routes[k])|)
    && (forall j :: 0 <= j < k && ClientApplies(routes[j], method_, path) ==>
          |LocalOf(routes[j])| < |LocalOf(routes[k])|)
  }

  /** The first of the applicable routes with the longest local prefix, and the path rewritten by it. */
  ghost predicate ClientFirstLongest(routes: seq<Route>, method_: string, path: string, found: RouteMatch) {
    exists k :: ClientFirstAmong(routes, method_, path, k) && routes[k] == found.route &&
                found.upstreamPath == Rewrite(path, LocalOf(routes[k]), UpstreamOf(routes[k]).value)
  }

  lemma ClientFirstAmongVerdicts(routes: seq<Route>, method_: string, path: string, k: int)
    ensures FirstLongest(ClientVerdicts(routes, method_, path), k) <==> ClientFirstAmong(routes, method_, path, k)
  {
    var vs := ClientVerdicts(routes, method_, path);
    forall j | 0 <= j < |routes| ensures vs[j].Match? <==> ClientApplies(routes[j], method_, path)
      ensures vs[j].Match? ==> vs[j].length == |LocalOf(routes[j])|
    {
      ClientAppliesMeans(routes[j], method_, path);
    }
  }

  /** Client lookup, exactly. */
  lemma ClientRouteIff(routes: seq<Route>, method_: string, raw: string, found: RouteMatch)
    ensures ClientRoute(routes, method_, raw) == Ok(found) <==>
            && Canonical(raw).Ok? && !ClientMalformed(routes, method_, Canonical(raw).value)
            && ClientFirstLongest(routes, method_, Canonical(raw).value, found)
    ensures ClientRoute(routes, method_, raw) == Err(BadPath) <==>
            Canonical(raw).Err? || ClientMalformed(routes, method_, Canonical(raw).value)
  {
    if Canonical(raw).Ok? {
      var c := Canonical(raw).value;
      var vs := ClientVerdicts(routes, method_, c);
      ClientMalformedIff(routes, method_, c);
      if BadPrefix !in vs {
        if ClientRoute(routes, method_, raw).Ok? {
          var k :| FirstLongest(vs, k) && vs[k].found == Selected(vs).value;
          ClientFirstAmongVerdicts(routes, method_, c, k);
          ClientFound(routes[k], method_, c);
        }
        if ClientFirstLongest(routes, method_, c, found) {
          var k :| ClientFirstAmong(routes, method_, c, k) && routes[k] == found.route &&
                   found.upstreamPath == Rewrite(c, LocalOf(routes[k]), UpstreamOf(routes[k]).value);
          ClientFirstAmongVerdicts(routes, method_, c, k);
          ClientFound(routes[k], method_, c);
          SelectsUnique(vs, Selected(vs), Ok(vs[k].found));
        }
      }
    }
  }

  lemma ClientFound(r: Route, method_: string, path: string)
    requires ClientApplies(r, method_, path)
    ensures r.localPrefix.Some? && Canonical(r.localPrefix.value).Ok? && UpstreamOf(r).Ok?
    ensures ClientVerdict(r, method_, path).found == RouteMatch(r, Rewrite(path, LocalOf(r), UpstreamOf(r).value))
  {
  }

  /** What a successful client lookup produced. */
  lemma ClientRewrites(routes: seq<Route>, method_: string, raw: string)
    returns (path: string, local: string, upstream: string)
    requires ClientRoute(routes, method_, raw).Ok?
    ensures var m := ClientRoute(routes, method_, raw).value;
            && m.route in routes && method_ in m.route.methods
            && m.route.localPrefix.Some? && Canonical(m.route.localPrefix.value) == Ok(local)
            && UpstreamOf(m.route) == Ok(upstream)
            && Canonical(raw) == Ok(path) && PrefixMatches(path, local)
            && m.upstreamPath == Rewrite(path, local, upstream)
            && IsCanonical(m.upstreamPath)
  {
    path := Canonical(raw).value;
    var m := ClientRoute(routes, method_, raw).value;
    var vs := ClientVerdicts(routes, method_, path);
    var k :| FirstLongest(vs, k) && vs[k].found == m;
    assert vs[k] == ClientVerdict(routes[k], method_, path);
    local := Canonical(m.route.localPrefix.value).value;
    var text := if m.route.upstreamPrefix.Some? then m.route.upstreamPrefix.value else local;
    upstream := Canonical(text).value;
    CanonicalInvertsSpelling(raw, path);
    CanonicalInvertsSpelling(m.route.localPrefix.value, local);
    CanonicalInvertsSpelling(text, upstream);
    RewriteKeepsCanonical(path, local, upstream);
  }

  /** The path that leaves the client is read back unchanged by the server exactly when it has no '%'. */
  lemma HopKeepsPath(routes: seq<Route>, method_: string, raw: string)
    requires ClientRoute(routes, method_, raw).Ok?
    ensures var sent := ClientRoute(routes, method_, raw).value.upstreamPath;
            Canonical(sent) == Ok(sent) <==> '%' !in sent
  {
    var path, local, upstream := ClientRewrites(routes, method_, raw);
    CanonicalFixedPoint(ClientRoute(routes, method_, raw).value.upstreamPath);
  }

  /**
   Two hops compose: the server either refuses the spelling of what the client sends, or reaches a route whose
   prefix is at least as long as that of any route for the client's upstream prefix, method and identity. So
   decoding once more never leads out of the prefix. A path without '%' is reached unchanged.
   */
  lemma TwoHops(clientRoutes: seq<Route>, serverRoutes: seq<Route>, method_: string, raw: string,
                identity: string, target: Route)
    requires ClientRoute(clientRoutes, method_, raw).Ok?
    requires Routable(serverRoutes) && target in serverRoutes
    requires method_ in target.methods && MatchesIdentity(target, identity)
    requires target.upstreamPrefix.Some? && Canonical(target.upstreamPrefix.value).Ok? && '%' !in PrefixOf(target)
    requires var route := ClientRoute(clientRoutes, method_, raw).value.route;
             route.localPrefix.Some? && Canonical(route.localPrefix.value).Ok? && UpstreamOf(route) == Ok(PrefixOf(target))
    ensures var sent := ClientRoute(clientRoutes, method_, raw).value.upstreamPath;
            var r := ServerRoute(serverRoutes, method_, sent, identity);
            if Canonical(sent).Err? then r == Err(BadPath)
            else
              && r.Ok? && r.value.upstreamPath == Canonical(sent).value && r.value.route in serverRoutes
              && ServerApplies(r.value.route, method_, r.value.upstreamPath, identity)
              && |PrefixOf(r.value.route)| >= |PrefixOf(target)|
              && PrefixMatches(r.value.upstreamPath, PrefixOf(target))
    ensures var sent := ClientRoute(clientRoutes, method_, raw).value.upstreamPath;
            Canonical(raw).Ok? && ('%' !in Canonical(raw).value ==> Canonical(sent) == Ok(sent))
  {
    var path, local, upstream := ClientRewrites(clientRoutes, method_, raw);
    var sent := ClientRoute(clientRoutes, method_, raw).value.upstreamPath;
    if '%' !in path {
      RewriteAddsNoPercent(path, local, upstream);
      HopKeepsPath(clientRoutes, method_, raw);
    }
    RewrittenMatches(path, local, upstream);
    Received(serverRoutes, method_, sent, identity, target);
  }

  /** What the server makes of a path sent under the prefix of one of its routes. */
  lemma Received(routes: seq<Route>, method_: string, sent: string, identity: string, target: Route)
    requires Routable(routes) && target in routes && method_ in target.methods && MatchesIdentity(target, identity)
    requires target.upstreamPrefix.Some? && Canonical(target.upstreamPrefix.value).Ok? && '%' !in PrefixOf(target)
    requires PrefixMatches(sent, PrefixOf(target))
    ensures var r := ServerRoute(routes, method_, sent, identity);
            if Canonical(sent).Err? then r == Err(BadPath)
            else
              && r.Ok? && r.value.upstreamPath == Canonical(sent).value && r.value.route in routes
              && ServerApplies(r.value.route, method_, r.value.upstreamPath, identity)
              && |PrefixOf(r.value.route)| >= |PrefixOf(target)|
              && PrefixMatches(r.value.upstreamPath, PrefixOf(target))
  {
    var i :| 0 <= i < |routes| && routes[i] == target;
    LookupIsTotal(routes, method_, sent, identity);
    if Canonical(sent).Ok? {
      DecodedStaysUnder(sent, PrefixOf(target));
      AppliesMeans(target, method_, Canonical(sent).value, identity);
      SelectedIsLongest(routes, method_, sent, identity);
    }
  }
}

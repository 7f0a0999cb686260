/** What an accepted configuration guarantees at run time, across the modules. */
module Deployment {
  import opened Basics
  import opened Text
  import opened Config
  import opened Paths
  import opened Routing
  import opened Validation
  import opened Anchors
  import Utf8

  /** Every route of an accepted server has a well-formed prefix, a valid policy and allowed identities. */
  lemma AcceptedRoutes(c: Connector, o: Outside, route: Route)
    requires Accepted(c, o, Server) && route in c.routes
    ensures Routable(c.routes) && RouteOk(route) && route.upstreamPrefix.Some?
    ensures c.clientTrust.Some? && ServerRouteOk(c.clientTrust.value, route)
  {
    forall i | 0 <= i < |c.routes|
      ensures c.routes[i].upstreamPrefix.Some? && Canonical(c.routes[i].upstreamPrefix.value).Ok? {
      assert RouteOk(c.routes[i]);
      assert ServerRouteOk(c.clientTrust.value, c.routes[i]);
    }
    var i :| 0 <= i < |c.routes| && c.routes[i] == route;
    assert RouteOk(c.routes[i]);
    assert ServerRouteOk(c.clientTrust.value, c.routes[i]);
  }

  /** No accepted route is dead: some identity it names is allowed, and for each of its methods and identities
      its own prefix leads to a route with that prefix. */
  lemma AcceptedRouteIsAlive(c: Connector, o: Outside, route: Route, method_: string, identity: string)
    requires Accepted(c, o, Server) && route in c.routes
    requires method_ in route.methods && identity in RouteIdentities(route)
    ensures route.upstreamPrefix.Some? && c.clientTrust.Some? && Allowed(c.clientTrust.value, identity)
    ensures var r := ServerRoute(c.routes, method_, route.upstreamPrefix.value, identity);
            && r.Ok? && r.value.route in c.routes && r.value.route.upstreamPrefix.Some?
            && Canonical(r.value.route.upstreamPrefix.value) == Canonical(route.upstreamPrefix.value)
            && method_ in r.value.route.methods && MatchesIdentity(r.value.route, identity)
  {
    AcceptedRoutes(c, o, route);
    NoDeadRoute(c.routes, route, method_, identity);
  }

  lemma AcceptedRouteHasUse(c: Connector, o: Outside, route: Route) returns (method_: string, identity: string)
    requires Accepted(c, o, Server) && route in c.routes
    ensures method_ in route.methods && identity in RouteIdentities(route)
  {
    AcceptedRoutes(c, o, route);
    method_ := route.methods[0];
    identity :| identity in RouteIdentities(route);
  }

  /** In an accepted server lookup never fails because of a configured prefix. */
  lemma AcceptedLookup(c: Connector, o: Outside, method_: string, raw: string, identity: string)
    requires Accepted(c, o, Server)
    ensures ServerRoute(c.routes, method_, raw, identity) == Err(BadPath) <==> Canonical(raw).Err?
  {
  }

  /** Likewise in an accepted client, where moreover the longest local prefix wins. */
  lemma AcceptedClientLookup(c: Connector, o: Outside, method_: string, raw: string)
    requires Accepted(c, o, Client)
    ensures Rewritable(c.routes)
    ensures var r := ClientRoute(c.routes, method_, raw);
            && (r == Err(BadPath) <==> Canonical(raw).Err?)
            && (r.Ok? ==> ClientLongest(c.routes, method_, Canonical(raw).value, r.value.route))
  {
  }

  /** Two accepted connectors, two hops: a server route for the client route's upstream prefix, method and
      identity is reached, or one with a longer prefix. */
  lemma AcceptedHops(client: Connector, oc: Outside, server: Connector, os: Outside, method_: string, raw: string,
                     identity: string, target: Route)
    requires Accepted(client, oc, Client) && Accepted(server, os, Server)
    requires ClientRoute(client.routes, method_, raw).Ok?
    requires target in server.routes && method_ in target.methods && MatchesIdentity(target, identity)
    requires target.upstreamPrefix.Some? && Canonical(target.upstreamPrefix.value).Ok? && '%' !in PrefixOf(target)
    requires var m := ClientRoute(client.routes, method_, raw).value;
             m.route.upstreamPrefix.Some? ==>
             Canonical(target.upstreamPrefix.value) == Canonical(m.route.upstreamPrefix.value)
    ensures var sent := ClientRoute(client.routes, method_, raw).value.upstreamPath;
            var r := ServerRoute(server.routes, method_, sent, identity);
            if Canonical(sent).Err? then r == Err(BadPath)
            else
              && r.Ok? && r.value.upstreamPath == Canonical(sent).value && r.value.route in server.routes
              && ServerApplies(r.value.route, method_, r.value.upstreamPath, identity)
              && |PrefixOf(r.value.route)| >= |PrefixOf(target)|
    ensures var sent := ClientRoute(client.routes, method_, raw).value.upstreamPath;
            Canonical(raw).Ok? && ('%' !in Canonical(raw).value ==> Canonical(sent) == Ok(sent))
  {
    AcceptedRoutes(server, os, target);
    var path, local, upstream := ClientRewrites(client.routes, method_, raw);
    var m := ClientRoute(client.routes, method_, raw).value;
    var i :| 0 <= i < |client.routes| && client.routes[i] == m.route;
    assert ClientRouteOk(client, client.routes[i]);
    TwoHops(client.routes, server.routes, method_, raw, identity, target);
  }

  // ---------------------------------------------------------------- acceptance is possible

  const ROUTE := Route("r", ["GET"], Some("/l"), Some("/u"), false, None, None, [], None, [], None, false)

  /** A small connector with one route, one allow-list entry and one anchor. */
  function Sample(entry: string, anchor: TrustAnchor, dns: bool): Connector {
    Connector(
      true, Some(ClientTrust([entry], [anchor], [], [])), Some(Upstream("/", "authorization", "Bearer", None)),
      true, true, None, None, true, Limits(1, 1, 1, 1, 1, 1, 1), [ROUTE.(clientIdentity := Some(entry))], dns)
  }

  ghost predicate AllGood(o: Outside) {
    o.identityFilesOk && o.authHeaderNameOk && o.environmentOk && o.listenAndUrlOk && forall ca :: o.caOk(ca)
  }

  lemma ShortPath(c: char)
    requires c != '/' && c != '.' && c != '%' && c < 128 as char
    ensures Canonical(['/', c]) == Ok(['/', c])
  {
    var path := ['/', c];
    LiteralSpells(path);
    SplitWhole([c], '/');
    assert path[1..] == [c] && path[..1] == "/";
    assert Split(path, '/') == ["", [c]];
    assert Utf8.Valid([c]) by { assert Utf8.CharLength([c]) == 1; }
    assert Utf8.Valid(path) by { assert Utf8.CharLength(path) == 1; }
    CanonicalInvertsSpelling(path, path);
  }

  lemma SampleRoute(entry: string, t: ClientTrust)
    requires !Blank(entry) && t.allowedIdentities == [entry]
    ensures RouteOk(ROUTE.(clientIdentity := Some(entry))) && ServerRouteOk(t, ROUTE.(clientIdentity := Some(entry)))
  {
    var route := ROUTE.(clientIdentity := Some(entry));
    ShortPath('l');
    ShortPath('u');
    assert Allowed(t, Trim(entry)) by { assert t.allowedIdentities[0] == entry; }
    assert IdentityTexts(route) == [entry];
    assert RouteIdentities(route) == {Trim(entry)} by { assert entry in IdentityTexts(route); }
  }

  /** It is accepted, in both modes, whenever its one entry and its one anchor are valid. */
  lemma SampleAccepted(entry: string, anchor: TrustAnchor, dns: bool, o: Outside, mode: Mode)
    requires AllGood(o) && AnchorOk(o, anchor)
    requires AllowedEntryOk(Sample(entry, anchor, dns), ClientTrust([entry], [anchor], [], []), entry)
    ensures Accepted(Sample(entry, anchor, dns), o, mode)
  {
    SampleRoute(entry, ClientTrust([entry], [anchor], [], []));
    SampleTrust(entry, anchor, dns, o);
  }

  lemma SampleTrust(entry: string, anchor: TrustAnchor, dns: bool, o: Outside)
    requires AnchorOk(o, anchor)
    requires AllowedEntryOk(Sample(entry, anchor, dns), ClientTrust([entry], [anchor], [], []), entry)
    ensures TrustOk(Sample(entry, anchor, dns), o, ClientTrust([entry], [anchor], [], []))
  {
  }

  lemma SpiffeEntry(entry: string, domain: string, dns: bool)
    requires !Blank(entry) && SpiffeTrustDomain(entry) == Some(domain)
    ensures var anchor := TrustAnchor("ca", domain, []);
            AllowedEntryOk(Sample(entry, anchor, dns), ClientTrust([entry], [anchor], [], []), entry)
  {
    var t := ClientTrust([entry], [TrustAnchor("ca", domain, [])], [], []);
    assert InDomain(t, 1, domain) by { assert t.trustAnchors[0].trustDomain == domain; }
  }

  lemma TightIsKept(s: string)
    requires LeadingSpace(s) == 0 && TrailingSpace(s) == 0
    ensures Trim(s) == s
  {
  }

  /** Acceptance is possible in both modes. */
  lemma SomeConnectorIsAccepted(o: Outside, mode: Mode) returns (c: Connector)
    requires AllGood(o)
    ensures Accepted(c, o, mode)
  {
    var entry, anchor := "spiffe://d/c", TrustAnchor("ca", "d", []);
    TightIsKept(entry);
    TightIsKept("d");
    SpiffeTrustDomainMeans(entry, "d");
    SpiffeEntry(entry, "d", false);
    c := Sample(entry, anchor, false);
    SampleAccepted(entry, anchor, false, o, mode);
  }

  // ---------------------------------------------------------------- allow-list entries and their anchors

  /** Blank entries, and SPIFFE entries whose trust domain is blank, pass in no server. */
  predicate Unlistable(entry: string) {
    Blank(entry) || (SpiffeTrustDomain(entry).Some? && Blank(SpiffeTrustDomain(entry).value))
  }

  ghost predicate Lists(c: Connector, o: Outside, entry: string) {
    Accepted(c, o, Server) && c.clientTrust.Some? && entry in c.clientTrust.value.allowedIdentities
  }

  lemma UnlistableIsNotListed(c: Connector, o: Outside, entry: string)
    requires Lists(c, o, entry)
    ensures !Unlistable(entry)
  {
    var t := c.clientTrust.value;
    var i :| 0 <= i < |t.allowedIdentities| && t.allowedIdentities[i] == entry;
    assert AllowedEntryOk(c, t, t.allowedIdentities[i]);
    if SpiffeTrustDomain(entry).Some? {
      var k :| 0 <= k < |t.trustAnchors| && t.trustAnchors[k].trustDomain == SpiffeTrustDomain(entry).value;
      assert AnchorOk(o, t.trustAnchors[k]);
    }
  }

  /** An entry whose key trimming changes passes in some server in which nothing vouches for the identity it allows. */
  lemma DeadEntry(entry: string, o: Outside) returns (c: Connector)
    requires !Unlistable(entry) && !TrimKeepsKey(entry) && AllGood(o)
    ensures Lists(c, o, entry) && !Bound(c, Trim(entry))
  {
    var domain := SpiffeTrustDomain(entry);
    var other := if SpiffeTrustDomain(Trim(entry)) == Some("a") then "b" else "a";
    TightIsKept(other);
    var anchor := if domain.Some? then TrustAnchor("ca", domain.value, []) else TrustAnchor("ca", other, [entry]);
    if domain.Some? { SpiffeEntry(entry, domain.value, true); } else { DnsEntry(entry, anchor); }
    c := Sample(entry, anchor, true);
    SampleAccepted(entry, anchor, true, o, Server);
  }

  lemma DnsEntry(entry: string, anchor: TrustAnchor)
    requires !Blank(entry) && SpiffeTrustDomain(entry).None? && anchor.dnsIdentities == [entry]
    ensures AllowedEntryOk(Sample(entry, anchor, true), ClientTrust([entry], [anchor], [], []), entry)
  {
    assert ClientTrust([entry], [anchor], [], []).trustAnchors[0] == anchor;
  }

  /** Exactly the entries for which acceptance guarantees a root that can vouch for the identity they allow. */
  lemma EntryIsAliveIff(entry: string)
    ensures (forall c: Connector, o: Outside, load: Loader :: Lists(c, o, entry) && LoadsChecked(o, load) ==>
               RootsFor(c, load, Trim(entry)) != {})
            <==> Unlistable(entry) || TrimKeepsKey(entry)
  {
    if Unlistable(entry) || TrimKeepsKey(entry) {
      forall c: Connector, o: Outside, load: Loader | Lists(c, o, entry) && LoadsChecked(o, load)
        ensures RootsFor(c, load, Trim(entry)) != {}
      {
        UnlistableIsNotListed(c, o, entry);
        AcceptedEntriesHaveRoots(c, o, load, entry);
      }
    } else {
      var o := Outside(true, true, true, true, (ca: string) => true);
      var load: Loader := (ca: string) => Some(ca);
      var c := DeadEntry(entry, o);
      UnboundHasNoRoots(c, load, Trim(entry));
      assert LoadsChecked(o, load);
    }
  }

  /** White space after the path of a SPIFFE identity does no harm, after its trust domain it does, and around a
      DNS name it does. */
  lemma PaddedEntries()
    ensures TrimKeepsKey("spiffe://d/x ") && !TrimKeepsKey("spiffe://d ") && !TrimKeepsKey(" a")
  {
    PaddedTrims();
    SpiffeTrustDomainMeans("spiffe://d/x ", "d");
    SpiffeTrustDomainMeans("spiffe://d/x", "d");
    SpiffeTrustDomainMeans("spiffe://d ", "d");
    SpiffeTrustDomainMeans("spiffe://d", "d");
  }

  lemma PaddedTrims()
    ensures Trim("spiffe://d/x ") == "spiffe://d/x" && Trim("spiffe://d ") == "spiffe://d" && Trim(" a") == "a"
  {
    SpaceAfter("spiffe://d/x ", "spiffe://d/x");
    SpaceAfter("spiffe://d ", "spiffe://d");
    TrimPadded(" a", " ", "a", "a", "");
  }

  lemma SpaceAfter(padded: string, text: string)
    requires padded == text + " " && LeadingSpace(text) == 0 && TrailingSpace(text) == 0
    ensures Trim(padded) == text
  {
    assert padded == "" + padded;
    TrimPadded(padded, "", padded, text, " ");
  }
}

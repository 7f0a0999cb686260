/**
 Trust anchors (src/config.rs, src/tls.rs): which CAs vouch for which identity. Certificates are opaque
 texts; loading a CA file, reading an identity from a leaf certificate and verifying a chain against a
 set of roots are parameters.
 */
module Anchors {
  import opened Basics
  import opened Text
  import opened Config
  import opened Validation

  // ---------------------------------------------------------------- grouping

  /** The CA files of the anchors for trust domain `d`, in configuration order. */
  function DomainCas(anchors: seq<TrustAnchor>, d: string): seq<string> {
    if anchors == [] then []
    else
      var last := anchors[|anchors| - 1];
      DomainCas(anchors[..|anchors| - 1], d) + if last.trustDomain == d then [last.ca] else []
  }

  /** `ca` once for each occurrence of `identity`. */
  function Occurrences(identities: seq<string>, identity: string, ca: string): seq<string> {
    if identities == [] then []
    else
      Occurrences(identities[..|identities| - 1], identity, ca) +
      if identities[|identities| - 1] == identity then [ca] else []
  }

  /** The CA files of the anchors that list the DNS identity. */
  function DnsCas(anchors: seq<TrustAnchor>, identity: string): seq<string> {
    if anchors == [] then []
    else
      var last := anchors[|anchors| - 1];
      DnsCas(anchors[..|anchors| - 1], identity) + Occurrences(last.dnsIdentities, identity, last.ca)
  }

  function Entry(m: map<string, seq<string>>, key: string): seq<string> {
    if key in m then m[key] else []
  }

  /** `entry(key).or_default().push(value)`. */
  function Push(m: map<string, seq<string>>, key: string, value: string): (r: map<string, seq<string>>)
    ensures forall k :: Entry(r, k) == Entry(m, k) + if k == key then [value] else []
    ensures (forall k :: k in m ==> m[k] != []) ==> forall k :: k in r ==> r[k] != []
  {
    m[key := Entry(m, key) + [value]]
  }

  /** `trust_domain_map`. */
  method TrustDomainMap(anchors: seq<TrustAnchor>) returns (out: map<string, seq<string>>)
    ensures forall d :: d in out <==> DomainCas(anchors, d) != []
    ensures forall d :: d in out ==> out[d] == DomainCas(anchors, d)
  {
    out := map[];
    for i := 0 to |anchors|
      invariant forall d :: Entry(out, d) == DomainCas(anchors[..i], d)
      invariant forall d :: d in out ==> out[d] != []
    {
      assert anchors[..i + 1][..i] == anchors[..i];
      out := Push(out, anchors[i].trustDomain, anchors[i].ca);
    }
    assert anchors[..|anchors|] == anchors;
    assert forall d :: Entry(out, d) == DomainCas(anchors, d);
  }

  /** `dns_identity_map`. */
  method DnsIdentityMap(anchors: seq<TrustAnchor>) returns (out: map<string, seq<string>>)
    ensures forall x :: x in out <==> DnsCas(anchors, x) != []
    ensures forall x :: x in out ==> out[x] == DnsCas(anchors, x)
  {
    out := map[];
    for i := 0 to |anchors|
      invariant forall x :: Entry(out, x) == DnsCas(anchors[..i], x)
      invariant forall x :: x in out ==> out[x] != []
    {
      var a := anchors[i];
      assert anchors[..i + 1][..i] == anchors[..i];
      out := PushIdentities(out, a.dnsIdentities, a.ca);
    }
    assert anchors[..|anchors|] == anchors;
    assert forall x :: Entry(out, x) == DnsCas(anchors, x);
  }

  method PushIdentities(m: map<string, seq<string>>, identities: seq<string>, ca: string)
    returns (out: map<string, seq<string>>)
    requires forall x :: x in m ==> m[x] != []
    ensures forall x :: Entry(out, x) == Entry(m, x) + Occurrences(identities, x, ca)
    ensures forall x :: x in out ==> out[x] != []
  {
    out := m;
    for j := 0 to |identities|
      invariant forall x :: Entry(out, x) == Entry(m, x) + Occurrences(identities[..j], x, ca)
      invariant forall x :: x in out ==> out[x] != []
    {
      ghost var before := out;
      out := Push(out, identities[j], ca);
      forall x ensures Entry(out, x) == Entry(m, x) + Occurrences(identities[..j + 1], x, ca) {
        OccurrencesStep(identities, j, x, ca, Entry(m, x), Entry(before, x));
      }
    }
    assert identities[..|identities|] == identities;
  }

  lemma OccurrencesStep(identities: seq<string>, j: nat, x: string, ca: string, first: seq<string>, sofar: seq<string>)
    requires j < |identities| && sofar == first + Occurrences(identities[..j], x, ca)
    ensures sofar + (if x == identities[j] then [ca] else []) == first + Occurrences(identities[..j + 1], x, ca)
  {
    assert identities[..j + 1][..j] == identities[..j];
  }

  // ---------------------------------------------------------------- exactness of the grouping

  ghost predicate ForDomain(a: TrustAnchor, d: string) {
    a.trustDomain == d
  }

  ghost predicate ForDns(a: TrustAnchor, identity: string) {
    identity in a.dnsIdentities
  }

  lemma {:induction false} DomainCasExact(anchors: seq<TrustAnchor>, d: string, ca: string)
    ensures ca in DomainCas(anchors, d) <==>
            exists i :: 0 <= i < |anchors| && ForDomain(anchors[i], d) && anchors[i].ca == ca
  {
    if anchors == [] {
    } else {
      var init := anchors[..|anchors| - 1];
      DomainCasExact(init, d, ca);
      assert forall i :: 0 <= i < |init| ==> init[i] == anchors[i];
    }
  }

  lemma {:induction false} OccurrencesExact(identities: seq<string>, identity: string, ca: string, x: string)
    ensures x in Occurrences(identities, identity, ca) <==> x == ca && identity in identities
  {
    if identities == [] {
    } else {
      OccurrencesExact(identities[..|identities| - 1], identity, ca, x);
      assert identities == identities[..|identities| - 1] + [identities[|identities| - 1]];
    }
  }

  lemma {:induction false} DnsCasExact(anchors: seq<TrustAnchor>, identity: string, ca: string)
    ensures ca in DnsCas(anchors, identity) <==>
            exists i :: 0 <= i < |anchors| && ForDns(anchors[i], identity) && anchors[i].ca == ca
  {
    if anchors == [] {
    } else {
      var init, last := anchors[..|anchors| - 1], anchors[|anchors| - 1];
      DnsCasExact(init, identity, ca);
      OccurrencesExact(last.dnsIdentities, identity, last.ca, ca);
      assert forall i :: 0 <= i < |init| ==> init[i] == anchors[i];
    }
  }

  // ---------------------------------------------------------------- stores

  type Loader = string -> Option<string>

  /** The certificates in the CA files that load. */
  ghost function Certs(files: seq<string>, load: Loader): set<string> {
    set p | p in files && load(p).Some? :: load(p).value
  }

  ghost predicate Loads(files: seq<string>, load: Loader) {
    forall p :: p in files ==> load(p).Some?
  }

  /** `root_store_from_paths`: all certificates, or a failure. */
  method RootStore(paths: seq<string>, load: Loader) returns (r: Option<set<string>>)
    ensures r.Some? <==> Loads(paths, load)
    ensures r.Some? ==> r.value == Certs(paths, load)
  {
    var roots: set<string> := {};
    for i := 0 to |paths|
      invariant forall j :: 0 <= j < i ==> load(paths[j]).Some?
      invariant forall x :: x in roots <==> exists j :: 0 <= j < i && load(paths[j]) == Some(x)
    {
      var cert := load(paths[i]);
      if cert.None? {
        return None;
      }
      roots := roots + {cert.value};
    }
    r := Some(roots);
  }

  datatype TrustPolicy = TrustPolicy(
    byDomain: map<string, set<string>>,
    byDns: map<string, set<string>>,
    denied: set<string>,
    allowDns: bool)

  /** All certificates of the CA files listed for each key. */
  method Stores(files: map<string, seq<string>>, load: Loader) returns (r: Option<map<string, set<string>>>)
    ensures r.Some? <==> forall k :: k in files ==> Loads(files[k], load)
    ensures r.Some? ==> r.value.Keys == files.Keys
    ensures r.Some? ==> forall k :: k in files ==> r.value[k] == Certs(files[k], load)
  {
    var out: map<string, set<string>> := map[];
    var left := files.Keys;
    while left != {}
      invariant left <= files.Keys && out.Keys == files.Keys - left
      invariant forall k :: k in out ==> Loads(files[k], load)
      invariant forall k :: k in out ==> out[k] == Certs(files[k], load)
      decreases left
    {
      var k :| k in left;
      var store := RootStore(files[k], load);
      if store.None? {
        return None;
      }
      out := out[k := store.value];
      left := left - {k};
    }
    r := Some(out);
  }

  // ---------------------------------------------------------------- the server's trust policy

  function AnchorsOf(c: Connector): seq<TrustAnchor> {
    if c.clientTrust.Some? then c.clientTrust.value.trustAnchors else []
  }

  /** Exactly the certificates of the anchors for trust domain `d`. */
  ghost function DomainStore(anchors: seq<TrustAnchor>, load: Loader, d: string): set<string> {
    set i | 0 <= i < |anchors| && ForDomain(anchors[i], d) && load(anchors[i].ca).Some? :: load(anchors[i].ca).value
  }

  /** Exactly the certificates of the anchors that list the DNS identity. */
  ghost function DnsStore(anchors: seq<TrustAnchor>, load: Loader, identity: string): set<string> {
    set i | 0 <= i < |anchors| && ForDns(anchors[i], identity) && load(anchors[i].ca).Some? :: load(anchors[i].ca).value
  }

  ghost predicate AllLoad(anchors: seq<TrustAnchor>, load: Loader) {
    forall i :: 0 <= i < |anchors| ==> load(anchors[i].ca).Some?
  }

  function LowerChar(c: char): char {
    if 'A' <= c <= 'Z' then (c as int + 32) as char else c
  }

  /** `to_ascii_lowercase`. */
  function ToLower(s: string): string {
    seq(|s|, i requires 0 <= i < |s| => LowerChar(s[i]))
  }

  const UPPER := "ABCDEFGHIJKLMNOPQRSTUVWXYZ"
  const LOWER := "abcdefghijklmnopqrstuvwxyz"

  /** `b` is `a`, or the small letter of the capital `a`. */
  predicate Lowered(a: char, b: char) {
    if a in UPPER then exists k :: 0 <= k < 26 && UPPER[k] == a && LOWER[k] == b else a == b
  }

  predicate LoweredText(s: string, t: string) {
    |s| == |t| && forall i :: 0 <= i < |s| ==> Lowered(s[i], t[i])
  }

  lemma Letters()
    ensures forall j :: 0 <= j < 26 ==> UPPER[j] as int == 'A' as int + j
    ensures forall j :: 0 <= j < 26 ==> LOWER[j] as int == 'a' as int + j
  {
  }

  lemma LetterLowered(a: char, b: char)
    ensures Lowered(a, b) <==> b == LowerChar(a)
  {
    Letters();
    var k := a as int - 'A' as int;
    if 0 <= k < 26 { assert UPPER[k] == a; }
  }

  /** Lowering is letter by letter, as the alphabets pair them. */
  lemma LoweredIff(s: string, t: string)
    ensures ToLower(s) == t <==> LoweredText(s, t)
  {
    forall i | 0 <= i < |s| && |s| == |t| ensures Lowered(s[i], t[i]) <==> t[i] == ToLower(s)[i] {
      LetterLowered(s[i], t[i]);
    }
  }

  /** Some configured fingerprint, its capitals written small, is `f`. */
  ghost predicate Denied(c: Connector, f: string) {
    c.clientTrust.Some? &&
    exists i :: 0 <= i < |c.clientTrust.value.deniedFingerprints| && LoweredText(c.clientTrust.value.deniedFingerprints[i], f)
  }

  /** Equal but for ASCII case. */
  predicate SameButCase(s: string, t: string) {
    |s| == |t| && forall i :: 0 <= i < |s| ==> s[i] == t[i] || Lowered(s[i], t[i]) || Lowered(t[i], s[i])
  }

  /** For fingerprints without capitals, as the connector computes them: denied exactly when some configured one is
      the same but for case. */
  lemma DeniedButCase(c: Connector, f: string)
    requires forall i :: 0 <= i < |f| ==> f[i] !in UPPER
    ensures Denied(c, f) <==>
            c.clientTrust.Some? && exists e :: e in c.clientTrust.value.deniedFingerprints && SameButCase(e, f)
  {
    if c.clientTrust.Some? {
      var es := c.clientTrust.value.deniedFingerprints;
      forall e ensures SameButCase(e, f) <==> LoweredText(e, f) {
        SmallAlready(e, f);
      }
      if Denied(c, f) {
        var i :| 0 <= i < |es| && LoweredText(es[i], f);
        assert es[i] in es;
      }
    }
  }

  lemma SmallAlready(e: string, f: string)
    requires forall i :: 0 <= i < |f| ==> f[i] !in UPPER
    ensures SameButCase(e, f) <==> LoweredText(e, f)
  {
  }

  /** What a policy built from the configuration is. */
  ghost predicate IsPolicy(c: Connector, load: Loader, p: TrustPolicy) {
    var anchors := AnchorsOf(c);
    && (forall d :: d in p.byDomain <==> exists i :: 0 <= i < |anchors| && ForDomain(anchors[i], d))
    && (forall d :: d in p.byDomain ==> p.byDomain[d] == DomainStore(anchors, load, d))
    && (forall x :: x in p.byDns <==> exists i :: 0 <= i < |anchors| && ForDns(anchors[i], x))
    && (forall x :: x in p.byDns ==> p.byDns[x] == DnsStore(anchors, load, x))
    && (forall f :: f in p.denied <==> Denied(c, f)) && p.allowDns == c.allowDnsSanIdentity
  }

  lemma DomainFiles(anchors: seq<TrustAnchor>, load: Loader, d: string)
    ensures DomainCas(anchors, d) != [] <==> exists i :: 0 <= i < |anchors| && ForDomain(anchors[i], d)
    ensures Certs(DomainCas(anchors, d), load) == DomainStore(anchors, load, d)
  {
    var cas := DomainCas(anchors, d);
    if cas != [] { DomainCasExact(anchors, d, cas[0]); }
    if i :| 0 <= i < |anchors| && ForDomain(anchors[i], d) { DomainCasExact(anchors, d, anchors[i].ca); }
    forall ca ensures ca in cas <==> exists i :: 0 <= i < |anchors| && ForDomain(anchors[i], d) && anchors[i].ca == ca {
      DomainCasExact(anchors, d, ca);
    }
  }

  lemma DnsFiles(anchors: seq<TrustAnchor>, load: Loader, x: string)
    ensures DnsCas(anchors, x) != [] <==> exists i :: 0 <= i < |anchors| && ForDns(anchors[i], x)
    ensures Certs(DnsCas(anchors, x), load) == DnsStore(anchors, load, x)
  {
    var cas := DnsCas(anchors, x);
    if cas != [] { DnsCasExact(anchors, x, cas[0]); }
    if i :| 0 <= i < |anchors| && ForDns(anchors[i], x) { DnsCasExact(anchors, x, anchors[i].ca); }
    forall ca ensures ca in cas <==> exists i :: 0 <= i < |anchors| && ForDns(anchors[i], x) && anchors[i].ca == ca {
      DnsCasExact(anchors, x, ca);
    }
  }

  /** Only CAs of anchors are listed. */
  lemma ListedFilesLoad(anchors: seq<TrustAnchor>, load: Loader, key: string)
    requires AllLoad(anchors, load)
    ensures Loads(DomainCas(anchors, key), load) && Loads(DnsCas(anchors, key), load)
  {
    forall ca | ca in DomainCas(anchors, key) ensures load(ca).Some? { DomainCasExact(anchors, key, ca); }
    forall ca | ca in DnsCas(anchors, key) ensures load(ca).Some? { DnsCasExact(anchors, key, ca); }
  }

  /** Every anchor's CA is listed for its own domain. */
  lemma OwnFileIsListed(anchors: seq<TrustAnchor>, i: nat)
    requires i < |anchors|
    ensures anchors[i].ca in DomainCas(anchors, anchors[i].trustDomain)
  {
  }

  lemma FilesLoad(anchors: seq<TrustAnchor>, load: Loader, domains: map<string, seq<string>>, dns: map<string, seq<string>>)
    requires forall d :: d in domains <==> DomainCas(anchors, d) != []
    requires forall d :: d in domains ==> domains[d] == DomainCas(anchors, d)
    requires forall x :: x in dns ==> dns[x] == DnsCas(anchors, x)
    ensures AllLoad(anchors, load) <==> forall d :: d in domains ==> Loads(domains[d], load)
    ensures AllLoad(anchors, load) ==> forall x :: x in dns ==> Loads(dns[x], load)
  {
    if AllLoad(anchors, load) {
      forall d | d in domains ensures Loads(domains[d], load) { ListedFilesLoad(anchors, load, d); }
      forall x | x in dns ensures Loads(dns[x], load) { ListedFilesLoad(anchors, load, x); }
    }
    forall i | 0 <= i < |anchors| ensures anchors[i].trustDomain in domains && anchors[i].ca in domains[anchors[i].trustDomain] {
      OwnFileIsListed(anchors, i);
    }
  }

  method DeniedFingerprints(c: Connector) returns (denied: set<string>)
    ensures forall f :: f in denied <==> Denied(c, f)
  {
    denied := {};
    if c.clientTrust.Some? {
      var fs := c.clientTrust.value.deniedFingerprints;
      for i := 0 to |fs|
        invariant forall f :: f in denied <==> exists j :: 0 <= j < i && LoweredText(fs[j], f)
      {
        forall f ensures f == ToLower(fs[i]) <==> LoweredText(fs[i], f) { LoweredIff(fs[i], f); }
        denied := denied + {ToLower(fs[i])};
      }
    }
  }

  /** `ServerTrustPolicy::from_config`: fails exactly when some anchor's CA does not load. */
  method FromConfig(c: Connector, load: Loader) returns (r: Option<TrustPolicy>)
    ensures r.Some? <==> AllLoad(AnchorsOf(c), load)
    ensures r.Some? ==> IsPolicy(c, load, r.value)
  {
    var anchors := AnchorsOf(c);
    var domainFiles := TrustDomainMap(anchors);
    var dnsFiles := DnsIdentityMap(anchors);
    FilesLoad(anchors, load, domainFiles, dnsFiles);
    var byDomain := Stores(domainFiles, load);
    if byDomain.None? {
      return None;
    }
    var byDns := Stores(dnsFiles, load);
    if byDns.None? {
      return None;
    }
    var denied := DeniedFingerprints(c);
    forall d ensures d in byDomain.value <==> exists i :: 0 <= i < |anchors| && ForDomain(anchors[i], d)
      ensures d in byDomain.value ==> byDomain.value[d] == DomainStore(anchors, load, d) {
      DomainFiles(anchors, load, d);
    }
    forall x ensures x in byDns.value <==> exists i :: 0 <= i < |anchors| && ForDns(anchors[i], x)
      ensures x in byDns.value ==> byDns.value[x] == DnsStore(anchors, load, x) {
      DnsFiles(anchors, load, x);
    }
    r := Some(TrustPolicy(byDomain.value, byDns.value, denied, c.allowDnsSanIdentity));
  }

  // ---------------------------------------------------------------- verifying a peer

  type Reader = (string, bool) -> Option<PeerIdentity>
  type ChainCheck = (set<string>, seq<string>) -> bool

  /** `verify_peer`. */
  function VerifyPeer(p: TrustPolicy, chain: seq<string>, read: Reader, chainOk: ChainCheck): Option<PeerIdentity> {
    if chain == [] then None
    else match read(chain[0], p.allowDns)
      case None => None
      case Some(identity) =>
        if identity.fingerprint in p.denied then None
        else match SpiffeTrustDomain(identity.value)
          case Some(d) =>
            if d in p.byDomain && chainOk(p.byDomain[d], chain) then Some(identity) else None
          case None =>
            if p.allowDns && identity.value in p.byDns && chainOk(p.byDns[identity.value], chain)
            then Some(identity) else None
  }

  /** The roots that may vouch for an identity: those of the anchors bound to its domain or to its name. */
  ghost function RootsFor(c: Connector, load: Loader, identity: string): set<string> {
    match SpiffeTrustDomain(identity)
    case Some(d) => DomainStore(AnchorsOf(c), load, d)
    case None => DnsStore(AnchorsOf(c), load, identity)
  }

  ghost predicate Bound(c: Connector, identity: string) {
    c.clientTrust.Some? && HasAnchor(c.clientTrust.value, identity)
  }

  /** A peer is accepted exactly when its leaf reads as the identity, is not denied, and its chain verifies
      against the anchors bound to that identity and no others. */
  lemma VerifiedMeans(c: Connector, load: Loader, p: TrustPolicy, chain: seq<string>, read: Reader,
                      chainOk: ChainCheck, identity: PeerIdentity)
    requires IsPolicy(c, load, p)
    ensures VerifyPeer(p, chain, read, chainOk) == Some(identity) <==>
            && chain != [] && read(chain[0], c.allowDnsSanIdentity) == Some(identity)
            && !Denied(c, identity.fingerprint)
            && Bound(c, identity.value) && chainOk(RootsFor(c, load, identity.value), chain)
            && (SpiffeTrustDomain(identity.value).None? ==> c.allowDnsSanIdentity)
  {
  }

  /** The deny list alone decides for the peers it names, in whatever case, and for no others: a peer with a
      fingerprint that a configured one matches but for case is refused, and any other is judged as without the list. */
  lemma DenyListDecides(c: Connector, load: Loader, p: TrustPolicy, chain: seq<string>, read: Reader,
                        chainOk: ChainCheck, identity: PeerIdentity)
    requires IsPolicy(c, load, p) && chain != [] && read(chain[0], p.allowDns) == Some(identity)
    requires forall i :: 0 <= i < |identity.fingerprint| ==> identity.fingerprint[i] !in UPPER
    ensures VerifyPeer(p, chain, read, chainOk) ==
            if c.clientTrust.Some? &&
               exists e :: e in c.clientTrust.value.deniedFingerprints && SameButCase(e, identity.fingerprint)
            then None else VerifyPeer(p.(denied := {}), chain, read, chainOk)
  {
    DeniedButCase(c, identity.fingerprint);
  }

  /** Trimming an allow-list entry leaves alone what anchors are looked up by: the trust domain, or else the
      whole text. */
  predicate TrimKeepsKey(entry: string) {
    && SpiffeTrustDomain(Trim(entry)) == SpiffeTrustDomain(entry)
    && (SpiffeTrustDomain(entry).None? ==> Trim(entry) == entry)
  }

  /** Every CA file that start-up could check is one that loads. */
  ghost predicate LoadsChecked(o: Outside, load: Loader) {
    forall ca :: o.caOk(ca) ==> load(ca).Some?
  }

  /** What start-up validation buys: the policy can be built, every allow-list entry has a root that can vouch for
      it as written, and one that can vouch for it as it is compared, trimmed, if trimming keeps its key. */
  lemma AcceptedEntriesHaveRoots(c: Connector, o: Outside, load: Loader, entry: string)
    requires Accepted(c, o, Server) && LoadsChecked(o, load)
    ensures AllLoad(AnchorsOf(c), load) && c.clientTrust.Some?
    ensures entry in c.clientTrust.value.allowedIdentities ==>
              && Bound(c, entry) && RootsFor(c, load, entry) != {}
              && (TrimKeepsKey(entry) ==> Bound(c, Trim(entry)) && RootsFor(c, load, Trim(entry)) != {})
  {
    var t := c.clientTrust.value;
    assert forall k :: 0 <= k < |t.trustAnchors| ==> AnchorOk(o, t.trustAnchors[k]);
    if entry in t.allowedIdentities {
      var i :| 0 <= i < |t.allowedIdentities| && t.allowedIdentities[i] == entry;
      assert AllowedEntryOk(c, t, t.allowedIdentities[i]);
      BoundHasRoots(c, load, entry);
    }
  }

  lemma BoundHasRoots(c: Connector, load: Loader, identity: string)
    requires Bound(c, identity) && AllLoad(AnchorsOf(c), load)
    ensures RootsFor(c, load, identity) != {}
  {
    var anchors := AnchorsOf(c);
    if SpiffeTrustDomain(identity).Some? {
      var d := SpiffeTrustDomain(identity).value;
      var i :| 0 <= i < |anchors| && anchors[i].trustDomain == d;
      assert ForDomain(anchors[i], d);
      assert load(anchors[i].ca).value in DomainStore(anchors, load, d);
    } else {
      var i :| 0 <= i < |anchors| && identity in anchors[i].dnsIdentities;
      assert ForDns(anchors[i], identity);
      assert load(anchors[i].ca).value in DnsStore(anchors, load, identity);
    }
  }

  lemma UnboundHasNoRoots(c: Connector, load: Loader, identity: string)
    requires !Bound(c, identity)
    ensures RootsFor(c, load, identity) == {}
  {
    var anchors := AnchorsOf(c);
    if SpiffeTrustDomain(identity).Some? {
      assert forall i :: 0 <= i < |anchors| ==> !ForDomain(anchors[i], SpiffeTrustDomain(identity).value);
    } else {
      assert forall i :: 0 <= i < |anchors| ==> !ForDns(anchors[i], identity);
    }
  }
}

// VPN and DoH endpoints and distraction services: what the classifiers name, and whether the
// sinkhole enforces it.
module Bypass {
  import opened Wrappers
  import opened Sequences
  import opened Text
  import opened Normalizer
  import opened Sinkhole

  datatype Provider = Provider(name: string, endpoints: seq<string>)
  datatype BypassKind = DohBypass | VpnBypass

  function SetOf(items: seq<string>): set<string> {
    set e | e in items
  }

  /** A distraction service with its five lists of domains. */
  datatype ServiceDefinition = ServiceDefinition(
    id: string,
    name: string,
    primaryDomains: seq<string>,
    companionDomains: seq<string>,
    mobileApiEndpoints: seq<string>,
    cdnDomains: seq<string>,
    dohEndpoints: seq<string>)
  {
    function AllDomains(): set<string> {
      SetOf(primaryDomains + companionDomains + mobileApiEndpoints + cdnDomains + dohEndpoints)
    }
  }

  /** Tables of providers, services, service aliases, and the companion domains of well-known
      platforms. What ships is in `Registry`. */
  datatype Catalog = Catalog(
    dohProviders: seq<Provider>,
    vpnProviders: seq<Provider>,
    services: seq<ServiceDefinition>,
    aliases: map<string, string>,
    companions: map<string, seq<string>>)

  ghost function AllEndpoints(providers: seq<Provider>): set<string> {
    set p, e | p in providers && e in p.endpoints :: e
  }

  method GetAllDomains(providers: seq<Provider>) returns (domains: set<string>)
    ensures domains == AllEndpoints(providers)
  {
    domains := {};
    for i := 0 to |providers|
      invariant domains == AllEndpoints(providers[..i])
    {
      domains := domains + SetOf(providers[i].endpoints);
      assert providers[..i + 1] == providers[..i] + [providers[i]];
    }
    assert providers[..|providers|] == providers;
  }

  predicate MatchesEndpoint(provider: Provider, name: string) {
    exists e :: e in provider.endpoints && Under(name, e, '.')
  }

  /** The first provider, in table order, with an endpoint the name lies under. */
  function FirstProvider(providers: seq<Provider>, name: string): Option<string> {
    if providers == [] then None
    else if MatchesEndpoint(providers[0], name) then Some(providers[0].name)
    else FirstProvider(providers[1..], name)
  }

  /** What the classifier compares: trimmed of white space, but not of dots. */
  function Trim(domain: string): string {
    Lower(Strip(domain, WHITE_SPACE))
  }

  function IdentifyBypassAttempt(catalog: Catalog, domain: string): Option<(BypassKind, string)> {
    match FirstProvider(catalog.dohProviders, Trim(domain))
    case Some(name) => Some((DohBypass, name))
    case None =>
      match FirstProvider(catalog.vpnProviders, Trim(domain))
      case Some(name) => Some((VpnBypass, name))
      case None => None
  }

  function FindService(services: seq<ServiceDefinition>, id: string): Option<ServiceDefinition> {
    if services == [] then None
    else if services[0].id == id then Some(services[0])
    else FindService(services[1..], id)
  }

  /** A service by its identifier or one of its aliases, in any case. */
  function GetService(catalog: Catalog, serviceId: string): Option<ServiceDefinition> {
    var sid := Trim(serviceId);
    FindService(catalog.services, if sid in catalog.aliases then catalog.aliases[sid] else sid)
  }

  ghost function DomainsOfServices(catalog: Catalog, ids: set<string>): set<string> {
    set id, d | id in ids && GetService(catalog, id).Some? && d in GetService(catalog, id).value.AllDomains() :: d
  }

  method GetAllDomainsForServices(catalog: Catalog, ids: set<string>) returns (domains: set<string>)
    ensures domains == DomainsOfServices(catalog, ids)
  {
    domains := {};
    var left := ids;
    while left != {}
      invariant left <= ids
      invariant domains == DomainsOfServices(catalog, ids - left)
      decreases left
    {
      var sid :| sid in left;
      var svc := GetService(catalog, sid);
      if svc.Some? {
        domains := domains + svc.value.AllDomains();
      }
      left := left - {sid};
      assert ids - left == ids - (left + {sid}) + {sid};
    }
    assert ids - {} == ids;
  }

  /** A candidate `*.example.com` stands for the domain behind the star. */
  predicate MatchesService(svc: ServiceDefinition, name: string) {
    exists c :: c in svc.AllDomains() && Under(name, DropStar(c), '.')
  }

  /** The first service, in table order, with a domain the name lies under. */
  function FirstService(services: seq<ServiceDefinition>, name: string): Option<string> {
    if services == [] then None
    else if MatchesService(services[0], name) then Some(services[0].name)
    else FirstService(services[1..], name)
  }

  function MatchServiceByDomain(catalog: Catalog, domain: string): Option<string> {
    FirstService(catalog.services, Trim(domain))
  }

  lemma {:induction false} FirstProviderExact(providers: seq<Provider>, name: string)
    ensures FirstProvider(providers, name).Some? <==>
              exists e :: e in AllEndpoints(providers) && Under(name, e, '.')
  {
    if providers != [] {
      FirstProviderExact(providers[1..], name);
      assert forall p :: p in providers <==> p == providers[0] || p in providers[1..];
    }
  }

  /** The provider named is the first one that matches. */
  lemma {:induction false} FirstProviderIs(providers: seq<Provider>, name: string, i: nat)
    requires i < |providers| && MatchesEndpoint(providers[i], name)
    requires forall k :: 0 <= k < i ==> !MatchesEndpoint(providers[k], name)
    ensures FirstProvider(providers, name) == Some(providers[i].name)
  {
    if i > 0 {
      assert forall k :: 0 <= k < i - 1 ==> providers[1..][k] == providers[k + 1];
      FirstProviderIs(providers[1..], name, i - 1);
    }
  }

  /** The name lies under an endpoint of the table. */
  ghost predicate UnderSome(providers: seq<Provider>, name: string) {
    exists e :: e in AllEndpoints(providers) && Under(name, e, '.')
  }

  /** What is reported: a DoH bypass for every name under a DoH endpoint, else a VPN bypass for every
      name under a VPN endpoint, and nothing for any other name. */
  lemma IdentifyExact(catalog: Catalog, domain: string)
    ensures var r, name := IdentifyBypassAttempt(catalog, domain), Trim(domain);
            && (r == None <==> !UnderSome(catalog.dohProviders, name) && !UnderSome(catalog.vpnProviders, name))
            && (r.Some? ==> (r.value.0 == DohBypass <==> UnderSome(catalog.dohProviders, name)))
            && (r.Some? ==>
                  var providers := if r.value.0.DohBypass? then catalog.dohProviders else catalog.vpnProviders;
                  Some(r.value.1) == FirstProvider(providers, name))
  {
    FirstProviderExact(catalog.dohProviders, Trim(domain));
    FirstProviderExact(catalog.vpnProviders, Trim(domain));
  }

  /** A service is found under its identifier, the first one if several have it. */
  lemma {:induction false} FindServiceIs(services: seq<ServiceDefinition>, i: nat)
    requires i < |services| && forall k :: 0 <= k < i ==> services[k].id != services[i].id
    ensures FindService(services, services[i].id) == Some(services[i])
  {
    if i > 0 {
      assert services[0].id != services[i].id;
      assert forall k :: 0 <= k < i - 1 ==> services[1..][k] == services[k + 1];
      FindServiceIs(services[1..], i - 1);
    }
  }

  lemma {:induction false} FindServiceExact(services: seq<ServiceDefinition>, id: string)
    ensures FindService(services, id) == None <==> forall svc :: svc in services ==> svc.id != id
    ensures FindService(services, id).Some? ==>
              FindService(services, id).value in services && FindService(services, id).value.id == id
  {
    if services != [] {
      FindServiceExact(services[1..], id);
      assert forall svc :: svc in services <==> svc == services[0] || svc in services[1..];
    }
  }

  /** The identifier that a text stands for, in any case and with blanks around it: it is replaced if it
      is an alias. */
  ghost predicate StandsFor(catalog: Catalog, text: string, id: string) {
    if Trim(text) in catalog.aliases then id == catalog.aliases[Trim(text)] else id == Trim(text)
  }

  /** A service is found exactly if the text stands for the identifier of one. */
  lemma GetServiceExact(catalog: Catalog, text: string, id: string)
    requires StandsFor(catalog, text, id)
    ensures GetService(catalog, text) == None <==> forall svc :: svc in catalog.services ==> svc.id != id
    ensures GetService(catalog, text).Some? ==>
              GetService(catalog, text).value in catalog.services && GetService(catalog, text).value.id == id
  {
    FindServiceExact(catalog.services, id);
  }

  /** The name is the domain `d`, or a name `p` in front of it, and the entry is `d`, or `d` with a star. */
  predicate MatchedBy(entry: string, name: string, d: string, p: string) {
    (entry == d || entry == "*." + d) && (name == d || name == p + "." + d)
  }

  /** A service matches exactly its domains and the names below them, starred or not. */
  lemma MatchesExactly(svc: ServiceDefinition, name: string)
    ensures MatchesService(svc, name) <==> exists c, d, p :: c in svc.AllDomains() && MatchedBy(c, name, d, p)
  {
    if MatchesService(svc, name) {
      var c :| c in svc.AllDomains() && Under(name, DropStar(c), '.');
      var p := EntryMatches(c, name);
    }
    forall c, d, p | c in svc.AllDomains() && MatchedBy(c, name, d, p)
      ensures MatchesService(svc, name)
    {
      MatchedIsUnder(c, name, d, p);
    }
  }

  lemma EntryMatches(c: string, name: string) returns (p: string)
    requires Under(name, DropStar(c), '.')
    ensures MatchedBy(c, name, DropStar(c), p)
  {
    var d := DropStar(c);
    assert c == d || c == "*." + d;
    p := if name == d then [] else name[..|name| - |d| - 1];
    assert name == d || name == p + "." + d;
  }

  lemma MatchedIsUnder(c: string, name: string, d: string, p: string)
    requires MatchedBy(c, name, d, p)
    ensures Under(name, DropStar(c), '.')
  {
    var e := DropStar(c);
    if c != d {
      assert c[2..] == d;
    }
    if e == d {
      if name != d { EndsWithIsUnder(name, p, d, '.'); }
    } else {
      assert d == "*." + e;
      if name == d {
        EndsWithIsUnder(name, "*", e, '.');
      } else {
        assert name == (p + ".*") + "." + e;
        EndsWithIsUnder(name, p + ".*", e, '.');
      }
    }
  }

  /** A domain is attributed to the first service that lists it, if any does. */
  lemma {:induction false} FirstServiceExact(services: seq<ServiceDefinition>, name: string)
    ensures FirstService(services, name) == None <==> forall svc :: svc in services ==> !MatchesService(svc, name)
  {
    if services != [] {
      FirstServiceExact(services[1..], name);
      assert forall svc :: svc in services <==> svc == services[0] || svc in services[1..];
    }
  }

  lemma {:induction false} FirstServiceIs(services: seq<ServiceDefinition>, name: string, i: nat)
    requires i < |services| && MatchesService(services[i], name)
    requires forall k :: 0 <= k < i ==> !MatchesService(services[k], name)
    ensures FirstService(services, name) == Some(services[i].name)
  {
    if i > 0 {
      assert !MatchesService(services[0], name);
      assert forall k :: 0 <= k < i - 1 ==> services[1..][k] == services[k + 1];
      FirstServiceIs(services[1..], name, i - 1);
    }
  }

  /** The classifiers do not see the case of a text, nor white space around it. */
  lemma ClassifiersIgnoreWriting(catalog: Catalog, pre: string, core: string, post: string)
    requires Trimmed(core, WHITE_SPACE) && forall c :: c in pre + post ==> c in WHITE_SPACE
    ensures forall text :: text in {pre + core + post, Lower(core)} ==>
              && IdentifyBypassAttempt(catalog, text) == IdentifyBypassAttempt(catalog, core)
              && MatchServiceByDomain(catalog, text) == MatchServiceByDomain(catalog, core)
              && GetService(catalog, text) == GetService(catalog, core)
  {
    StripPadding(pre, core, post, WHITE_SPACE);
    StripTrims(core, WHITE_SPACE);
    LowerStrip(core, WHITE_SPACE);
  }

  // ---------------------------------------------------------------- listed endpoints are enforced

  lemma {:induction false} UnderTransitive(a: string, b: string, c: string)
    requires Under(a, b, '.') && Under(b, c, '.')
    ensures Under(a, c, '.')
  {
    if a != b && b != c {
      var x, y := a[..|a| - |b| - 1], b[..|b| - |c| - 1];
      assert a == x + ['.'] + b by { assert a == x + a[|x|..]; }
      assert b == y + ['.'] + c by { assert b == y + b[|y|..]; }
      EndsWithIsUnder(a, x + ['.'] + y, c, '.');
    }
  }

  /** Whatever lies under a covered name is covered, by more rules too. */
  lemma ListsUpwards(idna: Idna, domains: set<string>, more: set<string>, name: string, e: string)
    requires Under(name, e, '.') && Lists(idna, domains, e) && domains <= more
    ensures Lists(idna, more, name)
  {
    var d :| d in domains && Covers(idna, d, e);
    UnderTransitive(name, e, Clean(Normalized(idna, d).value));
    assert Covers(idna, d, name);
  }

  /** A domain that is its own rule. */
  predicate Ordinary(e: string) {
    ValidDomain(e) && !EndsInNewline(e)
  }

  lemma OrdinaryIsListed(idna: Idna, domains: set<string>, e: string)
    requires e in domains && Ordinary(e)
    ensures Lists(idna, domains, e)
  {
    NormalizeFixpoint(idna, e);
    CleanOfValid(e);
    assert Covers(idna, e, e);
  }

  /** An entry the normalizer drops (an inner `*`, say) that lies under an ordinary one. */
  predicate Subsumed(domains: set<string>, entry: string) {
    entry != [] && entry[0] != '*' && exists parent :: parent in domains && Ordinary(parent) && Under(entry, parent, '.')
  }

  /** Every entry of a service is a rule, or lies under one of the service's rules. */
  predicate SoundService(svc: ServiceDefinition) {
    forall c :: c in svc.AllDomains() ==> Ordinary(c) || Subsumed(svc.AllDomains(), c)
  }

  /** Every endpoint of a provider is a rule, or ends in a number, as IP addresses do. */
  predicate SoundProvider(p: Provider) {
    forall e :: e in p.endpoints ==> Ordinary(e) || (IsAscii(e) && NumericName(e))
  }

  ghost predicate SoundProviders(providers: seq<Provider>) {
    forall p :: p in providers ==> SoundProvider(p)
  }

  /** Tables of ASCII text whose entries the sinkhole enforces, IP addresses aside, and whose services
      are known by their own identifiers. */
  ghost predicate Sound(catalog: Catalog) {
    && SoundProviders(catalog.dohProviders) && SoundProviders(catalog.vpnProviders)
    && (forall svc :: svc in catalog.services ==> SoundService(svc) && AsciiDomains(svc.AllDomains()))
    && (forall svc :: svc in catalog.services ==> StandsFor(catalog, svc.id, svc.id))
    && (forall d :: d in catalog.companions ==> OrdinaryDomains(SetOf(catalog.companions[d])))
  }

  ghost predicate OrdinaryDomains(domains: set<string>) {
    forall d :: d in domains ==> Ordinary(d)
  }

  lemma OrdinaryIsAscii(domains: set<string>)
    requires OrdinaryDomains(domains)
    ensures AsciiDomains(domains)
  {
    forall d | d in domains
      ensures IsAscii(d)
    {
      ValidDomainShape(d);
    }
  }

  /** A service that was found is found again by its identifier. */
  lemma FoundAgain(catalog: Catalog, text: string)
    requires Sound(catalog) && GetService(catalog, text).Some?
    ensures GetService(catalog, GetService(catalog, text).value.id) == GetService(catalog, text)
  {
    var sid := Trim(text);
    FindServiceExact(catalog.services, if sid in catalog.aliases then catalog.aliases[sid] else sid);
  }

  /** A name without dots or blanks around it: classifier and sinkhole see the same text. */
  predicate Tidy(domain: string) {
    Clean(domain) == Trim(domain) != []
  }

  /** A blocklist in force for some domains. */
  ghost predicate Enforces(idna: Idna, rules: RuleSet, active: set<string>) {
    !rules.allowlistMode && rules.blocked == BlockedKeys(idna, rules.blockDoh, active)
  }

  /** Whatever lies under a covered entry of an active table is blocked, unless it is essential. */
  lemma EntryIsEnforced(idna: Idna, rules: RuleSet, active: set<string>, entries: set<string>, e: string, query: string)
    requires Enforces(idna, rules, active) && entries <= active && Lists(idna, entries, e)
    requires Tidy(query) && Under(Trim(query), e, '.') && !Essential(Clean(query))
    ensures Decision(rules, query).0
  {
    BlocklistIsScan(idna, rules, active, query);
    ListsUpwards(idna, entries, Bootstrap(rules.blockDoh) + active, Clean(query), e);
  }

  ghost function EndpointsOf(catalog: Catalog, kind: BypassKind): set<string> {
    AllEndpoints(if kind.DohBypass? then catalog.dohProviders else catalog.vpnProviders)
  }

  /** The classifier names a kind only for names under one of its endpoints. */
  lemma ClassifiedIsUnderEndpoint(catalog: Catalog, query: string) returns (e: string)
    requires IdentifyBypassAttempt(catalog, query).Some?
    ensures e in EndpointsOf(catalog, IdentifyBypassAttempt(catalog, query).value.0)
    ensures Under(Trim(query), e, '.')
  {
    FirstProviderExact(catalog.dohProviders, Trim(query));
    FirstProviderExact(catalog.vpnProviders, Trim(query));
    e :| e in EndpointsOf(catalog, IdentifyBypassAttempt(catalog, query).value.0) && Under(Trim(query), e, '.');
  }

  lemma EndpointIsSound(catalog: Catalog, kind: BypassKind, e: string)
    requires Sound(catalog) && e in EndpointsOf(catalog, kind)
    ensures Ordinary(e) || NumericName(e)
  {
    var providers := if kind.DohBypass? then catalog.dohProviders else catalog.vpnProviders;
    var p :| p in providers && e in p.endpoints;
    assert SoundProvider(p);
  }

  /** Classifier and enforcer agree: a tidy, non-essential name attributed to a class in force is
      blocked exactly if its last label is not a number. The names under the IP addresses of the DoH
      table are not, whatever else is listed, as long as it is ASCII. */
  lemma ClassifiedIsBlocked(idna: Idna, catalog: Catalog, rules: RuleSet, active: set<string>, query: string)
    requires Sound(catalog) && Enforces(idna, rules, active)
    requires Tidy(query) && !Essential(Clean(query))
    requires IdentifyBypassAttempt(catalog, query).Some?
    requires EndpointsOf(catalog, IdentifyBypassAttempt(catalog, query).value.0) <= active
    ensures !NumericName(Clean(query)) ==> Decision(rules, query).0
    ensures AsciiDomains(active) ==> (Decision(rules, query).0 <==> !NumericName(Clean(query)))
  {
    var kind := IdentifyBypassAttempt(catalog, query).value.0;
    var e := ClassifiedIsUnderEndpoint(catalog, query);
    if NumericName(Clean(query)) {
      if AsciiDomains(active) {
        NumericNamesAreNotBlocked(idna, rules, active, query);
      }
    } else {
      EndpointIsSound(catalog, kind, e);
      NumericUpwards(Clean(query), e);
      OrdinaryIsListed(idna, EndpointsOf(catalog, kind), e);
      EntryIsEnforced(idna, rules, active, EndpointsOf(catalog, kind), e, query);
    }
  }

  lemma BootstrapIsAscii(blockDoh: bool)
    ensures AsciiDomains(Bootstrap(blockDoh))
  {
    OtherBootstrapIsAscii();
    assert IsAscii("cloudflare-dns.com") && IsAscii("one.one.one.one") && IsAscii("dns.google");
    assert IsAscii("dns.google.com") && IsAscii("dns.quad9.net") && IsAscii("dns.adguard.com");
  }

  lemma OtherBootstrapIsAscii()
    ensures IsAscii("doh.cleanbrowsing.org") && IsAscii("doh.mullvad.net") && IsAscii("doh.opendns.com")
  {
  }

  /** Names whose last label is a number are never blocked by ASCII rules: blocking by name does not
      reach IP addresses. */
  lemma NumericNamesAreNotBlocked(idna: Idna, rules: RuleSet, active: set<string>, query: string)
    requires Enforces(idna, rules, active) && AsciiDomains(active) && NumericName(Clean(query))
    ensures !Decision(rules, query).0
  {
    BootstrapIsAscii(rules.blockDoh);
    NumericNamesAreNeverListed(idna, Bootstrap(rules.blockDoh) + active, Clean(query));
    BlocklistIsScan(idna, rules, active, query);
  }

  lemma ServiceIsSound(catalog: Catalog, id: string)
    requires Sound(catalog) && GetService(catalog, id).Some?
    ensures SoundService(GetService(catalog, id).value) && AsciiDomains(GetService(catalog, id).value.AllDomains())
  {
    var sid := Trim(id);
    FindServiceExact(catalog.services, if sid in catalog.aliases then catalog.aliases[sid] else sid);
  }

  lemma SubsumedIsListed(idna: Idna, domains: set<string>, c: string)
    requires Subsumed(domains, c)
    ensures Lists(idna, domains, c)
  {
    var parent :| parent in domains && Ordinary(parent) && Under(c, parent, '.');
    OrdinaryIsListed(idna, domains, parent);
    ListsUpwards(idna, domains, domains, c, parent);
  }

  /** An entry of a sound service, wildcard or not, is covered by the service's rules. */
  lemma EntryIsListed(idna: Idna, svc: ServiceDefinition, c: string)
    requires SoundService(svc) && c in svc.AllDomains()
    ensures Lists(idna, svc.AllDomains(), DropStar(c))
  {
    if Ordinary(c) {
      ValidDomainShape(c);
      OrdinaryIsListed(idna, svc.AllDomains(), c);
    } else {
      SubsumedIsListed(idna, svc.AllDomains(), c);
    }
    assert [] + c == c;
    DropStarOf([], c);
  }

  /** Every name that matches an active service is blocked. */
  lemma ServiceIsBlocked(idna: Idna, catalog: Catalog, rules: RuleSet, active: set<string>, id: string, query: string)
    requires Sound(catalog) && Enforces(idna, rules, active)
    requires Tidy(query) && !Essential(Clean(query))
    requires GetService(catalog, id).Some? && DomainsOfServices(catalog, {id}) <= active
    requires MatchesService(GetService(catalog, id).value, Trim(query))
    ensures Decision(rules, query).0
  {
    var svc := GetService(catalog, id).value;
    var c :| c in svc.AllDomains() && Under(Trim(query), DropStar(c), '.');
    ServiceIsSound(catalog, id);
    EntryIsListed(idna, svc, c);
    assert svc.AllDomains() <= active;
    EntryIsEnforced(idna, rules, active, svc.AllDomains(), DropStar(c), query);
  }
}

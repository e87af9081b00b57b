// The sinkhole's decision: an index of reversed label lists, looked up by prefix.
module Sinkhole {
  import opened Wrappers
  import opened Sequences
  import opened Text
  import opened Normalizer

  type Key = seq<string>

  /** Never blocked, in any mode. */
  function EssentialSystemDomains(): set<string> {
    { "localhost", "dietpi.com", "debian.org", "archive.ubuntu.com", "pool.ntp.org",
      "time.google.com", "time.windows.com", "time.apple.com", "time.cloudflare.com" }
  }

  function DohBootstrapDomains(): set<string> {
    { "cloudflare-dns.com", "one.one.one.one", "dns.google", "dns.google.com", "dns.quad9.net",
      "dns.adguard.com", "doh.cleanbrowsing.org", "doh.mullvad.net", "doh.opendns.com" }
  }

  function DomainToKey(domain: string): Key {
    Reverse(Split(Clean(domain), '.'))
  }

  /** The keys of all domains that normalize; the others are dropped silently. */
  ghost function RuleKeys(idna: Idna, domains: set<string>): set<Key> {
    set d | d in domains && Normalized(idna, d).Some? :: DomainToKey(Normalized(idna, d).value)
  }

  function Bootstrap(blockDoh: bool): set<string> {
    if blockDoh then DohBootstrapDomains() else {}
  }

  ghost function BlockedKeys(idna: Idna, blockDoh: bool, domains: set<string>): set<Key> {
    RuleKeys(idna, Bootstrap(blockDoh) + domains)
  }

  ghost function AllowedKeys(idna: Idna, domains: set<string>): set<Key> {
    RuleKeys(idna, EssentialSystemDomains() + domains)
  }

  ghost predicate MatchesTree(key: Key, trees: set<Key>) {
    exists i: nat | 1 <= i <= |key| :: key[..i] in trees
  }

  ghost predicate MatchesEssential(key: Key) {
    exists sys :: sys in EssentialSystemDomains() && MatchesTree(key, {DomainToKey(sys)})
  }

  datatype Reason = EmptyQuery | SystemEssential | AllowlistPermitted | NotInAllowlist | BlockedByPolicy | Permitted

  datatype RuleSet = RuleSet(blockDoh: bool, allowlistMode: bool, blocked: set<Key>, allowed: set<Key>)

  ghost function Decision(rules: RuleSet, query: string): (bool, Reason) {
    var key := DomainToKey(Clean(query));
    if Clean(query) == [] then (false, EmptyQuery)
    else if MatchesEssential(key) then (false, SystemEssential)
    else if rules.allowlistMode then
      if MatchesTree(key, rules.allowed) then (false, AllowlistPermitted) else (true, NotInAllowlist)
    else if MatchesTree(key, rules.blocked) then (true, BlockedByPolicy)
    else (false, Permitted)
  }

  class DomainSinkhole {
    const idna: Idna
    var blockDoh: bool
    var allowlistMode: bool
    var blockedTrees: set<Key>
    var allowedTrees: set<Key>

    ghost function Rules(): RuleSet
      reads this
    {
      RuleSet(blockDoh, allowlistMode, blockedTrees, allowedTrees)
    }

    constructor (idna: Idna, blockDoh: bool)
      ensures this.idna == idna
      ensures Rules() == RuleSet(blockDoh, false, BlockedKeys(idna, blockDoh, {}), {})
    {
      this.idna := idna;
      this.blockDoh := blockDoh;
      allowlistMode, blockedTrees, allowedTrees := false, {}, {};
      new;
      blockedTrees := AddBoth(Bootstrap(blockDoh), {});
    }

    method AddRule(domain: string, trees: set<Key>) returns (r: set<Key>)
      ensures r == trees + RuleKeys(idna, {domain})
    {
      var norm := NormalizeDomain(idna, domain);
      if norm.Some? {
        r := trees + {DomainToKey(norm.value)};
      } else {
        r := trees;
      }
    }

    method AddRules(domains: set<string>, trees: set<Key>) returns (r: set<Key>)
      ensures r == trees + RuleKeys(idna, domains)
    {
      r := trees;
      var left := domains;
      while left != {}
        invariant left <= domains
        invariant r == trees + RuleKeys(idna, domains - left)
        decreases left
      {
        var d :| d in left;
        r := AddRule(d, r);
        RuleKeysOneMore(idna, domains, left, d);
        left := left - {d};
      }
      assert domains - {} == domains;
    }

    /** The keys of two lots of domains, added one lot after the other. */
    method AddBoth(always: set<string>, domains: set<string>) returns (r: set<Key>)
      ensures r == RuleKeys(idna, always + domains)
    {
      r := AddRules(always, {});
      r := AddRules(domains, r);
      RuleKeysUnion(idna, always, domains);
    }

    method SetBlockedDomains(domains: set<string>)
      modifies this
      ensures Rules() == old(Rules()).(blocked := BlockedKeys(idna, blockDoh, domains))
    {
      blockedTrees := AddBoth(Bootstrap(blockDoh), domains);
    }

    method SetAllowedDomains(domains: set<string>)
      modifies this
      ensures Rules() == old(Rules()).(allowed := AllowedKeys(idna, domains))
    {
      allowedTrees := AddBoth(EssentialSystemDomains(), domains);
    }

    method FindsPrefix(key: Key, trees: set<Key>) returns (found: bool)
      ensures found == MatchesTree(key, trees)
    {
      for i := 1 to |key| + 1
        invariant forall k: nat :: 1 <= k < i ==> key[..k] !in trees
      {
        if key[..i] in trees {
          return true;
        }
      }
      return false;
    }

    method IsBlocked(query: string) returns (blocked: bool, reason: Reason)
      ensures (blocked, reason) == Decision(Rules(), query)
    {
      var clean := Clean(query);
      if clean == [] {
        return false, EmptyQuery;
      }
      var key := DomainToKey(clean);
      var left := EssentialSystemDomains();
      while left != {}
        invariant left <= EssentialSystemDomains()
        invariant forall sys :: sys in EssentialSystemDomains() - left ==> !MatchesTree(key, {DomainToKey(sys)})
        decreases left
      {
        var sys :| sys in left;
        var essential := FindsPrefix(key, {DomainToKey(sys)});
        if essential {
          return false, SystemEssential;
        }
        left := left - {sys};
      }
      if allowlistMode {
        var allowed := FindsPrefix(key, allowedTrees);
        return !allowed, if allowed then AllowlistPermitted else NotInAllowlist;
      }
      blocked := FindsPrefix(key, blockedTrees);
      reason := if blocked then BlockedByPolicy else Permitted;
    }
  }

  lemma RuleKeysUnion(idna: Idna, a: set<string>, b: set<string>)
    ensures RuleKeys(idna, a + b) == RuleKeys(idna, a) + RuleKeys(idna, b)
  {
  }

  lemma RuleKeysOneMore(idna: Idna, domains: set<string>, left: set<string>, d: string)
    requires left <= domains && d in left
    ensures RuleKeys(idna, domains - (left - {d})) == RuleKeys(idna, domains - left) + RuleKeys(idna, {d})
  {
    RuleKeysUnion(idna, domains - left, {d});
    assert domains - (left - {d}) == domains - left + {d};
  }

  // ---------------------------------------------------------------- index and suffix scan

  /** A domain of the list normalizes, and the name is what it stands for or ends in "." and that. */
  ghost predicate Covers(idna: Idna, d: string, name: string) {
    Normalized(idna, d).Some? && Under(name, Clean(Normalized(idna, d).value), '.')
  }

  /** The string scan: some domain of the list covers the name. */
  ghost predicate Lists(idna: Idna, domains: set<string>, name: string) {
    exists d :: d in domains && Covers(idna, d, name)
  }

  ghost predicate Essential(name: string) {
    exists sys :: sys in EssentialSystemDomains() && Under(name, sys, '.')
  }

  /** A rule's key is found among the prefixes of a query's key exactly when the rule's domain
      equals the query or is one of its dotted suffixes. */
  lemma PrefixIsUnder(name: string, domain: string)
    ensures MatchesTree(Reverse(Split(name, '.')), {Reverse(Split(domain, '.'))}) <==> Under(name, domain, '.')
  {
    UnderIsPieceSuffix(name, domain, '.');
    ReversePrefixIsSuffix(Split(domain, '.'), Split(name, '.'));
    MatchesOne(Reverse(Split(name, '.')), Reverse(Split(domain, '.')));
  }

  lemma MatchesOne(key: Key, rule: Key)
    requires rule != []
    ensures MatchesTree(key, {rule}) <==> rule <= key
  {
    if rule <= key {
      assert key[..|rule|] == rule;
    }
    if MatchesTree(key, {rule}) {
      var i: nat :| 1 <= i <= |key| && key[..i] in {rule};
      assert key[..i] == rule;
    }
  }

  lemma CleanIsIdempotent(name: string)
    ensures Clean(Clean(name)) == Clean(name)
  {
    var s := Strip(name, DOTS_AND_BLANKS);
    StripTrims(name, DOTS_AND_BLANKS);
    LowerIdentity(s);
    LowerIdentity(Lower(s));
    if s != [] {
      assert LowerChar(s[0]) !in DOTS_AND_BLANKS && LowerChar(s[|s| - 1]) !in DOTS_AND_BLANKS;
    }
    StripTrims(Lower(s), DOTS_AND_BLANKS);
  }

  lemma KeyOfEssential(sys: string)
    requires sys in EssentialSystemDomains()
    ensures DomainToKey(sys) == Reverse(Split(sys, '.'))
  {
    EssentialIsPlain(sys);
    StripTrims(sys, DOTS_AND_BLANKS);
    LowerIdentity(sys);
  }

  predicate Plain(s: string) {
    IsLower(s) && Trimmed(s, DOTS_AND_BLANKS)
  }

  lemma TimeServersArePlain()
    ensures Plain("time.google.com") && Plain("time.windows.com") && Plain("time.apple.com") && Plain("time.cloudflare.com")
  {
  }

  lemma EssentialIsPlain(sys: string)
    requires sys in EssentialSystemDomains()
    ensures Plain(sys)
  {
    TimeServersArePlain();
    assert Plain("localhost");
    assert Plain("dietpi.com");
    assert Plain("debian.org");
    assert Plain("archive.ubuntu.com");
    assert Plain("pool.ntp.org");
  }

  lemma MatchesOneOf(key: Key, trees: set<Key>)
    ensures MatchesTree(key, trees) <==> exists t :: t in trees && MatchesTree(key, {t})
  {
    if MatchesTree(key, trees) {
      var i: nat :| 1 <= i <= |key| && key[..i] in trees;
      assert MatchesTree(key, {key[..i]});
    }
    forall t | t in trees && MatchesTree(key, {t})
      ensures MatchesTree(key, trees)
    {
      var i: nat :| 1 <= i <= |key| && key[..i] in {t};
    }
  }

  lemma IndexIsScan(idna: Idna, domains: set<string>, query: string)
    ensures MatchesTree(DomainToKey(Clean(query)), RuleKeys(idna, domains)) <==> Lists(idna, domains, Clean(query))
  {
    var name, key := Clean(query), DomainToKey(Clean(query));
    CleanIsIdempotent(query);
    MatchesOneOf(key, RuleKeys(idna, domains));
    forall d | d in domains && Normalized(idna, d).Some?
      ensures MatchesTree(key, {DomainToKey(Normalized(idna, d).value)}) <==> Covers(idna, d, name)
    {
      PrefixIsUnder(name, Clean(Normalized(idna, d).value));
    }
    if Lists(idna, domains, name) {
      var d :| d in domains && Covers(idna, d, name);
      assert DomainToKey(Normalized(idna, d).value) in RuleKeys(idna, domains);
    }
  }

  lemma EssentialIsScan(query: string)
    ensures MatchesEssential(DomainToKey(Clean(query))) <==> Essential(Clean(query))
  {
    CleanIsIdempotent(query);
    forall sys | sys in EssentialSystemDomains()
      ensures MatchesTree(DomainToKey(Clean(query)), {DomainToKey(sys)}) <==> Under(Clean(query), sys, '.')
    {
      KeyOfEssential(sys);
      PrefixIsUnder(Clean(query), sys);
    }
  }

  /** The fast index decides what the slow scan decides. In blocklist mode a name is blocked exactly
      when it is not essential and some rule is the name or a dotted suffix of it; in allowlist mode
      exactly when it is neither essential nor under an allowed domain. */
  lemma DecisionIsScan(idna: Idna, rules: RuleSet, blocked: set<string>, allowed: set<string>, query: string)
    requires rules.blocked == RuleKeys(idna, blocked) && rules.allowed == RuleKeys(idna, allowed)
    ensures var name := Clean(query);
            Decision(rules, query).0 <==>
              name != [] && !Essential(name)
              && if rules.allowlistMode then !Lists(idna, allowed, name) else Lists(idna, blocked, name)
  {
    IndexIsScan(idna, blocked, query);
    IndexIsScan(idna, allowed, query);
    EssentialIsScan(query);
  }

  /** And the reason it gives, told by the scan. */
  lemma ReasonIsScan(idna: Idna, rules: RuleSet, blocked: set<string>, allowed: set<string>, query: string)
    requires rules.blocked == RuleKeys(idna, blocked) && rules.allowed == RuleKeys(idna, allowed)
    ensures var name, reason := Clean(query), Decision(rules, query).1;
            && (reason == EmptyQuery <==> name == [])
            && (reason == SystemEssential <==> name != [] && Essential(name))
            && (name != [] && !Essential(name) && rules.allowlistMode ==>
                  reason == if Lists(idna, allowed, name) then AllowlistPermitted else NotInAllowlist)
            && (name != [] && !Essential(name) && !rules.allowlistMode ==>
                  reason == if Lists(idna, blocked, name) then BlockedByPolicy else Permitted)
  {
    IndexIsScan(idna, blocked, query);
    IndexIsScan(idna, allowed, query);
    EssentialIsScan(query);
  }

  /** Neither the case of a query nor dots and blanks around it make a difference: a name with its final
      dot is decided like the name without. */
  lemma WritingDoesNotMatter(rules: RuleSet, pre: string, core: string, post: string)
    requires Trimmed(core, DOTS_AND_BLANKS) && forall c :: c in pre + post ==> c in DOTS_AND_BLANKS
    ensures Decision(rules, pre + core + post) == Decision(rules, core)
    ensures Decision(rules, Lower(core)) == Decision(rules, core)
  {
    CleanWriting(pre, core, post);
    SameDecision(rules, pre + core + post, core);
    SameDecision(rules, Lower(core), core);
  }

  lemma CleanWriting(pre: string, core: string, post: string)
    requires Trimmed(core, DOTS_AND_BLANKS) && forall c :: c in pre + post ==> c in DOTS_AND_BLANKS
    ensures Clean(pre + core + post) == Clean(core) && Clean(Lower(core)) == Clean(core)
  {
    StripPadding(pre, core, post, DOTS_AND_BLANKS);
    StripTrims(core, DOTS_AND_BLANKS);
    LowerStrip(core, DOTS_AND_BLANKS);
  }

  lemma SameDecision(rules: RuleSet, a: string, b: string)
    requires Clean(a) == Clean(b)
    ensures Decision(rules, a) == Decision(rules, b)
  {
  }

  /** The same for rules set by `SetBlockedDomains`, in blocklist mode. */
  lemma BlocklistIsScan(idna: Idna, rules: RuleSet, active: set<string>, query: string)
    requires !rules.allowlistMode && rules.blocked == BlockedKeys(idna, rules.blockDoh, active)
    ensures Decision(rules, query).0 <==>
              Clean(query) != [] && !Essential(Clean(query))
              && Lists(idna, Bootstrap(rules.blockDoh) + active, Clean(query))
  {
    IndexIsScan(idna, Bootstrap(rules.blockDoh) + active, query);
    EssentialIsScan(query);
  }

  /** What is blocked: names under an active domain, and, if DoH is to be blocked, those under a bootstrap
      domain. */
  lemma BlockedExactly(idna: Idna, rules: RuleSet, active: set<string>, query: string)
    requires !rules.allowlistMode && rules.blocked == BlockedKeys(idna, rules.blockDoh, active)
    ensures Decision(rules, query).0 <==>
              && Clean(query) != [] && !Essential(Clean(query))
              && (Lists(idna, active, Clean(query)) || (rules.blockDoh && Lists(idna, DohBootstrapDomains(), Clean(query))))
  {
    BlocklistIsScan(idna, rules, active, query);
    ListsUnion(idna, Bootstrap(rules.blockDoh), active, Clean(query));
    assert !Lists(idna, {}, Clean(query));
  }

  lemma ListsUnion(idna: Idna, x: set<string>, y: set<string>, name: string)
    ensures Lists(idna, x + y, name) <==> Lists(idna, x, name) || Lists(idna, y, name)
  {
  }

  /** A rule covers a name whose last label is a number only if the encoder left a newline behind that
      number. */
  lemma NumericIsCovered(idna: Idna, d: string, name: string)
    requires NumericName(name) && Covers(idna, d, name)
    ensures EndsInNewline(Normalized(idna, d).value) && NumericName(Clean(Normalized(idna, d).value))
  {
    var n := Normalized(idna, d).value;
    NormalizedIsValid(idna, d);
    CleanOfValid(n);
    NumericUpwards(name, Clean(n));
  }

  /** A name and the domain it lies under have the same last label. */
  lemma NumericUpwards(name: string, d: string)
    requires Under(name, d, '.')
    ensures NumericName(name) <==> NumericName(d)
  {
    UnderIsPieceSuffix(name, d, '.');
    SuffixSharesLast(Split(d, '.'), Split(name, '.'));
  }

  /** The lists that users and tables can make without an encoder's help. */
  ghost predicate AsciiDomains(domains: set<string>) {
    forall d :: d in domains ==> IsAscii(d)
  }

  /** No ASCII rule covers a name whose last label is a number: IP addresses are no domain rules. */
  lemma NumericNamesAreNeverListed(idna: Idna, domains: set<string>, name: string)
    requires NumericName(name) && AsciiDomains(domains)
    ensures !Lists(idna, domains, name)
  {
    if Lists(idna, domains, name) {
      var d :| d in domains && Covers(idna, d, name);
      NumericIsCovered(idna, d, name);
      NormalizedIsValid(idna, d);
    }
  }

  lemma SuffixSharesLast<T>(x: seq<T>, y: seq<T>)
    requires x != [] && IsSuffix(x, y)
    ensures x[|x| - 1] == y[|y| - 1]
  {
    assert y[|y| - |x|..][|x| - 1] == y[|y| - 1];
  }
}

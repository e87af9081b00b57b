// What each command achieves, and when it is accepted.
module PolicyEffects {
  import opened Wrappers
  import opened Text
  import opened Sequences
  import opened Normalizer
  import opened Sinkhole
  import opened Bypass
  import opened TimeGuard
  import opened Session
  import opened Policy
  import opened PolicyRuns

  // ---------------------------------------------------------------- the guard and the clock

  /** A session is locked, and its time is not up at `now`. */
  predicate TimeLeft(s: EngineState, now: int) {
    s.session.status == LOCKED && s.session.expiresAt.Some? && now < s.session.expiresAt.value
  }

  /** A guarded command is refused exactly while time is left at its first reading. The error tells the
      expiry and the time left, and nothing changes. */
  lemma RefusedExactly(env: Env, s: EngineState, c: Command)
    requires Stamped(s.session) && IsGuarded(c)
    ensures var (s', reply) := Exec(env, s, c);
            && (reply.Refused? <==> TimeLeft(s, c.first))
            && (reply.Refused? ==>
                  s' == s && reply.error == LockedSession(s.session.expiresAt.value, s.session.expiresAt.value - c.first))
  {
  }

  /** A command that is not refused does what it does to an engine whose session may have been marked
      as expired, and is otherwise the same. */
  lemma PassedGuard(env: Env, s: EngineState, c: Command) returns (g: EngineState)
    requires IsGuarded(c) && !Exec(env, s, c).1.Refused?
    ensures Exec(env, s, c) == Apply(env, g, c)
    ensures g == s || g == s.(session := s.session.(status := EXPIRED))
  {
    g := Guard(s, c.first, c.second).0;
  }

  /** A tick releases exactly a locked session whose expiry has come and whose creation is not in the
      future. Otherwise it changes nothing. */
  lemma TickExact(env: Env, s: EngineState, now: int)
    requires Coherent(env, s)
    ensures var (s', reply) := Exec(env, s, Tick(now));
            if s.session.status == LOCKED && s.session.createdAt.value <= now && s.session.expiresAt.value <= now then
              && reply == Ticked(true)
              && s' == EngineState(s.config, NO_SESSION, RulesOf(env, s.config, NO_SESSION), Some(PersistentData(s.config, NO_SESSION)))
            else reply == Ticked(false) && s' == s
  {
    if TickedTo(env, s, now).1 == Ticked(true) {
      TickReleases(env, s, now);
    }
  }

  // ---------------------------------------------------------------- starting a session

  /** Seconds without their fraction, which is cut off towards zero. */
  predicate WholeOf(micros: int, seconds: int) {
    if micros >= 0 then 0 <= micros - seconds * 1_000_000 < 1_000_000 else 0 <= seconds * 1_000_000 - micros < 1_000_000
  }

  /** The expiry and the length that a request asks for at `r.now`: an end time, if there is a text for
      it, and else a duration. */
  ghost predicate AsksFor(request: StartRequest, r: StartReadings, expires: int, seconds: int) {
    if request.until.Some? && request.until.value != [] then
      EndTime(request.until.value, r.now, r.until, expires) && WholeOf(expires - r.now, seconds)
    else
      && request.duration.Some? && request.duration.value != []
      && LastsFor(request.duration.value, seconds) && expires == r.now + seconds * 1_000_000
  }

  lemma WholeSecondsExact(micros: int, seconds: int)
    ensures WholeSeconds(micros) == seconds <==> WholeOf(micros, seconds)
  {
  }

  lemma ExpiryExact(request: StartRequest, r: StartReadings, expires: int, seconds: int)
    ensures ExpiryOf(request, r) == Some((expires, seconds)) <==> AsksFor(request, r, expires, seconds)
  {
    if request.until.Some? && request.until.value != [] {
      UntilExact(request.until.value, r.now, r.until, expires);
      WholeSecondsExact(expires - r.now, seconds);
    } else if request.duration.Some? && request.duration.value != [] {
      DurationExact(request.duration.value, seconds);
    }
  }

  /** A name that the session will cover. */
  ghost predicate InScope(env: Env, config: AppConfig, request: StartRequest, x: string) {
    if request.domains == [] && request.services == [] then
      || x in config.permanentDomains
      || exists id :: id in config.permanentServices && ListedBy(env.catalog, id, x)
    else
      || (exists i :: 0 <= i < |request.services| && ListedBy(env.catalog, request.services[i], x))
      || SomeRequested(env, request.domains, request.includeCompanions, x)
  }

  /** The service that the text stands for exists and lists the domain. */
  ghost predicate ListedBy(catalog: Catalog, text: string, x: string) {
    GetService(catalog, text).Some? && x in GetService(catalog, text).value.AllDomains()
  }

  /** The input normalizes to the domain, or, if wanted, to one that has it as a companion. */
  ghost predicate Requested(env: Env, input: string, companions: bool, x: string) {
    && Normalized(env.idna, input).Some?
    && (x == Normalized(env.idna, input).value || (companions && x in Companions(env.catalog, Normalized(env.idna, input).value)))
  }

  ghost predicate SomeRequested(env: Env, domains: seq<string>, companions: bool, x: string) {
    exists i :: 0 <= i < |domains| && Requested(env, domains[i], companions, x)
  }

  lemma SomeRequestedSnoc(env: Env, init: seq<string>, last: string, companions: bool, x: string)
    ensures SomeRequested(env, init + [last], companions, x) <==>
              SomeRequested(env, init, companions, x) || Requested(env, last, companions, x)
  {
    var all := init + [last];
    assert all[|init|] == last;
    assert forall i :: 0 <= i < |init| ==> all[i] == init[i];
  }

  /** What one input adds. */
  lemma RequestedExact(env: Env, init: seq<string>, last: string, companions: bool, x: string)
    ensures x in CustomDomains(env, init + [last], companions) <==>
              x in CustomDomains(env, init, companions) || Requested(env, last, companions, x)
  {
    var all := init + [last];
    assert all[..|all| - 1] == init && all[|all| - 1] == last;
  }

  lemma {:induction false} CustomDomainsExact(env: Env, domains: seq<string>, companions: bool, x: string)
    ensures x in CustomDomains(env, domains, companions) <==> SomeRequested(env, domains, companions, x)
  {
    if domains != [] {
      var init, last := domains[..|domains| - 1], domains[|domains| - 1];
      assert domains == init + [last];
      CustomDomainsExact(env, init, companions, x);
      RequestedExact(env, init, last, companions, x);
      SomeRequestedSnoc(env, init, last, companions, x);
    }
  }

  /** The domains a session takes over are those in scope. */
  lemma ScopeExact(env: Env, config: AppConfig, request: StartRequest, x: string)
    ensures x in SessionScope(env, config, request).0 <==> InScope(env, config, request, x)
  {
    CustomDomainsExact(env, request.domains, request.includeCompanions, x);
  }

  /** Its services are those requested that exist, or else the permanent ones. */
  lemma ScopeServicesExact(env: Env, config: AppConfig, request: StartRequest, id: string)
    ensures id in SessionScope(env, config, request).1 <==>
              if request.domains == [] && request.services == [] then id in config.permanentServices
              else exists i :: 0 <= i < |request.services| && GetService(env.catalog, request.services[i]).Some?
                               && id == GetService(env.catalog, request.services[i]).value.id
  {
  }

  /** The companions of a domain are those of its platform, with or without "www." in front. */
  lemma CompanionsExact(catalog: Catalog, d: string)
    requires IsLower(d)
    ensures HasPrefix(d, "www.") ==> Companions(catalog, d) == if d[4..] in catalog.companions then catalog.companions[d[4..]] else []
    ensures !HasPrefix(d, "www.") ==> Companions(catalog, d) == if d in catalog.companions then catalog.companions[d] else []
  {
    LowerIdentity(d);
  }

  /** The request names an end and covers something. */
  ghost predicate Startable(env: Env, s: EngineState, request: StartRequest, r: StartReadings) {
    && (exists expires, seconds :: AsksFor(request, r, expires, seconds))
    && (exists x :: InScope(env, s.config, request, x))
  }

  lemma StartableExact(env: Env, s: EngineState, request: StartRequest, r: StartReadings)
    ensures Startable(env, s, request, r) <==> ExpiryOf(request, r).Some? && SessionScope(env, s.config, request).0 != {}
  {
    if ExpiryOf(request, r).Some? {
      ExpiryExact(request, r, ExpiryOf(request, r).value.0, ExpiryOf(request, r).value.1);
    }
    forall expires, seconds | AsksFor(request, r, expires, seconds)
      ensures ExpiryOf(request, r).Some?
    {
      ExpiryExact(request, r, expires, seconds);
    }
    forall x | x in SessionScope(env, s.config, request).0 || InScope(env, s.config, request, x)
      ensures x in SessionScope(env, s.config, request).0 && InScope(env, s.config, request, x)
    {
      ScopeExact(env, s.config, request, x);
    }
  }

  /** What a start answers: it fails without an end or without anything to cover, is refused while time
      is left of a session, and is accepted otherwise. If it is not accepted, nothing changes. */
  lemma StartReply(env: Env, s: EngineState, request: StartRequest, r: StartReadings)
    ensures var (s', reply) := Exec(env, s, StartFocus(request, r));
            && (reply == ValueError <==> !Startable(env, s, request, r))
            && (reply == Done <==> Startable(env, s, request, r) && !TimeLeft(s, r.now))
            && (reply != Done ==> s' == s)
            && (reply.Refused? ==> reply.error == LockedSession(s.session.expiresAt.value, s.session.expiresAt.value - r.now))
  {
    StartableExact(env, s, request, r);
    RemainingExact(s, r.now);
  }

  lemma RemainingExact(s: EngineState, now: int)
    ensures Remaining(s.session, now) > 0 <==> TimeLeft(s, now)
    ensures TimeLeft(s, now) ==> Remaining(s.session, now) == s.session.expiresAt.value - now
  {
  }

  lemma StartAsks(env: Env, s: EngineState, request: StartRequest, r: StartReadings) returns (session: SessionState)
    requires Exec(env, s, StartFocus(request, r)).1 == Done
    ensures session == Exec(env, s, StartFocus(request, r)).0.session
    ensures session.createdAt == Some(r.now) && session.expiresAt.Some?
    ensures AsksFor(request, r, session.expiresAt.value, session.durationSeconds)
  {
    session := Exec(env, s, StartFocus(request, r)).0.session;
    ExpiryExact(request, r, session.expiresAt.value, session.durationSeconds);
  }

  /** What an accepted start does: the session is locked from now on until the time asked for, covers
      what is in scope, and is saved. The configuration stays. */
  lemma StartLocks(env: Env, s: EngineState, request: StartRequest, r: StartReadings)
    requires Exec(env, s, StartFocus(request, r)).1 == Done
    ensures var s' := Exec(env, s, StartFocus(request, r)).0;
            && s'.session.status == LOCKED && s'.session.createdAt == Some(r.now) && s'.session.expiresAt.Some?
            && AsksFor(request, r, s'.session.expiresAt.value, s'.session.durationSeconds)
            && s'.session.sessionId == Some(r.sessionId) && s'.session.bootId == Some(r.bootId)
            && s'.config == s.config && s'.disk == Some(PersistentData(s.config, s'.session))
            && forall x :: x in s'.session.domains <==> InScope(env, s.config, request, x)
  {
    var s' := Exec(env, s, StartFocus(request, r)).0;
    var session := StartAsks(env, s, request, r);
    forall x
      ensures x in s'.session.domains <==> InScope(env, s.config, request, x)
    {
      ScopeExact(env, s.config, request, x);
    }
  }

  lemma DurationIsUnique(text: string, n: int, k: int)
    requires LastsFor(text, n) && LastsFor(text, k)
    ensures n == k
  {
    DurationExact(text, n);
    DurationExact(text, k);
  }

  /** A request by duration asks for exactly the seconds that its text lasts for. */
  lemma AskedDuration(request: StartRequest, r: StartReadings, expires: int, seconds: int, n: int)
    requires request.until == None || request.until == Some([])
    requires request.duration.Some? && LastsFor(request.duration.value, n)
    ensures AsksFor(request, r, expires, seconds) <==>
              request.duration.value != [] && seconds == n && expires == r.now + n * 1_000_000
  {
    if AsksFor(request, r, expires, seconds) {
      DurationIsUnique(request.duration.value, seconds, n);
    }
  }

  /** The name lies under what a covered domain stands for as a rule. */
  ghost predicate CoveredBy(x: string, query: string) {
    ValidDomain(x) && !NumericName(Clean(x)) && Under(Clean(query), Clean(x), '.')
  }

  /** Once started, the session blocks every non-essential name under a domain in its scope. */
  lemma ScopeIsBlocked(env: Env, s: EngineState, request: StartRequest, r: StartReadings, x: string, query: string)
    requires Coherent(env, s) && !s.config.allowlistMode
    requires Exec(env, s, StartFocus(request, r)).1 == Done
    requires InScope(env, s.config, request, x) && CoveredBy(x, query)
    requires Clean(query) != [] && !Essential(Clean(query))
    ensures Decision(Exec(env, s, StartFocus(request, r)).0.rules, query).0
  {
    var s' := Exec(env, s, StartFocus(request, r)).0;
    StartLocks(env, s, request, r);
    ExecKeepsCoherence(env, s, StartFocus(request, r));
    CoherentDecision(env, s', query);
    PermanentIsListed(env.idna, Bootstrap(s'.config.blockDoh) + ActiveDomains(env, s'.config, s'.disk.value.session), x, Clean(query));
  }

  /** In particular every name under a requested domain, and, if wanted, under its companions. */
  lemma RequestedDomainIsBlocked(env: Env, s: EngineState, request: StartRequest, r: StartReadings, i: nat, x: string, query: string)
    requires Coherent(env, s) && !s.config.allowlistMode
    requires Exec(env, s, StartFocus(request, r)).1 == Done
    requires i < |request.domains| && Requested(env, request.domains[i], request.includeCompanions, x)
    requires CoveredBy(x, query) && Clean(query) != [] && !Essential(Clean(query))
    ensures Decision(Exec(env, s, StartFocus(request, r)).0.rules, query).0
  {
    assert InScope(env, s.config, request, x);
    ScopeIsBlocked(env, s, request, r, x, query);
  }

  /** And every name that matches a requested service. */
  lemma RequestedServiceIsBlocked(env: Env, s: EngineState, request: StartRequest, r: StartReadings, i: nat, query: string)
    requires Coherent(env, s) && !s.config.allowlistMode && Sound(env.catalog)
    requires Exec(env, s, StartFocus(request, r)).1 == Done
    requires i < |request.services| && GetService(env.catalog, request.services[i]).Some?
    requires Tidy(query) && !Essential(Clean(query))
    requires MatchesService(GetService(env.catalog, request.services[i]).value, Trim(query))
    ensures Decision(Exec(env, s, StartFocus(request, r)).0.rules, query).0
  {
    var s' := Exec(env, s, StartFocus(request, r)).0;
    var id := GetService(env.catalog, request.services[i]).value.id;
    StartLocks(env, s, request, r);
    ExecKeepsCoherence(env, s, StartFocus(request, r));
    FoundAgain(env.catalog, request.services[i]);
    StartTakesServices(env, s, request, r);
    ScopeServicesExact(env, s.config, request, id);
    SessionServiceIsBlocked(env, s', id, query);
  }

  lemma StartTakesServices(env: Env, s: EngineState, request: StartRequest, r: StartReadings)
    requires Exec(env, s, StartFocus(request, r)).1 == Done
    ensures Exec(env, s, StartFocus(request, r)).0.session.services == SessionScope(env, s.config, request).1
  {
  }

  // ---------------------------------------------------------------- permanent rules

  /** One occurrence of an item, the first, is gone, and everything else is in its place. */
  ghost predicate FirstGone(list: seq<string>, item: string, after: seq<string>) {
    exists a: seq<string>, b: seq<string> :: IsParted(list, item, after, a, b)
  }

  predicate IsParted(list: seq<string>, item: string, after: seq<string>, a: seq<string>, b: seq<string>) {
    list == a + ([item] + b) && item !in a && after == a + b
  }

  lemma {:induction false} RemoveFirstParts(list: seq<string>, item: string) returns (a: seq<string>, b: seq<string>)
    requires item in list
    ensures IsParted(list, item, RemoveFirst(list, item), a, b)
  {
    if list[0] == item {
      a, b := [], list[1..];
    } else {
      var rest;
      rest, b := RemoveFirstParts(list[1..], item);
      a := [list[0]] + rest;
      ConcatIsAssociative([list[0]], rest, [item] + b);
      ConcatIsAssociative([list[0]], rest, b);
      assert list == [list[0]] + list[1..];
    }
  }

  lemma RemoveFirstExact(list: seq<string>, item: string)
    requires item in list
    ensures FirstGone(list, item, RemoveFirst(list, item))
  {
    var a, b := RemoveFirstParts(list, item);
  }

  /** What the four commands on the permanent rules answer once they have passed the guard; if they fail,
      they do no more than the guard. */
  lemma RuleReplies(env: Env, s: EngineState, c: Command)
    requires Stamped(s.session) && IsGuarded(c) && !TimeLeft(s, c.first)
    ensures var (s', reply) := Exec(env, s, c);
            && (reply == Done <==>
                  match c
                  case AddDomain(input, _, _, _) => Normalized(env.idna, input).Some?
                  case RemoveDomain(input, _, _) =>
                    Normalized(env.idna, input).Some? && Normalized(env.idna, input).value in s.config.permanentDomains
                  case BlockService(text, _, _) => GetService(env.catalog, text).Some?
                  case UnblockService(text, _, _) =>
                    GetService(env.catalog, text).Some? && GetService(env.catalog, text).value.id in s.config.permanentServices
                  case _ => true)
            && (reply != Done ==> reply == ValueError && s' == s.(session := s'.session))
  {
    RefusedExactly(env, s, c);
    var g := PassedGuard(env, s, c);
  }

  /** After an accepted block the service is among the permanent ones, last if it is new. Nothing else in
      the configuration differs, and all of it is on disk. */
  lemma BlockDoes(env: Env, s: EngineState, c: Command)
    requires Coherent(env, s) && c.BlockService? && Exec(env, s, c).1 == Done
    ensures GetService(env.catalog, c.serviceId).Some?
    ensures var s', id := Exec(env, s, c).0, GetService(env.catalog, c.serviceId).value.id;
            && s'.config == s.config.(permanentServices :=
                  if id in s.config.permanentServices then s.config.permanentServices else s.config.permanentServices + [id])
            && s'.disk.Some? && s'.disk.value.config == s'.config
  {
    ExecKeepsCoherence(env, s, c);
    var g := PassedGuard(env, s, c);
  }

  /** And every tidy, non-essential name that matches the service is blocked. */
  lemma BlockedServiceIsBlocked(env: Env, s: EngineState, c: Command, query: string)
    requires Coherent(env, s) && !s.config.allowlistMode && Sound(env.catalog)
    requires c.BlockService? && Exec(env, s, c).1 == Done && GetService(env.catalog, c.serviceId).Some?
    requires Tidy(query) && !Essential(Clean(query)) && MatchesService(GetService(env.catalog, c.serviceId).value, Trim(query))
    ensures Decision(Exec(env, s, c).0.rules, query).0
  {
    var id := GetService(env.catalog, c.serviceId).value.id;
    BlockDoes(env, s, c);
    ExecKeepsCoherence(env, s, c);
    FoundAgain(env.catalog, c.serviceId);
    PermanentServiceIsBlocked(env, Exec(env, s, c).0, id, query);
  }

  /** A permanent service is enforced, whatever the session does. */
  lemma PermanentServiceIsBlocked(env: Env, s: EngineState, id: string, query: string)
    requires Coherent(env, s) && !s.config.allowlistMode && Sound(env.catalog)
    requires id in s.config.permanentServices && GetService(env.catalog, id).Some?
    requires Tidy(query) && !Essential(Clean(query)) && MatchesService(GetService(env.catalog, id).value, Trim(query))
    ensures Decision(s.rules, query).0
  {
    var active := ActiveDomains(env, s.config, s.disk.value.session);
    assert DomainsOfServices(env.catalog, {id}) <= DomainsOfServices(env.catalog, SetOf(s.config.permanentServices));
    CoherentEnforces(env, s);
    ServiceIsBlocked(env.idna, env.catalog, s.rules, active, id, query);
  }

  /** After an accepted unblock one occurrence of the service is gone, the first, and the others stay. */
  lemma UnblockDoes(env: Env, s: EngineState, c: Command)
    requires Coherent(env, s) && c.UnblockService? && Exec(env, s, c).1 == Done
    ensures GetService(env.catalog, c.serviceId).Some?
    ensures var s', id := Exec(env, s, c).0, GetService(env.catalog, c.serviceId).value.id;
            && FirstGone(s.config.permanentServices, id, s'.config.permanentServices)
            && s'.config == s.config.(permanentServices := s'.config.permanentServices)
            && s'.disk.Some? && s'.disk.value.config == s'.config
  {
    ExecKeepsCoherence(env, s, c);
    var g := PassedGuard(env, s, c);
    RemoveFirstExact(s.config.permanentServices, GetService(env.catalog, c.serviceId).value.id);
  }

  /** Blocking a service and unblocking it restores configuration and rules exactly if it was not blocked
      before. */
  lemma UnblockUndoesBlock(env: Env, s: EngineState, block: Command, unblock: Command)
    requires Coherent(env, s) && s.session.status != LOCKED
    requires block.BlockService? && unblock.UnblockService? && block.serviceId == unblock.serviceId
    requires GetService(env.catalog, block.serviceId).Some?
    ensures var (end, reply) := Exec(env, Exec(env, s, block).0, unblock);
            var id := GetService(env.catalog, block.serviceId).value.id;
            && reply == Done && end.session == s.session
            && (end.config == s.config <==> id !in s.config.permanentServices)
            && (end.config == s.config ==> end.rules == RulesOf(env, s.config, s.session))
  {
    var id := GetService(env.catalog, block.serviceId).value.id;
    BlockedWhileUnlocked(env, s, block);
    UnblockedWhileUnlocked(env, Exec(env, s, block).0, unblock);
    BlockedAndUnblocked(s.config.permanentServices, id);
  }

  lemma BlockedWhileUnlocked(env: Env, s: EngineState, c: Command)
    requires Coherent(env, s) && s.session.status != LOCKED && c.BlockService? && GetService(env.catalog, c.serviceId).Some?
    ensures var s', id := Exec(env, s, c).0, GetService(env.catalog, c.serviceId).value.id;
            && Coherent(env, s') && s'.session == s.session && id in s'.config.permanentServices
            && s'.config == s.config.(permanentServices :=
                  if id in s.config.permanentServices then s.config.permanentServices else s.config.permanentServices + [id])
  {
    UnlockedPasses(env, s, c);
    BlockKeepsCoherence(env, s, c.serviceId);
  }

  lemma UnblockedWhileUnlocked(env: Env, s: EngineState, c: Command)
    requires Coherent(env, s) && s.session.status != LOCKED && c.UnblockService? && GetService(env.catalog, c.serviceId).Some?
    requires GetService(env.catalog, c.serviceId).value.id in s.config.permanentServices
    ensures var (s', reply) := Exec(env, s, c);
            var id := GetService(env.catalog, c.serviceId).value.id;
            && reply == Done && s'.session == s.session && s'.rules == RulesOf(env, s'.config, s'.session)
            && s'.config == s.config.(permanentServices := RemoveFirst(s.config.permanentServices, id))
  {
    UnlockedPasses(env, s, c);
    UnblockKeepsCoherence(env, s, c.serviceId);
  }

  lemma BlockedAndUnblocked(list: seq<string>, id: string)
    ensures RemoveFirst(if id in list then list else list + [id], id) == list <==> id !in list
  {
    if id in list {
      var a, b := RemoveFirstParts(list, id);
    } else {
      RemoveFromSecond(list, [id], id);
      assert [id][1..] == [] && list + [] == list;
    }
  }

  // ---------------------------------------------------------------- allowlist mode

  /** In allowlist mode everything is blocked but essential names and those under an allowed domain. */
  lemma AllowlistDecision(env: Env, s: EngineState, query: string)
    requires Coherent(env, s) && s.config.allowlistMode
    ensures Decision(s.rules, query).0 <==>
              Clean(query) != [] && !Essential(Clean(query))
              && !Lists(env.idna, EssentialSystemDomains() + SetOf(s.config.allowedDomains), Clean(query))
  {
    IndexIsScan(env.idna, EssentialSystemDomains() + SetOf(s.config.allowedDomains), query);
    EssentialIsScan(query);
  }
}

// What every run of the engine keeps: the lock, the rules in force, the state on disk.
module PolicyRuns {
  import opened Wrappers
  import opened Text
  import opened Sequences
  import opened Normalizer
  import opened Sinkhole
  import opened Bypass
  import opened TimeGuard
  import opened Session
  import opened Policy

  /** The engine after a run of commands. */
  ghost function Run(env: Env, s: EngineState, cs: seq<Command>): EngineState
    decreases |cs|
  {
    if cs == [] then s else Run(env, Exec(env, s, cs[0]).0, cs[1..])
  }

  /** The session on disk is the one in memory, except that an expiry noticed by a guard may not have
      been saved yet. */
  ghost predicate SavedSession(session: SessionState, saved: SessionState) {
    saved == session || (session.status == EXPIRED && saved == session.(status := LOCKED))
  }

  /** What holds in every reachable state: the configuration is on disk, and the sinkhole enforces
      exactly what is on disk. */
  ghost predicate Coherent(env: Env, s: EngineState) {
    && s.disk.Some?
    && s.disk.value.config == s.config
    && SavedSession(s.session, s.disk.value.session)
    && s.rules == RulesOf(env, s.config, s.disk.value.session)
    && Stamped(s.session)
  }

  /** The parts of the rules that depend on the configuration alone. */
  ghost predicate Configured(env: Env, config: AppConfig, rules: RuleSet) {
    && rules.blockDoh == config.blockDoh && rules.allowlistMode == config.allowlistMode
    && rules.allowed == AllowedKeys(env.idna, SetOf(config.allowedDomains))
  }

  lemma RefreshedIsCoherent(env: Env, s: EngineState)
    requires Configured(env, s.config, s.rules) && Stamped(s.session)
    ensures Coherent(env, Save(Refresh(env, s)))
  {
  }

  lemma BootIsCoherent(env: Env, disk: Option<PersistentData>, now: int)
    requires disk.Some? ==> Stamped(disk.value.session)
    ensures Coherent(env, Boot(env, disk, now))
  {
  }

  lemma GuardKeepsCoherence(env: Env, s: EngineState, first: int, second: int)
    requires Coherent(env, s)
    ensures Coherent(env, Guard(s, first, second).0)
  {
  }

  lemma AddKeepsCoherence(env: Env, s: EngineState, input: string, companions: bool)
    requires Coherent(env, s)
    ensures Coherent(env, AddDomainTo(env, s, input, companions).0)
  {
    var d := Normalized(env.idna, input);
    if d.Some? {
      var items := [d.value] + if companions then Companions(env.catalog, d.value) else [];
      var config := s.config.(permanentDomains := AppendNew(s.config.permanentDomains, items));
      RefreshedIsCoherent(env, s.(config := config));
    }
  }

  lemma RemoveKeepsCoherence(env: Env, s: EngineState, input: string)
    requires Coherent(env, s)
    ensures Coherent(env, RemoveDomainFrom(env, s, input).0)
  {
    var d := Normalized(env.idna, input);
    if d.Some? && d.value in s.config.permanentDomains {
      var config := s.config.(permanentDomains := RemoveFirst(s.config.permanentDomains, d.value));
      RefreshedIsCoherent(env, s.(config := config));
    }
  }

  lemma BlockKeepsCoherence(env: Env, s: EngineState, serviceId: string)
    requires Coherent(env, s)
    ensures Coherent(env, BlockServiceIn(env, s, serviceId).0)
  {
    var svc := GetService(env.catalog, serviceId);
    if svc.Some? && svc.value.id !in s.config.permanentServices {
      var config := s.config.(permanentServices := s.config.permanentServices + [svc.value.id]);
      RefreshedIsCoherent(env, s.(config := config));
    }
  }

  lemma UnblockKeepsCoherence(env: Env, s: EngineState, serviceId: string)
    requires Coherent(env, s)
    ensures Coherent(env, UnblockServiceIn(env, s, serviceId).0)
  {
    var svc := GetService(env.catalog, serviceId);
    if svc.Some? && svc.value.id in s.config.permanentServices {
      var config := s.config.(permanentServices := RemoveFirst(s.config.permanentServices, svc.value.id));
      RefreshedIsCoherent(env, s.(config := config));
    }
  }

  lemma StartKeepsCoherence(env: Env, s: EngineState, request: StartRequest, r: StartReadings)
    requires Coherent(env, s)
    ensures Coherent(env, Started(env, s, request, r).0)
  {
    var expiry := ExpiryOf(request, r);
    var (domains, services) := SessionScope(env, s.config, request);
    if expiry.Some? {
      RefreshedIsCoherent(env, s.(session := NewSession(expiry.value, r, domains, services)));
    }
  }

  lemma TickKeepsCoherence(env: Env, s: EngineState, now: int)
    requires Coherent(env, s)
    ensures Coherent(env, TickedTo(env, s, now).0)
  {
    RefreshedIsCoherent(env, s.(session := NO_SESSION));
  }

  lemma ApplyKeepsCoherence(env: Env, s: EngineState, c: Command)
    requires Coherent(env, s) && IsGuarded(c)
    ensures Coherent(env, Apply(env, s, c).0)
  {
    if c.AddDomain? {
      AddKeepsCoherence(env, s, c.input, c.includeCompanions);
    } else if c.RemoveDomain? {
      RemoveKeepsCoherence(env, s, c.input);
    } else if c.BlockService? {
      BlockKeepsCoherence(env, s, c.serviceId);
    } else if c.UnblockService? {
      UnblockKeepsCoherence(env, s, c.serviceId);
    }
  }

  /** Every command, accepted or refused, keeps memory, sinkhole and disk coherent. */
  lemma ExecKeepsCoherence(env: Env, s: EngineState, c: Command)
    requires Coherent(env, s)
    ensures Coherent(env, Exec(env, s, c).0)
  {
    if IsGuarded(c) {
      GuardKeepsCoherence(env, s, c.first, c.second);
      ApplyKeepsCoherence(env, Guard(s, c.first, c.second).0, c);
    } else {
      match c
      case StartFocus(request, readings) => StartKeepsCoherence(env, s, request, readings);
      case Tick(now) => TickKeepsCoherence(env, s, now);
      case Restart(now) => BootIsCoherent(env, s.disk, now);
    }
  }

  lemma {:induction false} RunKeepsCoherence(env: Env, s: EngineState, cs: seq<Command>)
    requires Coherent(env, s)
    ensures Coherent(env, Run(env, s, cs))
    decreases |cs|
  {
    if cs != [] {
      ExecKeepsCoherence(env, s, cs[0]);
      RunKeepsCoherence(env, Exec(env, s, cs[0]).0, cs[1..]);
    }
  }

  lemma MoreDomainsMoreKeys(idna: Idna, blockDoh: bool, fewer: set<string>, more: set<string>)
    requires fewer <= more
    ensures BlockedKeys(idna, blockDoh, fewer) <= BlockedKeys(idna, blockDoh, more)
  {
  }

  /** In every state reachable from a start-up: a locked engine enforces exactly its configuration and
      its session; an engine that is not locked enforces at least its configuration. */
  lemma ReachableRules(env: Env, disk: Option<PersistentData>, now: int, cs: seq<Command>)
    requires disk.Some? ==> Stamped(disk.value.session)
    ensures var s := Run(env, Boot(env, disk, now), cs);
            && (s.session.status == LOCKED ==> s.rules == RulesOf(env, s.config, s.session))
            && RulesOf(env, s.config, NO_SESSION).blocked <= s.rules.blocked
            && s.rules == RulesOf(env, s.config, NO_SESSION).(blocked := s.rules.blocked)
  {
    BootIsCoherent(env, disk, now);
    RunKeepsCoherence(env, Boot(env, disk, now), cs);
    var s := Run(env, Boot(env, disk, now), cs);
    MoreDomainsMoreKeys(env.idna, s.config.blockDoh, ActiveDomains(env, s.config, NO_SESSION),
                        ActiveDomains(env, s.config, s.disk.value.session));
  }

  // ---------------------------------------------------------------- the lock

  /** The readings that decide about the lock all lie before `t`; they may go backwards. */
  predicate ReadsBefore(c: Command, t: int) {
    match c
    case StartFocus(_, readings) => readings.now < t
    case Tick(now) => now < t
    case Restart(now) => now < t
    case _ => c.first < t
  }

  /** The replies of a locked engine: only ticks and restarts go through. */
  predicate HeldOff(c: Command, r: Reply) {
    match c
    case Tick(_) => r == Ticked(false)
    case Restart(_) => r == Done
    case StartFocus(_, _) => r == ValueError || (r.Refused? && r.error.LockedSession?)
    case _ => r.Refused? && r.error.LockedSession?
  }

  lemma GuardHolds(s: EngineState, first: int, second: int)
    requires Locked(s.session) && first < s.session.expiresAt.value
    ensures Guard(s, first, second) == (s, Some(LockedSession(s.session.expiresAt.value, Remaining(s.session, first))))
  {
  }

  lemma StartHolds(env: Env, s: EngineState, request: StartRequest, r: StartReadings)
    requires Locked(s.session) && r.now < s.session.expiresAt.value
    ensures var (s', reply) := Started(env, s, request, r);
            s' == s && (reply == ValueError || (reply.Refused? && reply.error.LockedSession?))
  {
  }

  lemma BootHolds(env: Env, s: EngineState, now: int)
    requires Coherent(env, s) && Locked(s.session) && now < s.session.expiresAt.value
    ensures Boot(env, s.disk, now) == s
  {
  }

  /** One command before the expiry changes nothing at all, on disk or in memory, and says so. */
  lemma LockHolds(env: Env, s: EngineState, c: Command)
    requires Coherent(env, s) && Locked(s.session) && ReadsBefore(c, s.session.expiresAt.value)
    ensures Exec(env, s, c).0 == s && HeldOff(c, Exec(env, s, c).1)
  {
    if IsGuarded(c) {
      GuardHolds(s, c.first, c.second);
    } else if c.StartFocus? {
      StartHolds(env, s, c.request, c.readings);
    } else if c.Restart? {
      BootHolds(env, s, c.now);
    } else {
      TickHolds(env, s, c.now);
    }
  }

  lemma TickHolds(env: Env, s: EngineState, now: int)
    requires Locked(s.session) && now < s.session.expiresAt.value
    ensures TickedTo(env, s, now) == (s, Ticked(false))
  {
  }

  /** Lock safety: once locked until E, no run whose readings all lie before E changes anything. */
  lemma {:induction false} LockSafety(env: Env, s: EngineState, cs: seq<Command>)
    requires Coherent(env, s) && Locked(s.session)
    requires forall i :: 0 <= i < |cs| ==> ReadsBefore(cs[i], s.session.expiresAt.value)
    ensures Run(env, s, cs) == s
    decreases |cs|
  {
    if cs != [] {
      LockHolds(env, s, cs[0]);
      LockSafety(env, s, cs[1..]);
    }
  }

  /** Whenever a run ends the lock or changes what is locked, some command in it read the clock at or
      after the expiry. */
  lemma LockEndsLate(env: Env, s: EngineState, cs: seq<Command>) returns (i: nat)
    requires Coherent(env, s) && Locked(s.session) && Run(env, s, cs) != s
    ensures i < |cs| && !ReadsBefore(cs[i], s.session.expiresAt.value)
  {
    if forall i :: 0 <= i < |cs| ==> ReadsBefore(cs[i], s.session.expiresAt.value) {
      LockSafety(env, s, cs);
    }
    i :| 0 <= i < |cs| && !ReadsBefore(cs[i], s.session.expiresAt.value);
  }

  /** Past the guard, a command leaves the session alone, and saves whatever else it does. */
  lemma ApplyEffect(env: Env, s: EngineState, c: Command)
    requires IsGuarded(c)
    ensures var s' := Apply(env, s, c).0;
            s' == s || (s'.session == s.session && s'.disk == Some(PersistentData(s'.config, s.session)))
  {
  }

  /** A guarded command either does no more than the guard does to the session, or it saves what it
      did together with the guarded session. */
  lemma GuardedEffect(env: Env, s: EngineState, c: Command)
    requires IsGuarded(c)
    ensures var (s', (session, e)) := (Exec(env, s, c).0, Guarded(s.session, c.first, c.second));
            && (s' == s.(session := session)
                || (e.None? && s'.session == session && s'.disk == Some(PersistentData(s'.config, session))))
  {
    ApplyEffect(env, Guard(s, c.first, c.second).0, c);
  }

  // ---------------------------------------------------------------- restarts

  /** A restart at any time after any completed command. Memory is what the disk says. A session that
      is locked there is released if its expiry has come and its creation is not in the future; in any
      other case, a clock set back behind the creation included, it is resumed. */
  lemma RestartExact(env: Env, s: EngineState, now: int)
    requires Coherent(env, s)
    ensures var b, saved := Boot(env, s.disk, now), s.disk.value.session;
            b == if saved.status != LOCKED then s
                 else if now < saved.createdAt.value || now < saved.expiresAt.value then s.(session := saved)
                 else EngineState(s.config, NO_SESSION, RulesOf(env, s.config, NO_SESSION),
                                  Some(PersistentData(s.config, NO_SESSION)))
  {
  }

  /** For a locked engine: the same session and the same decision for every name before the expiry,
      and exactly the permanent rules after it. */
  lemma RestartWhileLocked(env: Env, s: EngineState, now: int)
    requires Coherent(env, s) && Locked(s.session) && WellOrdered(s.session)
    ensures var b := Boot(env, s.disk, now);
            && (now < s.session.expiresAt.value ==>
                  b == s && forall q :: Decision(b.rules, q) == Decision(s.rules, q))
            && (now >= s.session.expiresAt.value ==>
                  b == EngineState(s.config, NO_SESSION, RulesOf(env, s.config, NO_SESSION),
                                   Some(PersistentData(s.config, NO_SESSION))))
  {
    RestartExact(env, s, now);
  }

  /** An expiry noticed by a guard is not saved: if the clock is then set back and the engine
      restarted, the session is locked again. */
  lemma UnsavedExpiryRelocks(env: Env, s: EngineState, c: Command, now: int)
    requires Coherent(env, s) && Locked(s.session) && WellOrdered(s.session)
    requires c.StopFocus? && now < s.session.expiresAt.value <= c.first <= c.second
    ensures var (expired, reply) := Exec(env, s, c);
            && reply == Done && expired == s.(session := s.session.(status := EXPIRED))
            && Boot(env, expired.disk, now) == s
  {
    BootHolds(env, s, now);
    StopAfterExpiry(env, s, c.first, c.second);
  }

  lemma StopAfterExpiry(env: Env, s: EngineState, first: int, second: int)
    requires Locked(s.session) && WellOrdered(s.session) && s.session.expiresAt.value <= first <= second
    ensures Exec(env, s, StopFocus(first, second)) == (s.(session := s.session.(status := EXPIRED)), Done)
  {
  }

  // ---------------------------------------------------------------- sessions end after they begin

  /** Within one call the clock does not run backwards. */
  predicate Forward(c: Command) {
    match c
    case StartFocus(_, r) => r.now <= r.until.reading && r.until.localOffset == r.until.zoneOffset
    case Tick(_) => true
    case Restart(_) => true
    case _ => c.first <= c.second
  }

  /** A session started by duration or end time expires after its creation. */
  lemma ExpiryIsLater(request: StartRequest, r: StartReadings)
    requires Steady(r.now, r.until) && ExpiryOf(request, r).Some?
    ensures r.now < ExpiryOf(request, r).value.0
  {
    if request.until.Some? && request.until.value != [] {
      UntilIsLater(request.until.value, r.now, r.until);
    } else {
      SecondsSound(Lower(Strip(request.duration.value, WHITE_SPACE)));
    }
  }

  ghost predicate Ordered(s: EngineState) {
    WellOrdered(s.session) && (s.disk.Some? ==> WellOrdered(s.disk.value.session))
  }

  lemma StartKeepsOrder(env: Env, s: EngineState, request: StartRequest, r: StartReadings)
    requires Ordered(s) && Steady(r.now, r.until)
    ensures Ordered(Started(env, s, request, r).0)
  {
    if ExpiryOf(request, r).Some? {
      ExpiryIsLater(request, r);
    }
  }

  lemma TickKeepsOrder(env: Env, s: EngineState, now: int)
    requires Ordered(s)
    ensures Ordered(TickedTo(env, s, now).0)
  {
  }

  lemma GuardKeepsOrder(s: EngineState, first: int, second: int)
    requires Ordered(s)
    ensures Ordered(Guard(s, first, second).0)
  {
  }

  lemma ApplyKeepsOrder(env: Env, s: EngineState, c: Command)
    requires Ordered(s) && IsGuarded(c)
    ensures Ordered(Apply(env, s, c).0)
  {
    ApplyEffect(env, s, c);
  }

  lemma BootKeepsOrder(env: Env, s: EngineState, now: int)
    requires Ordered(s)
    ensures Ordered(Boot(env, s.disk, now))
  {
  }

  lemma ExecKeepsOrder(env: Env, s: EngineState, c: Command)
    requires Ordered(s) && Forward(c)
    ensures Ordered(Exec(env, s, c).0)
  {
    if IsGuarded(c) {
      GuardKeepsOrder(s, c.first, c.second);
      ApplyKeepsOrder(env, Guard(s, c.first, c.second).0, c);
    } else if c.StartFocus? {
      StartKeepsOrder(env, s, c.request, c.readings);
    } else if c.Tick? {
      TickKeepsOrder(env, s, c.now);
    } else {
      BootKeepsOrder(env, s, c.now);
    }
  }

  lemma {:induction false} RunKeepsOrder(env: Env, s: EngineState, cs: seq<Command>)
    requires Ordered(s)
    requires forall i :: 0 <= i < |cs| ==> Forward(cs[i])
    ensures Ordered(Run(env, s, cs))
    decreases |cs|
  {
    if cs != [] {
      ExecKeepsOrder(env, s, cs[0]);
      RunKeepsOrder(env, Exec(env, s, cs[0]).0, cs[1..]);
    }
  }

  // ---------------------------------------------------------------- restoration

  /** The command started a session. */
  ghost predicate Starts(env: Env, s: EngineState, c: Command) {
    c.StartFocus? && Exec(env, s, c).1 == Done
  }

  ghost predicate NoneStarts(env: Env, s: EngineState, cs: seq<Command>)
    decreases |cs|
  {
    cs != [] ==> !Starts(env, s, cs[0]) && NoneStarts(env, Exec(env, s, cs[0]).0, cs[1..])
  }

  /** Where a run can be, seen from a locked state: still there, there with an unsaved expiry, or past
      the session for good. */
  ghost predicate SinceLock(locked: EngineState, s: EngineState) {
    || s == locked
    || s == locked.(session := locked.session.(status := EXPIRED))
    || (s.session.status != LOCKED && s.disk.Some? && s.disk.value.session.status != LOCKED)
  }

  lemma GuardedSinceLock(env: Env, locked: EngineState, s: EngineState, c: Command)
    requires Locked(locked.session) && WellOrdered(locked.session)
    requires SinceLock(locked, s) && IsGuarded(c) && Forward(c)
    ensures SinceLock(locked, Exec(env, s, c).0)
  {
    GuardedEffect(env, s, c);
    if s == locked {
      GuardIsSound(s.session, c.first, c.second);
    }
  }

  lemma ExecSinceLock(env: Env, locked: EngineState, s: EngineState, c: Command)
    requires Coherent(env, locked) && Locked(locked.session) && Ordered(locked)
    requires SinceLock(locked, s) && Coherent(env, s) && Forward(c) && !Starts(env, s, c)
    ensures SinceLock(locked, Exec(env, s, c).0)
  {
    if IsGuarded(c) {
      GuardedSinceLock(env, locked, s, c);
    } else if c.Restart? {
      RestartExact(env, s, c.now);
    }
  }

  /** A tick that releases leaves exactly the permanent rules. */
  lemma ReleaseExact(env: Env, s: EngineState, c: Command)
    requires Coherent(env, s) && Exec(env, s, c).1 == Ticked(true)
    ensures s.session.status == LOCKED
    ensures var end := Exec(env, s, c).0;
            end.config == s.config && end.session == NO_SESSION && end.rules == RulesOf(env, s.config, NO_SESSION)
  {
    assert c.Tick?;
    TickReleases(env, s, c.now);
  }

  lemma TickReleases(env: Env, s: EngineState, now: int)
    requires Coherent(env, s) && TickedTo(env, s, now).1 == Ticked(true)
    ensures s.session.status == LOCKED
    ensures TickedTo(env, s, now).0 ==
            EngineState(s.config, NO_SESSION, RulesOf(env, s.config, NO_SESSION), Some(PersistentData(s.config, NO_SESSION)))
  {
  }

  lemma StartExact(env: Env, s: EngineState, c: Command)
    requires Starts(env, s, c)
    ensures Exec(env, s, c).0.config == s.config && Locked(Exec(env, s, c).0.session)
  {
  }

  lemma {:induction false} RunSinceLock(env: Env, locked: EngineState, s: EngineState, cs: seq<Command>)
    requires Coherent(env, locked) && Locked(locked.session) && Ordered(locked)
    requires SinceLock(locked, s) && Coherent(env, s) && NoneStarts(env, s, cs)
    requires forall i :: 0 <= i < |cs| ==> Forward(cs[i])
    ensures SinceLock(locked, Run(env, s, cs))
    decreases |cs|
  {
    if cs != [] {
      ExecSinceLock(env, locked, s, cs[0]);
      ExecKeepsCoherence(env, s, cs[0]);
      RunSinceLock(env, locked, Exec(env, s, cs[0]).0, cs[1..]);
    }
  }

  /** Restoration: a session is started in `s`; any run follows in which no other session starts; a
      tick then releases the session. The configuration is the one from before the start, and every
      name is decided by exactly the permanent rules of that time. */
  lemma TickRestoresPolicy(env: Env, s: EngineState, start: Command, cs: seq<Command>, now: int)
    requires Coherent(env, s) && Ordered(s) && Starts(env, s, start) && Forward(start)
    requires forall i :: 0 <= i < |cs| ==> Forward(cs[i])
    requires NoneStarts(env, Exec(env, s, start).0, cs)
    requires Exec(env, Run(env, Exec(env, s, start).0, cs), Tick(now)).1 == Ticked(true)
    ensures var end := Exec(env, Run(env, Exec(env, s, start).0, cs), Tick(now)).0;
            && end.config == s.config && end.session == NO_SESSION
            && end.rules == RulesOf(env, s.config, NO_SESSION)
            && forall q :: Decision(end.rules, q) == Decision(RulesOf(env, s.config, NO_SESSION), q)
  {
    var locked := Exec(env, s, start).0;
    ExecKeepsCoherence(env, s, start);
    ExecKeepsOrder(env, s, start);
    StartExact(env, s, start);
    RunSinceLock(env, locked, locked, cs);
    RunKeepsCoherence(env, locked, cs);
    ReleaseExact(env, Run(env, locked, cs), Tick(now));
  }

  // ---------------------------------------------------------------- names of an active session

  lemma CoherentEnforces(env: Env, s: EngineState)
    requires Coherent(env, s) && !s.config.allowlistMode
    ensures Enforces(env.idna, s.rules, ActiveDomains(env, s.config, s.disk.value.session))
  {
  }

  /** While a session is locked, every name of a service it covers is blocked. */
  lemma SessionServiceIsBlocked(env: Env, s: EngineState, id: string, query: string)
    requires Coherent(env, s) && s.session.status == LOCKED && !s.config.allowlistMode
    requires Sound(env.catalog) && id in s.session.services && GetService(env.catalog, id).Some?
    requires Tidy(query) && !Essential(Clean(query)) && MatchesService(GetService(env.catalog, id).value, Trim(query))
    ensures Decision(s.rules, query).0
  {
    SessionCoversService(env, s.config, s.session, id);
    CoherentEnforces(env, s);
    ServiceIsBlocked(env.idna, env.catalog, s.rules, ActiveDomains(env, s.config, s.session), id, query);
  }

  lemma SessionCoversService(env: Env, config: AppConfig, session: SessionState, id: string)
    requires session.status == LOCKED && id in session.services
    ensures DomainsOfServices(env.catalog, {id}) <= ActiveDomains(env, config, session)
  {
    assert DomainsOfServices(env.catalog, {id}) <= DomainsOfServices(env.catalog, session.services);
  }

  // ---------------------------------------------------------------- rules are ASCII

  ghost predicate AsciiConfig(config: AppConfig) {
    AsciiDomains(SetOf(config.permanentDomains))
  }

  /** Every domain the engine holds, in memory or on disk, is ASCII. */
  ghost predicate AsciiState(s: EngineState) {
    && AsciiConfig(s.config) && AsciiDomains(s.session.domains)
    && (s.disk.Some? ==> AsciiConfig(s.disk.value.config) && AsciiDomains(s.disk.value.session.domains))
  }

  lemma ServiceDomainsAreAscii(catalog: Catalog, ids: set<string>)
    requires Sound(catalog)
    ensures AsciiDomains(DomainsOfServices(catalog, ids))
  {
    forall id | id in ids && GetService(catalog, id).Some?
      ensures AsciiDomains(GetService(catalog, id).value.AllDomains())
    {
      ServiceIsSound(catalog, id);
    }
  }

  lemma CompanionsAreAscii(catalog: Catalog, d: string)
    requires Sound(catalog)
    ensures AsciiDomains(SetOf(Companions(catalog, d)))
  {
    OrdinaryIsAscii(SetOf(Companions(catalog, d)));
  }

  lemma {:induction false} CustomDomainsAreAscii(env: Env, domains: seq<string>, companions: bool)
    requires Sound(env.catalog)
    ensures AsciiDomains(CustomDomains(env, domains, companions))
  {
    if domains != [] {
      var n := |domains| - 1;
      CustomDomainsAreAscii(env, domains[..n], companions);
      var d := Normalized(env.idna, domains[n]);
      if d.Some? {
        NormalizedIsAscii(env.idna, domains[n]);
        CompanionsAreAscii(env.catalog, d.value);
      }
    }
  }

  lemma NormalizedIsAscii(idna: Idna, input: string)
    requires Normalized(idna, input).Some?
    ensures IsAscii(Normalized(idna, input).value)
  {
    NormalizedIsValid(idna, input);
    ValidDomainShape(Normalized(idna, input).value);
  }

  lemma CustomServiceDomainsAreAscii(catalog: Catalog, services: seq<string>)
    requires Sound(catalog)
    ensures AsciiDomains(CustomServiceDomains(catalog, services))
  {
    forall i | 0 <= i < |services| && GetService(catalog, services[i]).Some?
      ensures AsciiDomains(GetService(catalog, services[i]).value.AllDomains())
    {
      ServiceIsSound(catalog, services[i]);
    }
  }

  lemma ScopeIsAscii(env: Env, config: AppConfig, request: StartRequest)
    requires Sound(env.catalog) && AsciiConfig(config)
    ensures AsciiDomains(SessionScope(env, config, request).0)
  {
    ServiceDomainsAreAscii(env.catalog, SetOf(config.permanentServices));
    CustomServiceDomainsAreAscii(env.catalog, request.services);
    CustomDomainsAreAscii(env, request.domains, request.includeCompanions);
  }

  lemma AddKeepsAscii(env: Env, s: EngineState, input: string, companions: bool)
    requires Sound(env.catalog) && AsciiState(s)
    ensures AsciiState(AddDomainTo(env, s, input, companions).0)
  {
    var d := Normalized(env.idna, input);
    if d.Some? {
      NormalizedIsAscii(env.idna, input);
      CompanionsAreAscii(env.catalog, d.value);
      AppendedAreIn(s.config.permanentDomains, [d.value] + if companions then Companions(env.catalog, d.value) else []);
    }
  }

  lemma {:induction false} RemovedAreIn(list: seq<string>, item: string)
    ensures forall x :: x in RemoveFirst(list, item) ==> x in list
  {
    if list != [] {
      RemovedAreIn(list[1..], item);
    }
  }

  lemma RemoveKeepsAscii(env: Env, s: EngineState, input: string)
    requires AsciiState(s)
    ensures AsciiState(RemoveDomainFrom(env, s, input).0)
  {
    var d := Normalized(env.idna, input);
    if d.Some? {
      RemovedAreIn(s.config.permanentDomains, d.value);
    }
  }

  lemma StartKeepsAscii(env: Env, s: EngineState, request: StartRequest, r: StartReadings)
    requires Sound(env.catalog) && AsciiState(s)
    ensures AsciiState(Started(env, s, request, r).0)
  {
    ScopeIsAscii(env, s.config, request);
  }

  lemma BootKeepsAscii(env: Env, disk: Option<PersistentData>, now: int)
    requires disk.Some? ==> AsciiConfig(disk.value.config) && AsciiDomains(disk.value.session.domains)
    ensures AsciiState(Boot(env, disk, now))
  {
  }

  lemma GuardKeepsAscii(s: EngineState, first: int, second: int)
    requires AsciiState(s)
    ensures AsciiState(Guard(s, first, second).0)
  {
  }

  lemma ApplyKeepsAscii(env: Env, s: EngineState, c: Command)
    requires Sound(env.catalog) && AsciiState(s) && IsGuarded(c)
    ensures AsciiState(Apply(env, s, c).0)
  {
    match c
    case AddDomain(input, companions, _, _) => AddKeepsAscii(env, s, input, companions);
    case RemoveDomain(input, _, _) => RemoveKeepsAscii(env, s, input);
    case _ =>
  }

  lemma ExecKeepsAscii(env: Env, s: EngineState, c: Command)
    requires Sound(env.catalog) && AsciiState(s)
    ensures AsciiState(Exec(env, s, c).0)
  {
    if IsGuarded(c) {
      GuardKeepsAscii(s, c.first, c.second);
      ApplyKeepsAscii(env, Guard(s, c.first, c.second).0, c);
    } else {
      match c
      case StartFocus(request, readings) => StartKeepsAscii(env, s, request, readings);
      case Tick(_) =>
      case Restart(now) => BootKeepsAscii(env, s.disk, now);
    }
  }

  /** Whatever is typed, only ASCII rules are ever held: the normalizer lets nothing else through. */
  lemma {:induction false} RunKeepsAscii(env: Env, s: EngineState, cs: seq<Command>)
    requires Sound(env.catalog) && AsciiState(s)
    ensures AsciiState(Run(env, s, cs))
    decreases |cs|
  {
    if cs != [] {
      ExecKeepsAscii(env, s, cs[0]);
      RunKeepsAscii(env, Exec(env, s, cs[0]).0, cs[1..]);
    }
  }

  lemma {:induction false} EndpointsAreAscii(providers: seq<Provider>)
    requires SoundProviders(providers)
    ensures AsciiDomains(AllEndpoints(providers))
  {
    forall p, e | p in providers && e in p.endpoints
      ensures IsAscii(e)
    {
      assert SoundProvider(p);
      if Ordinary(e) {
        ValidDomainShape(e);
      }
    }
  }

  lemma ActiveDomainsAreAscii(env: Env, config: AppConfig, session: SessionState)
    requires Sound(env.catalog) && AsciiConfig(config) && AsciiDomains(session.domains)
    ensures AsciiDomains(ActiveDomains(env, config, session))
  {
    ServiceDomainsAreAscii(env.catalog, SetOf(config.permanentServices));
    ServiceDomainsAreAscii(env.catalog, session.services);
    EndpointsAreAscii(env.catalog.vpnProviders);
    EndpointsAreAscii(env.catalog.dohProviders);
  }

  /** The engine enforces what its classifier names: a VPN or DoH name whose class is switched on is
      blocked exactly if its last label is not a number. */
  lemma ClassifiedIsEnforced(env: Env, s: EngineState, query: string)
    requires Coherent(env, s) && !s.config.allowlistMode
    requires Sound(env.catalog) && AsciiState(s)
    requires Tidy(query) && !Essential(Clean(query))
    requires IdentifyBypassAttempt(env.catalog, query).Some?
    requires if IdentifyBypassAttempt(env.catalog, query).value.0.DohBypass? then s.config.blockDoh else s.config.blockVpns
    ensures Decision(s.rules, query).0 <==> !NumericName(Clean(query))
  {
    var active := ActiveDomains(env, s.config, s.disk.value.session);
    CoherentEnforces(env, s);
    ActiveDomainsAreAscii(env, s.config, s.disk.value.session);
    ClassifiedIsBlocked(env.idna, env.catalog, s.rules, active, query);
  }

  /** The switches of the configuration, which no command touches. */
  ghost predicate SameSwitches(a: AppConfig, b: AppConfig) {
    a.allowlistMode == b.allowlistMode && a.blockDoh == b.blockDoh && a.blockVpns == b.blockVpns
  }

  lemma ApplyKeepsSwitches(env: Env, s: EngineState, c: Command)
    requires IsGuarded(c)
    ensures SameSwitches(s.config, Apply(env, s, c).0.config)
  {
  }

  lemma ExecKeepsSwitches(env: Env, s: EngineState, c: Command)
    requires Coherent(env, s)
    ensures SameSwitches(s.config, Exec(env, s, c).0.config)
  {
    if IsGuarded(c) {
      ApplyKeepsSwitches(env, Guard(s, c.first, c.second).0, c);
    }
  }

  lemma {:induction false} RunKeepsSwitches(env: Env, s: EngineState, cs: seq<Command>)
    requires Coherent(env, s)
    ensures SameSwitches(s.config, Run(env, s, cs).config)
    decreases |cs|
  {
    if cs != [] {
      ExecKeepsSwitches(env, s, cs[0]);
      ExecKeepsCoherence(env, s, cs[0]);
      RunKeepsSwitches(env, Exec(env, s, cs[0]).0, cs[1..]);
    }
  }

  /** In every state that a new installation can reach, every tidy, non-essential name that the
      classifier attributes to a provider is blocked exactly if its last label is not a number. */
  lemma ClassifiedIsAlwaysEnforced(env: Env, now: int, cs: seq<Command>, query: string)
    requires Sound(env.catalog) && Tidy(query) && !Essential(Clean(query))
    requires IdentifyBypassAttempt(env.catalog, query).Some?
    ensures Decision(Run(env, Boot(env, None, now), cs).rules, query).0 <==> !NumericName(Clean(query))
  {
    var first := Boot(env, None, now);
    BootIsCoherent(env, None, now);
    BootKeepsAscii(env, None, now);
    RunKeepsCoherence(env, first, cs);
    RunKeepsAscii(env, first, cs);
    RunKeepsSwitches(env, first, cs);
    ClassifiedIsEnforced(env, Run(env, first, cs), query);
  }

  /** And every tidy, non-essential name that matches a service of the locked session is blocked. */
  lemma SessionServiceIsAlwaysBlocked(env: Env, now: int, cs: seq<Command>, id: string, query: string)
    requires Sound(env.catalog) && GetService(env.catalog, id).Some?
    requires var s := Run(env, Boot(env, None, now), cs); s.session.status == LOCKED && id in s.session.services
    requires Tidy(query) && !Essential(Clean(query)) && MatchesService(GetService(env.catalog, id).value, Trim(query))
    ensures Decision(Run(env, Boot(env, None, now), cs).rules, query).0
  {
    var first := Boot(env, None, now);
    BootIsCoherent(env, None, now);
    RunKeepsCoherence(env, first, cs);
    RunKeepsSwitches(env, first, cs);
    SessionServiceIsBlocked(env, Run(env, first, cs), id, query);
  }

  // ---------------------------------------------------------------- what the commands achieve

  lemma {:induction false} AppendedAreIn(list: seq<string>, items: seq<string>)
    ensures forall x :: x in AppendNew(list, items) <==> x in list || x in items
    decreases |items|
  {
    if items != [] {
      AppendedAreIn(if items[0] in list then list else list + [items[0]], items[1..]);
    }
  }

  function Without(items: seq<string>, item: string): seq<string> {
    if items == [] then []
    else (if items[0] == item then [] else [items[0]]) + Without(items[1..], item)
  }

  lemma {:induction false} RemoveFromFirst(a: seq<string>, b: seq<string>, item: string)
    requires item in a
    ensures RemoveFirst(a + b, item) == RemoveFirst(a, item) + b
  {
    assert (a + b)[1..] == a[1..] + b;
    if a[0] != item {
      RemoveFromFirst(a[1..], b, item);
    }
  }

  lemma {:induction false} RemoveFromSecond(a: seq<string>, b: seq<string>, item: string)
    requires item !in a
    ensures RemoveFirst(a + b, item) == a + RemoveFirst(b, item)
  {
    if a == [] {
      assert a + b == b;
    } else {
      assert (a + b)[1..] == a[1..] + b;
      RemoveFromSecond(a[1..], b, item);
    }
  }

  lemma {:induction false} RemoveMissing(list: seq<string>, item: string)
    requires item !in list
    ensures RemoveFirst(list, item) == list
  {
    if list != [] {
      RemoveMissing(list[1..], item);
    }
  }

  lemma {:induction false} RemovedButOne(list: seq<string>, item: string)
    ensures forall x :: x != item ==> (x in RemoveFirst(list, item) <==> x in list)
  {
    if list != [] {
      RemovedButOne(list[1..], item);
    }
  }

  /** Once an item is in a list, removing it after appending others is appending the others to the list
      without it. */
  lemma {:induction false} RemoveAfterAppend(list: seq<string>, item: string, items: seq<string>)
    requires item in list
    ensures RemoveFirst(AppendNew(list, items), item) == AppendNew(RemoveFirst(list, item), Without(items, item))
    decreases |items|
  {
    if items != [] {
      var x := items[0];
      var next := if x in list then list else list + [x];
      RemoveAfterAppend(next, item, items[1..]);
      if x != item {
        RemovedButOne(list, item);
        RemoveFromFirst(list, [x], item);
        assert Without(items, item)[1..] == Without(items[1..], item);
      } else {
        assert Without(items, item) == Without(items[1..], item);
      }
    }
  }

  /** The decision of a coherent engine in blocklist mode, told by its lists and tables. */
  lemma CoherentDecision(env: Env, s: EngineState, query: string)
    requires Coherent(env, s) && !s.config.allowlistMode
    ensures Decision(s.rules, query).0 <==>
              Clean(query) != [] && !Essential(Clean(query))
              && Lists(env.idna, Bootstrap(s.config.blockDoh) + ActiveDomains(env, s.config, s.disk.value.session), Clean(query))
  {
    BlocklistIsScan(env.idna, s.rules, ActiveDomains(env, s.config, s.disk.value.session), query);
  }

  /** After a domain has been added, every name under it is blocked, unless it is essential. What was
      added is normalized again on its way into the sinkhole: a newline at its end is lost, and a domain
      that is a number without it is not enforced at all. */
  lemma AddedDomainIsBlocked(env: Env, s: EngineState, c: Command, query: string)
    requires Coherent(env, s) && !s.config.allowlistMode
    requires c.AddDomain? && Exec(env, s, c).1 == Done
    requires var d := Clean(Normalized(env.idna, c.input).value); Under(Clean(query), d, '.') && !NumericName(d)
    requires Clean(query) != [] && !Essential(Clean(query))
    ensures Decision(Exec(env, s, c).0.rules, query).0
  {
    var s' := Exec(env, s, c).0;
    var d := Normalized(env.idna, c.input).value;
    ExecKeepsCoherence(env, s, c);
    AddedIsPermanent(env, s, c);
    CoherentDecision(env, s', query);
    NormalizedIsValid(env.idna, c.input);
    PermanentIsListed(env.idna, Bootstrap(s'.config.blockDoh) + ActiveDomains(env, s'.config, s'.disk.value.session), d, Clean(query));
  }

  lemma AddedIsPermanent(env: Env, s: EngineState, c: Command)
    requires c.AddDomain? && Exec(env, s, c).1 == Done
    ensures Normalized(env.idna, c.input).Some?
    ensures var s' := Exec(env, s, c).0;
            Normalized(env.idna, c.input).value in SetOf(s'.config.permanentDomains)
            && s'.config.allowlistMode == s.config.allowlistMode
  {
    var d := Normalized(env.idna, c.input).value;
    AppendedAreIn(s.config.permanentDomains, [d] + if c.includeCompanions then Companions(env.catalog, d) else []);
  }

  lemma PermanentIsListed(idna: Idna, domains: set<string>, d: string, name: string)
    requires d in domains && ValidDomain(d) && Under(name, Clean(d), '.') && !NumericName(Clean(d))
    ensures Lists(idna, domains, name)
  {
    NormalizedAgain(idna, d);
    CleanOfValid(d);
    CleanOfValid(Clean(d));
    assert Covers(idna, d, name);
  }

  /** Without a locked session the guard is no obstacle. */
  lemma UnlockedPasses(env: Env, s: EngineState, c: Command)
    requires IsGuarded(c) && s.session.status != LOCKED
    ensures Exec(env, s, c) == Apply(env, s, c)
  {
  }

  lemma AddDoes(env: Env, s: EngineState, input: string, companions: bool)
    requires Normalized(env.idna, input).Some?
    ensures var d := Normalized(env.idna, input).value;
            var items := [d] + if companions then Companions(env.catalog, d) else [];
            var s' := AddDomainTo(env, s, input, companions).0;
            s'.config == s.config.(permanentDomains := AppendNew(s.config.permanentDomains, items)) && s'.session == s.session
  {
  }

  lemma RemoveDoes(env: Env, s: EngineState, input: string)
    requires Normalized(env.idna, input).Some? && Normalized(env.idna, input).value in s.config.permanentDomains
    ensures var d := Normalized(env.idna, input).value;
            var (s', reply) := RemoveDomainFrom(env, s, input);
            && reply == Done && s'.session == s.session && s'.disk == Some(PersistentData(s'.config, s.session))
            && s'.config == s.config.(permanentDomains := RemoveFirst(s.config.permanentDomains, d))
  {
  }

  /** Removing a domain that has just been added, with or without its companions: the domain goes, and
      of its companions those that were not there before stay behind. */
  lemma RemoveAfterAdd(env: Env, s: EngineState, add: Command, remove: Command)
    requires Coherent(env, s) && add.AddDomain? && remove.RemoveDomain? && add.input == remove.input
    requires Normalized(env.idna, add.input).Some? && s.session.status != LOCKED
    ensures var d, list := Normalized(env.idna, add.input).value, s.config.permanentDomains;
            var companions := if add.includeCompanions then Companions(env.catalog, d) else [];
            var (end, reply) := Exec(env, Exec(env, s, add).0, remove);
            && reply == Done && end.session == s.session
            && end.config == s.config.(permanentDomains := AppendNew(RemoveFirst(list, d), Without(companions, d)))
            && end.rules == RulesOf(env, end.config, s.session)
  {
    var d, list := Normalized(env.idna, add.input).value, s.config.permanentDomains;
    var companions := if add.includeCompanions then Companions(env.catalog, d) else [];
    var s1 := AddDomainTo(env, s, add.input, add.includeCompanions).0;
    UnlockedPasses(env, s, add);
    AddDoes(env, s, add.input, add.includeCompanions);
    AddKeepsCoherence(env, s, add.input, add.includeCompanions);
    AppendedAreIn(list, [d] + companions);
    AppendThenRemove(list, d, companions);
    UnlockedPasses(env, s1, remove);
    RemoveDoes(env, s1, remove.input);
    RemoveKeepsCoherence(env, s1, remove.input);
  }

  lemma AppendThenRemove(list: seq<string>, d: string, companions: seq<string>)
    ensures RemoveFirst(AppendNew(list, [d] + companions), d) == AppendNew(RemoveFirst(list, d), Without(companions, d))
  {
    var next := if d in list then list else list + [d];
    assert ([d] + companions)[1..] == companions;
    RemoveAfterAppend(next, d, companions);
    if d !in list {
      RemoveFromSecond(list, [d], d);
      RemoveMissing(list, d);
      assert [d][1..] == [] && list + [] == list;
    }
  }

  lemma {:induction false} WithoutHolds(items: seq<string>, item: string)
    ensures forall x :: x in Without(items, item) <==> x in items && x != item
  {
    if items != [] {
      WithoutHolds(items[1..], item);
    }
  }

  lemma {:induction false} AppendedTail(list: seq<string>, items: seq<string>) returns (tail: seq<string>)
    ensures AppendNew(list, items) == list + tail
    ensures forall x :: x in tail ==> x in items
    ensures tail == [] <==> forall x :: x in items ==> x in list
    decreases |items|
  {
    if items == [] {
      tail := [];
    } else if items[0] in list {
      tail := AppendedTail(list, items[1..]);
    } else {
      var rest := AppendedTail(list + [items[0]], items[1..]);
      tail := [items[0]] + rest;
    }
  }

  lemma {:induction false} RemovedCount(list: seq<string>, item: string)
    requires item in list
    ensures multiset(RemoveFirst(list, item))[item] == multiset(list)[item] - 1
  {
    assert list == [list[0]] + list[1..];
    if list[0] != item {
      RemovedCount(list[1..], item);
      CountCons(list[0], RemoveFirst(list[1..], item), item);
    }
  }

  lemma CountCons(x: string, rest: seq<string>, item: string)
    ensures multiset([x] + rest)[item] == multiset(rest)[item] + if x == item then 1 else 0
  {
  }

  lemma AppendRestores(list: seq<string>, d: string, items: seq<string>)
    requires d !in items
    ensures AppendNew(RemoveFirst(list, d), items) == list <==> d !in list && forall x :: x in items ==> x in list
  {
    var tail := AppendedTail(RemoveFirst(list, d), items);
    if d in list {
      RemovedCount(list, d);
      assert multiset(RemoveFirst(list, d) + tail)[d] == multiset(list)[d] - 1;
    } else {
      RemoveMissing(list, d);
    }
  }

  /** Hence it undoes the addition exactly if the domain was new and its companions were not. */
  lemma RemoveUndoesAdd(env: Env, s: EngineState, add: Command, remove: Command)
    requires Coherent(env, s) && add.AddDomain? && remove.RemoveDomain? && add.input == remove.input
    requires Normalized(env.idna, add.input).Some? && s.session.status != LOCKED
    ensures var d, list := Normalized(env.idna, add.input).value, s.config.permanentDomains;
            var companions := if add.includeCompanions then Companions(env.catalog, d) else [];
            var end := Exec(env, Exec(env, s, add).0, remove).0;
            && (end.config == s.config <==> d !in list && forall x :: x in companions && x != d ==> x in list)
            && (end.config == s.config ==> end.rules == RulesOf(env, s.config, s.session))
  {
    var d, list := Normalized(env.idna, add.input).value, s.config.permanentDomains;
    var companions := if add.includeCompanions then Companions(env.catalog, d) else [];
    RemoveAfterAdd(env, s, add, remove);
    WithoutHolds(companions, d);
    AppendRestores(list, d, Without(companions, d));
  }
}

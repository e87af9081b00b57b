// The engine as objects: session manager, sinkhole and state file, updated in place by each command.
module PolicyEngine {
  import opened Wrappers
  import opened Text
  import opened Normalizer
  import opened Sinkhole
  import opened Bypass
  import opened TimeGuard
  import opened Session
  import opened Policy

  /** The state file: one value, replaced atomically. */
  class StateManager {
    var disk: Option<PersistentData>

    constructor (disk: Option<PersistentData>)
      ensures this.disk == disk
    {
      this.disk := disk;
    }

    method Save(data: PersistentData)
      modifies this
      ensures disk == Some(data)
    {
      disk := Some(data);
    }

    method Load() returns (data: PersistentData)
      modifies this
      ensures data == if old(disk).Some? then old(disk).value else DEFAULT_DATA
      ensures disk == Some(data)
    {
      if disk.None? {
        Save(DEFAULT_DATA);
        return DEFAULT_DATA;
      }
      return disk.value;
    }
  }

  class PolicyEngine {
    const env: Env
    const sinkhole: DomainSinkhole
    const stateManager: StateManager
    const sessionMgr: SessionManager
    var config: AppConfig

    ghost predicate Valid()
      reads this
    {
      sinkhole.idna == env.idna
    }

    ghost function State(): EngineState
      reads this, sinkhole, stateManager, sessionMgr
    {
      EngineState(config, sessionMgr.state, sinkhole.Rules(), stateManager.disk)
    }

    /** Start-up, and recovery of a session that was locked when the state was saved. A state file
        whose locked session has no timestamps makes start-up fail; no engine writes one. */
    constructor (env: Env, sinkhole: DomainSinkhole, stateManager: StateManager, now: int)
      requires sinkhole.idna == env.idna
      requires stateManager.disk.Some? ==> Stamped(stateManager.disk.value.session)
      modifies sinkhole, stateManager
      ensures Valid() && fresh(sessionMgr)
      ensures this.env == env && this.sinkhole == sinkhole && this.stateManager == stateManager
      ensures State() == Boot(env, old(stateManager.disk), now)
    {
      var data := stateManager.Load();
      var manager := new SessionManager(data.session);
      this.env, this.sinkhole, this.stateManager, sessionMgr := env, sinkhole, stateManager, manager;
      config := data.config;
      new;
      ConfigureSinkhole();
      RecoverSession(now);
      RefreshSinkhole();
    }

    method ConfigureSinkhole()
      requires Valid()
      modifies sinkhole
      ensures State() == old(State()).(rules := RuleSet(config.blockDoh, config.allowlistMode,
                           old(sinkhole.blockedTrees), AllowedKeys(env.idna, SetOf(config.allowedDomains))))
    {
      sinkhole.blockDoh := config.blockDoh;
      sinkhole.allowlistMode := config.allowlistMode;
      sinkhole.SetAllowedDomains(SetOf(config.allowedDomains));
    }

    /** Is there an unexpired locked session? If it has expired since, it is released and saved. */
    method RecoverSession(now: int)
      requires Stamped(sessionMgr.state)
      modifies sessionMgr, stateManager
      ensures State() ==
              if Checked(old(sessionMgr.state), now).1 == Success(true) then Save(old(State()).(session := NO_SESSION))
              else old(State())
    {
      if sessionMgr.state.status == LOCKED {
        var expired := sessionMgr.CheckExpiration(now);
        if expired == Success(true) {
          sessionMgr.ReleaseExpired();
          SaveState();
        }
      }
    }

    method ActiveBlockedDomains() returns (domains: set<string>)
      ensures domains == ActiveDomains(env, config, sessionMgr.state)
    {
      domains := SetOf(config.permanentDomains);
      var ofServices := GetAllDomainsForServices(env.catalog, SetOf(config.permanentServices));
      domains := domains + ofServices;
      if config.blockVpns {
        var vpn := GetAllDomains(env.catalog.vpnProviders);
        domains := domains + vpn;
      }
      if config.blockDoh {
        var doh := GetAllDomains(env.catalog.dohProviders);
        domains := domains + doh;
      }
      if sessionMgr.state.status == LOCKED {
        domains := domains + sessionMgr.state.domains;
        ofServices := GetAllDomainsForServices(env.catalog, sessionMgr.state.services);
        domains := domains + ofServices;
      }
    }

    method RefreshSinkhole()
      requires Valid()
      modifies sinkhole
      ensures State() == Refresh(env, old(State()))
    {
      var domains := ActiveBlockedDomains();
      sinkhole.SetBlockedDomains(domains);
    }

    method SaveState()
      modifies stateManager
      ensures State() == Save(old(State()))
    {
      stateManager.Save(PersistentData(config, sessionMgr.state));
    }

    method RefreshAndSave()
      requires Valid()
      modifies sinkhole, stateManager
      ensures State() == Save(Refresh(env, old(State())))
    {
      RefreshSinkhole();
      SaveState();
    }

    /** Raises while a session is locked. */
    method AssertNotLocked(first: int, second: int) returns (e: Option<SessionError>)
      modifies sessionMgr
      ensures (State(), e) == Guard(old(State()), first, second)
    {
      e := sessionMgr.AssertNotLocked(first, second);
    }

    method AddPermanentDomain(input: string, includeCompanions: bool, first: int, second: int) returns (reply: Reply)
      requires Valid()
      modifies this, sinkhole, stateManager, sessionMgr
      ensures Valid() && (State(), reply) == Exec(env, old(State()), AddDomain(input, includeCompanions, first, second))
    {
      var e := AssertNotLocked(first, second);
      if e.Some? {
        return Refused(e.value);
      }
      var normalized := NormalizeDomain(env.idna, input);
      if normalized.None? {
        return ValueError;
      }
      var domains := AppendMissing(config.permanentDomains,
        [normalized.value] + if includeCompanions then Companions(env.catalog, normalized.value) else []);
      config := config.(permanentDomains := domains);
      RefreshAndSave();
      return Done;
    }

    static method AppendMissing(list: seq<string>, items: seq<string>) returns (r: seq<string>)
      ensures r == AppendNew(list, items)
    {
      r := list;
      for i := 0 to |items|
        invariant AppendNew(list, items) == AppendNew(r, items[i..])
      {
        if items[i] !in r {
          r := r + [items[i]];
        }
      }
    }

    method RemovePermanentDomain(input: string, first: int, second: int) returns (reply: Reply)
      requires Valid()
      modifies this, sinkhole, stateManager, sessionMgr
      ensures Valid() && (State(), reply) == Exec(env, old(State()), RemoveDomain(input, first, second))
    {
      var e := AssertNotLocked(first, second);
      if e.Some? {
        return Refused(e.value);
      }
      var normalized := NormalizeDomain(env.idna, input);
      if normalized.None? || normalized.value !in config.permanentDomains {
        return ValueError;
      }
      config := config.(permanentDomains := RemoveFirst(config.permanentDomains, normalized.value));
      RefreshAndSave();
      return Done;
    }

    method BlockPermanentService(serviceId: string, first: int, second: int) returns (reply: Reply)
      requires Valid()
      modifies this, sinkhole, stateManager, sessionMgr
      ensures Valid() && (State(), reply) == Exec(env, old(State()), BlockService(serviceId, first, second))
    {
      var e := AssertNotLocked(first, second);
      if e.Some? {
        return Refused(e.value);
      }
      var svc := GetService(env.catalog, serviceId);
      if svc.None? {
        return ValueError;
      }
      if svc.value.id !in config.permanentServices {
        config := config.(permanentServices := config.permanentServices + [svc.value.id]);
        RefreshAndSave();
      }
      return Done;
    }

    method UnblockPermanentService(serviceId: string, first: int, second: int) returns (reply: Reply)
      requires Valid()
      modifies this, sinkhole, stateManager, sessionMgr
      ensures Valid() && (State(), reply) == Exec(env, old(State()), UnblockService(serviceId, first, second))
    {
      var e := AssertNotLocked(first, second);
      if e.Some? {
        return Refused(e.value);
      }
      var svc := GetService(env.catalog, serviceId);
      if svc.None? || svc.value.id !in config.permanentServices {
        return ValueError;
      }
      config := config.(permanentServices := RemoveFirst(config.permanentServices, svc.value.id));
      RefreshAndSave();
      return Done;
    }

    method ScopeOfServices(requested: seq<string>) returns (domains: set<string>, services: set<string>)
      ensures services == CustomServices(env.catalog, requested)
      ensures domains == CustomServiceDomains(env.catalog, requested)
    {
      domains, services := {}, {};
      for i := 0 to |requested|
        invariant services == CustomServices(env.catalog, requested[..i])
        invariant domains == CustomServiceDomains(env.catalog, requested[..i])
      {
        var svc := GetService(env.catalog, requested[i]);
        ScopeOfOneMore(env.catalog, requested, i);
        if svc.Some? {
          services := services + {svc.value.id};
          domains := domains + svc.value.AllDomains();
        }
      }
      assert requested[..|requested|] == requested;
    }

    method ScopeOfDomains(requested: seq<string>, includeCompanions: bool) returns (domains: set<string>)
      ensures domains == CustomDomains(env, requested, includeCompanions)
    {
      domains := {};
      for i := 0 to |requested|
        invariant domains == CustomDomains(env, requested[..i], includeCompanions)
      {
        var norm := NormalizeDomain(env.idna, requested[i]);
        assert requested[..i + 1][..i] == requested[..i];
        if norm.Some? {
          domains := domains + {norm.value};
          if includeCompanions {
            domains := domains + SetOf(Companions(env.catalog, norm.value));
          }
        }
      }
      assert requested[..|requested|] == requested;
    }

    /** Domains and services of the requested session. */
    method Scope(request: StartRequest) returns (domains: set<string>, services: set<string>)
      ensures domains == SessionScope(env, config, request).0
      ensures services == SessionScope(env, config, request).1
    {
      domains, services := ScopeOfServices(request.services);
      var custom := ScopeOfDomains(request.domains, request.includeCompanions);
      domains := domains + custom;
      if request.domains == [] && request.services == [] {
        assert domains == {} && services == {};
        var ofPermanent := GetAllDomainsForServices(env.catalog, SetOf(config.permanentServices));
        domains := domains + SetOf(config.permanentDomains) + ofPermanent;
        services := services + SetOf(config.permanentServices);
      }
    }

    method StartFocusSession(request: StartRequest, r: StartReadings) returns (reply: Reply)
      requires Valid()
      modifies this, sinkhole, stateManager, sessionMgr
      ensures Valid() && (State(), reply) == Exec(env, old(State()), StartFocus(request, r))
    {
      var expiry := ExpiryOf(request, r);
      if expiry.None? {
        return ValueError;
      }
      var domains, services := Scope(request);
      if domains == {} {
        return ValueError;
      }
      var e := sessionMgr.StartSession(NewSession(expiry.value, r, domains, services), r.now);
      if e.Some? {
        return Refused(e.value);
      }
      RefreshAndSave();
      return Done;
    }

    method StopFocusSession(first: int, second: int) returns (reply: Reply)
      modifies sessionMgr
      ensures (State(), reply) == Exec(env, old(State()), StopFocus(first, second))
    {
      var e := AssertNotLocked(first, second);
      return if e.Some? then Refused(e.value) else Done;
    }

    /** The only part of disabling the gateway that concerns the session is its guard. */
    method GuardGateway(first: int, second: int) returns (reply: Reply)
      modifies sessionMgr
      ensures (State(), reply) == Exec(env, old(State()), DisableGateway(first, second))
    {
      var e := AssertNotLocked(first, second);
      return if e.Some? then Refused(e.value) else Done;
    }

    method TickOnce(now: int) returns (reply: Reply)
      requires Valid()
      modifies this, sinkhole, stateManager, sessionMgr
      ensures Valid() && (State(), reply) == Exec(env, old(State()), Tick(now))
    {
      var expired := sessionMgr.CheckExpiration(now);
      if expired.Failure? {
        return Refused(expired.error);
      }
      if expired.value {
        sessionMgr.ReleaseExpired();
        RefreshAndSave();
        return Ticked(true);
      }
      return Ticked(false);
    }
  }

  lemma ScopeOfOneMore(catalog: Catalog, services: seq<string>, i: nat)
    requires i < |services|
    ensures var svc := GetService(catalog, services[i]);
            && CustomServices(catalog, services[..i + 1]) ==
                 CustomServices(catalog, services[..i]) + (if svc.Some? then {svc.value.id} else {})
            && CustomServiceDomains(catalog, services[..i + 1]) ==
                 CustomServiceDomains(catalog, services[..i]) + (if svc.Some? then svc.value.AllDomains() else {})
  {
    assert services[..i + 1] == services[..i] + [services[i]];
  }

  /** The IPC dispatcher's mutating actions; ticks come from the daemon. */
  method HandleRequest(engine: PolicyEngine, action: Command) returns (reply: Reply)
    requires engine.Valid() && !action.Restart?
    modifies engine, engine.sinkhole, engine.stateManager, engine.sessionMgr
    ensures engine.Valid() && (engine.State(), reply) == Exec(engine.env, old(engine.State()), action)
  {
    match action {
      case AddDomain(domain, companions, first, second) =>
        reply := engine.AddPermanentDomain(domain, companions, first, second);
      case RemoveDomain(domain, first, second) =>
        reply := engine.RemovePermanentDomain(domain, first, second);
      case BlockService(service, first, second) =>
        reply := engine.BlockPermanentService(service, first, second);
      case UnblockService(service, first, second) =>
        reply := engine.UnblockPermanentService(service, first, second);
      case StartFocus(request, readings) =>
        reply := engine.StartFocusSession(request, readings);
      case StopFocus(first, second) =>
        reply := engine.StopFocusSession(first, second);
      case DisableGateway(first, second) =>
        reply := engine.GuardGateway(first, second);
      case Tick(now) =>
        reply := engine.TickOnce(now);
    }
  }
}

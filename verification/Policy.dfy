// The policy engine: permanent rules, the focus session, the sinkhole and the state on disk, kept
// together by every command.
module Policy {
  import opened Wrappers
  import opened Text
  import opened Sequences
  import opened Normalizer
  import opened Sinkhole
  import opened Bypass
  import opened TimeGuard
  import opened Session

  datatype AppConfig = AppConfig(
    permanentDomains: seq<string>,
    permanentServices: seq<string>,
    allowedDomains: seq<string>,
    allowlistMode: bool,
    blockDoh: bool,
    blockVpns: bool,
    dnsPort: int,
    upstreams: seq<(string, int)>)

  const DEFAULT_CONFIG :=
    AppConfig([], [], [], false, true, true, 53, [("1.1.1.1", 53), ("9.9.9.9", 53), ("1.0.0.1", 53)])

  /** What a state file holds. */
  datatype PersistentData = PersistentData(config: AppConfig, session: SessionState)

  const DEFAULT_DATA := PersistentData(DEFAULT_CONFIG, NO_SESSION)

  /** The fixed surroundings of an engine: the IDNA encoder and the shipped tables. */
  datatype Env = Env(idna: Idna, catalog: Catalog)

  /** Everything the engine holds: in memory, in the sinkhole and on disk. */
  datatype EngineState = EngineState(config: AppConfig, session: SessionState, rules: RuleSet, disk: Option<PersistentData>)

  // ---------------------------------------------------------------- effective rules

  ghost function PermanentDomains(env: Env, config: AppConfig): set<string> {
    SetOf(config.permanentDomains)
      + DomainsOfServices(env.catalog, SetOf(config.permanentServices))
      + (if config.blockVpns then AllEndpoints(env.catalog.vpnProviders) else {})
      + (if config.blockDoh then AllEndpoints(env.catalog.dohProviders) else {})
  }

  ghost function SessionDomains(env: Env, session: SessionState): set<string> {
    if session.status == LOCKED then session.domains + DomainsOfServices(env.catalog, session.services) else {}
  }

  ghost function ActiveDomains(env: Env, config: AppConfig, session: SessionState): set<string> {
    PermanentDomains(env, config) + SessionDomains(env, session)
  }

  /** The sinkhole rules that a configuration and a session call for. */
  ghost function RulesOf(env: Env, config: AppConfig, session: SessionState): RuleSet {
    RuleSet(config.blockDoh, config.allowlistMode,
      BlockedKeys(env.idna, config.blockDoh, ActiveDomains(env, config, session)),
      AllowedKeys(env.idna, SetOf(config.allowedDomains)))
  }

  ghost function Refresh(env: Env, s: EngineState): EngineState {
    s.(rules := s.rules.(blocked := BlockedKeys(env.idna, s.rules.blockDoh, ActiveDomains(env, s.config, s.session))))
  }

  ghost function Save(s: EngineState): EngineState {
    s.(disk := Some(PersistentData(s.config, s.session)))
  }

  // ---------------------------------------------------------------- commands

  datatype StartRequest = StartRequest(
    duration: Option<string>,
    until: Option<string>,
    domains: seq<string>,
    services: seq<string>,
    includeCompanions: bool)

  /** What a start reads besides the request: the clock, the readings of an end time, fresh
      identifiers. */
  datatype StartReadings = StartReadings(now: int, until: UntilReadings, sessionId: string, bootId: string)

  /** One event in the life of an engine. Guarded commands read the clock twice. */
  datatype Command =
    | AddDomain(input: string, includeCompanions: bool, first: int, second: int)
    | RemoveDomain(input: string, first: int, second: int)
    | BlockService(serviceId: string, first: int, second: int)
    | UnblockService(serviceId: string, first: int, second: int)
    | StartFocus(request: StartRequest, readings: StartReadings)
    | StopFocus(first: int, second: int)
    | DisableGateway(first: int, second: int)
    | Tick(now: int)
    | Restart(now: int)

  datatype Reply = Done | Ticked(released: bool) | Refused(error: SessionError) | ValueError

  function AppendNew(list: seq<string>, items: seq<string>): seq<string>
    decreases |items|
  {
    if items == [] then list
    else AppendNew(if items[0] in list then list else list + [items[0]], items[1..])
  }

  /** `list.remove(item)`: the first occurrence goes. */
  function RemoveFirst(list: seq<string>, item: string): seq<string> {
    if list == [] then []
    else if list[0] == item then list[1..]
    else [list[0]] + RemoveFirst(list[1..], item)
  }

  function Companions(catalog: Catalog, domain: string): seq<string> {
    var canonical := if HasPrefix(Lower(domain), "www.") then Lower(domain)[4..] else Lower(domain);
    if canonical in catalog.companions then catalog.companions[canonical] else []
  }

  ghost function AddDomainTo(env: Env, s: EngineState, input: string, companions: bool): (EngineState, Reply) {
    match Normalized(env.idna, input)
    case None => (s, ValueError)
    case Some(d) =>
      var items := [d] + if companions then Companions(env.catalog, d) else [];
      var config := s.config.(permanentDomains := AppendNew(s.config.permanentDomains, items));
      (Save(Refresh(env, s.(config := config))), Done)
  }

  ghost function RemoveDomainFrom(env: Env, s: EngineState, input: string): (EngineState, Reply) {
    match Normalized(env.idna, input)
    case None => (s, ValueError)
    case Some(d) =>
      if d !in s.config.permanentDomains then (s, ValueError)
      else
        var config := s.config.(permanentDomains := RemoveFirst(s.config.permanentDomains, d));
        (Save(Refresh(env, s.(config := config))), Done)
  }

  ghost function BlockServiceIn(env: Env, s: EngineState, serviceId: string): (EngineState, Reply) {
    match GetService(env.catalog, serviceId)
    case None => (s, ValueError)
    case Some(svc) =>
      if svc.id in s.config.permanentServices then (s, Done)
      else
        var config := s.config.(permanentServices := s.config.permanentServices + [svc.id]);
        (Save(Refresh(env, s.(config := config))), Done)
  }

  ghost function UnblockServiceIn(env: Env, s: EngineState, serviceId: string): (EngineState, Reply) {
    match GetService(env.catalog, serviceId)
    case None => (s, ValueError)
    case Some(svc) =>
      if svc.id !in s.config.permanentServices then (s, ValueError)
      else
        var config := s.config.(permanentServices := RemoveFirst(s.config.permanentServices, svc.id));
        (Save(Refresh(env, s.(config := config))), Done)
  }

  /** `int((expires - now).total_seconds())`, which truncates towards zero. */
  function WholeSeconds(micros: int): int {
    if micros >= 0 then micros / SECOND else -(-micros / SECOND)
  }

  /** Expiry and duration of a start; an empty text counts as absent. */
  function ExpiryOf(request: StartRequest, r: StartReadings): Option<(int, int)> {
    if request.until.Some? && request.until.value != [] then
      match ParseUntil(request.until.value, r.now, r.until)
      case None => None
      case Some(expires) => Some((expires, WholeSeconds(expires - r.now)))
    else if request.duration.Some? && request.duration.value != [] then
      match ParseDuration(request.duration.value)
      case None => None
      case Some(seconds) => Some((r.now + seconds * SECOND, seconds))
    else None
  }

  ghost function CustomServices(catalog: Catalog, services: seq<string>): set<string> {
    set i | 0 <= i < |services| && GetService(catalog, services[i]).Some? :: GetService(catalog, services[i]).value.id
  }

  ghost function CustomServiceDomains(catalog: Catalog, services: seq<string>): set<string> {
    set i, d | 0 <= i < |services| && GetService(catalog, services[i]).Some?
               && d in GetService(catalog, services[i]).value.AllDomains() :: d
  }

  /** The custom domains that normalize, with their companions; the others are skipped. */
  ghost function CustomDomains(env: Env, domains: seq<string>, companions: bool): set<string> {
    if domains == [] then {}
    else
      var n := |domains| - 1;
      CustomDomains(env, domains[..n], companions) +
        match Normalized(env.idna, domains[n])
        case None => {}
        case Some(d) => {d} + if companions then SetOf(Companions(env.catalog, d)) else {}
  }

  /** Domains and services of a new session. Without any of its own it takes the permanent ones. */
  ghost function SessionScope(env: Env, config: AppConfig, request: StartRequest): (set<string>, set<string>) {
    if request.domains == [] && request.services == [] then
      (SetOf(config.permanentDomains) + DomainsOfServices(env.catalog, SetOf(config.permanentServices)),
       SetOf(config.permanentServices))
    else
      (CustomServiceDomains(env.catalog, request.services) + CustomDomains(env, request.domains, request.includeCompanions),
       CustomServices(env.catalog, request.services))
  }

  function NewSession(expiry: (int, int), r: StartReadings, domains: set<string>, services: set<string>): SessionState {
    SessionState(LOCKED, Some(r.sessionId), Some(r.now), Some(expiry.0), expiry.1, domains, services, Some(r.bootId))
  }

  ghost function Started(env: Env, s: EngineState, request: StartRequest, r: StartReadings): (EngineState, Reply) {
    var expiry := ExpiryOf(request, r);
    var (domains, services) := SessionScope(env, s.config, request);
    if expiry.None? || domains == {} then (s, ValueError)
    else if Remaining(s.session, r.now) > 0 then
      (s, Refused(LockedSession(s.session.expiresAt.value, Remaining(s.session, r.now))))
    else
      (Save(Refresh(env, s.(session := NewSession(expiry.value, r, domains, services)))), Done)
  }

  ghost function TickedTo(env: Env, s: EngineState, now: int): (EngineState, Reply) {
    match Checked(s.session, now)
    case (_, Failure(e)) => (s, Refused(e))
    case (_, Success(released)) =>
      if released then (Save(Refresh(env, s.(session := NO_SESSION))), Ticked(true)) else (s, Ticked(false))
  }

  /** An engine started from a state file, at a time; a missing file is replaced by the defaults. */
  ghost function Boot(env: Env, disk: Option<PersistentData>, now: int): EngineState {
    var data := if disk.Some? then disk.value else DEFAULT_DATA;
    var released := Checked(data.session, now).1 == Success(true);
    var session := if released then NO_SESSION else data.session;
    EngineState(data.config, session, RulesOf(env, data.config, session), Some(PersistentData(data.config, session)))
  }

  ghost function Guard(s: EngineState, first: int, second: int): (EngineState, Option<SessionError>) {
    var (session, e) := Guarded(s.session, first, second);
    (s.(session := session), e)
  }

  /** The commands that pass the guard before they do anything. */
  predicate IsGuarded(c: Command) {
    !c.StartFocus? && !c.Tick? && !c.Restart?
  }

  /** What a guarded command does once the guard has let it pass. */
  ghost function Apply(env: Env, s: EngineState, c: Command): (r: (EngineState, Reply))
    requires IsGuarded(c)
    ensures r.1 == Done || r.1 == ValueError
  {
    match c
    case AddDomain(input, companions, _, _) => AddDomainTo(env, s, input, companions)
    case RemoveDomain(input, _, _) => RemoveDomainFrom(env, s, input)
    case BlockService(id, _, _) => BlockServiceIn(env, s, id)
    case UnblockService(id, _, _) => UnblockServiceIn(env, s, id)
    case StopFocus(_, _) => (s, Done)
    case DisableGateway(_, _) => (s, Done)
  }

  /** What a command does to the engine, and what it answers. */
  ghost function Exec(env: Env, s: EngineState, c: Command): (EngineState, Reply) {
    if IsGuarded(c) then
      var (g, e) := Guard(s, c.first, c.second);
      if e.Some? then (g, Refused(e.value)) else Apply(env, g, c)
    else
      match c
      case StartFocus(request, readings) => Started(env, s, request, readings)
      case Tick(now) => TickedTo(env, s, now)
      case Restart(now) => (Boot(env, s.disk, now), Done)
  }
}

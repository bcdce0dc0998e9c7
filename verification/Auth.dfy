/** Login in steps: initialise, log in as guest or through a plugin, select a unit (srs/auth_service.go). */
module Auth {
  import opened Basics
  import opened Settings
  import opened Registry
  import opened RadioService

  const INIT_LIFETIME: Time := 20 * MINUTE
  const LOGIN_LIFETIME: Time := 5 * MINUTE
  const SUPPORTED_VERSION: string := "0.1.0"

  datatype Mode = StandaloneMode | ControlMode | VoiceMode

  /** What a client says it supports. */
  datatype Feature = SupportsStandalone | SupportsDistributed

  datatype Unit = Unit(unitId: string, unitName: string)

  /** A client on its way through the login. Entries are replaced as a whole, never changed in place. */
  datatype AuthEntry = AuthEntry(name: string, secret: string, expires: Time, roles: seq<Role>, units: seq<Unit>)

  // ---- Requests, with the answers of everything outside: parsing, plugins, secrets, tokens ----

  datatype InitRequest = InitRequest(version: string, features: seq<Feature>, newGuid: Guid)

  datatype GuestRequest =
    GuestRequest(guid: Option<Guid>, name: string, passwordHash: string, unitId: string, tokenOk: bool)

  datatype PluginResult = PluginResult(playerName: string, roles: seq<nat>, units: seq<Unit>)

  datatype LoginRequest =
    LoginRequest(guid: Option<Guid>, plugin: string, answer: Option<PluginResult>, secret: Option<string>)

  datatype SelectRequest =
    SelectRequest(guid: Option<Guid>, secret: string, unitId: string, coalition: string, role: nat, tokenOk: bool)

  datatype InitResponse = VersionRejected | DistributionRejected | Initialized(guid: Guid)

  datatype GuestResponse =
    | GuestDisabled | GuestInvalidGuid | GuestUnknownGuid | InvalidUsername | NoCoalition | GuestInvalidUnit
    | GuestTokenFailed(coalition: string) | GuestAdmitted(coalition: string)

  datatype LoginResponse =
    | LoginDisabled | LoginInvalidGuid | LoginUnknownGuid | NoPlugin | PluginDenied | SecretFailed
    | Granted(secret: string, roles: seq<nat>, units: seq<Unit>, playerName: string)

  datatype SelectResponse =
    | SelectInvalidGuid | SelectUnknownGuid | WrongSecret | InvalidUnit | InvalidRole | InvalidCoalition
    | SelectTokenFailed | Selected

  // ---- The steps on values ----

  datatype Policy =
    Policy(coalitions: seq<Coalition>, enableGuestAuth: bool, enablePluginAuth: bool, plugins: set<string>, mode: Mode)

  datatype ControlState = ControlState(auth: map<Guid, AuthEntry>, registry: Registry)

  /** The sweep keeps exactly the entries that have not expired. */
  function Swept(auth: map<Guid, AuthEntry>, now: Time): map<Guid, AuthEntry> {
    map g | g in auth && now <= auth[g].expires :: auth[g]
  }

  function SweptControl(c: ControlState, now: Time): ControlState {
    c.(auth := Swept(c.auth, now))
  }

  predicate Supports(features: seq<Feature>, mode: Mode) {
    (mode == ControlMode && SupportsDistributed in features) ||
    (mode == StandaloneMode && SupportsStandalone in features)
  }

  function InitOutcome(p: Policy, r: InitRequest): InitResponse {
    if r.version != SUPPORTED_VERSION then VersionRejected
    else if !Supports(r.features, p.mode) then DistributionRejected
    else Initialized(r.newGuid)
  }

  function InitEntry(now: Time): AuthEntry {
    AuthEntry("", "", now + INIT_LIFETIME, [], [])
  }

  function InitStep(c: ControlState, p: Policy, r: InitRequest, now: Time): ControlState {
    var s := SweptControl(c, now);
    if InitOutcome(p, r).Initialized? then s.(auth := s.auth[r.newGuid := InitEntry(now)]) else s
  }

  /** The name of the first coalition with a password hash. */
  function MatchingCoalition(coalitions: seq<Coalition>, passwordHash: string): Option<string> {
    if coalitions == [] then None
    else if coalitions[0].passwordHash == passwordHash then Some(coalitions[0].name)
    else MatchingCoalition(coalitions[1..], passwordHash)
  }

  function GuestOutcome(auth: map<Guid, AuthEntry>, p: Policy, r: GuestRequest, now: Time): GuestResponse {
    if !p.enableGuestAuth then GuestDisabled
    else if r.guid == None then GuestInvalidGuid
    else if r.guid.value !in Swept(auth, now) then GuestUnknownGuid
    else if !CheckUsername(r.name) then InvalidUsername
    else match MatchingCoalition(p.coalitions, r.passwordHash)
      case None => NoCoalition
      case Some(coalition) =>
        if !CheckUnitId(r.unitId) then GuestInvalidUnit
        else if !r.tokenOk then GuestTokenFailed(coalition)
        else GuestAdmitted(coalition)
  }

  /** The client joins before the token is made, so a failing token still leaves it registered. */
  function GuestStep(c: ControlState, p: Policy, r: GuestRequest, now: Time): ControlState {
    if !p.enableGuestAuth then c
    else
      var s := SweptControl(c, now);
      match GuestOutcome(c.auth, p, r, now)
      case GuestAdmitted(coalition) => s.(registry := s.registry.Admit(r.guid.value, GuestInfo(r, coalition)))
      case GuestTokenFailed(coalition) => s.(registry := s.registry.Admit(r.guid.value, GuestInfo(r, coalition)))
      case _ => s
  }

  function GuestInfo(r: GuestRequest, coalition: string): ClientInfo {
    ClientInfo(r.name, r.unitId, coalition, GUEST, ZERO_TIME)
  }

  function LoginOutcome(auth: map<Guid, AuthEntry>, p: Policy, r: LoginRequest, now: Time): LoginResponse {
    if !p.enablePluginAuth then LoginDisabled
    else if r.guid == None then LoginInvalidGuid
    else if r.guid.value !in Swept(auth, now) then LoginUnknownGuid
    else if r.plugin !in p.plugins then NoPlugin
    else if r.answer == None then PluginDenied
    else if r.secret == None then SecretFailed
    else Granted(r.secret.value, r.answer.value.roles, r.answer.value.units, r.answer.value.playerName)
  }

  /** uint8 of each role. */
  function ToRoles(roles: seq<nat>): seq<Role> {
    seq(|roles|, i requires 0 <= i < |roles| => ToRole(roles[i]))
  }

  function LoginEntry(secret: string, result: PluginResult, now: Time): AuthEntry {
    AuthEntry(result.playerName, secret, now + LOGIN_LIFETIME, ToRoles(result.roles), result.units)
  }

  function LoginStep(c: ControlState, p: Policy, r: LoginRequest, now: Time): ControlState {
    if !p.enablePluginAuth then c
    else
      var s := SweptControl(c, now);
      if LoginOutcome(c.auth, p, r, now).Granted? then
        s.(auth := s.auth[r.guid.value := LoginEntry(r.secret.value, r.answer.value, now)])
      else s
  }

  predicate HasUnit(units: seq<Unit>, unitId: string) {
    exists i | 0 <= i < |units| :: units[i].unitId == unitId
  }

  /** Why a selection is refused once its entry is found, if it is. */
  function CheckedSelection(entry: AuthEntry, coalitions: seq<Coalition>, r: SelectRequest): Option<SelectResponse> {
    if entry.secret != r.secret then Some(WrongSecret)
    else if !HasUnit(entry.units, r.unitId) && !CheckUnitId(r.unitId) then Some(InvalidUnit)
    else if ToRole(r.role) !in entry.roles then Some(InvalidRole)
    else if !IsCoalition(coalitions, r.coalition) then Some(InvalidCoalition)
    else None
  }

  /** No sweep here: an expired entry is as good as any other. */
  function SelectOutcome(auth: map<Guid, AuthEntry>, p: Policy, r: SelectRequest): SelectResponse {
    if r.guid == None then SelectInvalidGuid
    else if r.guid.value !in auth then SelectUnknownGuid
    else match CheckedSelection(auth[r.guid.value], p.coalitions, r)
      case Some(refusal) => refusal
      case None => if !r.tokenOk then SelectTokenFailed else Selected
  }

  predicate SelectAdmits(auth: map<Guid, AuthEntry>, p: Policy, r: SelectRequest) {
    SelectOutcome(auth, p, r).Selected? || SelectOutcome(auth, p, r).SelectTokenFailed?
  }

  /** The client joins and its login entry is used up, whether or not the token can be made. */
  function SelectStep(c: ControlState, p: Policy, r: SelectRequest): ControlState {
    if SelectAdmits(c.auth, p, r) then
      var info := ClientInfo(c.auth[r.guid.value].name, r.unitId, r.coalition, ToRole(r.role), ZERO_TIME);
      ControlState(c.auth - {r.guid.value}, c.registry.Admit(r.guid.value, info))
    else c
  }

  // ---- The server ----

  class AuthServer {
    const serverState: ServerState
    const settings: SettingsState
    const mode: Mode
    const plugins: set<string>
    var authenticatingClients: map<Guid, AuthEntry>

    constructor (serverState: ServerState, settings: SettingsState, mode: Mode, plugins: set<string>)
      ensures this.serverState == serverState && this.settings == settings
      ensures this.mode == mode && this.plugins == plugins && authenticatingClients == map[]
    {
      this.serverState, this.settings, this.mode, this.plugins := serverState, settings, mode, plugins;
      authenticatingClients := map[];
    }

    ghost function GetPolicy(): Policy
      reads settings
    {
      Policy(settings.coalitions, settings.enableGuestAuth, settings.enablePluginAuth, plugins, mode)
    }

    ghost function Value(): ControlState
      reads this, serverState, serverState.Objects()
    {
      ControlState(authenticatingClients, serverState.Value())
    }

    method RemoveExpired(now: Time)
      modifies this`authenticatingClients
      ensures authenticatingClients == Swept(old(authenticatingClients), now)
      ensures Value() == SweptControl(old(Value()), now)
    {
      var left := authenticatingClients.Keys;
      while left != {}
        invariant left <= authenticatingClients.Keys
        invariant forall g | g in authenticatingClients ::
          g in old(authenticatingClients) && authenticatingClients[g] == old(authenticatingClients)[g]
        invariant forall g | g in old(authenticatingClients) && g !in left ::
          g in authenticatingClients <==> now <= old(authenticatingClients)[g].expires
        invariant forall g | g in left :: g in old(authenticatingClients)
        decreases left
      {
        var g :| g in left;
        left := left - {g};
        if now > authenticatingClients[g].expires {
          authenticatingClients := authenticatingClients - {g};
        }
      }
    }

    method CheckDistribution(features: seq<Feature>) returns (supported: bool)
      ensures supported <==> Supports(features, mode)
    {
      for i := 0 to |features|
        invariant !Supports(features[..i], mode)
      {
        assert features[..i + 1] == features[..i] + [features[i]];
        match features[i] {
          case SupportsDistributed =>
            if mode == ControlMode {
              return true;
            }
          case SupportsStandalone =>
            if mode == StandaloneMode {
              return true;
            }
        }
      }
      assert features[..|features|] == features;
      return false;
    }

    method InitAuth(r: InitRequest, now: Time) returns (response: InitResponse)
      modifies this`authenticatingClients
      ensures response == InitOutcome(GetPolicy(), r)
      ensures Value() == InitStep(old(Value()), GetPolicy(), r, now)
    {
      RemoveExpired(now);
      if r.version != SUPPORTED_VERSION {
        return VersionRejected;
      }
      var supported := CheckDistribution(r.features);
      if !supported {
        return DistributionRejected;
      }
      WriteEntry(r.newGuid, AuthEntry("", "", now + INIT_LIFETIME, [], []));
      return Initialized(r.newGuid);
    }

    method FindCoalition(passwordHash: string) returns (coalition: Option<string>)
      ensures coalition == MatchingCoalition(settings.coalitions, passwordHash)
    {
      var coalitions := settings.coalitions;
      for i := 0 to |coalitions|
        invariant MatchingCoalition(coalitions, passwordHash) == MatchingCoalition(coalitions[i..], passwordHash)
      {
        if coalitions[i].passwordHash == passwordHash {
          return Some(coalitions[i].name);
        }
      }
      return None;
    }

    /** The checks between the lookup and the registration of a guest. */
    method CheckGuest(r: GuestRequest) returns (refusal: Option<GuestResponse>, coalition: string)
      ensures match refusal
              case None => CheckUsername(r.name) && CheckUnitId(r.unitId) &&
                MatchingCoalition(settings.coalitions, r.passwordHash) == Some(coalition)
              case Some(response) =>
                response == if !CheckUsername(r.name) then InvalidUsername
                            else if MatchingCoalition(settings.coalitions, r.passwordHash) == None then NoCoalition
                            else GuestInvalidUnit
      ensures refusal == Some(GuestInvalidUnit) ==> !CheckUnitId(r.unitId)
    {
      if !CheckUsername(r.name) {
        return Some(InvalidUsername), "";
      }
      var selected := FindCoalition(r.passwordHash);
      if selected == None {
        return Some(NoCoalition), "";
      }
      if !CheckUnitId(r.unitId) {
        return Some(GuestInvalidUnit), "";
      }
      return None, selected.value;
    }

    /** The built-in assignment to and delete from the map of entries. */
    method WriteEntry(g: Guid, entry: AuthEntry)
      modifies this`authenticatingClients
      ensures authenticatingClients == old(authenticatingClients)[g := entry]
      ensures Value() == ControlState(authenticatingClients, old(Value()).registry)
    {
      authenticatingClients := authenticatingClients[g := entry];
    }

    method DeleteEntry(g: Guid)
      modifies this`authenticatingClients
      ensures authenticatingClients == old(authenticatingClients) - {g}
      ensures Value() == ControlState(authenticatingClients, old(Value()).registry)
    {
      authenticatingClients := authenticatingClients - {g};
    }

    /** The client joins the registry; the login entries and the settings stay as they are. */
    method Join(g: Guid, info: ClientInfo)
      requires serverState.Valid()
      modifies serverState
      ensures serverState.Valid() && GetPolicy() == old(GetPolicy())
      ensures Value() == ControlState(authenticatingClients, old(Value()).registry.Admit(g, info))
    {
      serverState.AddNewClient(g, info);
    }

    method GuestLogin(r: GuestRequest, now: Time) returns (response: GuestResponse)
      requires serverState.Valid()
      modifies this`authenticatingClients, serverState
      ensures serverState.Valid()
      ensures response == GuestOutcome(old(authenticatingClients), GetPolicy(), r, now)
      ensures Value() == GuestStep(old(Value()), GetPolicy(), r, now)
    {
      if !settings.enableGuestAuth {
        return GuestDisabled;
      }
      RemoveExpired(now);
      if r.guid == None {
        return GuestInvalidGuid;
      }
      var g := r.guid.value;
      if g !in authenticatingClients {
        return GuestUnknownGuid;
      }
      var refusal, coalition := CheckGuest(r);
      if refusal.Some? {
        return refusal.value;
      }
      ghost var registry := Value().registry.Admit(g, GuestInfo(r, coalition));
      assert GuestStep(old(Value()), GetPolicy(), r, now) == Value().(registry := registry);
      Join(g, GuestInfo(r, coalition));
      if !r.tokenOk {
        return GuestTokenFailed(coalition);
      }
      return GuestAdmitted(coalition);
    }

    method ConvertRoles(roles: seq<nat>) returns (available: seq<Role>)
      ensures available == ToRoles(roles)
    {
      available := [];
      for i := 0 to |roles|
        invariant available == ToRoles(roles)[..i]
      {
        available := available + [ToRole(roles[i])];
      }
    }

    method Login(r: LoginRequest, now: Time) returns (response: LoginResponse)
      modifies this`authenticatingClients
      ensures response == LoginOutcome(old(authenticatingClients), GetPolicy(), r, now)
      ensures Value() == LoginStep(old(Value()), GetPolicy(), r, now)
    {
      if !settings.enablePluginAuth {
        return LoginDisabled;
      }
      RemoveExpired(now);
      if r.guid == None {
        return LoginInvalidGuid;
      }
      var g := r.guid.value;
      if g !in authenticatingClients {
        return LoginUnknownGuid;
      }
      if r.plugin !in plugins {
        return NoPlugin;
      }
      if r.answer == None {
        return PluginDenied;
      }
      if r.secret == None {
        return SecretFailed;
      }
      var result := r.answer.value;
      var roles := ConvertRoles(result.roles);
      WriteEntry(g, AuthEntry(result.playerName, r.secret.value, now + LOGIN_LIFETIME, roles, result.units));
      return Granted(r.secret.value, result.roles, result.units, result.playerName);
    }

    method GetSelectedUnit(units: seq<Unit>, unitId: string) returns (unit: Option<Unit>)
      ensures unit.Some? <==> HasUnit(units, unitId)
      ensures unit.Some? ==>
        exists i | 0 <= i < |units| :: units[i] == unit.value && unitId == units[i].unitId &&
                                       forall j | 0 <= j < i :: units[j].unitId != unitId
    {
      for i := 0 to |units|
        invariant forall k | 0 <= k < i :: units[k].unitId != unitId
      {
        if units[i].unitId == unitId {
          return Some(units[i]);
        }
      }
      return None;
    }

    method IsRoleAvailable(roles: seq<Role>, role: Role) returns (available: bool)
      ensures available <==> role in roles
    {
      available := false;
      for i := 0 to |roles|
        invariant !available && role !in roles[..i]
      {
        if roles[i] == role {
          available := true;
          break;
        }
      }
    }

    /** The checks between the lookup and the registration of a client with a login entry. */
    method CheckSelection(entry: AuthEntry, r: SelectRequest)
      returns (refusal: Option<SelectResponse>, unit: Unit)
      ensures refusal == CheckedSelection(entry, settings.coalitions, r)
      ensures refusal == None ==> unit.unitId == r.unitId
    {
      unit := Unit("", "");
      if entry.secret != r.secret {
        return Some(WrongSecret), unit;
      }
      var selected := GetSelectedUnit(entry.units, r.unitId);
      if selected == None {
        if !CheckUnitId(r.unitId) {
          return Some(InvalidUnit), unit;
        }
        selected := Some(Unit(r.unitId, "Unit " + r.unitId));
      }
      var available := IsRoleAvailable(entry.roles, ToRole(r.role));
      if !available {
        return Some(InvalidRole), unit;
      }
      var exist := settings.DoesCoalitionExist(r.coalition);
      if !exist {
        return Some(InvalidCoalition), unit;
      }
      return None, selected.value;
    }

    method UnitSelect(r: SelectRequest) returns (response: SelectResponse)
      requires serverState.Valid()
      modifies this`authenticatingClients, serverState
      ensures serverState.Valid()
      ensures response == SelectOutcome(old(authenticatingClients), GetPolicy(), r)
      ensures Value() == SelectStep(old(Value()), GetPolicy(), r)
    {
      if r.guid == None {
        return SelectInvalidGuid;
      }
      var g := r.guid.value;
      if g !in authenticatingClients {
        return SelectUnknownGuid;
      }
      var entry := authenticatingClients[g];
      var refusal, unit := CheckSelection(entry, r);
      if refusal.Some? {
        return refusal.value;
      }
      Join(g, ClientInfo(entry.name, unit.unitId, r.coalition, ToRole(r.role), ZERO_TIME));
      DeleteEntry(g);
      if !r.tokenOk {
        return SelectTokenFailed;
      }
      return Selected;
    }
  }
}

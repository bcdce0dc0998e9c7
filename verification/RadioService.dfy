/** The radio service: client and radio updates, synchronisation, cleanup (srs/srs_service.go, srs/utils.go). */
module RadioService {
  import opened Basics
  import opened Float32
  import opened Settings
  import opened Registry

  // ---- Field checks ----

  /** Lengths are in bytes, as Go's len counts them. */
  predicate CheckUsername(name: string) {
    0 < |name| <= 32
  }

  /** The expression ^[A-Z0-9]{2,4}$. */
  predicate CheckUnitId(unitId: string) {
    2 <= |unitId| <= 4 && forall c | c in unitId :: 'A' <= c <= 'Z' || '0' <= c <= '9'
  }

  /** uint8(x) of an unsigned 32-bit value. */
  function ToRole(x: nat): Role {
    x % 0x100
  }

  /** Nobody may become a guest, and nobody may go up. */
  function CanSwapRoles(current: Role, requested: Role): (can: bool)
    ensures can <==> GUEST < requested <= current
  {
    if requested == GUEST then false
    else if current > requested then true
    else if current == requested then true
    else false
  }

  datatype InfoRequest = InfoRequest(name: string, unitId: string, coalition: string, roleId: nat)

  datatype FieldError = BadName | BadUnitId | BadCoalition | BadRole

  datatype Response = Success | InvalidId | NotFound | Rejected(errors: seq<FieldError>)

  /** Each field changes exactly when its own check passes. */
  function UpdatedInfo(info: ClientInfo, req: InfoRequest, coalitions: seq<Coalition>, now: Time): ClientInfo {
    ClientInfo(
      if CheckUsername(req.name) then req.name else info.name,
      if CheckUnitId(req.unitId) then req.unitId else info.unitId,
      if IsCoalition(coalitions, req.coalition) then req.coalition else info.coalition,
      if CanSwapRoles(info.role, ToRole(req.roleId)) then ToRole(req.roleId) else info.role,
      now)
  }

  function FieldErrors(info: ClientInfo, req: InfoRequest, coalitions: seq<Coalition>): seq<FieldError> {
    (if CheckUsername(req.name) then [] else [BadName])
    + (if CheckUnitId(req.unitId) then [] else [BadUnitId])
    + (if IsCoalition(coalitions, req.coalition) then [] else [BadCoalition])
    + (if CanSwapRoles(info.role, ToRole(req.roleId)) then [] else [BadRole])
  }

  /** An update is accepted as a whole exactly when all four checks pass. */
  lemma AcceptedIff(info: ClientInfo, req: InfoRequest, coalitions: seq<Coalition>)
    ensures FieldErrors(info, req, coalitions) == []
            <==> CheckUsername(req.name) && CheckUnitId(req.unitId) && IsCoalition(coalitions, req.coalition) &&
                 GUEST < ToRole(req.roleId) <= info.role
    ensures BadRole in FieldErrors(info, req, coalitions) <==> !(GUEST < ToRole(req.roleId) <= info.role)
  {
  }

  /** Two to four upper-case letters or digits, at every position. */
  lemma UnitIdIff(unitId: string)
    ensures CheckUnitId(unitId) <==>
      2 <= |unitId| <= 4 && forall i | 0 <= i < |unitId| :: 'A' <= unitId[i] <= 'Z' || '0' <= unitId[i] <= '9'
  {
    forall i | 0 <= i < |unitId|
      ensures unitId[i] in unitId
    {
    }
  }

  /** Every field follows its own check, spelled out. */
  lemma FieldsFollowChecks(info: ClientInfo, req: InfoRequest, coalitions: seq<Coalition>, now: Time)
    ensures var u := UpdatedInfo(info, req, coalitions, now);
            var placed := exists i | 0 <= i < |coalitions| :: coalitions[i].name == req.coalition;
            u.name == (if 1 <= |req.name| <= 32 then req.name else info.name) &&
            u.unitId == (if CheckUnitId(req.unitId) then req.unitId else info.unitId) &&
            u.coalition == (if placed then req.coalition else info.coalition) &&
            u.role == (if 0 < req.roleId % 0x100 <= info.role then req.roleId % 0x100 else info.role) &&
            u.lastUpdate == now
  {
  }

  /** So does every error. */
  lemma ErrorsFollowChecks(info: ClientInfo, req: InfoRequest, coalitions: seq<Coalition>)
    ensures var errors := FieldErrors(info, req, coalitions);
            (BadName in errors <==> !(1 <= |req.name| <= 32)) &&
            (BadUnitId in errors <==> !CheckUnitId(req.unitId)) &&
            (BadCoalition in errors <==> forall i | 0 <= i < |coalitions| :: coalitions[i].name != req.coalition) &&
            (BadRole in errors <==> !(0 < req.roleId % 0x100 <= info.role))
  {
    var a := if CheckUsername(req.name) then [] else [BadName];
    var b := if CheckUnitId(req.unitId) then [] else [BadUnitId];
    var c := if IsCoalition(coalitions, req.coalition) then [] else [BadCoalition];
    var d := if CanSwapRoles(info.role, ToRole(req.roleId)) then [] else [BadRole];
    assert FieldErrors(info, req, coalitions) == a + b + c + d;
  }

  /** The errors come in the order of the fields, each at most once. */
  lemma ErrorsInOrder(info: ClientInfo, req: InfoRequest, coalitions: seq<Coalition>)
    ensures var errors := FieldErrors(info, req, coalitions);
            forall i, j | 0 <= i < j < |errors| :: Position(errors[i]) < Position(errors[j])
  {
  }

  function Position(e: FieldError): nat {
    match e
    case BadName => 0
    case BadUnitId => 1
    case BadCoalition => 2
    case BadRole => 3
  }

  // ---- Radios on the wire ----

  datatype PbRadio = PbRadio(id: nat, name: string, frequency: Float, enabled: bool, isIntercom: bool)

  datatype PbRadioInfo = PbRadioInfo(radios: seq<PbRadio>, muted: bool, lastUpdate: int)

  datatype PbClient = PbClient(name: string, coalition: string, lastUpdate: int)

  /** The stored radio, without the intercom flag of the request. */
  function StoredRadio(r: PbRadio): Radio {
    Radio(r.id, r.name, r.frequency, r.enabled, false)
  }

  /** The radio sent to clients, without the intercom flag of the store. */
  function SentRadio(r: Radio): PbRadio {
    PbRadio(r.id, r.name, r.frequency, r.enabled, false)
  }

  function StoredRadios(radios: seq<PbRadio>): seq<Radio> {
    seq(|radios|, i requires 0 <= i < |radios| => StoredRadio(radios[i]))
  }

  function SentRadios(radios: seq<Radio>): seq<PbRadio> {
    seq(|radios|, i requires 0 <= i < |radios| => SentRadio(radios[i]))
  }

  /** What a client uploads comes back unchanged exactly when no radio was marked as intercom. */
  lemma RadiosRoundTripIff(radios: seq<PbRadio>)
    ensures SentRadios(StoredRadios(radios)) == radios <==> forall r | r in radios :: !r.isIntercom
  {
  }

  /** Uploaded radios are heard as they were sent: the store keeps order, frequency and switch of each. */
  lemma StoredRadiosHeard(radios: seq<PbRadio>, f: Float)
    ensures Hears(StoredRadios(radios), f) <==>
            exists i | 0 <= i < |radios| :: Eq(radios[i].frequency, f) && radios[i].enabled &&
                                            forall j | 0 <= j < i :: !Eq(radios[j].frequency, f)
  {
    var s := StoredRadios(radios);
    assert forall i | 0 <= i < |radios| ::
        s[i].frequency == radios[i].frequency && s[i].enabled == radios[i].enabled;
  }

  method ConvertRadioInfo(radios: seq<PbRadio>) returns (stored: seq<Radio>)
    ensures stored == StoredRadios(radios)
  {
    stored := [];
    for i := 0 to |radios|
      invariant stored == StoredRadios(radios)[..i]
    {
      stored := stored + [StoredRadio(radios[i])];
    }
  }

  method ConvertRadios(radios: seq<Radio>) returns (sent: seq<PbRadio>)
    ensures sent == SentRadios(radios)
  {
    sent := [];
    for i := 0 to |radios|
      invariant sent == SentRadios(radios)[..i]
    {
      sent := sent + [SentRadio(radios[i])];
    }
  }

  // ---- Staleness ----

  const MAX_DURATION: Time := 0x7FFF_FFFF_FFFF_FFFF

  /** time.Time.Sub saturates at the limits of a 64-bit duration. */
  function Sub(a: Time, b: Time): Time {
    if a - b > MAX_DURATION then MAX_DURATION
    else if a - b < -MAX_DURATION - 1 then -MAX_DURATION - 1
    else a - b
  }

  /** time.Time.Unix: whole seconds, rounded down. */
  function Unix(t: Time): int {
    t / SECOND
  }

  predicate Stale(r: Registry, g: Guid, now: Time, staleAfter: Time) {
    g !in r.clients || Sub(now, r.clients[g].lastUpdate) > staleAfter
  }

  /**
   A client is stale exactly when it has been silent for longer than the limit, a 64-bit duration;
   with the longest limit it never is, however long the silence.
   */
  lemma StaleIff(r: Registry, g: Guid, now: Time, staleAfter: Time)
    requires -0x8000_0000_0000_0000 <= staleAfter <= 0x7FFF_FFFF_FFFF_FFFF
    ensures Stale(r, g, now, staleAfter) <==>
      g !in r.clients || (now - r.clients[g].lastUpdate > staleAfter && staleAfter < 0x7FFF_FFFF_FFFF_FFFF)
  {
  }

  function StaleSet(r: Registry, streams: set<Guid>, now: Time, staleAfter: Time): set<Guid> {
    set g | g in streams && Stale(r, g, now, staleAfter)
  }

  function DropAll(r: Registry, gone: set<Guid>): Registry {
    Registry(r.clients - gone, r.radios - gone)
  }

  /** One more stream looked at: what was dropped before does not affect whether its client is stale. */
  lemma SweepStep(r: Registry, all: set<Guid>, left: set<Guid>, gone: set<Guid>, g: Guid, now: Time, staleAfter: Time)
    requires g in left && left <= all && gone == StaleSet(r, all - left, now, staleAfter)
    ensures var stale := Stale(DropAll(r, gone), g, now, staleAfter);
            StaleSet(r, all - (left - {g}), now, staleAfter) == if stale then gone + {g} else gone
    ensures DropAll(r, gone).Drop(g) == DropAll(r, gone + {g})
  {
  }

  /** A login leaves LastUpdate at zero, so a client that has only logged in is stale at once. */
  lemma FreshLoginIsStale(r: Registry, g: Guid, info: ClientInfo, now: Time, staleAfter: Time)
    requires info.lastUpdate == ZERO_TIME && 0 <= now
    ensures Stale(r.Admit(g, info), g, now, staleAfter) <==> staleAfter < MAX_DURATION
  {
  }

  // ---- The service ----

  datatype SyncResult = Panic | Synced(clients: map<Guid, PbClient>, radios: map<Guid, PbRadioInfo>)

  function SyncedClients(r: Registry): map<Guid, PbClient> {
    map g | g in r.clients ::
      PbClient(r.clients[g].name, r.clients[g].coalition, Unix(r.clients[g].lastUpdate))
  }

  function SentInfo(r: Registry, g: Guid): PbRadioInfo
    requires g in r.radios && g in r.clients
  {
    PbRadioInfo(SentRadios(r.radios[g].radios), r.radios[g].muted, Unix(r.clients[g].lastUpdate))
  }

  function SyncedRadios(r: Registry): map<Guid, PbRadioInfo>
    requires r.radios.Keys <= r.clients.Keys
  {
    map g | g in r.radios :: SentInfo(r, g)
  }

  /** What a client is sent: everyone's name, coalition and last update, and everyone's radios, cut to whole seconds. */
  lemma SyncContents(r: Registry, g: Guid)
    ensures g in SyncedClients(r) <==> g in r.clients
    ensures g in r.clients ==>
      var c, info := SyncedClients(r)[g], r.clients[g];
      c.name == info.name && c.coalition == info.coalition &&
      c.lastUpdate * 1_000_000_000 <= info.lastUpdate < c.lastUpdate * 1_000_000_000 + 1_000_000_000
    ensures r.radios.Keys <= r.clients.Keys ==>
      (g in SyncedRadios(r) <==> g in r.radios) &&
      (g in r.radios ==>
        var sent, info := SyncedRadios(r)[g], r.radios[g];
        sent.muted == info.muted && sent.lastUpdate == SyncedClients(r)[g].lastUpdate && |sent.radios| == |info.radios| &&
        forall i | 0 <= i < |sent.radios| ::
          sent.radios[i].id == info.radios[i].id && sent.radios[i].name == info.radios[i].name &&
          sent.radios[i].frequency == info.radios[i].frequency && sent.radios[i].enabled == info.radios[i].enabled)
  {
  }

  class SimpleRadioServer {
    const serverState: ServerState
    const settings: SettingsState
    var streams: set<Guid>    // the clients with a registered update stream

    constructor (serverState: ServerState, settings: SettingsState, streams: set<Guid>)
      ensures this.serverState == serverState && this.settings == settings && this.streams == streams
    {
      this.serverState, this.settings, this.streams := serverState, settings, streams;
    }

    /** Runs the four field checks one after the other and writes each accepted field in place. */
    method UpdateClientInfo(clientId: Option<Guid>, req: InfoRequest, now: Time) returns (response: Response)
      requires serverState.Valid()
      modifies serverState.clients.Values
      ensures serverState.Valid()
      ensures
        if clientId == None then response == InvalidId && serverState.Value() == old(serverState.Value())
        else if clientId.value !in serverState.clients then
          response == NotFound && serverState.Value() == old(serverState.Value())
        else
          var info := old(serverState.Value()).clients[clientId.value];
          var errors := FieldErrors(info, req, settings.coalitions);
          response == (if errors == [] then Success else Rejected(errors)) &&
          serverState.Value() ==
            old(serverState.Value()).SetInfo(clientId.value, UpdatedInfo(info, req, settings.coalitions, now))
    {
      if clientId == None {
        return InvalidId;
      }
      var g := clientId.value;
      if g !in serverState.clients {
        return NotFound;
      }
      var client := serverState.clients[g];
      ghost var info := client.Value();
      var errors := UpdateFields(client, req, now);
      assert serverState.Clients() == old(serverState.Clients())[g := client.Value()];
      assert serverState.Radios() == old(serverState.Radios());
      if |errors| > 0 {
        return Rejected(errors);
      }
      return Success;
    }

    method UpdateFields(client: ClientState, req: InfoRequest, now: Time) returns (errors: seq<FieldError>)
      modifies client
      ensures client.Value() == UpdatedInfo(old(client.Value()), req, settings.coalitions, now)
      ensures errors == FieldErrors(old(client.Value()), req, settings.coalitions)
    {
      errors := [];
      if !CheckUsername(req.name) {
        errors := errors + [BadName];
      } else {
        client.name := req.name;
      }
      if !CheckUnitId(req.unitId) {
        errors := errors + [BadUnitId];
      } else {
        client.unitId := req.unitId;
      }
      var exist := settings.DoesCoalitionExist(req.coalition);
      if !exist {
        errors := errors + [BadCoalition];
      } else {
        client.coalition := req.coalition;
      }
      if !CanSwapRoles(client.role, ToRole(req.roleId)) {
        errors := errors + [BadRole];
      } else {
        client.role := ToRole(req.roleId);
      }
      client.lastUpdate := now;
    }

    /** Replaces the radio entry of a client that has one. */
    method UpdateRadioInfo(clientId: Option<Guid>, radios: seq<PbRadio>, muted: bool) returns (response: Response)
      requires serverState.Valid()
      modifies serverState`radioClients
      ensures serverState.Valid()
      ensures
        if clientId == None then response == InvalidId && serverState.Value() == old(serverState.Value())
        else if clientId.value !in old(serverState.radioClients) then
          response == NotFound && serverState.Value() == old(serverState.Value())
        else
          response == Success &&
          serverState.Value() ==
            old(serverState.Value()).SetRadios(clientId.value, RadioInfo(StoredRadios(radios), muted))
    {
      if clientId == None {
        return InvalidId;
      }
      var g := clientId.value;
      if g !in serverState.radioClients {
        return NotFound;
      }
      var stored := ConvertRadioInfo(radios);
      var state := new RadioState(RadioInfo(stored, muted));
      serverState.radioClients := serverState.radioClients[g := state];
      assert serverState.Radios() == old(serverState.Radios())[g := state.Value()];
      assert serverState.Clients() == old(serverState.Clients());
      return Success;
    }

    /** Clears whatever is left of a client, and reports success only if both entries were there. */
    /** Registers an update stream; a second one for the same client is refused. */
    method SubscribeToUpdates(clientId: Option<Guid>) returns (accepted: bool)
      modifies this`streams
      ensures accepted <==> clientId.Some? && clientId.value !in old(streams)
      ensures streams == if clientId.Some? then old(streams) + {clientId.value} else old(streams)
    {
      if clientId == None || clientId.value in streams {
        return false;
      }
      streams := streams + {clientId.value};
      return true;
    }

    method Disconnect(clientId: Option<Guid>) returns (response: Response)
      requires serverState.Valid()
      modifies serverState
      ensures serverState.Valid()
      ensures
        if clientId == None then response == InvalidId && serverState.Value() == old(serverState.Value())
        else
          serverState.Value() == old(serverState.Value()).Drop(clientId.value) &&
          response == if clientId.value in old(serverState.clients) && clientId.value in old(serverState.radioClients)
                      then Success else NotFound
    {
      if clientId == None {
        return InvalidId;
      }
      var g := clientId.value;
      if g !in serverState.clients || g !in serverState.radioClients {
        CleanupClientState(g);
        return NotFound;
      }
      CleanupClientState(g);
      return Success;
    }

    method CleanupClientState(g: Guid)
      requires serverState.Valid()
      modifies serverState
      ensures serverState.Valid()
      ensures serverState.Value() == old(serverState.Value()).Drop(g)
    {
      if g in serverState.clients {
        serverState.DeleteClient(g);
      }
      if g in serverState.radioClients {
        serverState.DeleteRadio(g);
      }
    }

    /** What the pass does with one stream. */
    method IsStale(g: Guid, now: Time, staleAfter: Time) returns (stale: bool)
      ensures stale <==> Stale(serverState.Value(), g, now, staleAfter)
    {
      if g !in serverState.clients {
        return true;
      }
      return Sub(now, serverState.clients[g].lastUpdate) > staleAfter;
    }

    method SweepStream(g: Guid, now: Time, staleAfter: Time) returns (stale: bool)
      requires serverState.Valid()
      modifies serverState, this`streams
      ensures serverState.Valid()
      ensures stale <==> Stale(old(serverState.Value()), g, now, staleAfter)
      ensures serverState.Value() == if stale then old(serverState.Value()).Drop(g) else old(serverState.Value())
      ensures streams == if stale then old(streams) - {g} else old(streams)
    {
      stale := IsStale(g, now, staleAfter);
      if stale {
        ghost var registry := serverState.Value();
        CleanupClientState(g);
        streams := streams - {g};
        assert serverState.Value() == registry.Drop(g);
      }
    }

    /** One pass of the cleanup routine over the streams, in whatever order the map yields them. */
    method CleanupPass(now: Time, staleAfter: Time)
      requires serverState.Valid()
      modifies serverState, this`streams
      ensures serverState.Valid()
      ensures streams == old(streams) - StaleSet(old(serverState.Value()), old(streams), now, staleAfter)
      ensures serverState.Value() ==
        DropAll(old(serverState.Value()), StaleSet(old(serverState.Value()), old(streams), now, staleAfter))
    {
      ghost var before := serverState.Value();
      ghost var gone: set<Guid> := {};
      var left := streams;
      assert before == DropAll(before, {});
      while left != {}
        invariant left <= old(streams) && serverState.Valid()
        invariant gone == StaleSet(before, old(streams) - left, now, staleAfter)
        invariant streams == old(streams) - gone
        invariant serverState.Value() == DropAll(before, gone)
        decreases left
      {
        var g :| g in left;
        SweepStep(before, old(streams), left, gone, g, now, staleAfter);
        var stale := SweepStream(g, now, staleAfter);
        left := left - {g};
        gone := if stale then gone + {g} else gone;
      }
      assert old(streams) - left == old(streams);
    }

    method CollectClients() returns (clients: map<Guid, PbClient>)
      ensures clients == SyncedClients(serverState.Value())
    {
      ghost var r := serverState.Value();
      clients := map[];
      var left := serverState.clients.Keys;
      while left != {}
        invariant left <= r.clients.Keys
        invariant clients.Keys == r.clients.Keys - left
        invariant forall g | g in clients :: clients[g] == SyncedClients(r)[g]
        decreases left
      {
        var g :| g in left;
        var client := serverState.clients[g];
        clients := clients[g := PbClient(client.name, client.coalition, Unix(client.lastUpdate))];
        left := left - {g};
      }
    }

    /** Each radio entry reads LastUpdate of the client entry under the same id without checking that there is one. */
    method CollectRadios() returns (ok: bool, radios: map<Guid, PbRadioInfo>)
      ensures ok <==> serverState.radioClients.Keys <= serverState.clients.Keys
      ensures ok ==> radios == SyncedRadios(serverState.Value())
    {
      ghost var r := serverState.Value();
      radios := map[];
      var left := serverState.radioClients.Keys;
      while left != {}
        invariant left <= r.radios.Keys
        invariant radios.Keys == r.radios.Keys - left && radios.Keys <= r.clients.Keys
        invariant forall g | g in radios ::
          radios[g] == SentInfo(r, g)
        decreases left
      {
        var g :| g in left;
        var radio := serverState.radioClients[g];
        if g !in serverState.clients {
          return false, map[];
        }
        var sent := ConvertRadios(radio.radios);
        radios := radios[g := PbRadioInfo(sent, radio.muted, Unix(serverState.clients[g].lastUpdate))];
        left := left - {g};
      }
      assert radios.Keys == r.radios.Keys;
      return true, radios;
    }

    /** Builds both maps; the dereference of a missing client entry ends the process. */
    method SyncClient() returns (result: SyncResult)
      ensures
        if serverState.radioClients.Keys <= serverState.clients.Keys then
          result == Synced(SyncedClients(serverState.Value()), SyncedRadios(serverState.Value()))
        else result == Panic
    {
      var clients := CollectClients();
      var ok, radios := CollectRadios();
      return if ok then Synced(clients, radios) else Panic;
    }
  }
}

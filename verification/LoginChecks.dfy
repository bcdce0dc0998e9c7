/**
 What the login handlers demand and what they leave behind, spelled out: the checks and the
 records of srs/auth_service.go and srs/utils.go in terms of the request and the tables alone.
 */
module LoginChecks {
  import opened Basics
  import opened Settings
  import opened Registry
  import opened RadioService
  import opened Auth
  import opened ControlRuns
  import opened LoginRuns

  /** Two to four upper-case letters or digits. */
  predicate ShortCode(unitId: string) {
    2 <= |unitId| <= 4 && forall i | 0 <= i < |unitId| :: 'A' <= unitId[i] <= 'Z' || '0' <= unitId[i] <= '9'
  }

  /** The entry of g has not expired. */
  predicate Fresh(w: World, now: Time, g: Guid) {
    g in w.control.auth && now <= w.control.auth[g].expires
  }

  /** Only the client g changes: it has this record and an empty, unmuted radio list. */
  predicate JoinsWith(w: World, w': World, g: Guid, info: ClientInfo) {
    var r, r' := w.control.registry, w'.control.registry;
    r'.clients == r.clients[g := info] && r'.radios == r.radios[g := RadioInfo([], false)] && w'.streams == w.streams
  }

  // ---- Initialisation ----

  /** A client is initialised exactly when it speaks version 0.1.0 and supports the server's mode. */
  lemma InitializesIff(s: Step, g: Guid)
    requires s.event.Init?
    ensures var p, r := s.event.policy, s.event.init;
            Initializes(s, g) <==>
              r.newGuid == g && r.version == "0.1.0" &&
              ((p.mode == ControlMode && SupportsDistributed in r.features) ||
               (p.mode == StandaloneMode && SupportsStandalone in r.features))
    ensures InitOutcome(s.event.policy, s.event.init) == VersionRejected <==> s.event.init.version != "0.1.0"
  {
  }

  /** The new entry grants nothing and lasts 20 minutes. */
  lemma InitializedWith(w: World, s: Step, g: Guid)
    requires Initializes(s, g)
    ensures var w' := Apply(w, s);
            g in w'.control.auth && w'.control.auth[g].expires == s.now + 1_200_000_000_000 &&
            w'.control.auth[g].roles == [] && w'.control.auth[g].units == [] &&
            w'.control.registry == w.control.registry
  {
  }

  // ---- Guests ----

  /** The first coalition whose password hash matches. */
  predicate FirstMatch(coalitions: seq<Coalition>, hash: string, i: nat) {
    i < |coalitions| && coalitions[i].passwordHash == hash && forall j | 0 <= j < i :: coalitions[j].passwordHash != hash
  }

  lemma {:induction false} MatchIsFirst(coalitions: seq<Coalition>, hash: string)
    ensures match MatchingCoalition(coalitions, hash)
            case None => forall i | 0 <= i < |coalitions| :: coalitions[i].passwordHash != hash
            case Some(name) => exists i: nat :: FirstMatch(coalitions, hash, i) && coalitions[i].name == name
  {
    if coalitions != [] {
      MatchIsFirst(coalitions[1..], hash);
      assert forall i | 1 <= i < |coalitions| :: coalitions[i] == coalitions[1..][i - 1];
      if coalitions[0].passwordHash == hash {
        assert FirstMatch(coalitions, hash, 0);
      } else if i: nat :| FirstMatch(coalitions[1..], hash, i) &&
                          MatchingCoalition(coalitions[1..], hash) == Some(coalitions[1..][i].name) {
        assert FirstMatch(coalitions, hash, i + 1);
      }
    }
  }

  lemma FirstMatchUnique(coalitions: seq<Coalition>, hash: string, i: nat, j: nat)
    requires FirstMatch(coalitions, hash, i) && FirstMatch(coalitions, hash, j)
    ensures i == j
  {
  }

  /** A guest joins exactly when guests are allowed, its entry is fresh, and its name, password and unit pass. */
  lemma GuestJoinsIff(w: World, s: Step, g: Guid)
    requires s.event.Guest? && s.event.guest.guid == Some(g)
    ensures var p, r := s.event.policy, s.event.guest;
            GuestJoins(w, s, g) <==>
              p.enableGuestAuth && Fresh(w, s.now, g) && 1 <= |r.name| <= 32 && ShortCode(r.unitId) &&
              exists i | 0 <= i < |p.coalitions| :: p.coalitions[i].passwordHash == r.passwordHash
  {
    MatchIsFirst(s.event.policy.coalitions, s.event.guest.passwordHash);
    UnitIdIff(s.event.guest.unitId);
  }

  /** It joins under its own name and unit, in the coalition of the first matching password, as a guest. */
  lemma GuestJoinsWith(w: World, s: Step, g: Guid, i: nat)
    requires GuestJoins(w, s, g) && FirstMatch(s.event.policy.coalitions, s.event.guest.passwordHash, i)
    ensures var r := s.event.guest;
            JoinsWith(w, Apply(w, s), g, ClientInfo(r.name, r.unitId, s.event.policy.coalitions[i].name, 0, ZERO_TIME))
    ensures GuestOutcome(w.control.auth, s.event.policy, s.event.guest, s.now).GuestAdmitted? <==> s.event.guest.tokenOk
  {
    var coalitions, hash := s.event.policy.coalitions, s.event.guest.passwordHash;
    MatchIsFirst(coalitions, hash);
    var j: nat :| FirstMatch(coalitions, hash, j) && MatchingCoalition(coalitions, hash) == Some(coalitions[j].name);
    FirstMatchUnique(coalitions, hash, i, j);
  }

  /** A guest is told of the first check that fails. */
  lemma GuestRefusals(w: World, s: Step, g: Guid)
    requires s.event.Guest? && s.event.guest.guid == Some(g) && s.event.policy.enableGuestAuth
    ensures var p, r := s.event.policy, s.event.guest;
            var known, named := Fresh(w, s.now, g), 1 <= |r.name| <= 32;
            var matched := exists i | 0 <= i < |p.coalitions| :: p.coalitions[i].passwordHash == r.passwordHash;
            var out := GuestOutcome(w.control.auth, p, r, s.now);
            (out == GuestUnknownGuid <==> !known) &&
            (out == InvalidUsername <==> known && !named) &&
            (out == NoCoalition <==> known && named && !matched) &&
            (out == GuestInvalidUnit <==> known && named && matched && !ShortCode(r.unitId))
  {
    MatchIsFirst(s.event.policy.coalitions, s.event.guest.passwordHash);
    UnitIdIff(s.event.guest.unitId);
  }

  /** Before anything else, a login may be switched off, and the GUID must parse. */
  lemma EarlyRefusals(w: World, s: Step)
    ensures s.event.Guest? ==>
      var p, r := s.event.policy, s.event.guest;
      var out := GuestOutcome(w.control.auth, p, r, s.now);
      (out == GuestDisabled <==> !p.enableGuestAuth) && (out == GuestInvalidGuid <==> p.enableGuestAuth && r.guid == None)
    ensures s.event.Login? ==>
      var p, r := s.event.policy, s.event.login;
      var out := LoginOutcome(w.control.auth, p, r, s.now);
      (out == LoginDisabled <==> !p.enablePluginAuth) && (out == LoginInvalidGuid <==> p.enablePluginAuth && r.guid == None)
    ensures s.event.Select? ==>
      (SelectOutcome(w.control.auth, s.event.policy, s.event.select) == SelectInvalidGuid <==> s.event.select.guid == None)
  {
  }

  // ---- Plugin logins ----

  /** A login is granted exactly when logins are allowed, the entry is fresh, and plugin and secret are there. */
  lemma GrantsIff(w: World, s: Step, g: Guid)
    requires s.event.Login? && s.event.login.guid == Some(g)
    ensures var p, r := s.event.policy, s.event.login;
            Grants(w, s, g) <==>
              p.enablePluginAuth && Fresh(w, s.now, g) && r.plugin in p.plugins && r.answer.Some? && r.secret.Some?
  {
  }

  /** The entry it leaves lasts 5 minutes and holds what the plugin answered, each role cut to 8 bits. */
  lemma GrantedWith(w: World, s: Step, g: Guid)
    requires Grants(w, s, g)
    ensures g in Apply(w, s).control.auth && Apply(w, s).control.registry == w.control.registry
    ensures var e, answer := Apply(w, s).control.auth[g], s.event.login.answer.value;
            e.name == answer.playerName && e.secret == s.event.login.secret.value && e.units == answer.units &&
            e.expires == s.now + 300_000_000_000 && |e.roles| == |answer.roles| &&
            forall i | 0 <= i < |e.roles| :: e.roles[i] == answer.roles[i] % 0x100
  {
  }

  /** A refused login is told of the first check that fails. */
  lemma LoginRefusals(w: World, s: Step, g: Guid)
    requires s.event.Login? && s.event.login.guid == Some(g) && s.event.policy.enablePluginAuth
    ensures var p, r := s.event.policy, s.event.login;
            var known := Fresh(w, s.now, g);
            var out := LoginOutcome(w.control.auth, p, r, s.now);
            (out == LoginUnknownGuid <==> !known) &&
            (out == NoPlugin <==> known && r.plugin !in p.plugins) &&
            (out == PluginDenied <==> known && r.plugin in p.plugins && r.answer == None) &&
            (out == SecretFailed <==> known && r.plugin in p.plugins && r.answer.Some? && r.secret == None)
  {
  }

  // ---- Selection ----

  predicate UnitAllowed(entry: AuthEntry, unitId: string) {
    (exists i | 0 <= i < |entry.units| :: entry.units[i].unitId == unitId) || ShortCode(unitId)
  }

  predicate Offered(coalitions: seq<Coalition>, name: string) {
    exists i | 0 <= i < |coalitions| :: coalitions[i].name == name
  }

  /**
   A selection is admitted exactly when its GUID has an entry with its secret that was granted its
   role, the unit is one of the entry's or a short code, and the coalition is one of the server's.
   */
  lemma SelectsIff(w: World, s: Step, g: Guid)
    requires s.event.Select? && s.event.select.guid == Some(g)
    ensures var auth, r := w.control.auth, s.event.select;
            Selects(w, s, g) <==>
              g in auth && auth[g].secret == r.secret && UnitAllowed(auth[g], r.unitId) &&
              r.role % 0x100 in auth[g].roles && Offered(s.event.policy.coalitions, r.coalition)
  {
    UnitIdIff(s.event.select.unitId);
  }

  /** It joins under the entry's name with what it asked for, and the entry is gone; otherwise nothing changes. */
  lemma SelectsWith(w: World, s: Step, g: Guid)
    requires s.event.Select? && s.event.select.guid == Some(g)
    ensures var r, w' := s.event.select, Apply(w, s);
            if Selects(w, s, g) then
              JoinsWith(w, w', g, ClientInfo(w.control.auth[g].name, r.unitId, r.coalition, r.role % 0x100, ZERO_TIME)) &&
              w'.control.auth == w.control.auth - {g}
            else w' == w
    ensures var out := SelectOutcome(w.control.auth, s.event.policy, s.event.select);
            Selects(w, s, g) ==> out == if s.event.select.tokenOk then Selected else SelectTokenFailed
  {
  }

  /** A refused selection is told of the first check that fails. */
  lemma SelectRefusals(w: World, s: Step, g: Guid)
    requires s.event.Select? && s.event.select.guid == Some(g)
    ensures var auth, r := w.control.auth, s.event.select;
            var out := SelectOutcome(auth, s.event.policy, r);
            (out == SelectUnknownGuid <==> g !in auth) &&
            (out == WrongSecret <==> g in auth && auth[g].secret != r.secret) &&
            (out == InvalidUnit <==> g in auth && auth[g].secret == r.secret && !UnitAllowed(auth[g], r.unitId)) &&
            (out == InvalidRole <==>
              g in auth && auth[g].secret == r.secret && UnitAllowed(auth[g], r.unitId) &&
              r.role % 0x100 !in auth[g].roles) &&
            (out == InvalidCoalition <==>
              g in auth && auth[g].secret == r.secret && UnitAllowed(auth[g], r.unitId) &&
              r.role % 0x100 in auth[g].roles && !Offered(s.event.policy.coalitions, r.coalition))
  {
    UnitIdIff(s.event.select.unitId);
  }
}

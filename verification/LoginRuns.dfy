/** What whole runs of the control plane guarantee about logins, their expiry and roles. */
module LoginRuns {
  import opened Basics
  import opened Histories
  import opened Settings
  import opened Registry
  import opened RadioService
  import opened Auth
  import opened ControlRuns

  predicate Initializes(s: Step, g: Guid) {
    s.event.Init? && InitOutcome(s.event.policy, s.event.init) == Initialized(g)
  }

  predicate Grants(w: World, s: Step, g: Guid) {
    s.event.Login? && s.event.login.guid == Some(g) &&
    LoginOutcome(w.control.auth, s.event.policy, s.event.login, s.now).Granted?
  }

  /** The login entry a granting step leaves behind. */
  function GrantedEntry(s: Step): AuthEntry
    requires s.event.Login? && s.event.login.secret.Some? && s.event.login.answer.Some?
  {
    LoginEntry(s.event.login.secret.value, s.event.login.answer.value, s.now)
  }

  predicate InitializedAt(log: Log, i: nat, n: nat, g: Guid)
    requires n <= |log|
  {
    i < n && Initializes(log[i], g)
  }

  predicate GrantedAt(log: Log, i: nat, n: nat, g: Guid)
    requires n <= |log|
  {
    i < n && Grants(Before(log, i), log[i], g)
  }

  // ---- Where login entries come from ----

  /** A step writes the entry of a GUID only by initialising it or granting its login; a selection uses it up. */
  lemma EntryStep(w: World, s: Step, g: Guid)
    ensures var e, e' := w.control.auth, Apply(w, s).control.auth;
            g in e' ==> (Initializes(s, g) && e'[g] == InitEntry(s.now)) ||
                        (g in e && Grants(w, s, g) && e'[g] == GrantedEntry(s)) ||
                        (g in e && e'[g] == e[g] && !Selects(w, s, g))
  {
  }

  /** An entry is as InitAuth or a granted Login for the same GUID left it, and the GUID was once initialised. */
  lemma {:induction false} EntryOrigin(log: Log, n: nat, g: Guid)
    requires n <= |log| && g in Entries(log, n)
    ensures exists i: nat :: InitializedAt(log, i, n, g)
    ensures (exists i: nat :: InitializedAt(log, i, n, g) && Entries(log, n)[g] == InitEntry(log[i].now)) ||
            (exists i: nat :: GrantedAt(log, i, n, g) && Entries(log, n)[g] == GrantedEntry(log[i]))
  {
    var m := n - 1;
    var s := log[m];
    AfterStep(log, m);
    EntryStep(Before(log, m), s, g);
    if Initializes(s, g) && Entries(log, n)[g] == InitEntry(s.now) {
      assert InitializedAt(log, m, n, g);
    } else {
      EntryOrigin(log, m, g);
      var k: nat :| InitializedAt(log, k, m, g);
      assert InitializedAt(log, k, n, g);
      if Grants(Before(log, m), s, g) && Entries(log, n)[g] == GrantedEntry(s) {
        assert GrantedAt(log, m, n, g);
      } else if i: nat :| InitializedAt(log, i, m, g) && Entries(log, m)[g] == InitEntry(log[i].now) {
        assert InitializedAt(log, i, n, g);
      } else {
        var i: nat :| GrantedAt(log, i, m, g) && Entries(log, m)[g] == GrantedEntry(log[i]);
        assert GrantedAt(log, i, n, g);
      }
    }
  }

  // ---- One-shot selection ----

  /** uuid.New never repeats itself. */
  ghost predicate FreshGuids(log: Log) {
    forall i, j | 0 <= i < j < |log| && log[i].event.Init? && log[j].event.Init? ::
      log[i].event.init.newGuid != log[j].event.init.newGuid
  }

  /** A GUID whose entry has been used up never has an entry again. */
  lemma {:induction false} UsedUp(log: Log, i: nat, n: nat, g: Guid)
    requires FreshGuids(log) && i < n <= |log| && Selects(Before(log, i), log[i], g)
    ensures g !in Entries(log, n)
  {
    var m := n - 1;
    AfterStep(log, m);
    EntryStep(Before(log, m), log[m], g);
    NotInitializedAgain(log, i, m, g);
    if i < m {
      UsedUp(log, i, m, g);
    }
  }

  lemma NotInitializedAgain(log: Log, i: nat, m: nat, g: Guid)
    requires FreshGuids(log) && i <= m < |log| && g in Entries(log, i)
    ensures !Initializes(log[m], g)
  {
    EntryOrigin(log, i, g);
    var k: nat :| InitializedAt(log, k, i, g);
    assert log[k].event.init.newGuid == g;
  }

  /** Each GUID is admitted by UnitSelect at most once. */
  lemma SelectOnce(log: Log, i: nat, j: nat, g: Guid)
    requires FreshGuids(log) && i < |log| && j < |log|
    requires Selects(Before(log, i), log[i], g) && Selects(Before(log, j), log[j], g)
    ensures i == j
  {
    if i < j {
      UsedUp(log, i, j, g);
    } else if j < i {
      UsedUp(log, j, i, g);
    }
  }

  /** UnitSelect admits only after a granted Login for the same GUID, and only into a role it granted. */
  lemma SelectNeedsLogin(log: Log, i: nat, g: Guid)
    requires i < |log| && Selects(Before(log, i), log[i], g)
    ensures exists k: nat :: GrantedAt(log, k, i, g) &&
                             ToRole(log[i].event.select.role) in GrantedEntry(log[k]).roles &&
                             log[i].event.select.secret == GrantedEntry(log[k]).secret
  {
    EntryOrigin(log, i, g);
  }

  // ---- The login table as a fold over the log ----

  /** The steps that write the entry of g. */
  function Writes(log: Log, g: Guid): seq<bool> {
    seq(|log|, i requires 0 <= i < |log| => Initializes(log[i], g) || Grants(Before(log, i), log[i], g))
  }

  function WrittenEntry(log: Log, i: nat, g: Guid): AuthEntry
    requires i < |log| && Writes(log, g)[i]
  {
    if Initializes(log[i], g) then InitEntry(log[i].now) else GrantedEntry(log[i])
  }

  /** The requests that begin by sweeping expired entries; a selection is not among them. */
  predicate Sweeps(s: Step) {
    s.event.Init? || (s.event.Guest? && s.event.policy.enableGuestAuth) ||
    (s.event.Login? && s.event.policy.enablePluginAuth)
  }

  /** Step i sweeps, and what was last written for g has then expired. */
  predicate SweptOut(log: Log, i: nat, g: Guid)
    requires i < |log|
  {
    var k := Last(Writes(log, g), i);
    Sweeps(log[i]) && k >= 0 && WrittenEntry(log, k, g).expires < log[i].now
  }

  /** The steps that take the entry of g away: an admitting selection, or a sweep after its expiry. */
  function Voids(log: Log, g: Guid): seq<bool> {
    seq(|log|, i requires 0 <= i < |log| => Selects(Before(log, i), log[i], g) || SweptOut(log, i, g))
  }

  /** What one step does to the entry of g, exactly. */
  lemma EntryStepIff(w: World, s: Step, g: Guid)
    ensures var e, e' := w.control.auth, Apply(w, s).control.auth;
            if Initializes(s, g) then g in e' && e'[g] == InitEntry(s.now)
            else if Grants(w, s, g) then g in e' && e'[g] == GrantedEntry(s)
            else
              (g in e' <==> g in e && !Selects(w, s, g) && !(Sweeps(s) && e[g].expires < s.now)) &&
              (g in e' ==> e'[g] == e[g])
  {
  }

  /**
   A GUID has an entry exactly when an initialisation or a granted login of it has not been
   followed by an admitting selection or by a sweep after its expiry; it is the last one written.
   */
  lemma {:induction false} EntryIff(log: Log, n: nat, g: Guid)
    requires n <= |log|
    ensures g in Entries(log, n) <==> Since(Writes(log, g), Voids(log, g), n)
    ensures g in Entries(log, n) ==>
      var k := Last(Writes(log, g), n); k >= 0 && Entries(log, n)[g] == WrittenEntry(log, k, g)
  {
    if n > 0 {
      EntryIff(log, n - 1, g);
      AfterStep(log, n - 1);
      EntryStepIff(Before(log, n - 1), log[n - 1], g);
      SinceStep(Writes(log, g), Voids(log, g), n - 1);
    }
  }

  /** No entry of g is used up between its last write and step i. */
  predicate Unused(log: Log, i: nat, g: Guid)
    requires i <= |log|
  {
    forall m | Last(Writes(log, g), i) < m < i :: !Selects(Before(log, m), log[m], g)
  }

  lemma EntryUnlessSwept(log: Log, i: nat, g: Guid)
    requires i <= |log| && Last(Writes(log, g), i) >= 0 && Unused(log, i, g)
    ensures var k := Last(Writes(log, g), i);
            g in Entries(log, i)
            <==> forall m | k < m < i && Sweeps(log[m]) :: log[m].now <= WrittenEntry(log, k, g).expires
  {
    var k := Last(Writes(log, g), i);
    EntryIff(log, i, g);
    SinceLast(Writes(log, g), Voids(log, g), i);
    forall m | k < m < i
      ensures Voids(log, g)[m] <==> Sweeps(log[m]) && WrittenEntry(log, k, g).expires < log[m].now
    {
      LastStable(Writes(log, g), m, i);
    }
  }

  /**
   A selection that passes the checks against the last entry written for its GUID is admitted,
   however old the entry, exactly when no sweeping request has come after the entry's expiry.
   */
  lemma SelectAdmittedIff(log: Log, i: nat, g: Guid)
    requires i < |log| && log[i].event.Select? && log[i].event.select.guid == Some(g)
    requires var k := Last(Writes(log, g), i);
             k >= 0 && Unused(log, i, g) &&
             CheckedSelection(WrittenEntry(log, k, g), log[i].event.policy.coalitions, log[i].event.select) == None
    ensures var k := Last(Writes(log, g), i);
            Selects(Before(log, i), log[i], g)
            <==> forall m | k < m < i && Sweeps(log[m]) :: log[m].now <= WrittenEntry(log, k, g).expires
  {
    EntryUnlessSwept(log, i, g);
    EntryIff(log, i, g);
  }

  // ---- Expiry ----

  predicate Timed(log: Log) {
    forall i, j | 0 <= i < j < |log| :: log[i].now <= log[j].now
  }

  /** An entry expires at most 20 minutes after the step in progress, or 5 if a login wrote it. */
  lemma EntryExpiry(log: Log, n: nat, g: Guid)
    requires Timed(log) && n < |log| && g in Entries(log, n)
    ensures var k := Last(Writes(log, g), n);
            k >= 0 && Entries(log, n)[g].expires <=
              log[n].now + if Initializes(log[k], g) then INIT_LIFETIME else LOGIN_LIFETIME
  {
    EntryIff(log, n, g);
  }

  /** A guest joins, or a plugin login is granted, only soon after an initialisation or an earlier login. */
  lemma RecentOrigin(log: Log, i: nat, g: Guid)
    requires i < |log| && (GuestJoins(Before(log, i), log[i], g) || Grants(Before(log, i), log[i], g))
    ensures exists k: nat ::
      (InitializedAt(log, k, i, g) && log[i].now - log[k].now <= INIT_LIFETIME) ||
      (GrantedAt(log, k, i, g) && log[i].now - log[k].now <= LOGIN_LIFETIME)
  {
    EntryOrigin(log, i, g);
    assert log[i].now <= Entries(log, i)[g].expires;
    if k: nat :| InitializedAt(log, k, i, g) && Entries(log, i)[g] == InitEntry(log[k].now) {
      assert InitializedAt(log, k, i, g) && log[i].now - log[k].now <= INIT_LIFETIME;
    } else {
      var k: nat :| GrantedAt(log, k, i, g) && Entries(log, i)[g] == GrantedEntry(log[k]);
      assert GrantedAt(log, k, i, g) && log[i].now - log[k].now <= LOGIN_LIFETIME;
    }
  }

  /** UnitSelect has no such bound: it takes a login entry of any age, because it does not sweep. */
  lemma SelectAtAnyAge(g: Guid, delay: nat) returns (log: Log)
    ensures Timed(log) && FreshGuids(log) && |log| == 3
    ensures GrantedAt(log, 1, 2, g) && Selects(Before(log, 2), log[2], g)
    ensures log[2].now - log[1].now == delay
    ensures SelectOutcome(Entries(log, 2), log[2].event.policy, log[2].event.select) == Selected
  {
    var p := Policy([Coalition("A", "")], false, true, {"plugin"}, StandaloneMode);
    var init := InitRequest(SUPPORTED_VERSION, [SupportsStandalone], g);
    var result := PluginResult("name", [1], []);
    var login := LoginRequest(Some(g), "plugin", Some(result), Some("secret"));
    var select := SelectRequest(Some(g), "secret", "A1", "A", 1, true);
    log := [Step(0, Init(p, init)), Step(0, Login(p, login)), Step(delay, Select(p, select))];
    assert log[..0] == [];
    AfterStep(log, 0);
    AfterStep(log, 1);
    assert Entries(log, 1) == map[g := InitEntry(0)];
    var entry := LoginEntry("secret", result, 0);
    assert Entries(log, 2)[g] == entry;
    assert ToRole(1) in entry.roles by { assert entry.roles[0] == 1; }
    assert p.coalitions[0].name == "A";
    assert CheckUnitId("A1");
  }

  // ---- Roles ----

  /** Between admissions a client's role never rises, a guest stays a guest, and nobody else becomes one. */
  lemma {:induction false} RoleNeverRises(log: Log, i: nat, j: nat, g: Guid)
    requires i <= j <= |log| && g in Clients(log, i) && g in Clients(log, j)
    requires forall k | i <= k < j :: !Admits(Before(log, k), log[k], g)
    ensures Clients(log, j)[g].role <= Clients(log, i)[g].role
    ensures Clients(log, j)[g].role == GUEST <==> Clients(log, i)[g].role == GUEST
  {
    if i < j {
      var m := j - 1;
      AfterStep(log, m);
      PresenceStep(Before(log, m), log[m], g);
      RoleNeverRises(log, i, m, g);
      RoleStep(Before(log, m), log[m], g);
    }
  }

  lemma RoleStep(w: World, s: Step, g: Guid)
    requires g in w.control.registry.clients && g in Apply(w, s).control.registry.clients && !Admits(w, s, g)
    ensures var before, after := w.control.registry.clients[g].role, Apply(w, s).control.registry.clients[g].role;
            after <= before && (after == GUEST <==> before == GUEST)
  {
  }

  /** Some plugin login before step n granted this GUID the role or a higher one. */
  ghost predicate GrantedAtLeast(log: Log, n: nat, g: Guid, role: Role)
    requires n <= |log|
  {
    exists k: nat, r: Role :: GrantedAt(log, k, n, g) && r in GrantedEntry(log[k]).roles && role <= r
  }

  lemma GrantedLater(log: Log, m: nat, n: nat, g: Guid, role: Role, lower: Role)
    requires m <= n <= |log| && lower <= role && GrantedAtLeast(log, m, g, role)
    ensures GrantedAtLeast(log, n, g, lower)
  {
  }

  /** In every reachable state a client is a guest or has at most a role that a plugin granted to its GUID. */
  lemma {:induction false} RoleBound(log: Log, n: nat, g: Guid)
    requires n <= |log| && g in Clients(log, n)
    ensures Clients(log, n)[g].role == GUEST || GrantedAtLeast(log, n, g, Clients(log, n)[g].role)
  {
    var m := n - 1;
    AfterStep(log, m);
    if Selects(Before(log, m), log[m], g) {
      SelectNeedsLogin(log, m, g);
      var k: nat :| GrantedAt(log, k, m, g) && ToRole(log[m].event.select.role) in GrantedEntry(log[k]).roles;
      var role := ToRole(log[m].event.select.role);
      assert GrantedAtLeast(log, m, g, role);
      GrantedLater(log, m, n, g, role, role);
    } else if !GuestJoins(Before(log, m), log[m], g) {
      PresenceStep(Before(log, m), log[m], g);
      RoleStep(Before(log, m), log[m], g);
      RoleBound(log, m, g);
      if Clients(log, m)[g].role != GUEST {
        GrantedLater(log, m, n, g, Clients(log, m)[g].role, Clients(log, n)[g].role);
      }
    }
  }
}

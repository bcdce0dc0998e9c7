/**
 Whole runs of the control plane: any sequence of handler calls, each atomic, over the login
 entries, the registry and the update streams.
 */
module ControlRuns {
  import opened Basics
  import opened Histories
  import opened Settings
  import opened Registry
  import opened RadioService
  import opened Auth
  import Admin

  datatype World = World(control: ControlState, streams: set<Guid>)

  datatype Event =
    | Init(policy: Policy, init: InitRequest)
    | Guest(policy: Policy, guest: GuestRequest)
    | Login(policy: Policy, login: LoginRequest)
    | Select(policy: Policy, select: SelectRequest)
    | Update(coalitions: seq<Coalition>, client: Guid, update: InfoRequest)
    | UpdateRadios(client: Guid, radios: seq<PbRadio>, muted: bool)
    | Subscribe(client: Guid)
    | Disconnect(client: Guid)
    | Cleanup(staleAfter: Time)
    | Kick(client: Guid)
    | Ban(client: Guid, saved: bool)
    | Mute(client: Guid, muted: bool)

  datatype Step = Step(now: Time, event: Event)

  type Log = seq<Step>

  const START: World := World(ControlState(map[], Registry(map[], map[])), {})

  /** The effect of one handler, as its method ensures it. */
  function Apply(w: World, s: Step): World {
    var c := w.control;
    var reg := c.registry;
    match s.event
    case Init(p, r) => w.(control := InitStep(c, p, r, s.now))
    case Guest(p, r) => w.(control := GuestStep(c, p, r, s.now))
    case Login(p, r) => w.(control := LoginStep(c, p, r, s.now))
    case Select(p, r) => w.(control := SelectStep(c, p, r))
    case Update(coalitions, g, r) =>
      if g !in reg.clients then w
      else WithRegistry(w, reg.SetInfo(g, UpdatedInfo(reg.clients[g], r, coalitions, s.now)))
    case UpdateRadios(g, radios, muted) =>
      if g !in reg.radios then w else WithRegistry(w, reg.SetRadios(g, RadioInfo(StoredRadios(radios), muted)))
    case Subscribe(g) => w.(streams := w.streams + {g})
    case Disconnect(g) => WithRegistry(w, reg.Drop(g))
    case Cleanup(staleAfter) =>
      var gone := StaleSet(reg, w.streams, s.now, staleAfter);
      World(c.(registry := DropAll(reg, gone)), w.streams - gone)
    case Kick(g) => WithRegistry(w, reg.Kick(g))
    case Ban(g, saved) => if saved then WithRegistry(w, reg.Kick(g)) else w
    case Mute(g, muted) => WithRegistry(w, Admin.WithMuted(reg, g, muted))
  }

  function WithRegistry(w: World, r: Registry): World {
    w.(control := w.control.(registry := r))
  }

  function After(log: Log): World {
    if log == [] then START else Apply(After(log[..|log| - 1]), log[|log| - 1])
  }

  /** The state in which step i is taken. */
  function Before(log: Log, i: nat): World
    requires i <= |log|
  {
    After(log[..i])
  }

  lemma AfterStep(log: Log, i: nat)
    requires i < |log|
    ensures Before(log, i + 1) == Apply(Before(log, i), log[i])
  {
    assert log[..i + 1][..i] == log[..i];
  }

  function Clients(log: Log, i: nat): map<Guid, ClientInfo>
    requires i <= |log|
  {
    Before(log, i).control.registry.clients
  }

  function Radios(log: Log, i: nat): map<Guid, RadioInfo>
    requires i <= |log|
  {
    Before(log, i).control.registry.radios
  }

  function Entries(log: Log, i: nat): map<Guid, AuthEntry>
    requires i <= |log|
  {
    Before(log, i).control.auth
  }

  // ---- What a step does to one client ----

  predicate Selects(w: World, s: Step, g: Guid) {
    s.event.Select? && s.event.select.guid == Some(g) && SelectAdmits(w.control.auth, s.event.policy, s.event.select)
  }

  predicate GuestJoins(w: World, s: Step, g: Guid) {
    s.event.Guest? && s.event.guest.guid == Some(g) &&
    var r := GuestOutcome(w.control.auth, s.event.policy, s.event.guest, s.now);
    r.GuestAdmitted? || r.GuestTokenFailed?
  }

  predicate Admits(w: World, s: Step, g: Guid) {
    Selects(w, s, g) || GuestJoins(w, s, g)
  }

  predicate Clears(w: World, s: Step, g: Guid) {
    match s.event
    case Disconnect(h) => h == g
    case Cleanup(staleAfter) => g in w.streams && Stale(w.control.registry, g, s.now, staleAfter)
    case _ => false
  }

  /** Kicked, or banned with the ban list saved. */
  predicate Ousts(s: Step, g: Guid) {
    s.event == Kick(g) || s.event == Ban(g, true)
  }

  // ---- Pairing of the two maps ----

  function Admissions(log: Log, g: Guid): seq<bool> {
    seq(|log|, i requires 0 <= i < |log| => Admits(Before(log, i), log[i], g))
  }

  function Removals(log: Log, g: Guid): seq<bool> {
    seq(|log|, i requires 0 <= i < |log| => Clears(Before(log, i), log[i], g) || Ousts(log[i], g))
  }

  /** Admitted before step n, and neither cleared nor ousted since. */
  ghost predicate Joined(log: Log, n: nat, g: Guid)
    requires n <= |log|
  {
    Since(Admissions(log, g), Removals(log, g), n)
  }

  ghost function Oustings(log: Log, g: Guid): seq<bool> {
    seq(|log|, i requires 0 <= i < |log| => Ousts(log[i], g) && Joined(log, i, g))
  }

  function Renewals(log: Log, g: Guid): seq<bool> {
    seq(|log|, i requires 0 <= i < |log| =>
      Admits(Before(log, i), log[i], g) || Clears(Before(log, i), log[i], g))
  }

  /** Kicked or banned while present, and neither readmitted nor cleared since. */
  ghost predicate Orphaned(log: Log, n: nat, g: Guid)
    requires n <= |log|
  {
    Since(Oustings(log, g), Renewals(log, g), n)
  }

  /** How one step changes the presence of a client in each map. */
  lemma PresenceStep(w: World, s: Step, g: Guid)
    ensures var r, r' := w.control.registry, Apply(w, s).control.registry;
            (g in r'.clients <==> Admits(w, s, g) || (g in r.clients && !Clears(w, s, g) && !Ousts(s, g))) &&
            (g in r'.radios <==> Admits(w, s, g) || (g in r.radios && !Clears(w, s, g)))
    ensures !(Admits(w, s, g) && (Clears(w, s, g) || Ousts(s, g)))
    ensures !(Clears(w, s, g) && Ousts(s, g))
  {
  }

  /** A client is present exactly when it joined and nothing since has removed it. */
  lemma {:induction false} PresentIffJoined(log: Log, n: nat, g: Guid)
    requires n <= |log|
    ensures g in Clients(log, n) <==> Joined(log, n, g)
  {
    if n > 0 {
      PresentIffJoined(log, n - 1, g);
      AfterStep(log, n - 1);
      PresenceStep(Before(log, n - 1), log[n - 1], g);
      SinceStep(Admissions(log, g), Removals(log, g), n - 1);
    }
  }

  /**
   Exact pairing: every client has a radio entry, and the radio entries without a client are
   those of the clients kicked or banned while present and since neither readmitted nor cleared.
   */
  lemma {:induction false} ExactPairing(log: Log, n: nat, g: Guid)
    requires n <= |log|
    ensures g in Clients(log, n) ==> g in Radios(log, n)
    ensures g in Radios(log, n) && g !in Clients(log, n) <==> Orphaned(log, n, g)
  {
    if n > 0 {
      ExactPairing(log, n - 1, g);
      PresentIffJoined(log, n - 1, g);
      AfterStep(log, n - 1);
      PresenceStep(Before(log, n - 1), log[n - 1], g);
      SinceStep(Oustings(log, g), Renewals(log, g), n - 1);
    }
  }

  /** Synchronisation dereferences a missing client exactly when some orphan is outstanding. */
  lemma SyncSafeIff(log: Log, n: nat)
    requires n <= |log|
    ensures Radios(log, n).Keys <= Clients(log, n).Keys <==> forall g: Guid :: !Orphaned(log, n, g)
  {
    forall g: Guid
      ensures g in Radios(log, n) && g !in Clients(log, n) <==> Orphaned(log, n, g)
    {
      ExactPairing(log, n, g);
    }
  }

  /** The first synchronisation after kicking any present client hits the missing entry. */
  lemma KickBreaksSync(log: Log, g: Guid, now: Time)
    requires Joined(log, |log|, g)
    ensures var after := log + [Step(now, Kick(g))];
            !(Radios(after, |after|).Keys <= Clients(after, |after|).Keys)
  {
    var after, n := log + [Step(now, Kick(g))], |log|;
    PresentIffJoined(log, n, g);
    ExactPairing(log, n, g);
    AfterStep(after, n);
    assert after[..n] == log == log[..n] && after[..n + 1] == after;
  }

  // ---- How recently a client has updated itself ----

  predicate UpdatesSelf(w: World, s: Step, g: Guid) {
    s.event.Update? && s.event.client == g && g in w.control.registry.clients
  }

  function OwnUpdates(log: Log, g: Guid): seq<bool> {
    seq(|log|, i requires 0 <= i < |log| => UpdatesSelf(Before(log, i), log[i], g))
  }

  /** The client has updated its own information since it was last admitted. */
  predicate HasUpdated(log: Log, n: nat, g: Guid)
    requires n <= |log|
  {
    Last(OwnUpdates(log, g), n) > Last(Admissions(log, g), n)
  }

  function LastUpdateTime(log: Log, n: nat, g: Guid): Time
    requires n <= |log|
  {
    if HasUpdated(log, n, g) then log[Last(OwnUpdates(log, g), n)].now else ZERO_TIME
  }

  lemma LastUpdateStep(w: World, s: Step, g: Guid)
    requires g in Apply(w, s).control.registry.clients
    ensures var after := Apply(w, s).control.registry.clients[g];
            if Admits(w, s, g) then after.lastUpdate == ZERO_TIME && !UpdatesSelf(w, s, g)
            else g in w.control.registry.clients &&
                 after.lastUpdate ==
                   if UpdatesSelf(w, s, g) then s.now else w.control.registry.clients[g].lastUpdate
  {
  }

  /** A client's LastUpdate is the time of its last update since it was admitted, or zero. */
  lemma {:induction false} LastUpdateIs(log: Log, n: nat, g: Guid)
    requires n <= |log| && g in Clients(log, n)
    ensures Clients(log, n)[g].lastUpdate == LastUpdateTime(log, n, g)
  {
    if n > 0 {
      AfterStep(log, n - 1);
      LastUpdateStep(Before(log, n - 1), log[n - 1], g);
      if !Admits(Before(log, n - 1), log[n - 1], g) {
        LastUpdateIs(log, n - 1, g);
      }
    }
  }

  /**
   A client with an update stream survives a cleanup pass exactly when its last own update since
   it was admitted is recent enough; without one, only a limit of the longest duration saves it.
   */
  lemma SurvivesCleanupIff(log: Log, n: nat, g: Guid)
    requires n < |log| && log[n].event.Cleanup? && g in Clients(log, n) && g in Before(log, n).streams
    ensures g in Clients(log, n + 1) <==> Sub(log[n].now, LastUpdateTime(log, n, g)) <= log[n].event.staleAfter
    ensures !HasUpdated(log, n, g) && 0 <= log[n].now ==>
      (g in Clients(log, n + 1) <==> log[n].event.staleAfter >= MAX_DURATION)
    ensures var limit := log[n].event.staleAfter;
            -0x8000_0000_0000_0000 <= limit <= 0x7FFF_FFFF_FFFF_FFFF ==>
              (g in Clients(log, n + 1) <==>
                log[n].now - LastUpdateTime(log, n, g) <= limit || limit == 0x7FFF_FFFF_FFFF_FFFF)
    ensures g in Before(log, n + 1).streams <==> g in Clients(log, n + 1)
  {
    AfterStep(log, n);
    LastUpdateIs(log, n, g);
  }

  // ---- Requests concern only their own client ----

  predicate Concerns(w: World, s: Step, g: Guid) {
    match s.event
    case Init(_, _) => false
    case Guest(_, r) => r.guid == Some(g)
    case Login(_, _) => false
    case Select(_, r) => r.guid == Some(g)
    case Update(_, h, _) => h == g
    case UpdateRadios(h, _, _) => h == g
    case Subscribe(h) => h == g
    case Disconnect(h) => h == g
    case Cleanup(_) => Clears(w, s, g)
    case Kick(h) => h == g
    case Ban(h, _) => h == g
    case Mute(h, _) => h == g
  }

  /** A request of one client leaves the record, radios and stream of every other as they are. */
  lemma OthersStay(w: World, s: Step, g: Guid)
    requires !Concerns(w, s, g)
    ensures var r, r' := w.control.registry, Apply(w, s).control.registry;
            (g in r'.clients <==> g in r.clients) && (g in r.clients ==> r'.clients[g] == r.clients[g]) &&
            (g in r'.radios <==> g in r.radios) && (g in r.radios ==> r'.radios[g] == r.radios[g]) &&
            (g in Apply(w, s).streams <==> g in w.streams)
  {
  }
}

/**
 The login and update handlers at the grain of their locks: every lock-delimited section is a
 step of its own and the handlers of any number of requests interleave freely. Client records
 are heap objects, because UpdateClientInfo keeps writing through the pointer it looked up,
 even when the map has meanwhile dropped or replaced it.
 */
module Interleaving {
  import opened Basics
  import opened Settings
  import opened Registry
  import opened RadioService
  import opened Auth

  type Ref = nat
  type ThreadId = nat

  datatype UpdatePhase = WriteName | WriteUnitId | WriteCoalition | CheckRole | WriteRole | Stamp

  /** A handler between two of its steps, with the values it has read. */
  datatype Thread =
    | GuestChecked(g: Guid, info: ClientInfo)
    | LoginAsking(g: Guid)
    | LoginAnswered(g: Guid, result: PluginResult)
    | SelectReading(g: Guid, entry: AuthEntry)
    | SelectJoined(g: Guid)
    | RadiosChecked(g: Guid)
    | Updating(ref: Ref, req: InfoRequest, phase: UpdatePhase)

  datatype State = State(
    auth: map<Guid, AuthEntry>,
    clients: map<Guid, Ref>,
    radios: set<Guid>,        // the GUIDs with a radio entry
    heap: map<Ref, ClientInfo>,
    owner: map<Ref, Guid>,    // for whom each record was made
    threads: map<ThreadId, Thread>
  )

  const START: State := State(map[], map[], {}, map[], map[], map[])

  datatype Action =
    | Sweep(now: Time)
    | Initialize(g: Guid, now: Time)
    | GuestLookup(t: ThreadId, g: Guid, name: string, unitId: string, coalition: string)
    | GuestJoin(t: ThreadId, ref: Ref)
    | LoginLookup(t: ThreadId, g: Guid)
    | PluginAnswers(t: ThreadId, g: Guid, result: PluginResult)
    | LoginWrite(t: ThreadId, g: Guid, result: PluginResult, secret: string, now: Time)
    | SelectLookup(t: ThreadId, g: Guid)
    | SelectJoin(t: ThreadId, g: Guid, ref: Ref, coalitions: seq<Coalition>, selection: SelectRequest)
    | SelectRemove(t: ThreadId, g: Guid)
    | UpdateLookup(t: ThreadId, g: Guid, req: InfoRequest)
    | UpdateNext(t: ThreadId, coalitions: seq<Coalition>, now: Time)
    | RadiosLookup(t: ThreadId, g: Guid)
    | RadiosWrite(t: ThreadId, g: Guid)
    | Drop(g: Guid)          // disconnecting or cleaning up: both entries, under one lock
    | Oust(g: Guid)          // kicking or banning: the client entry
    | Abandon(t: ThreadId)   // a login or selection that returns early

  predicate Enabled(s: State, a: Action) {
    match a
    case Sweep(_) => true
    case Initialize(_, _) => true
    case GuestLookup(t, g, _, _, _) => t !in s.threads && g in s.auth
    case GuestJoin(t, ref) => t in s.threads && s.threads[t].GuestChecked? && ref !in s.heap
    case LoginLookup(t, g) => t !in s.threads && g in s.auth
    case PluginAnswers(t, g, _) => t in s.threads && s.threads[t] == LoginAsking(g)
    case LoginWrite(t, g, result, _, _) => t in s.threads && s.threads[t] == LoginAnswered(g, result)
    case SelectLookup(t, g) => t !in s.threads && g in s.auth
    case SelectJoin(t, g, ref, coalitions, selection) =>
      t in s.threads && s.threads[t].SelectReading? && s.threads[t].g == g && ref !in s.heap &&
      CheckedSelection(s.threads[t].entry, coalitions, selection) == None
    case SelectRemove(t, g) => t in s.threads && s.threads[t] == SelectJoined(g)
    case UpdateLookup(t, g, _) => t !in s.threads && g in s.clients
    case UpdateNext(t, _, _) => t in s.threads && s.threads[t].Updating? && s.threads[t].ref in s.heap
    case RadiosLookup(t, g) => t !in s.threads && g in s.radios
    case RadiosWrite(t, g) => t in s.threads && s.threads[t] == RadiosChecked(g)
    case Drop(_) => true
    case Oust(_) => true
    case Abandon(t) =>
      t in s.threads &&
      var th := s.threads[t];
      th.GuestChecked? || th.LoginAsking? || th.LoginAnswered? || th.SelectReading?
  }

  /** AddClient: the map points to a new record. */
  function Join(s: State, g: Guid, ref: Ref, info: ClientInfo): State {
    s.(clients := s.clients[g := ref], radios := s.radios + {g},
       heap := s.heap[ref := info], owner := s.owner[ref := g])
  }

  /** The record that a selection joins with. */
  function SelectedInfo(entry: AuthEntry, r: SelectRequest): ClientInfo {
    ClientInfo(entry.name, r.unitId, r.coalition, ToRole(r.role), ZERO_TIME)
  }

  /** One field of an update: what the record becomes, and where the handler goes on, if it does. */
  function UpdateField(info: ClientInfo, req: InfoRequest, phase: UpdatePhase, coalitions: seq<Coalition>, now: Time)
    : (ClientInfo, Option<UpdatePhase>)
  {
    match phase
    case WriteName => (if CheckUsername(req.name) then info.(name := req.name) else info, Some(WriteUnitId))
    case WriteUnitId => (if CheckUnitId(req.unitId) then info.(unitId := req.unitId) else info, Some(WriteCoalition))
    case WriteCoalition =>
      (if IsCoalition(coalitions, req.coalition) then info.(coalition := req.coalition) else info, Some(CheckRole))
    case CheckRole => (info, Some(if CanSwapRoles(info.role, ToRole(req.roleId)) then WriteRole else Stamp))
    case WriteRole => (info.(role := ToRole(req.roleId)), Some(Stamp))
    case Stamp => (info.(lastUpdate := now), None)
  }

  function Do(s: State, a: Action): State
    requires Enabled(s, a)
  {
    match a
    case Sweep(now) => s.(auth := Swept(s.auth, now))
    case Initialize(g, now) => s.(auth := s.auth[g := InitEntry(now)])
    case GuestLookup(t, g, name, unitId, coalition) =>
      s.(threads := s.threads[t := GuestChecked(g, ClientInfo(name, unitId, coalition, GUEST, ZERO_TIME))])
    case GuestJoin(t, ref) =>
      var th := s.threads[t];
      Join(s, th.g, ref, th.info).(threads := s.threads - {t})
    case LoginLookup(t, g) => s.(threads := s.threads[t := LoginAsking(g)])
    case PluginAnswers(t, g, result) => s.(threads := s.threads[t := LoginAnswered(g, result)])
    case LoginWrite(t, g, result, secret, now) =>
      s.(auth := s.auth[g := LoginEntry(secret, result, now)], threads := s.threads - {t})
    case SelectLookup(t, g) => s.(threads := s.threads[t := SelectReading(g, s.auth[g])])
    case SelectJoin(t, g, ref, _, r) =>
      Join(s, g, ref, SelectedInfo(s.threads[t].entry, r)).(threads := s.threads[t := SelectJoined(g)])
    case SelectRemove(t, g) => s.(auth := s.auth - {g}, threads := s.threads - {t})
    case UpdateLookup(t, g, req) => s.(threads := s.threads[t := Updating(s.clients[g], req, WriteName)])
    case UpdateNext(t, coalitions, now) =>
      var th := s.threads[t];
      var (info, next) := UpdateField(s.heap[th.ref], th.req, th.phase, coalitions, now);
      s.(heap := s.heap[th.ref := info],
         threads := if next.Some? then s.threads[t := th.(phase := next.value)] else s.threads - {t})
    case RadiosLookup(t, g) => s.(threads := s.threads[t := RadiosChecked(g)])
    case RadiosWrite(t, g) => s.(radios := s.radios + {g}, threads := s.threads - {t})
    case Drop(g) => s.(clients := s.clients - {g}, radios := s.radios - {g})
    case Oust(g) => s.(clients := s.clients - {g})
    case Abandon(t) => s.(threads := s.threads - {t})
  }

  /** The client g is admitted. */
  predicate Admits(s: State, a: Action, g: Guid) {
    (a.SelectJoin? && a.g == g) ||
    (a.GuestJoin? && a.t in s.threads && s.threads[a.t].GuestChecked? && s.threads[a.t].g == g)
  }

  /** The run is possible: each action is enabled where it happens. */
  predicate Possible(s: State, run: seq<Action>)
    decreases run, 0
  {
    run == [] || (Possible(s, run[..|run| - 1]) && Enabled(Final(s, run[..|run| - 1]), run[|run| - 1]))
  }

  function Final(s: State, run: seq<Action>): State
    requires Possible(s, run)
    decreases run, 1
  {
    if run == [] then s else Do(Final(s, run[..|run| - 1]), run[|run| - 1])
  }

  lemma {:induction false} PossiblePrefix(s: State, run: seq<Action>, k: nat)
    requires Possible(s, run) && k <= |run|
    ensures Possible(s, run[..k])
  {
    if k < |run| {
      PossiblePrefix(s, run[..|run| - 1], k);
      assert run[..|run| - 1][..k] == run[..k];
    } else {
      assert run[..k] == run;
    }
  }

  /** The state in which step k of a run from the start is taken. */
  function At(run: seq<Action>, k: nat): State
    requires Possible(START, run) && k <= |run|
  {
    PossiblePrefix(START, run, k);
    Final(START, run[..k])
  }

  lemma AtStep(run: seq<Action>, k: nat)
    requires Possible(START, run) && k < |run|
    ensures Enabled(At(run, k), run[k]) && At(run, k + 1) == Do(At(run, k), run[k])
  {
    PossiblePrefix(START, run, k + 1);
    var longer := run[..k + 1];
    assert longer[..|longer| - 1] == run[..k] && longer[|longer| - 1] == run[k];
    LastStep(START, longer);
  }

  lemma LastStep(s: State, run: seq<Action>)
    requires Possible(s, run) && run != []
    ensures var before, a := run[..|run| - 1], run[|run| - 1];
            Possible(s, before) && Enabled(Final(s, before), a) && Final(s, run) == Do(Final(s, before), a)
  {
  }

  // ---- The role bound ----

  /** A login of g was granted with this role, given in the low 8 bits of one the plugin answered. */
  predicate GrantedIn(run: seq<Action>, g: Guid, role: Role) {
    exists k | 0 <= k < |run| :: run[k].LoginWrite? && run[k].g == g && role in ToRoles(run[k].result.roles)
  }

  ghost predicate Bounded(run: seq<Action>, g: Guid, role: Role) {
    role == GUEST || exists r: Role :: role <= r && GrantedIn(run, g, r)
  }

  ghost predicate RolesGranted(run: seq<Action>, g: Guid, roles: seq<Role>) {
    forall r | r in roles :: GrantedIn(run, g, r)
  }

  /** What a handler in progress carries is bounded too. */
  ghost predicate ThreadInv(s: State, run: seq<Action>, th: Thread) {
    match th
    case GuestChecked(g, info) => info.role == GUEST
    case LoginAsking(g) => true
    case LoginAnswered(g, result) => true
    case SelectReading(g, entry) => RolesGranted(run, g, entry.roles)
    case SelectJoined(g) => true
    case RadiosChecked(g) => true
    case Updating(ref, req, phase) =>
      ref in s.heap && (phase == WriteRole ==> ref in s.owner && Bounded(run, s.owner[ref], ToRole(req.roleId)))
  }

  ghost predicate Inv(s: State, run: seq<Action>) {
    && (forall g | g in s.auth :: RolesGranted(run, g, s.auth[g].roles))
    && s.owner.Keys == s.heap.Keys
    && (forall ref | ref in s.heap :: Bounded(run, s.owner[ref], s.heap[ref].role))
    && (forall g | g in s.clients :: s.clients[g] in s.heap && s.owner[s.clients[g]] == g)
    && (forall t | t in s.threads :: ThreadInv(s, run, s.threads[t]))
  }

  lemma GrantedLater(run: seq<Action>, a: Action, g: Guid, role: Role)
    requires GrantedIn(run, g, role)
    ensures GrantedIn(run + [a], g, role)
  {
    var k :| 0 <= k < |run| && run[k].LoginWrite? && run[k].g == g && role in ToRoles(run[k].result.roles);
    assert (run + [a])[k] == run[k];
  }

  lemma BoundedLater(run: seq<Action>, a: Action, g: Guid, role: Role)
    requires Bounded(run, g, role)
    ensures Bounded(run + [a], g, role)
  {
    if role != GUEST {
      var r: Role :| role <= r && GrantedIn(run, g, r);
      GrantedLater(run, a, g, r);
    }
  }

  /** More history does no harm. */
  lemma InvLater(s: State, run: seq<Action>, a: Action)
    requires Inv(s, run)
    ensures Inv(s, run + [a])
  {
    forall g: Guid, r: Role | GrantedIn(run, g, r)
      ensures GrantedIn(run + [a], g, r)
    {
      GrantedLater(run, a, g, r);
    }
    forall g: Guid, r: Role | Bounded(run, g, r)
      ensures Bounded(run + [a], g, r)
    {
      BoundedLater(run, a, g, r);
    }
    forall t | t in s.threads
      ensures ThreadInv(s, run + [a], s.threads[t])
    {
      assert ThreadInv(s, run, s.threads[t]);
    }
  }

  lemma WriteIsGranted(run: seq<Action>, a: Action)
    requires a.LoginWrite? && run != [] && run[|run| - 1] == a
    ensures RolesGranted(run, a.g, ToRoles(a.result.roles))
  {
  }

  /** A join with a bounded role, after which the joining handler ends or has one step left. */
  lemma JoinKeeps(s: State, run: seq<Action>, g: Guid, ref: Ref, info: ClientInfo, threads: map<ThreadId, Thread>)
    requires Inv(s, run) && ref !in s.heap && Bounded(run, g, info.role)
    requires forall t | t in threads :: (t in s.threads && threads[t] == s.threads[t]) || threads[t].SelectJoined?
    ensures Inv(Join(s, g, ref, info).(threads := threads), run)
  {
    var s' := Join(s, g, ref, info).(threads := threads);
    forall t | t in threads
      ensures ThreadInv(s', run, threads[t])
    {
      if t in s.threads {
        assert ThreadInv(s, run, s.threads[t]);
      }
    }
  }

  /** Only entries, radios and threads change, and what they gain is bounded. */
  lemma TablesKeep(s: State, run: seq<Action>, auth: map<Guid, AuthEntry>, radios: set<Guid>,
                   threads: map<ThreadId, Thread>)
    requires Inv(s, run)
    requires forall g | g in auth :: RolesGranted(run, g, auth[g].roles)
    requires forall t | t in threads :: (t in s.threads && threads[t] == s.threads[t]) || ThreadInv(s, run, threads[t])
    ensures Inv(s.(auth := auth, radios := radios, threads := threads), run)
  {
    var s' := s.(auth := auth, radios := radios, threads := threads);
    forall t | t in threads
      ensures ThreadInv(s', run, threads[t])
    {
      assert ThreadInv(s, run, threads[t]);
    }
  }

  lemma UpdateKeeps(s: State, run: seq<Action>, a: Action)
    requires a.UpdateNext? && Inv(s, run) && Enabled(s, a)
    ensures Inv(Do(s, a), run)
  {
    var s', th := Do(s, a), s.threads[a.t];
    assert ThreadInv(s, run, th);
    forall t | t in s'.threads
      ensures ThreadInv(s', run, s'.threads[t])
    {
      if t != a.t {
        assert ThreadInv(s, run, s.threads[t]);
      }
    }
  }

  /** Each step keeps the invariant, with the history that includes the step. */
  lemma InvStep(s: State, run: seq<Action>, a: Action)
    requires run != [] && run[|run| - 1] == a && Inv(s, run) && Enabled(s, a)
    ensures Inv(Do(s, a), run)
  {
    if a.UpdateNext? {
      UpdateKeeps(s, run, a);
    } else if a.GuestJoin? || a.SelectJoin? {
      var th := s.threads[a.t];
      assert ThreadInv(s, run, th);
      var s' := Do(s, a);
      JoinKeeps(s, run, th.g, a.ref, s'.heap[a.ref], s'.threads);
    } else if a.Drop? || a.Oust? {
      RemoveKeeps(s, run, a.g, Do(s, a).radios);
    } else {
      if a.LoginWrite? {
        WriteIsGranted(run, a);
      }
      TablesKeep(s, run, Do(s, a).auth, Do(s, a).radios, Do(s, a).threads);
    }
  }

  lemma RemoveKeeps(s: State, run: seq<Action>, g: Guid, radios: set<Guid>)
    requires Inv(s, run)
    ensures Inv(s.(clients := s.clients - {g}, radios := radios), run)
  {
    var s' := s.(clients := s.clients - {g}, radios := radios);
    forall t | t in s.threads
      ensures ThreadInv(s', run, s.threads[t])
    {
      assert ThreadInv(s, run, s.threads[t]);
    }
  }

  lemma {:induction false} InvAlways(run: seq<Action>)
    requires Possible(START, run)
    ensures Inv(Final(START, run), run)
  {
    if run != [] {
      var before, a := run[..|run| - 1], run[|run| - 1];
      InvAlways(before);
      InvLater(Final(START, before), before, a);
      assert before + [a] == run;
      InvStep(Final(START, before), run, a);
    }
  }

  /**
   However the handlers interleave, every client is a guest or has at most a role that a plugin
   granted to its own GUID.
   */
  lemma RoleBound(run: seq<Action>, g: Guid)
    requires Possible(START, run) && g in Final(START, run).clients
    ensures var s := Final(START, run);
            s.clients[g] in s.heap && Bounded(run, g, s.heap[s.clients[g]].role)
  {
    InvAlways(run);
  }

  // ---- Without interruption the steps make up the atomic handlers ----

  lemma Extend(s: State, run: seq<Action>, a: Action)
    requires Possible(s, run) && Enabled(Final(s, run), a)
    ensures Possible(s, run + [a]) && Final(s, run + [a]) == Do(Final(s, run), a)
  {
    assert (run + [a])[..|run|] == run;
  }

  /** State f, except that the record at ref is info and thread t is in the given phase of its update. */
  function Midway(f: State, t: ThreadId, ref: Ref, info: ClientInfo, req: InfoRequest, phase: UpdatePhase): State {
    f.(heap := f.heap[ref := info], threads := f.threads[t := Updating(ref, req, phase)])
  }

  function Finished(f: State, t: ThreadId, ref: Ref, info: ClientInfo): State {
    f.(heap := f.heap[ref := info], threads := f.threads - {t})
  }

  /** One more field of an update. */
  lemma NextField(s: State, run: seq<Action>, f: State, t: ThreadId, ref: Ref, info: ClientInfo, req: InfoRequest,
                  phase: UpdatePhase, coalitions: seq<Coalition>, now: Time)
    returns (run': seq<Action>)
    requires Possible(s, run) && Final(s, run) == Midway(f, t, ref, info, req, phase)
    ensures run <= run' && Possible(s, run')
    ensures var (info', next) := UpdateField(info, req, phase, coalitions, now);
            Final(s, run') == if next.Some? then Midway(f, t, ref, info', req, next.value) else Finished(f, t, ref, info')
  {
    var a := UpdateNext(t, coalitions, now);
    var m := Final(s, run);
    var (info', next) := UpdateField(info, req, phase, coalitions, now);
    Extend(s, run, a);
    run' := run + [a];
    assert m.heap[ref := info'] == f.heap[ref := info'];
    if next.Some? {
      assert m.threads[t := Updating(ref, req, next.value)] == f.threads[t := Updating(ref, req, next.value)];
    } else {
      assert m.threads - {t} == f.threads - {t};
    }
  }

  /** The record once the name, unit and coalition of an update are written. */
  function FirstFields(info: ClientInfo, req: InfoRequest, coalitions: seq<Coalition>): ClientInfo {
    UpdatedInfo(info, req, coalitions, info.lastUpdate).(role := info.role)
  }

  /** From the lookup to where the role is about to be checked. */
  lemma UpdateUpToCheck(s: State, before: seq<Action>, t: ThreadId, g: Guid, req: InfoRequest,
                        coalitions: seq<Coalition>)
    returns (run: seq<Action>)
    requires Possible(s, before)
    requires var f := Final(s, before); t !in f.threads && g in f.clients && f.clients[g] in f.heap
    ensures Possible(s, run) && before <= run
    ensures var f := Final(s, before); var ref := f.clients[g];
            Final(s, run) == Midway(f, t, ref, FirstFields(f.heap[ref], req, coalitions), req, CheckRole)
  {
    var f := Final(s, before);
    var ref, info := f.clients[g], f.heap[f.clients[g]];
    Extend(s, before, UpdateLookup(t, g, req));
    run := before + [UpdateLookup(t, g, req)];
    assert f.heap == f.heap[ref := info];
    run := NextField(s, run, f, t, ref, info, req, WriteName, coalitions, 0);
    info := UpdateField(info, req, WriteName, coalitions, 0).0;
    run := NextField(s, run, f, t, ref, info, req, WriteUnitId, coalitions, 0);
    info := UpdateField(info, req, WriteUnitId, coalitions, 0).0;
    run := NextField(s, run, f, t, ref, info, req, WriteCoalition, coalitions, 0);
  }

  /** The role check and, if it passes, the write. */
  lemma RoleFields(s: State, run: seq<Action>, f: State, t: ThreadId, ref: Ref, info: ClientInfo, req: InfoRequest,
                   coalitions: seq<Coalition>)
    returns (run': seq<Action>)
    requires Possible(s, run) && Final(s, run) == Midway(f, t, ref, info, req, CheckRole)
    ensures run <= run' && Possible(s, run')
    ensures var role := if CanSwapRoles(info.role, ToRole(req.roleId)) then ToRole(req.roleId) else info.role;
            Final(s, run') == Midway(f, t, ref, info.(role := role), req, Stamp)
  {
    run' := NextField(s, run, f, t, ref, info, req, CheckRole, coalitions, 0);
    assert UpdateField(info, req, CheckRole, coalitions, 0).0 == info == info.(role := info.role);
    if CanSwapRoles(info.role, ToRole(req.roleId)) {
      assert Final(s, run') == Midway(f, t, ref, info, req, WriteRole);
      run' := NextField(s, run', f, t, ref, info, req, WriteRole, coalitions, 0);
    }
  }

  /** An update that nobody interrupts does to its record what UpdateClientInfo is specified to do. */
  lemma UninterruptedUpdate(s: State, before: seq<Action>, t: ThreadId, g: Guid, req: InfoRequest,
                            coalitions: seq<Coalition>, now: Time)
    returns (run: seq<Action>)
    requires Possible(s, before)
    requires var f := Final(s, before); t !in f.threads && g in f.clients && f.clients[g] in f.heap
    ensures Possible(s, run) && before <= run
    ensures var f := Final(s, before); var ref := f.clients[g];
            Final(s, run) == f.(heap := f.heap[ref := UpdatedInfo(f.heap[ref], req, coalitions, now)])
  {
    var f := Final(s, before);
    var ref, updated := f.clients[g], UpdatedInfo(f.heap[f.clients[g]], req, coalitions, now);
    var info := FirstFields(f.heap[ref], req, coalitions);
    run := UpdateUpToCheck(s, before, t, g, req, coalitions);
    run := RoleFields(s, run, f, t, ref, info, req, coalitions);
    run := NextField(s, run, f, t, ref, info.(role := updated.role), req, Stamp, coalitions, now);
    assert f.threads - {t} == f.threads;
  }

  /** The lookup and the join of a selection. */
  lemma SelectUpToJoin(s: State, before: seq<Action>, t: ThreadId, g: Guid, ref: Ref, coalitions: seq<Coalition>,
                       r: SelectRequest)
    returns (run: seq<Action>)
    requires Possible(s, before)
    requires var f := Final(s, before);
             t !in f.threads && ref !in f.heap && g in f.auth && CheckedSelection(f.auth[g], coalitions, r) == None
    ensures run == before + [SelectLookup(t, g), SelectJoin(t, g, ref, coalitions, r)] && Possible(s, run)
    ensures var f := Final(s, before);
            Final(s, run) ==
              Join(f, g, ref, SelectedInfo(f.auth[g], r)).(threads := f.threads[t := SelectJoined(g)])
  {
    var f := Final(s, before);
    Extend(s, before, SelectLookup(t, g));
    run := before + [SelectLookup(t, g)];
    assert Final(s, run) == f.(threads := f.threads[t := SelectReading(g, f.auth[g])]);
    Extend(s, run, SelectJoin(t, g, ref, coalitions, r));
    run := run + [SelectJoin(t, g, ref, coalitions, r)];
    assert Final(s, run).threads == f.threads[t := SelectJoined(g)];
  }

  lemma SelectSteps(s: State, before: seq<Action>, t: ThreadId, g: Guid, ref: Ref, coalitions: seq<Coalition>,
                    r: SelectRequest)
    returns (run: seq<Action>)
    requires Possible(s, before)
    requires var f := Final(s, before);
             t !in f.threads && ref !in f.heap && g in f.auth && CheckedSelection(f.auth[g], coalitions, r) == None
    ensures run == before + [SelectLookup(t, g), SelectJoin(t, g, ref, coalitions, r), SelectRemove(t, g)]
    ensures Possible(s, run)
    ensures var f := Final(s, before);
            Final(s, run) == Join(f, g, ref, SelectedInfo(f.auth[g], r)).(auth := f.auth - {g})
  {
    run := SelectUpToJoin(s, before, t, g, ref, coalitions, r);
    Extend(s, run, SelectRemove(t, g));
    run := run + [SelectRemove(t, g)];
    assert Final(s, run).threads == Final(s, before).threads;
  }

  /** A selection that nobody interrupts uses up the entry and admits the client as UnitSelect is specified to do. */
  lemma UninterruptedSelect(s: State, before: seq<Action>, t: ThreadId, ref: Ref, r: SelectRequest, p: Policy,
                            c: ControlState)
    returns (run: seq<Action>)
    requires Possible(s, before)
    requires var f := Final(s, before);
             t !in f.threads && ref !in f.heap && c.auth == f.auth && SelectAdmits(f.auth, p, r)
    ensures Possible(s, run) && before <= run
    ensures var g, f, c' := r.guid.value, Final(s, before), SelectStep(c, p, r);
            Final(s, run) == Join(f, g, ref, c'.registry.clients[g]).(auth := c'.auth)
  {
    run := SelectSteps(s, before, t, r.guid.value, ref, p.coalitions, r);
  }

  /** An initialisation that nobody interrupts does to the entries what InitAuth is specified to do. */
  lemma UninterruptedInit(s: State, before: seq<Action>, r: InitRequest, p: Policy, c: ControlState, now: Time)
    returns (run: seq<Action>)
    requires Possible(s, before) && c.auth == Final(s, before).auth && InitOutcome(p, r).Initialized?
    ensures Possible(s, run) && before <= run
    ensures Final(s, run) == Final(s, before).(auth := InitStep(c, p, r, now).auth)
  {
    Extend(s, before, Sweep(now));
    run := before + [Sweep(now)];
    Extend(s, run, Initialize(r.newGuid, now));
    run := run + [Initialize(r.newGuid, now)];
  }

  /** A login up to the answer of the plugin. */
  lemma LoginUpToAnswer(s: State, before: seq<Action>, t: ThreadId, g: Guid, result: PluginResult)
    returns (run: seq<Action>)
    requires Possible(s, before) && t !in Final(s, before).threads && g in Final(s, before).auth
    ensures run == before + [LoginLookup(t, g), PluginAnswers(t, g, result)] && Possible(s, run)
    ensures var f := Final(s, before);
            Final(s, run) == f.(threads := f.threads[t := LoginAnswered(g, result)])
  {
    var f := Final(s, before);
    Extend(s, before, LoginLookup(t, g));
    run := before + [LoginLookup(t, g)];
    assert Final(s, run) == f.(threads := f.threads[t := LoginAsking(g)]);
    Extend(s, run, PluginAnswers(t, g, result));
    run := run + [PluginAnswers(t, g, result)];
    assert Final(s, run).threads == f.threads[t := LoginAnswered(g, result)];
  }

  lemma LoginWrites(s: State, before: seq<Action>, t: ThreadId, g: Guid, result: PluginResult, secret: string,
                    now: Time, threads: map<ThreadId, Thread>)
    returns (run: seq<Action>)
    requires Possible(s, before) && t !in threads
    requires Final(s, before).threads == threads[t := LoginAnswered(g, result)]
    ensures run == before + [LoginWrite(t, g, result, secret, now)] && Possible(s, run)
    ensures var f := Final(s, before);
            Final(s, run) == f.(auth := f.auth[g := LoginEntry(secret, result, now)], threads := threads)
  {
    Extend(s, before, LoginWrite(t, g, result, secret, now));
    run := before + [LoginWrite(t, g, result, secret, now)];
    assert Final(s, run).threads == threads;
  }

  /** A granted login that nobody interrupts does to the entries what Login is specified to do. */
  lemma UninterruptedLogin(s: State, before: seq<Action>, t: ThreadId, r: LoginRequest, p: Policy, c: ControlState,
                           now: Time)
    returns (run: seq<Action>)
    requires Possible(s, before) && t !in Final(s, before).threads && c.auth == Final(s, before).auth
    requires LoginOutcome(c.auth, p, r, now).Granted?
    ensures Possible(s, run) && before <= run
    ensures Final(s, run) == Final(s, before).(auth := LoginStep(c, p, r, now).auth)
  {
    var f, g := Final(s, before), r.guid.value;
    Extend(s, before, Sweep(now));
    run := before + [Sweep(now)];
    assert Final(s, run) == f.(auth := Swept(f.auth, now));
    run := LoginUpToAnswer(s, run, t, g, r.answer.value);
    run := LoginWrites(s, run, t, g, r.answer.value, r.secret.value, now, f.threads);
  }

  lemma GuestSteps(s: State, before: seq<Action>, t: ThreadId, g: Guid, ref: Ref, name: string, unitId: string,
                   coalition: string)
    returns (run: seq<Action>)
    requires Possible(s, before)
    requires var f := Final(s, before); t !in f.threads && ref !in f.heap && g in f.auth
    ensures Possible(s, run) && before <= run
    ensures Final(s, run) == Join(Final(s, before), g, ref, ClientInfo(name, unitId, coalition, GUEST, ZERO_TIME))
  {
    var f := Final(s, before);
    Extend(s, before, GuestLookup(t, g, name, unitId, coalition));
    run := before + [GuestLookup(t, g, name, unitId, coalition)];
    var checked := GuestChecked(g, ClientInfo(name, unitId, coalition, GUEST, ZERO_TIME));
    assert Final(s, run) == f.(threads := f.threads[t := checked]);
    Extend(s, run, GuestJoin(t, ref));
    run := run + [GuestJoin(t, ref)];
    assert Final(s, run).threads == f.threads;
  }

  /** A guest's login that nobody interrupts joins as GuestLogin is specified to. */
  lemma UninterruptedGuest(s: State, before: seq<Action>, t: ThreadId, ref: Ref, r: GuestRequest, p: Policy,
                           c: ControlState, now: Time)
    returns (run: seq<Action>)
    requires Possible(s, before)
    requires var f := Final(s, before); t !in f.threads && ref !in f.heap && c.auth == f.auth
    requires var out := GuestOutcome(c.auth, p, r, now); out.GuestAdmitted? || out.GuestTokenFailed?
    ensures Possible(s, run) && before <= run
    ensures var g, f, c' := r.guid.value, Final(s, before), GuestStep(c, p, r, now);
            Final(s, run) == Join(f, g, ref, c'.registry.clients[g]).(auth := c'.auth)
  {
    var f := Final(s, before);
    Extend(s, before, Sweep(now));
    run := before + [Sweep(now)];
    assert Final(s, run) == f.(auth := Swept(f.auth, now));
    var coalition := GuestOutcome(c.auth, p, r, now).coalition;
    run := GuestSteps(s, run, t, r.guid.value, ref, r.name, r.unitId, coalition);
  }
}

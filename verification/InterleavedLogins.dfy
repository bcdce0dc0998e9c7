/** When one login entry admits two selections, over all interleavings of the handlers' steps. */
module InterleavedLogins {
  import opened Basics
  import opened Settings
  import opened Registry
  import opened RadioService
  import opened Auth
  import opened Interleaving

  /** A selection or plugin login of g. */
  predicate Serves(th: Thread, g: Guid) {
    (th.LoginAsking? || th.LoginAnswered? || th.SelectReading? || th.SelectJoined?) && th.g == g
  }

  predicate Joins(a: Action, g: Guid) {
    a.SelectJoin? && a.g == g
  }

  predicate Removes(a: Action, g: Guid) {
    a.SelectRemove? && a.g == g
  }

  predicate Looks(a: Action, t: ThreadId, g: Guid) {
    (a.SelectLookup? || a.LoginLookup?) && a.t == t && a.g == g
  }

  /** The step by which a selection admits the client, or a login writes the entry. */
  predicate Writes(a: Action, t: ThreadId, g: Guid) {
    (a.SelectJoin? || a.LoginWrite?) && a.t == t && a.g == g
  }

  /** uuid.New never repeats itself. */
  ghost predicate InitializedOnce(run: seq<Action>, g: Guid) {
    forall i, j | 0 <= i < j < |run| && run[i].Initialize? && run[j].Initialize? :: !(run[i].g == g == run[j].g)
  }

  /** Thread t is in one and the same selection or login of g from step r up to step n. */
  predicate InProgress(run: seq<Action>, t: ThreadId, g: Guid, r: nat, n: nat)
    requires Possible(START, run) && n <= |run|
  {
    forall k | r <= k <= n :: t in At(run, k).threads && Serves(At(run, k).threads[t], g)
  }

  /** A selection or login of g other than the one that removes the entry in step r is in progress then, and writes in step w. */
  predicate Straddles(run: seq<Action>, t: ThreadId, g: Guid, r: nat, w: nat)
    requires Possible(START, run)
  {
    r < w < |run| && Removes(run[r], g) && t != run[r].t && Writes(run[w], t, g) && InProgress(run, t, g, r, w)
  }

  // ---- One step ----

  lemma ServesStep(s: State, a: Action, t: ThreadId, g: Guid)
    requires Enabled(s, a) && t in Do(s, a).threads && Serves(Do(s, a).threads[t], g)
    ensures (t in s.threads && Serves(s.threads[t], g)) || (Looks(a, t, g) && g in s.auth)
  {
  }

  /** What a step does to the entry of g: it appears only by initialising it or at the end of a login. */
  lemma EntryStep(s: State, a: Action, g: Guid)
    requires Enabled(s, a) && g in Do(s, a).auth
    ensures !Removes(a, g)
    ensures g in s.auth || (a.Initialize? && a.g == g) ||
            (a.LoginWrite? && a.g == g && Serves(s.threads[a.t], g))
  {
  }

  /** A selection that has joined can only go on to remove the entry. */
  lemma JoinedStep(s: State, a: Action, t: ThreadId, g: Guid)
    requires Enabled(s, a) && t in s.threads && s.threads[t] == SelectJoined(g)
    ensures Removes(a, g) || (t in Do(s, a).threads && Do(s, a).threads[t] == SelectJoined(g))
  {
  }

  // ---- Whole runs ----

  /** A selection or login in progress was so at step r already, or has since found the entry of g. */
  lemma {:induction false} SinceOrLookedUp(run: seq<Action>, r: nat, n: nat, t: ThreadId, g: Guid)
    requires Possible(START, run) && r <= n <= |run|
    requires t in At(run, n).threads && Serves(At(run, n).threads[t], g)
    ensures InProgress(run, t, g, r, n) || exists l :: r <= l < n && Looks(run[l], t, g) && g in At(run, l).auth
  {
    if r < n {
      AtStep(run, n - 1);
      ServesStep(At(run, n - 1), run[n - 1], t, g);
      if !Looks(run[n - 1], t, g) {
        SinceOrLookedUp(run, r, n - 1, t, g);
      }
    }
  }

  /** Whoever has an entry or a handler in progress was once initialised. */
  lemma {:induction false} WasInitialized(run: seq<Action>, n: nat, g: Guid)
    requires Possible(START, run) && n <= |run|
    requires g in At(run, n).auth || exists t :: t in At(run, n).threads && Serves(At(run, n).threads[t], g)
    ensures exists k :: 0 <= k < n && run[k].Initialize? && run[k].g == g
  {
    if n > 0 {
      var s, a := At(run, n - 1), run[n - 1];
      AtStep(run, n - 1);
      if g in At(run, n).auth {
        EntryStep(s, a, g);
      } else {
        var t :| t in At(run, n).threads && Serves(At(run, n).threads[t], g);
        ServesStep(s, a, t, g);
      }
      if !(a.Initialize? && a.g == g) {
        WasInitialized(run, n - 1, g);
      }
    }
  }

  /** Thread t, in progress when another one removes the entry, writes it again in step m: it straddled the removal. */
  lemma WritesAgain(run: seq<Action>, r: nat, m: nat, t: ThreadId, g: Guid)
    requires Possible(START, run) && r < m < |run| && Removes(run[r], g) && Writes(run[m], t, g)
    requires InProgress(run, t, g, r, m)
    ensures Straddles(run, t, g, r, m)
  {
    AtStep(run, r);
    assert t in At(run, r + 1).threads;
  }

  /** A login of g was in progress at its removal in step r and wrote the entry before step n. */
  ghost predicate LoginStraddled(run: seq<Action>, g: Guid, r: nat, n: nat)
    requires Possible(START, run) && n <= |run|
  {
    exists t, w :: r < w < n && run[w].LoginWrite? && Straddles(run, t, g, r, w)
  }

  lemma RemovedAt(run: seq<Action>, r: nat, g: Guid)
    requires Possible(START, run) && r < |run| && Removes(run[r], g)
    ensures g !in At(run, r + 1).auth
    ensures run[r].t in At(run, r).threads && At(run, r).threads[run[r].t] == SelectJoined(g)
  {
    AtStep(run, r);
  }

  lemma NotInitializedAgain(run: seq<Action>, r: nat, m: nat, g: Guid)
    requires Possible(START, run) && InitializedOnce(run, g) && r < m < |run| && Removes(run[r], g)
    ensures !(run[m].Initialize? && run[m].g == g)
  {
    RemovedAt(run, r, g);
    WasInitialized(run, r, g);
  }

  /** An entry that was removed is back only because a login straddled its removal. */
  lemma {:induction false} RestoredByLogin(run: seq<Action>, r: nat, n: nat, g: Guid)
    requires Possible(START, run) && InitializedOnce(run, g)
    requires r < n <= |run| && Removes(run[r], g) && g in At(run, n).auth
    ensures LoginStraddled(run, g, r, n)
    decreases n, 0
  {
    var m := n - 1;
    RemovedAt(run, r, g);
    AtStep(run, m);
    EntryStep(At(run, m), run[m], g);
    if g in At(run, m).auth {
      RestoredByLogin(run, r, m, g);
    } else {
      NotInitializedAgain(run, r, m, g);
      WrittenByStraddler(run, r, m, g);
    }
  }

  lemma {:induction false} WrittenByStraddler(run: seq<Action>, r: nat, m: nat, g: Guid)
    requires Possible(START, run) && InitializedOnce(run, g) && r < m < |run| && Removes(run[r], g)
    requires run[m].LoginWrite? && run[m].g == g
    ensures LoginStraddled(run, g, r, m + 1)
    decreases m, 1
  {
    var t := run[m].t;
    AtStep(run, m);
    SinceOrLookedUp(run, r, m, t, g);
    if InProgress(run, t, g, r, m) {
      WritesAgain(run, r, m, t, g);
    } else {
      FoundAgain(run, r, m, t, g);
    }
  }

  /** A handler that found the entry after its removal found one that a login had restored. */
  lemma {:induction false} FoundAgain(run: seq<Action>, r: nat, n: nat, t: ThreadId, g: Guid)
    requires Possible(START, run) && InitializedOnce(run, g) && r < n <= |run| && Removes(run[r], g)
    requires exists l :: r <= l < n && Looks(run[l], t, g) && g in At(run, l).auth
    ensures LoginStraddled(run, g, r, n)
    decreases n, 0
  {
    var l :| r <= l < n && Looks(run[l], t, g) && g in At(run, l).auth;
    RestoredByLogin(run, r, l, g);
  }

  // ---- The exact condition ----

  /** From its join until it removes the entry, a selection stays joined. */
  lemma {:induction false} JoinedUntilRemoved(run: seq<Action>, i: nat, n: nat, g: Guid)
    requires Possible(START, run) && i < n <= |run| && Joins(run[i], g)
    ensures var t := run[i].t;
            (t in At(run, n).threads && At(run, n).threads[t] == SelectJoined(g)) ||
            exists r :: i < r < n && Removes(run[r], g)
  {
    var m := n - 1;
    AtStep(run, m);
    if i < m {
      JoinedUntilRemoved(run, i, m, g);
      if forall r | i < r < m :: !Removes(run[r], g) {
        JoinedStep(At(run, m), run[m], run[i].t, g);
      }
    }
  }

  lemma {:induction false} HasJoined(run: seq<Action>, n: nat, t: ThreadId, g: Guid)
    requires Possible(START, run) && n <= |run|
    requires t in At(run, n).threads && At(run, n).threads[t] == SelectJoined(g)
    ensures exists i :: 0 <= i < n && Joins(run[i], g)
  {
    AtStep(run, n - 1);
    if !Joins(run[n - 1], g) {
      HasJoined(run, n - 1, t, g);
    }
  }

  predicate JoinedBefore(run: seq<Action>, j: nat, g: Guid)
    requires j <= |run|
  {
    exists i | 0 <= i < j :: Joins(run[i], g)
  }

  /** In step j another selection of g has joined and not yet removed the entry. */
  predicate OverlapsJoined(run: seq<Action>, j: nat, g: Guid)
    requires Possible(START, run) && j <= |run|
  {
    exists t :: t in At(run, j).threads && At(run, j).threads[t] == SelectJoined(g)
  }

  /** A selection or login of g was in progress when the entry was removed in step r, and wrote up to step j. */
  ghost predicate Straddled(run: seq<Action>, g: Guid, r: nat, j: nat)
    requires Possible(START, run) && j < |run|
  {
    exists t, w :: r < w <= j && Straddles(run, t, g, r, w)
  }

  /** Every removal before a join was straddled: by the joining selection, or by a login that restored the entry. */
  lemma RemovalIsStraddled(run: seq<Action>, r: nat, j: nat, g: Guid)
    requires Possible(START, run) && InitializedOnce(run, g)
    requires r < j < |run| && Removes(run[r], g) && Joins(run[j], g)
    ensures Straddled(run, g, r, j)
  {
    var t := run[j].t;
    AtStep(run, j);
    SinceOrLookedUp(run, r, j, t, g);
    if InProgress(run, t, g, r, j) {
      WritesAgain(run, r, j, t, g);
    } else {
      FoundAgain(run, r, j, t, g);
    }
  }

  /**
   A selection is admitted for a client that a selection has already admitted exactly when it
   overlaps one that has joined but not yet removed the entry, or some removal of the entry was
   straddled: a selection or login that had found the entry before it wrote after it.
   */
  lemma SelectedAgainIff(run: seq<Action>, j: nat, g: Guid)
    requires Possible(START, run) && InitializedOnce(run, g) && j < |run| && Joins(run[j], g)
    ensures JoinedBefore(run, j, g) <==> OverlapsJoined(run, j, g) || exists r :: 0 <= r < j && Straddled(run, g, r, j)
  {
    if JoinedBefore(run, j, g) {
      var i :| 0 <= i < j && Joins(run[i], g);
      JoinedUntilRemoved(run, i, j, g);
      if r :| i < r < j && Removes(run[r], g) {
        RemovalIsStraddled(run, r, j, g);
      }
    } else {
      if t :| t in At(run, j).threads && At(run, j).threads[t] == SelectJoined(g) {
        HasJoined(run, j, t, g);
      }
      forall r | 0 <= r < j && Removes(run[r], g)
        ensures false
      {
        RemovedAt(run, r, g);
        HasJoined(run, r, run[r].t, g);
      }
    }
  }

  /** While a selection of g is between its join and its removal, no other selection or login of g is in progress. */
  ghost predicate Exclusive(run: seq<Action>, g: Guid)
    requires Possible(START, run)
  {
    forall k, t, u | 0 <= k <= |run| && t in At(run, k).threads && u in At(run, k).threads && t != u &&
                     At(run, k).threads[t] == SelectJoined(g) :: !Serves(At(run, k).threads[u], g)
  }

  lemma SharedIfJoinedAgain(run: seq<Action>, j: nat, g: Guid)
    requires Possible(START, run) && InitializedOnce(run, g)
    requires j < |run| && Joins(run[j], g) && JoinedBefore(run, j, g)
    ensures !Exclusive(run, g)
  {
    SelectedAgainIff(run, j, g);
    AtStep(run, j);
    if r, t, w :| 0 <= r < w <= j && Straddles(run, t, g, r, w) {
      RemovedAt(run, r, g);
      assert t in At(run, r).threads;
    } else {
      var t :| t in At(run, j).threads && At(run, j).threads[t] == SelectJoined(g);
      assert Serves(At(run, j).threads[run[j].t], g);
    }
  }

  /** Then selection is one-shot. */
  lemma ExclusiveSelectsOnce(run: seq<Action>, i: nat, j: nat, g: Guid)
    requires Possible(START, run) && InitializedOnce(run, g) && Exclusive(run, g)
    requires i < |run| && j < |run| && Joins(run[i], g) && Joins(run[j], g)
    ensures i == j
  {
    if i < j {
      SharedIfJoinedAgain(run, j, g);
    } else if j < i {
      SharedIfJoinedAgain(run, i, g);
    }
  }

  // ---- Both ways to be selected twice, from the start ----

  const COALITIONS: seq<Coalition> := [Coalition("A", "")]

  function Answer(role: Role): PluginResult {
    PluginResult("name", [role], [])
  }

  function GrantedEntry(role: Role): AuthEntry {
    LoginEntry("secret", Answer(role), 0)
  }

  function Selection(role: Role): SelectRequest {
    SelectRequest(None, "secret", "A1", "A", role, true)
  }

  lemma SelectionPasses(role: Role)
    ensures CheckedSelection(GrantedEntry(role), COALITIONS, Selection(role)) == None
  {
    assert GrantedEntry(role).roles[0] == role == ToRole(role);
    assert COALITIONS[0].name == "A";
    assert CheckUnitId("A1");
  }

  /** A client that has logged in and not yet selected a unit. */
  lemma LoggedIn(g: Guid, role: Role) returns (run: seq<Action>)
    ensures run == [Initialize(g, 0), LoginLookup(0, g), PluginAnswers(0, g, Answer(role)), LoginWrite(0, g, Answer(role), "secret", 0)]
    ensures Possible(START, run) && Final(START, run) == START.(auth := map[g := GrantedEntry(role)])
  {
    Extend(START, [], Initialize(g, 0));
    run := [] + [Initialize(g, 0)];
    assert Final(START, run) == START.(auth := map[g := InitEntry(0)]);
    run := LoginUpToAnswer(START, run, 0, g, Answer(role));
    assert Final(START, run).threads == map[][0 := LoginAnswered(g, Answer(role))];
    run := LoginWrites(START, run, 0, g, Answer(role), "secret", 0, map[]);
    assert map[g := InitEntry(0)][g := GrantedEntry(role)] == map[g := GrantedEntry(role)];
  }

  /** Two selections that have read the same entry. */
  lemma BothRead(g: Guid, role: Role) returns (run: seq<Action>)
    ensures Possible(START, run) && InitializedOnce(run, g) && |run| == 6
    ensures run[4..] == [SelectLookup(1, g), SelectLookup(2, g)]
    ensures var entry := GrantedEntry(role);
            Final(START, run).threads == map[1 := SelectReading(g, entry), 2 := SelectReading(g, entry)]
    ensures Final(START, run).heap == map[]
  {
    run := LoggedIn(g, role);
    Extend(START, run, SelectLookup(1, g));
    run := run + [SelectLookup(1, g)];
    Extend(START, run, SelectLookup(2, g));
    run := run + [SelectLookup(2, g)];
  }

  /** Two selections that overlap are both admitted by the one entry they read. */
  lemma SelectTwice(g: Guid, role: Role) returns (run: seq<Action>)
    ensures Possible(START, run) && InitializedOnce(run, g) && |run| == 9
    ensures run[4..6] == [SelectLookup(1, g), SelectLookup(2, g)]
    ensures Joins(run[6], g) && Removes(run[7], g) && Joins(run[8], g)
  {
    SelectionPasses(role);
    run := BothRead(g, role);
    run := JoinThenRemove(run, 1, g, role, 0);
    Extend(START, run, SelectJoin(2, g, 1, COALITIONS, Selection(role)));
    run := run + [SelectJoin(2, g, 1, COALITIONS, Selection(role))];
  }

  lemma JoinThenRemove(before: seq<Action>, t: ThreadId, g: Guid, role: Role, ref: Ref) returns (run: seq<Action>)
    requires Possible(START, before)
    requires var f := Final(START, before);
             t in f.threads && f.threads[t] == SelectReading(g, GrantedEntry(role)) && ref !in f.heap
    ensures run == before + [SelectJoin(t, g, ref, COALITIONS, Selection(role)), SelectRemove(t, g)] && Possible(START, run)
    ensures Final(START, run).threads == Final(START, before).threads - {t}
    ensures Final(START, run).heap.Keys == Final(START, before).heap.Keys + {ref}
  {
    SelectionPasses(role);
    Extend(START, before, SelectJoin(t, g, ref, COALITIONS, Selection(role)));
    run := before + [SelectJoin(t, g, ref, COALITIONS, Selection(role))];
    Extend(START, run, SelectRemove(t, g));
    run := run + [SelectRemove(t, g)];
  }

  /** A login brings back the entry that a selection used up while the plugin was asked. */
  lemma Restored(g: Guid, role: Role) returns (run: seq<Action>)
    ensures Possible(START, run) && InitializedOnce(run, g) && |run| == 10
    ensures run[4..7] == [LoginLookup(0, g), PluginAnswers(0, g, Answer(role)), SelectLookup(1, g)]
    ensures Joins(run[7], g) && Removes(run[8], g) && run[9] == LoginWrite(0, g, Answer(role), "secret", 0)
    ensures var f := Final(START, run);
            f.threads == map[] && f.heap.Keys == {0} && f.auth == map[g := GrantedEntry(role)]
  {
    SelectionPasses(role);
    run := LoggedIn(g, role);
    run := LoginUpToAnswer(START, run, 0, g, Answer(role));
    run := SelectSteps(START, run, 1, g, 0, COALITIONS, Selection(role));
    run := LoginWrites(START, run, 0, g, Answer(role), "secret", 0, map[]);
  }

  /**
   A login that straddles a whole selection brings the entry back, and a selection that begins
   after the first one has ended is admitted again.
   */
  lemma RestoredAndSelected(g: Guid, role: Role) returns (run: seq<Action>)
    ensures Possible(START, run) && InitializedOnce(run, g) && |run| == 12
    ensures run[4..7] == [LoginLookup(0, g), PluginAnswers(0, g, Answer(role)), SelectLookup(1, g)]
    ensures Joins(run[7], g) && Removes(run[8], g)
    ensures run[9..11] == [LoginWrite(0, g, Answer(role), "secret", 0), SelectLookup(2, g)] && Joins(run[11], g)
  {
    SelectionPasses(role);
    run := Restored(g, role);
    run := SelectUpToJoin(START, run, 2, g, 1, COALITIONS, Selection(role));
  }
}

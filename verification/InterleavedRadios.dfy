/** Which radio entries have no client, over all interleavings of the handlers' steps. */
module InterleavedRadios {
  import opened Basics
  import opened Histories
  import opened Interleaving
  import InterleavedRoles

  /** A kicked or banned client, or radios stored for a client that is not there. */
  predicate Orphans(s: State, a: Action, g: Guid) {
    (a == Oust(g) && g in s.clients) || (a.RadiosWrite? && a.g == g && g !in s.clients)
  }

  function Orphanings(run: seq<Action>, g: Guid): seq<bool>
    requires Possible(START, run)
  {
    seq(|run|, i requires 0 <= i < |run| => Orphans(At(run, i), run[i], g))
  }

  function Renewals(run: seq<Action>, g: Guid): seq<bool>
    requires Possible(START, run)
  {
    seq(|run|, i requires 0 <= i < |run| => Admits(At(run, i), run[i], g) || run[i] == Drop(g))
  }

  lemma PairingStep(s: State, a: Action, g: Guid)
    requires Enabled(s, a) && (g in s.clients ==> g in s.radios)
    ensures var s' := Do(s, a);
            (g in s'.clients ==> g in s'.radios) &&
            (g in s'.radios && g !in s'.clients <==>
              Orphans(s, a, g) || (g in s.radios && g !in s.clients && !Admits(s, a, g) && a != Drop(g)))
  {
  }

  /**
   Exact pairing for every interleaving: every client has a radio entry, and a radio entry has no
   client exactly when a kick or a late store has orphaned it and nothing has since renewed it.
   */
  lemma {:induction false} ExactPairing(run: seq<Action>, n: nat, g: Guid)
    requires Possible(START, run) && n <= |run|
    ensures g in At(run, n).clients ==> g in At(run, n).radios
    ensures g in At(run, n).radios && g !in At(run, n).clients <==> Since(Orphanings(run, g), Renewals(run, g), n)
  {
    if n > 0 {
      ExactPairing(run, n - 1, g);
      AtStep(run, n - 1);
      PairingStep(At(run, n - 1), run[n - 1], g);
      SinceStep(Orphanings(run, g), Renewals(run, g), n - 1);
    }
  }

  // ---- Late stores ----

  predicate Adds(s: State, a: Action, g: Guid) {
    Admits(s, a, g) || (a.RadiosWrite? && a.g == g)
  }

  /** Thread t is past its check and about to store the radios of g, from step i up to step k. */
  predicate Storing(run: seq<Action>, t: ThreadId, g: Guid, i: nat, k: nat)
    requires Possible(START, run) && k <= |run|
  {
    forall m | i <= m <= k :: t in At(run, m).threads && At(run, m).threads[t] == RadiosChecked(g)
  }

  /** Step d drops the entries of g, and nothing adds one up to step k. */
  predicate DroppedAt(run: seq<Action>, d: nat, k: nat, g: Guid)
    requires Possible(START, run) && k <= |run|
  {
    d < k && run[d] == Drop(g) && forall m | d < m < k :: !Adds(At(run, m), run[m], g)
  }

  lemma RadiosStep(s: State, a: Action, g: Guid)
    requires Enabled(s, a)
    ensures g in Do(s, a).radios <==> Adds(s, a, g) || (g in s.radios && a != Drop(g))
  {
  }

  lemma CheckedStep(s: State, a: Action, t: ThreadId, g: Guid)
    requires Enabled(s, a) && t in Do(s, a).threads && Do(s, a).threads[t] == RadiosChecked(g)
    ensures (t in s.threads && s.threads[t] == RadiosChecked(g)) || (g in s.radios && a != Drop(g))
  {
  }

  lemma {:induction false} Checked(run: seq<Action>, k: nat, t: ThreadId, g: Guid) returns (l: nat)
    requires Possible(START, run) && k <= |run|
    requires t in At(run, k).threads && At(run, k).threads[t] == RadiosChecked(g)
    ensures l < k && g in At(run, l).radios && run[l] != Drop(g) && Storing(run, t, g, l + 1, k)
  {
    var m := k - 1;
    AtStep(run, m);
    CheckedStep(At(run, m), run[m], t, g);
    if t in At(run, m).threads && At(run, m).threads[t] == RadiosChecked(g) {
      l := Checked(run, m, t, g);
    } else {
      l := m;
    }
  }

  lemma {:induction false} DroppedSince(run: seq<Action>, l: nat, k: nat, g: Guid) returns (d: nat)
    requires Possible(START, run) && l <= k <= |run| && g in At(run, l).radios && g !in At(run, k).radios
    ensures l <= d && DroppedAt(run, d, k, g)
  {
    var m := k - 1;
    AtStep(run, m);
    RadiosStep(At(run, m), run[m], g);
    if run[m] == Drop(g) {
      d := m;
    } else {
      d := DroppedSince(run, l, m, g);
    }
  }

  lemma {:induction false} StaysDropped(run: seq<Action>, d: nat, k: nat, g: Guid)
    requires Possible(START, run) && k <= |run| && DroppedAt(run, d, k, g)
    ensures g !in At(run, k).radios
  {
    var m := k - 1;
    AtStep(run, m);
    RadiosStep(At(run, m), run[m], g);
    if d < m {
      StaysDropped(run, d, m, g);
    }
  }

  lemma DroppedMeanwhile(run: seq<Action>, k: nat, g: Guid) returns (d: nat)
    requires Possible(START, run) && k < |run| && run[k].RadiosWrite? && run[k].g == g && g !in At(run, k).radios
    ensures DroppedAt(run, d, k, g) && Storing(run, run[k].t, g, d, k)
  {
    AtStep(run, k);
    var l := Checked(run, k, run[k].t, g);
    d := DroppedSince(run, l, k, g);
    assert l < d;
  }

  /**
   A store brings back an entry that is gone exactly when its client disconnected or was cleaned
   up between the check and the store, and nothing has added the entry since.
   */
  lemma RestoresIff(run: seq<Action>, k: nat, g: Guid)
    requires Possible(START, run) && k < |run| && run[k].RadiosWrite? && run[k].g == g
    ensures g !in At(run, k).radios
            <==> exists d: nat :: DroppedAt(run, d, k, g) && Storing(run, run[k].t, g, d, k)
  {
    if g !in At(run, k).radios {
      var d := DroppedMeanwhile(run, k, g);
    } else if d: nat :| DroppedAt(run, d, k, g) {
      StaysDropped(run, d, k, g);
    }
  }

  /** A client disconnects while its radios are about to be stored. */
  lemma DroppedWhileStoring(g: Guid) returns (run: seq<Action>)
    ensures Possible(START, run) && forall a | a in run :: !a.Oust?
    ensures Final(START, run).threads == map[0 := RadiosChecked(g)] && g !in Final(START, run).clients
  {
    run := InterleavedRoles.Admitted(g, 1);
    Extend(START, run, RadiosLookup(0, g));
    run := run + [RadiosLookup(0, g)];
    Extend(START, run, Drop(g));
    run := run + [Drop(g)];
  }

  /** So a radio entry can lose its client without any kick. */
  lemma OrphanedWithoutKick(g: Guid) returns (run: seq<Action>)
    ensures Possible(START, run) && forall a | a in run :: !a.Oust?
    ensures g in Final(START, run).radios && g !in Final(START, run).clients
  {
    run := DroppedWhileStoring(g);
    Extend(START, run, RadiosWrite(0, g));
    run := run + [RadiosWrite(0, g)];
  }
}

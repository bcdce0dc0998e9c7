/** When a role rises between admissions, over all interleavings of the handlers' steps. */
module InterleavedRoles {
  import opened Basics
  import opened Registry
  import opened RadioService
  import opened Auth
  import opened Interleaving
  import InterleavedLogins

  /** Thread t is past the role check of an update of this record and about to write the role. */
  predicate Writing(s: State, t: ThreadId, ref: Ref) {
    t in s.threads && s.threads[t].Updating? && s.threads[t].ref == ref && s.threads[t].phase == WriteRole
  }

  predicate WritesRole(s: State, a: Action, ref: Ref) {
    a.UpdateNext? && Writing(s, a.t, ref)
  }

  function Wanted(s: State, t: ThreadId, ref: Ref): Role
    requires Writing(s, t, ref)
  {
    ToRole(s.threads[t].req.roleId)
  }

  /** A record stays, and its role changes only by a role write. */
  lemma RecordStep(s: State, a: Action, ref: Ref)
    requires Enabled(s, a) && ref in s.heap
    ensures ref in Do(s, a).heap
    ensures Do(s, a).heap[ref].role == if WritesRole(s, a, ref) then Wanted(s, a.t, ref) else s.heap[ref].role
  {
  }

  /** A thread about to write was so before, or has just passed its check. */
  lemma WritingStep(s: State, a: Action, t: ThreadId, ref: Ref)
    requires Enabled(s, a) && Writing(Do(s, a), t, ref)
    ensures (Writing(s, t, ref) && Wanted(s, t, ref) == Wanted(Do(s, a), t, ref) && !(a.UpdateNext? && a.t == t)) ||
            (ref in s.heap && CanSwapRoles(s.heap[ref].role, Wanted(Do(s, a), t, ref)) && !WritesRole(s, a, ref) &&
             !Writing(s, t, ref))
  {
  }

  // ---- Whole runs ----

  predicate AboutToWrite(run: seq<Action>, k: nat, t: ThreadId, ref: Ref)
    requires Possible(START, run) && k <= |run|
  {
    Writing(At(run, k), t, ref)
  }

  predicate RoleWrite(run: seq<Action>, k: nat, ref: Ref)
    requires Possible(START, run) && k <= |run|
  {
    k < |run| && WritesRole(At(run, k), run[k], ref)
  }

  function Written(run: seq<Action>, k: nat, ref: Ref): Role
    requires Possible(START, run) && k <= |run| && RoleWrite(run, k, ref)
  {
    Wanted(At(run, k), run[k].t, ref)
  }

  function RoleAt(run: seq<Action>, k: nat, ref: Ref): Role
    requires Possible(START, run) && k <= |run| && ref in At(run, k).heap
  {
    At(run, k).heap[ref].role
  }

  lemma RoleStep(run: seq<Action>, k: nat, ref: Ref)
    requires Possible(START, run) && k < |run| && ref in At(run, k).heap
    ensures ref in At(run, k + 1).heap
    ensures RoleAt(run, k + 1, ref) == if RoleWrite(run, k, ref) then Written(run, k, ref) else RoleAt(run, k, ref)
  {
    AtStep(run, k);
    RecordStep(At(run, k), run[k], ref);
  }

  lemma {:induction false} RecordStays(run: seq<Action>, i: nat, k: nat, ref: Ref)
    requires Possible(START, run) && i <= k <= |run| && ref in At(run, i).heap
    ensures ref in At(run, k).heap
  {
    if i < k {
      RecordStays(run, i, k - 1, ref);
      RoleStep(run, k - 1, ref);
    }
  }

  /** Thread t passed the role check of this record in step c and has been about to write ever since. */
  predicate Window(run: seq<Action>, c: nat, k: nat, t: ThreadId, ref: Ref)
    requires Possible(START, run) && k <= |run|
  {
    c < k && ref in At(run, c).heap && AboutToWrite(run, k, t, ref) &&
    CanSwapRoles(RoleAt(run, c, ref), Wanted(At(run, k), t, ref)) && !RoleWrite(run, c, ref) &&
    forall m | c < m <= k :: AboutToWrite(run, m, t, ref)
  }

  lemma {:induction false} HasWindow(run: seq<Action>, k: nat, t: ThreadId, ref: Ref) returns (c: nat)
    requires Possible(START, run) && k <= |run| && AboutToWrite(run, k, t, ref)
    ensures Window(run, c, k, t, ref)
  {
    var m := k - 1;
    AtStep(run, m);
    WritingStep(At(run, m), run[m], t, ref);
    if AboutToWrite(run, m, t, ref) {
      c := HasWindow(run, m, t, ref);
    } else {
      c := m;
    }
  }

  /** Step m is the last before k to write the role of the record. */
  predicate LastWrite(run: seq<Action>, m: nat, k: nat, ref: Ref)
    requires Possible(START, run) && k <= |run|
  {
    m < k && RoleWrite(run, m, ref) && forall x | m < x < k :: !RoleWrite(run, x, ref)
  }

  /** A role is what was last written, if anything was. */
  lemma {:induction false} RoleSince(run: seq<Action>, c: nat, k: nat, ref: Ref)
    requires Possible(START, run) && c <= k <= |run| && ref in At(run, c).heap
    ensures ref in At(run, k).heap
    ensures (RoleAt(run, k, ref) == RoleAt(run, c, ref) && forall x | c <= x < k :: !RoleWrite(run, x, ref)) ||
            exists m | c <= m < k :: LastWrite(run, m, k, ref) && RoleAt(run, k, ref) == Written(run, m, ref)
  {
    if c < k {
      var n := k - 1;
      RoleSince(run, c, n, ref);
      RoleStep(run, n, ref);
      if RoleWrite(run, n, ref) {
        assert LastWrite(run, n, k, ref);
      } else if m :| c <= m < n && LastWrite(run, m, n, ref) && RoleAt(run, n, ref) == Written(run, m, ref) {
        assert LastWrite(run, m, k, ref);
      }
    }
  }

  lemma LastWritten(run: seq<Action>, m: nat, k: nat, ref: Ref)
    requires Possible(START, run) && m < k <= |run| && ref in At(run, k).heap && LastWrite(run, m, k, ref)
    ensures RoleAt(run, k, ref) == Written(run, m, ref)
  {
    AtStep(run, m);
    RoleStep(run, m, ref);
    RoleSince(run, m + 1, k, ref);
  }

  /** A write while thread t is about to write is by another thread. */
  lemma OtherWrites(run: seq<Action>, c: nat, m: nat, k: nat, t: ThreadId, ref: Ref)
    requires Possible(START, run) && k <= |run| && c <= m < k && Window(run, c, k, t, ref) && RoleWrite(run, m, ref)
    ensures run[m].t != t && AboutToWrite(run, m, t, ref)
  {
    AtStep(run, m);
    assert AboutToWrite(run, m, t, ref) && AboutToWrite(run, m + 1, t, ref);
    WritingStep(At(run, m), run[m], t, ref);
  }

  /** Since the check for the write in step k, another update wrote a lower role last. */
  predicate Undercut(run: seq<Action>, k: nat, ref: Ref)
    requires Possible(START, run) && k <= |run| && RoleWrite(run, k, ref)
  {
    exists m | 0 <= m < k ::
      LastWrite(run, m, k, ref) && run[m].t != run[k].t && Written(run, m, ref) < Written(run, k, ref) &&
      AboutToWrite(run, m, run[k].t, ref)
  }

  /**
   A write raises the role of a record exactly when the last write before it came from another
   update, between this one's check and its write, and wrote a lower role than it writes.
   */
  lemma RaisesIff(run: seq<Action>, k: nat, ref: Ref)
    requires Possible(START, run) && k < |run| && RoleWrite(run, k, ref)
    ensures ref in At(run, k).heap && ref in At(run, k + 1).heap
    ensures RoleAt(run, k, ref) < RoleAt(run, k + 1, ref) <==> Undercut(run, k, ref)
  {
    var c := HasWindow(run, k, run[k].t, ref);
    RoleSince(run, c, k, ref);
    RoleStep(run, k, ref);
    if RoleAt(run, k, ref) < RoleAt(run, k + 1, ref) {
      RaisedIsUndercut(run, c, k, ref);
    }
    if Undercut(run, k, ref) {
      UndercutRaises(run, k, ref);
    }
  }

  lemma UndercutRaises(run: seq<Action>, k: nat, ref: Ref)
    requires Possible(START, run) && k < |run| && RoleWrite(run, k, ref) && ref in At(run, k).heap && Undercut(run, k, ref)
    ensures RoleAt(run, k, ref) < Written(run, k, ref)
  {
    var m :| 0 <= m < k && LastWrite(run, m, k, ref) && Written(run, m, ref) < Written(run, k, ref);
    LastWritten(run, m, k, ref);
  }

  lemma RaisedIsUndercut(run: seq<Action>, c: nat, k: nat, ref: Ref)
    requires Possible(START, run) && k < |run| && RoleWrite(run, k, ref) && Window(run, c, k, run[k].t, ref)
    requires ref in At(run, k).heap && RoleAt(run, k, ref) < Written(run, k, ref)
    ensures Undercut(run, k, ref)
  {
    RoleSince(run, c, k, ref);
    var m :| c <= m < k && LastWrite(run, m, k, ref) && RoleAt(run, k, ref) == Written(run, m, ref);
    OtherWrites(run, c, m, k, run[k].t, ref);
  }

  // ---- What survives ----

  /** No two updates of the record are between their check and their write at the same time. */
  ghost predicate Exclusive(run: seq<Action>, ref: Ref)
    requires Possible(START, run)
  {
    forall k, t, u | 0 <= k <= |run| && AboutToWrite(run, k, t, ref) && AboutToWrite(run, k, u, ref) :: t == u
  }

  /** Then the role of the record never rises. */
  lemma {:induction false} NeverRises(run: seq<Action>, i: nat, j: nat, ref: Ref)
    requires Possible(START, run) && Exclusive(run, ref) && i <= j <= |run| && ref in At(run, i).heap
    ensures ref in At(run, j).heap && RoleAt(run, j, ref) <= RoleAt(run, i, ref)
  {
    if i < j {
      var k := j - 1;
      NeverRises(run, i, k, ref);
      RoleStep(run, k, ref);
      if RoleWrite(run, k, ref) {
        RaisesIff(run, k, ref);
        if Undercut(run, k, ref) {
          UndercutOverlaps(run, k, ref);
        }
      }
    }
  }

  lemma UndercutOverlaps(run: seq<Action>, k: nat, ref: Ref)
    requires Possible(START, run) && k < |run| && RoleWrite(run, k, ref) && Undercut(run, k, ref)
    ensures !Exclusive(run, ref)
  {
    var m :| 0 <= m < k && LastWrite(run, m, k, ref) && run[m].t != run[k].t && AboutToWrite(run, m, run[k].t, ref);
    assert AboutToWrite(run, m, run[m].t, ref);
  }

  /** Neither what is written nor what it replaces is the guest's role. */
  lemma WritesBetweenRoles(run: seq<Action>, k: nat, ref: Ref)
    requires Possible(START, run) && k < |run| && RoleWrite(run, k, ref)
    ensures ref in At(run, k).heap && Written(run, k, ref) != GUEST && RoleAt(run, k, ref) != GUEST
  {
    var c := HasWindow(run, k, run[k].t, ref);
    RoleSince(run, c, k, ref);
    if m :| c <= m < k && LastWrite(run, m, k, ref) && RoleAt(run, k, ref) == Written(run, m, ref) {
      var d := HasWindow(run, m, run[m].t, ref);
    }
  }

  /** However updates interleave, a guest stays one and nobody becomes one. */
  lemma {:induction false} GuestStays(run: seq<Action>, i: nat, j: nat, ref: Ref)
    requires Possible(START, run) && i <= j <= |run| && ref in At(run, i).heap
    ensures ref in At(run, j).heap && (RoleAt(run, j, ref) == GUEST <==> RoleAt(run, i, ref) == GUEST)
  {
    if i < j {
      GuestStays(run, i, j - 1, ref);
      RoleStep(run, j - 1, ref);
      if RoleWrite(run, j - 1, ref) {
        WritesBetweenRoles(run, j - 1, ref);
      }
    }
  }

  /** Until it is admitted again, a client that is present has the record it was admitted with. */
  lemma {:induction false} KeepsRecord(run: seq<Action>, i: nat, j: nat, g: Guid)
    requires Possible(START, run) && i <= j <= |run| && g in At(run, j).clients
    requires forall k | i <= k < j :: !Admits(At(run, k), run[k], g)
    ensures g in At(run, i).clients && At(run, i).clients[g] == At(run, j).clients[g]
  {
    if i < j {
      AtStep(run, j - 1);
      ClientStep(At(run, j - 1), run[j - 1], g);
      KeepsRecord(run, i, j - 1, g);
    }
  }

  lemma ClientStep(s: State, a: Action, g: Guid)
    requires Enabled(s, a) && g in Do(s, a).clients && !Admits(s, a, g)
    ensures g in s.clients && s.clients[g] == Do(s, a).clients[g]
  {
  }

  /**
   Between admissions a client's role never rises in a run whose updates of its record do not
   overlap between check and write; whether it is a guest never changes, whatever overlaps.
   */
  lemma ClientRoleNeverRises(run: seq<Action>, i: nat, j: nat, g: Guid)
    requires Possible(START, run) && i <= j <= |run| && g in At(run, j).clients
    requires forall k | i <= k < j :: !Admits(At(run, k), run[k], g)
    ensures g in At(run, i).clients && At(run, i).clients[g] == At(run, j).clients[g]
    ensures var ref := At(run, j).clients[g];
            ref in At(run, i).heap && ref in At(run, j).heap &&
            (Exclusive(run, ref) ==> RoleAt(run, j, ref) <= RoleAt(run, i, ref)) &&
            (RoleAt(run, j, ref) == GUEST <==> RoleAt(run, i, ref) == GUEST)
  {
    KeepsRecord(run, i, j, g);
    var ref := At(run, j).clients[g];
    PossiblePrefix(START, run, i);
    InvAlways(run[..i]);
    GuestStays(run, i, j, ref);
    if Exclusive(run, ref) {
      NeverRises(run, i, j, ref);
    }
  }

  // ---- How a role rises ----

  /** An update stopped between passing the role check and writing the role. */
  lemma RolePassed(before: seq<Action>, t: ThreadId, g: Guid, req: InfoRequest) returns (run: seq<Action>)
    requires Possible(START, before)
    requires var f := Final(START, before);
             t !in f.threads && g in f.clients && f.clients[g] in f.heap &&
             CanSwapRoles(f.heap[f.clients[g]].role, ToRole(req.roleId))
    ensures Possible(START, run)
    ensures var f := Final(START, before); var ref := f.clients[g];
            Final(START, run) == Midway(f, t, ref, FirstFields(f.heap[ref], req, []), req, WriteRole)
  {
    var f := Final(START, before);
    var ref := f.clients[g];
    run := UpdateUpToCheck(START, before, t, g, req, []);
    run := NextField(START, run, f, t, ref, FirstFields(f.heap[ref], req, []), req, CheckRole, [], 0);
  }

  function Ask(role: Role): InfoRequest {
    InfoRequest("", "", "", role)
  }

  /** A client that was just admitted with a role. */
  lemma Admitted(g: Guid, role: Role) returns (run: seq<Action>)
    ensures Possible(START, run) && forall a | a in run :: !a.Oust?
    ensures var f := Final(START, run);
            f.threads == map[] && f.clients == map[g := 0] && f.radios == {g} && f.heap.Keys == {0} && f.heap[0].role == role
  {
    InterleavedLogins.SelectionPasses(role);
    run := InterleavedLogins.LoggedIn(g, role);
    run := SelectSteps(START, run, 0, g, 0, InterleavedLogins.COALITIONS, InterleavedLogins.Selection(role));
  }

  /**
   From the start, two overlapping updates of one client can lower its role and raise it again,
   to any two roles above the guest's: the second write relies on a check made before the first.
   */
  lemma LoweredRoleMayRise(g: Guid, low: Role, high: Role) returns (lowered: seq<Action>, raised: seq<Action>)
    requires GUEST < low < high
    ensures Possible(START, lowered) && Possible(START, raised) && lowered <= raised
    ensures Final(START, lowered).clients == Final(START, raised).clients == map[g := 0]
    ensures 0 in Final(START, lowered).heap && Final(START, lowered).heap[0].role == low
    ensures 0 in Final(START, raised).heap && Final(START, raised).heap[0].role == high
  {
    var run := Admitted(g, high);
    run := RolePassed(run, 0, g, Ask(high));
    lowered := UninterruptedUpdate(START, run, 1, g, Ask(low), [], 0);
    Extend(START, lowered, UpdateNext(0, [], 0));
    raised := lowered + [UpdateNext(0, [], 0)];
  }
}

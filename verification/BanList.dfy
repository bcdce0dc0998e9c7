/** The ban list (BannedState in state/server.go, UnbanClient in app/clients.go). */
module BanList {
  import opened Basics
  import opened Slices

  datatype BannedClient = BannedClient(id: string, name: string, ipAddress: string, reason: string)

  /** The first entry with an id, or -1. */
  function FirstWithId(list: seq<BannedClient>, id: string): (k: int)
    ensures -1 <= k < |list|
    ensures k >= 0 ==> list[k].id == id && forall i | 0 <= i < k :: list[i].id != id
    ensures k == -1 ==> forall i | 0 <= i < |list| :: list[i].id != id
  {
    if list == [] then -1
    else if list[0].id == id then 0
    else
      var k := FirstWithId(list[1..], id);
      assert forall i | 0 <= i < |list| - 1 :: list[i + 1] == list[1..][i];
      if k == -1 then -1 else k + 1
  }

  /** The list after lifting the ban of an id. */
  function Unbanned(list: seq<BannedClient>, id: string): seq<BannedClient> {
    var k := FirstWithId(list, id);
    if k == -1 then list else Removed(list, list[k])
  }

  /** The first entry with an id is also the first entry equal to it. */
  lemma FirstWithIdIsFirstEqual(list: seq<BannedClient>, id: string)
    requires FirstWithId(list, id) >= 0
    ensures FirstIndex(list[FirstWithId(list, id)], list) == FirstWithId(list, id)
  {
  }

  /**
   Unbanning removes exactly one entry, the first with that id, for every list length: the
   one-element quirk of Remove is never met, because the entry removed is a member.
   */
  lemma UnbanRemovesFirst(list: seq<BannedClient>, id: string)
    ensures var k, after := FirstWithId(list, id), Unbanned(list, id);
            if k == -1 then after == list
            else multiset(after) == multiset(list) - multiset{list[k]} && |after| == |list| - 1 &&
                 (k < |after| ==> after[k] == list[|list| - 1]) &&
                 forall i | 0 <= i < |after| && i != k :: after[i] == list[i]
  {
    var k := FirstWithId(list, id);
    if k >= 0 {
      FirstWithIdIsFirstEqual(list, id);
      RemovesOneIff(list, list[k]);
    }
  }

  class BannedState {
    var entries: array<BannedClient>
    var count: nat

    predicate Valid()
      reads this
    {
      count <= entries.Length
    }

    function List(): seq<BannedClient>
      requires Valid()
      reads this, entries
    {
      entries[..count]
    }

    constructor (entries: array<BannedClient>)
      ensures Valid() && List() == entries[..]
      ensures this.entries == entries
    {
      this.entries, this.count := entries, entries.Length;
    }

    /** Go's append: in place while there is room, else into a larger copy. */
    method Append(entry: BannedClient)
      requires Valid()
      modifies this, entries
      ensures Valid() && List() == old(List()) + [entry]
      ensures entries == old(entries) || fresh(entries)
    {
      if count == entries.Length {
        var grown := new BannedClient[2 * count + 1](_ => entry);
        forall i | 0 <= i < count {
          grown[i] := entries[i];
        }
        entries := grown;
      }
      entries[count] := entry;
      count := count + 1;
    }

    /** Finds the first entry with the id and removes it from the slice. */
    method Unban(id: string) returns (success: bool)
      requires Valid()
      modifies this, entries
      ensures Valid() && List() == Unbanned(old(List()), id)
      ensures success <==> exists i | 0 <= i < |old(List())| :: old(List())[i].id == id
      ensures entries == old(entries) || fresh(entries)
    {
      success := false;
      var n := count;
      ghost var list := List();
      for i := 0 to n
        invariant !success && count == n && List() == list
        invariant forall k | 0 <= k < i :: list[k].id != id
      {
        if entries[i].id == id {
          assert FirstWithId(list, id) == i;
          assert list[i].id == id;
          entries, count := Remove(entries, count, entries[i]);
          return true;
        }
      }
    }
  }
}

/** Kicking, banning and muting from the server's own interface (app/clients.go). */
module Admin {
  import opened Basics
  import opened Registry
  import opened BanList

  const UNKNOWN_ADDRESS: string := "0.0.0.0"

  /** Muting acts on the radio entry, and only if there is one. */
  function WithMuted(r: Registry, g: Guid, muted: bool): Registry {
    if g in r.radios then r.SetRadios(g, r.radios[g].(muted := muted)) else r
  }

  /** Muting sets the mark as asked on the one radio entry, if it is there, and changes nothing else. */
  lemma MutesOnly(r: Registry, g: Guid, h: Guid, muted: bool)
    ensures var r' := WithMuted(r, g, muted);
            r'.clients == r.clients && r'.radios.Keys == r.radios.Keys &&
            (h in r.radios ==>
              r'.radios[h].radios == r.radios[h].radios &&
              r'.radios[h].muted == if h == g then muted else r.radios[h].muted)
  {
  }

  /** A parsed client id is the guid it names; None is an id that does not parse. */
  class VCSApplication {
    const serverState: ServerState
    const bannedState: BannedState

    constructor (serverState: ServerState, bannedState: BannedState)
      ensures this.serverState == serverState && this.bannedState == bannedState
    {
      this.serverState, this.bannedState := serverState, bannedState;
    }

    ghost predicate Valid()
      reads serverState, bannedState
    {
      serverState.Valid() && bannedState.Valid()
    }

    ghost function Banned(): seq<BannedClient>
      requires Valid()
      reads serverState, bannedState, bannedState.entries
    {
      bannedState.List()
    }

    /**
     The entry joins the ban list before it is saved, and the client is dropped only once
     saving has succeeded. The radio entry stays in either case.
     */
    method BanClient(clientId: string, guid: Option<Guid>, reason: string, saved: bool)
      requires Valid()
      modifies serverState`clients, bannedState, bannedState.entries
      ensures Valid()
      ensures
        if guid == None || guid.value !in old(serverState.clients) then
          Banned() == old(Banned()) && serverState.Value() == old(serverState.Value())
        else
          var name := old(serverState.clients[guid.value].name);
          Banned() == old(Banned()) + [BannedClient(clientId, name, UNKNOWN_ADDRESS, reason)] &&
          serverState.Value() ==
            if saved then old(serverState.Value()).Kick(guid.value) else old(serverState.Value())
    {
      if guid == None {
        return;
      }
      var g := guid.value;
      if g !in serverState.clients {
        return;
      }
      var client := serverState.clients[g];
      bannedState.Append(BannedClient(clientId, client.name, UNKNOWN_ADDRESS, reason));
      if !saved {
        return;
      }
      serverState.DeleteClient(g);
    }

    method UnbanClient(clientId: string) returns (success: bool)
      requires Valid()
      modifies bannedState, bannedState.entries
      ensures Valid() && Banned() == Unbanned(old(Banned()), clientId)
      ensures success <==> FirstWithId(old(Banned()), clientId) >= 0
    {
      success := bannedState.Unban(clientId);
    }

    method KickClient(guid: Option<Guid>)
      requires Valid()
      modifies serverState`clients
      ensures Valid()
      ensures serverState.Value() ==
        if guid == None then old(serverState.Value()) else old(serverState.Value()).Kick(guid.value)
    {
      if guid == None {
        return;
      }
      serverState.DeleteClient(guid.value);
    }

    method MuteClient(guid: Option<Guid>)
      requires Valid()
      modifies serverState`radioClients, serverState.radioClients.Values
      ensures Valid()
      ensures serverState.Value() ==
        if guid == None then old(serverState.Value()) else WithMuted(old(serverState.Value()), guid.value, true)
    {
      SetMuted(guid, true);
    }

    method UnmuteClient(guid: Option<Guid>)
      requires Valid()
      modifies serverState`radioClients, serverState.radioClients.Values
      ensures Valid()
      ensures serverState.Value() ==
        if guid == None then old(serverState.Value()) else WithMuted(old(serverState.Value()), guid.value, false)
    {
      SetMuted(guid, false);
    }

    /** The common body of muting and unmuting: the radio object is changed in place. */
    method SetMuted(guid: Option<Guid>, muted: bool)
      requires Valid()
      modifies serverState`radioClients, serverState.radioClients.Values
      ensures Valid()
      ensures serverState.Value() ==
        if guid == None then old(serverState.Value()) else WithMuted(old(serverState.Value()), guid.value, muted)
    {
      if guid == None || guid.value !in serverState.radioClients {
        return;
      }
      var g := guid.value;
      var client := serverState.radioClients[g];
      client.muted := muted;
      serverState.radioClients := serverState.radioClients[g := client];
      ghost var before := old(serverState.Radios());
      assert serverState.Radios() == before[g := before[g].(muted := muted)];
      assert serverState.Clients() == old(serverState.Clients());
    }
  }
}

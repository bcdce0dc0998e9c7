/**
 The handlers put together: each request, handled by its own method on the shared objects, is
 the step of the same name in the runs of the control plane.
 */
module ControlPlane {
  import opened Basics
  import opened Settings
  import opened Registry
  import opened RadioService
  import opened Auth
  import opened Admin
  import ControlRuns

  class Server {
    const serverState: ServerState
    const settings: SettingsState
    const auth: AuthServer
    const radio: SimpleRadioServer
    const app: VCSApplication

    constructor (auth: AuthServer, radio: SimpleRadioServer, app: VCSApplication)
      requires auth.serverState == radio.serverState == app.serverState && auth.settings == radio.settings
      requires auth.serverState.Valid() && app.Valid()
      ensures this.auth == auth && this.radio == radio && this.app == app && Valid()
    {
      this.serverState, this.settings := auth.serverState, auth.settings;
      this.auth, this.radio, this.app := auth, radio, app;
    }

    /** All three share one registry and one set of settings. */
    ghost predicate Valid()
      reads serverState, app.bannedState
    {
      auth.serverState == radio.serverState == app.serverState == serverState &&
      auth.settings == radio.settings == settings && serverState.Valid() && app.bannedState.Valid()
    }

    ghost function World(): ControlRuns.World
      requires Valid()
      reads serverState, app.bannedState, serverState.Objects(), auth, radio
    {
      ControlRuns.World(auth.Value(), radio.streams)
    }

    /** A step that names the settings names those in force. */
    ghost predicate Admissible(s: ControlRuns.Step)
      reads auth, auth.settings, settings
    {
      match s.event
      case Init(p, _) => p == auth.GetPolicy()
      case Guest(p, _) => p == auth.GetPolicy()
      case Login(p, _) => p == auth.GetPolicy()
      case Select(p, _) => p == auth.GetPolicy()
      case Update(coalitions, _, _) => coalitions == settings.coalitions
      case _ => true
    }

    /** The four steps of a login. */
    method HandleLogin(s: ControlRuns.Step)
      requires Valid() && Admissible(s)
      requires s.event.Init? || s.event.Guest? || s.event.Login? || s.event.Select?
      modifies auth, serverState
      ensures Valid() && World() == ControlRuns.Apply(old(World()), s)
    {
      match s.event
      case Init(_, r) => var _ := auth.InitAuth(r, s.now);
      case Guest(_, r) => var _ := auth.GuestLogin(r, s.now);
      case Login(_, r) => var _ := auth.Login(r, s.now);
      case Select(_, r) => var _ := auth.UnitSelect(r);
    }

    /** The requests of a client that is logged in, and the cleanup pass. */
    method HandleClient(s: ControlRuns.Step)
      requires Valid() && Admissible(s)
      requires s.event.Update? || s.event.UpdateRadios? || s.event.Subscribe? || s.event.Disconnect? || s.event.Cleanup?
      modifies radio, serverState, serverState.Objects()
      ensures Valid() && World() == ControlRuns.Apply(old(World()), s)
    {
      match s.event
      case Update(_, g, r) => var _ := radio.UpdateClientInfo(Some(g), r, s.now);
      case UpdateRadios(g, radios, muted) => var _ := radio.UpdateRadioInfo(Some(g), radios, muted);
      case Subscribe(g) => var _ := radio.SubscribeToUpdates(Some(g));
      case Disconnect(g) => var _ := radio.Disconnect(Some(g));
      case Cleanup(staleAfter) => radio.CleanupPass(s.now, staleAfter);
    }

    /** What the server's own interface does. */
    method HandleAdmin(s: ControlRuns.Step, id: string, reason: string)
      requires Valid()
      requires s.event.Kick? || s.event.Ban?
      modifies serverState, app.bannedState, app.bannedState.entries
      ensures Valid() && World() == ControlRuns.Apply(old(World()), s)
    {
      match s.event
      case Kick(g) => app.KickClient(Some(g));
      case Ban(g, saved) => app.BanClient(id, Some(g), reason, saved);
    }

    method HandleMute(s: ControlRuns.Step)
      requires Valid() && s.event.Mute?
      modifies serverState, serverState.Objects()
      ensures Valid() && World() == ControlRuns.Apply(old(World()), s)
    {
      if s.event.muted {
        app.MuteClient(Some(s.event.client));
      } else {
        app.UnmuteClient(Some(s.event.client));
      }
    }

    /** Every request is a step of the control plane. */
    method Handle(s: ControlRuns.Step, id: string, reason: string)
      requires Valid() && Admissible(s)
      modifies auth, radio, serverState, serverState.Objects(), app.bannedState, app.bannedState.entries
      ensures Valid() && World() == ControlRuns.Apply(old(World()), s)
    {
      if s.event.Kick? || s.event.Ban? {
        HandleAdmin(s, id, reason);
      } else if s.event.Mute? {
        HandleMute(s);
      } else if s.event.Init? || s.event.Guest? || s.event.Login? || s.event.Select? {
        HandleLogin(s);
      } else {
        HandleClient(s);
      }
    }
  }
}

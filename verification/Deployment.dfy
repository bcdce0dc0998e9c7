/**
 The whole server: the control plane and the voice server on one registry. What their methods do
 to the objects is what the steps of a run do to its state.
 */
module Deployment {
  import opened Basics
  import opened Registry
  import opened Protocol
  import opened VoiceServer
  import ControlPlane
  import ControlRuns
  import VoiceRuns

  class Node {
    const plane: ControlPlane.Server
    const voice: VoiceServer.Server

    constructor (plane: ControlPlane.Server, voice: VoiceServer.Server)
      requires plane.Valid() && voice.Valid() && voice.running && voice.serverState == plane.serverState
      ensures this.plane == plane && this.voice == voice && Valid()
    {
      this.plane, this.voice := plane, voice;
    }

    /** Both planes work on the same registry, and the voice server is running. */
    ghost predicate Valid()
      reads voice, plane.serverState, plane.app.bannedState
    {
      plane.Valid() && voice.Valid() && voice.running && voice.serverState == plane.serverState
    }

    ghost function System(): VoiceRuns.System
      requires Valid()
      reads voice, voice.clients.Values, plane.serverState, plane.app.bannedState, plane.serverState.Objects()
      reads plane.auth, plane.radio
    {
      VoiceRuns.System(plane.World(), voice.Sessions())
    }

    method HandleControl(s: ControlRuns.Step, id: string, reason: string)
      requires Valid() && plane.Admissible(s)
      modifies plane.auth, plane.radio, plane.serverState, plane.serverState.Objects()
      modifies plane.app.bannedState, plane.app.bannedState.entries
      ensures Valid() && System() == VoiceRuns.Apply(old(System()), VoiceRuns.Control(s))
    {
      plane.Handle(s, id, reason);
    }

    /** A datagram is a step, and what is sent for it is what the run says. */
    method HandleDatagram(data: seq<byte>, from: Address, now: Time)
      returns (sent: seq<Datagram>, playLocally: bool)
      requires Valid()
      modifies voice, voice.clients.Values
      ensures Valid() && System() == VoiceRuns.Apply(old(System()), VoiceRuns.Receive(now, data, from))
      ensures voice.Answered(data, from, old(voice.clients.Keys), sent, playLocally)
    {
      ghost var before := System();
      sent, playLocally := Receive(data, from, now);
      ReceiveStep(before, System(), data, from, now);
    }

    /** Nothing that the control plane works on changes. */
    method Receive(data: seq<byte>, from: Address, now: Time) returns (sent: seq<Datagram>, playLocally: bool)
      requires Valid()
      modifies voice, voice.clients.Values
      ensures Valid() && plane.World() == old(plane.World())
      ensures voice.Sessions() ==
        TableStep(old(voice.Sessions()), EventOf(data, from, old(plane.World()).control.registry.clients.Keys), now)
      ensures voice.Answered(data, from, old(voice.clients.Keys), sent, playLocally)
    {
      ghost var world := plane.World();
      ghost var records: set<object>, sessions: set<object> := plane.serverState.Objects(), voice.clients.Values;
      assert records !! sessions;
      sent, playLocally := voice.HandlePacket(data, from, now);
      assert plane.World() == world;
    }

    method HandleTick(now: Time)
      requires Valid()
      modifies voice
      ensures Valid() && System() == VoiceRuns.Apply(old(System()), VoiceRuns.Tick(now))
    {
      voice.Cleanup(now);
    }
  }

  lemma ReceiveStep(before: VoiceRuns.System, after: VoiceRuns.System, data: seq<byte>, from: Address, now: Time)
    requires after.world == before.world
    requires after.table ==
      TableStep(before.table, EventOf(data, from, before.world.control.registry.clients.Keys), now)
    ensures after == VoiceRuns.Apply(before, VoiceRuns.Receive(now, data, from))
  {
  }
}

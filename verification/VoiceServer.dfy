/** The voice server: sessions, keepalives, relaying and eviction (voice/server.go). */
module VoiceServer {
  import opened Basics
  import opened Float32
  import opened Registry
  import opened Settings
  import opened Protocol

  datatype Address = Address(ip: seq<byte>, port: nat)

  datatype Session = Session(addr: Address, lastSeen: Time)

  type Table = map<Guid, Session>

  datatype Datagram = Datagram(to: Address, data: seq<byte>)

  const SESSION_LIFETIME: Time := 1 * MINUTE

  // ---- What each packet does to the session table ----

  datatype VoiceEvent =
    | Hello(g: Guid, addr: Address, known: bool)    // known: the registry has the client
    | Alive(g: Guid)                                // KEEPALIVE and VOICE
    | Bye(g: Guid)
    | Ignored
    | Cleanup

  function PacketEvent(p: Packet, addr: Address, registered: set<Guid>): VoiceEvent {
    if p.kind == HELLO then Hello(p.sender, addr, p.sender in registered)
    else if p.kind == VOICE || p.kind == KEEPALIVE then Alive(p.sender)
    else if p.kind == BYE then Bye(p.sender)
    else Ignored
  }

  /** The event a datagram amounts to, if the server is running. */
  function EventOf(data: seq<byte>, addr: Address, registered: set<Guid>): VoiceEvent {
    match Decode(data)
    case Err(_) => Ignored
    case Ok(p) => PacketEvent(p, addr, registered)
  }

  function TableStep(table: Table, e: VoiceEvent, now: Time): Table {
    match e
    case Hello(g, addr, known) => if known then table[g := Session(addr, now)] else table
    case Alive(g) => if g in table then table[g := table[g].(lastSeen := now)] else table
    case Bye(g) => table - {g}
    case Ignored => table
    case Cleanup => map g | g in table && now - SESSION_LIFETIME <= table[g].lastSeen :: table[g]
  }

  // ---- Who hears a voice packet ----

  /** Every other registered client with a session whose first radio on the frequency is on. */
  function Listeners(r: Registry, sessions: set<Guid>, sender: Guid, f: Float): set<Guid> {
    if sender !in r.clients then {}
    else set g | g in sessions && g != sender && g in r.clients && g in r.radios && Hears(r.radios[g].radios, f)
  }

  /** The listeners in some order, each once. */
  ghost predicate Enumerates(ids: seq<Guid>, listeners: set<Guid>) {
    (forall i, j | 0 <= i < j < |ids| :: ids[i] != ids[j]) && forall g :: g in ids <==> g in listeners
  }

  /** Datagram i is the data, sent to the address in the session of client i. */
  ghost predicate Addressed(sent: seq<Datagram>, ids: seq<Guid>, data: seq<byte>, table: Table) {
    |ids| == |sent| &&
    forall i | 0 <= i < |ids| :: ids[i] in table && sent[i] == Datagram(table[ids[i]].addr, data)
  }

  /** One copy of the data to each listener, at the address in its session. */
  ghost predicate Relayed(sent: seq<Datagram>, data: seq<byte>, table: Table, listeners: set<Guid>) {
    exists ids: seq<Guid> :: Enumerates(ids, listeners) && Addressed(sent, ids, data, table)
  }

  /**
   What is sent in answer to a packet, given the clients with a session before, the registry,
   whether the frequency is a test frequency, and the sessions afterwards.
   */
  ghost predicate Answers(p: Packet, addr: Address, data: seq<byte>, known: set<Guid>, r: Registry, test: bool,
                          table: Table, sent: seq<Datagram>, playLocally: bool)
  {
    if p.kind == HELLO then
      !playLocally && sent == if p.sender in r.clients then [Datagram(addr, Encode(HelloAck(p.sender)))] else []
    else if p.kind == KEEPALIVE then
      !playLocally && sent == if p.sender in known then [Datagram(addr, Encode(Keepalive(p.sender)))] else []
    else if p.kind != VOICE || p.sender !in known then
      !playLocally && sent == []
    else if test then
      playLocally && sent == []
    else
      !playLocally && Relayed(sent, data, table, Listeners(r, table.Keys, p.sender, FrequencyAsFloat32(p)))
  }

  /** The elements that are in a set, in order. */
  function Keep(all: seq<Guid>, kept: set<Guid>): seq<Guid> {
    if all == [] then []
    else Keep(all[..|all| - 1], kept) + if all[|all| - 1] in kept then [all[|all| - 1]] else []
  }

  lemma KeepOneMore(all: seq<Guid>, kept: set<Guid>, k: nat)
    requires k < |all|
    ensures Keep(all[..k + 1], kept) == if all[k] in kept then Keep(all[..k], kept) + [all[k]] else Keep(all[..k], kept)
  {
    assert all[..k + 1][..k] == all[..k];
  }

  lemma {:induction false} KeepExact(all: seq<Guid>, kept: set<Guid>)
    requires forall i, j | 0 <= i < j < |all| :: all[i] != all[j]
    ensures forall g :: g in Keep(all, kept) <==> g in all && g in kept
    ensures forall i, j | 0 <= i < j < |Keep(all, kept)| :: Keep(all, kept)[i] != Keep(all, kept)[j]
  {
    if all != [] {
      var init, last := all[..|all| - 1], all[|all| - 1];
      KeepExact(init, kept);
      assert all == init + [last];
      assert last !in init;
    }
  }

  class Client {
    var addr: Address
    var lastSeen: Time

    constructor (addr: Address, lastSeen: Time)
      ensures Value() == Session(addr, lastSeen)
    {
      this.addr, this.lastSeen := addr, lastSeen;
    }

    function Value(): Session
      reads this
    {
      Session(addr, lastSeen)
    }
  }

  class Server {
    const serverState: ServerState
    const settings: SettingsState
    var running: bool
    var clients: map<Guid, Client>

    constructor (serverState: ServerState, settings: SettingsState)
      ensures this.serverState == serverState && this.settings == settings
      ensures Valid() && !running && Sessions() == map[]
    {
      this.serverState, this.settings := serverState, settings;
      this.running, this.clients := false, map[];
    }

    /** No two sessions share an object. */
    ghost predicate Valid()
      reads this
    {
      forall g, h | g in clients && h in clients && g != h :: clients[g] != clients[h]
    }

    ghost function Sessions(): Table
      reads this, clients.Values
    {
      map g | g in clients :: clients[g].Value()
    }

    method HandleHello(packet: VCSPacket, addr: Address, now: Time) returns (sent: seq<Datagram>)
      requires Valid()
      modifies this`clients
      ensures Valid()
      ensures Sessions() ==
        TableStep(old(Sessions()), Hello(packet.sender, addr, packet.sender in serverState.clients), now)
      ensures sent == if packet.sender in serverState.clients
                      then [Datagram(addr, Encode(HelloAck(packet.sender)))] else []
    {
      if !serverState.DoesClientExist(packet.sender) {
        return [];
      }
      var client := new Client(addr, now);
      clients := clients[packet.sender := client];
      var ack := new VCSPacket(HelloAck(packet.sender));
      var data := ack.SerializePacket();
      return [Datagram(addr, data[..])];
    }

    /** The session is refreshed in place; the answer goes to where the packet came from. */
    method HandleKeepalive(packet: VCSPacket, addr: Address, now: Time) returns (sent: seq<Datagram>)
      requires Valid()
      modifies clients.Values
      ensures Valid()
      ensures Sessions() == TableStep(old(Sessions()), Alive(packet.sender), now)
      ensures sent == if packet.sender in clients then [Datagram(addr, Encode(Keepalive(packet.sender)))] else []
    {
      if packet.sender !in clients {
        return [];
      }
      Refresh(packet.sender, now);
      var ack := new VCSPacket(Keepalive(packet.sender));
      var data := ack.SerializePacket();
      return [Datagram(addr, data[..])];
    }

    method Refresh(g: Guid, now: Time)
      requires Valid() && g in clients
      modifies clients[g]
      ensures Valid() && Sessions() == TableStep(old(Sessions()), Alive(g), now)
    {
      clients[g].lastSeen := now;
    }

    method DisconnectClient(g: Guid)
      requires Valid()
      modifies this`clients
      ensures Valid() && Sessions() == TableStep(old(Sessions()), Bye(g), 0)
    {
      if g in clients {
        clients := clients - {g};
      }
    }

    /** Deletes every session last seen before the threshold. */
    method Cleanup(now: Time)
      requires Valid()
      modifies this`clients
      ensures Valid() && Sessions() == TableStep(old(Sessions()), VoiceEvent.Cleanup, now)
    {
      var threshold := now - SESSION_LIFETIME;
      var left := clients.Keys;
      while left != {}
        invariant Valid() && left <= clients.Keys
        invariant forall g | g in clients :: g in old(clients) && clients[g] == old(clients)[g]
        invariant forall g | g in old(clients) && g !in left :: g in clients <==> threshold <= old(clients)[g].lastSeen
        invariant forall g | g in left :: g in old(clients)
        decreases left
      {
        var g :| g in left;
        left := left - {g};
        if clients[g].lastSeen < threshold {
          clients := clients - {g};
        }
      }
    }

    /** The sessions collected are those of the listed clients, in the same order. */
    ghost predicate SessionsOf(listening: seq<Client>, ids: seq<Guid>)
      reads this
    {
      |ids| == |listening| && forall i | 0 <= i < |ids| :: ids[i] in clients && listening[i] == clients[ids[i]]
    }

    /** The sessions of the listeners, in some order, each once. */
    ghost predicate Collected(listening: seq<Client>, listeners: set<Guid>)
      reads this
    {
      exists ids: seq<Guid> :: SessionsOf(listening, ids) && Enumerates(ids, listeners)
    }

    /** The body of the loop below: the session of a client is appended if it is to receive the packet. */
    method Visit(g: Guid, sender: Guid, f: Float, listening: seq<Client>, ghost ids: seq<Guid>)
      returns (listening': seq<Client>, ghost ids': seq<Guid>)
      requires g in serverState.clients && SessionsOf(listening, ids)
      ensures SessionsOf(listening', ids')
      ensures ids' == if g in Listeners(serverState.Value(), clients.Keys, sender, f) then ids + [g] else ids
    {
      if g == sender {
        return listening, ids;
      }
      var hears := serverState.IsListeningOnFrequency(g, sender, f, settings.IsFrequencyGlobal(f));
      if hears && g in clients {
        return listening + [clients[g]], ids + [g];
      }
      return listening, ids;
    }

    /** The loop over all clients, of which all is a listing. */
    method CollectFrom(all: seq<(Guid, ClientState)>, sender: Guid, f: Float)
      returns (listening: seq<Client>, ghost ids: seq<Guid>)
      requires forall k | 0 <= k < |all| :: all[k].0 in serverState.clients
      ensures SessionsOf(listening, ids)
      ensures ids == Keep(Ids(all), Listeners(serverState.Value(), clients.Keys, sender, f))
    {
      listening, ids := [], [];
      ghost var names, listeners := Ids(all), Listeners(serverState.Value(), clients.Keys, sender, f);
      for k := 0 to |all|
        invariant listeners == Listeners(serverState.Value(), clients.Keys, sender, f)
        invariant SessionsOf(listening, ids)
        invariant ids == Keep(names[..k], listeners)
      {
        KeepOneMore(names, listeners, k);
        listening, ids := Visit(all[k].0, sender, f, listening, ids);
      }
      assert names[..|all|] == names;
    }

    /** The sessions of all listeners, in the order in which the clients were listed. */
    method CollectListeners(sender: Guid, f: Float) returns (listening: seq<Client>)
      ensures Collected(listening, Listeners(serverState.Value(), clients.Keys, sender, f))
    {
      var all := serverState.GetAllClients();
      ghost var ids;
      listening, ids := CollectFrom(all, sender, f);
      ghost var listeners := Listeners(serverState.Value(), clients.Keys, sender, f);
      KeepExact(Ids(all), listeners);
      assert Enumerates(ids, listeners);
    }

    /** A packet on a test frequency is played on the server and sent to nobody. */
    method GetListeningClients(packet: VCSPacket, sender: Guid) returns (listening: seq<Client>, playLocally: bool)
      ensures
        var f := FrequencyAsFloat32(packet.Value());
        if settings.IsFrequencyTest(f) then listening == [] && playLocally == (packet.sender in clients)
        else !playLocally && Collected(listening, Listeners(serverState.Value(), clients.Keys, sender, f))
    {
      var f := FrequencyAsFloat32(packet.Value());
      if settings.IsFrequencyTest(f) {
        return [], packet.sender in clients;
      }
      playLocally := false;
      listening := CollectListeners(sender, f);
    }

    method SendToAll(packet: VCSPacket, to: seq<Client>) returns (sent: seq<Datagram>)
      ensures |sent| == |to|
      ensures forall k | 0 <= k < |to| :: sent[k] == Datagram(to[k].addr, Encode(packet.Value()))
    {
      sent := [];
      for i := 0 to |to|
        invariant |sent| == i
        invariant forall k | 0 <= k < i :: sent[k] == Datagram(to[k].addr, Encode(packet.Value()))
      {
        var data := packet.SerializePacket();
        sent := sent + [Datagram(to[i].addr, data[..])];
      }
    }

    /** Sends the encoded packet to every listening client, at the address it then has. */
    method BroadcastVoice(packet: VCSPacket, sender: Guid)
      returns (sent: seq<Datagram>, playLocally: bool)
      ensures
        var f := FrequencyAsFloat32(packet.Value());
        if settings.IsFrequencyTest(f) then sent == [] && playLocally == (packet.sender in clients)
        else
          !playLocally &&
          Relayed(sent, Encode(packet.Value()), Sessions(),
                  Listeners(serverState.Value(), clients.Keys, sender, f))
    {
      var listening: seq<Client>;
      listening, playLocally := GetListeningClients(packet, sender);
      sent := SendToAll(packet, listening);
      ghost var f, data := FrequencyAsFloat32(packet.Value()), Encode(packet.Value());
      if !settings.IsFrequencyTest(f) {
        ghost var listeners := Listeners(serverState.Value(), clients.Keys, sender, f);
        ghost var ids: seq<Guid> :| SessionsOf(listening, ids) && Enumerates(ids, listeners);
        assert Addressed(sent, ids, data, Sessions());
      }
    }

    method HandleVoice(packet: VCSPacket, now: Time)
      returns (sent: seq<Datagram>, playLocally: bool)
      requires Valid()
      modifies clients.Values
      ensures Valid()
      ensures Sessions() == TableStep(old(Sessions()), Alive(packet.sender), now)
      ensures
        var f := FrequencyAsFloat32(packet.Value());
        if packet.sender !in clients then sent == [] && !playLocally
        else if settings.IsFrequencyTest(f) then sent == [] && playLocally
        else
          !playLocally &&
          Relayed(sent, Encode(packet.Value()), Sessions(),
                  Listeners(serverState.Value(), clients.Keys, packet.sender, f))
    {
      if packet.sender !in clients {
        return [], false;
      }
      Refresh(packet.sender, now);
      sent, playLocally := BroadcastVoice(packet, packet.sender);
    }

    /** Acts on a packet by its type; an unknown type is dropped. */
    method Dispatch(packet: VCSPacket, addr: Address, now: Time)
      returns (sent: seq<Datagram>, playLocally: bool)
      requires Valid()
      modifies this`clients, clients.Values
      ensures Valid()
      ensures Sessions() == TableStep(old(Sessions()), PacketEvent(old(packet.Value()), addr, serverState.clients.Keys), now)
      ensures
        var p := old(packet.Value());
        Answers(p, addr, Encode(p), old(clients.Keys), serverState.Value(),
                settings.IsFrequencyTest(FrequencyAsFloat32(p)), Sessions(), sent, playLocally)
    {
      ghost var p := packet.Value();
      if packet.kind == VOICE {
        sent, playLocally := HandleVoice(packet, now);
        assert packet.Value() == p;
      } else {
        playLocally := false;
        sent := HandleSignal(packet, addr, now);
      }
    }

    /** The same for the types that carry no voice. */
    method HandleSignal(packet: VCSPacket, addr: Address, now: Time) returns (sent: seq<Datagram>)
      requires Valid() && packet.kind != VOICE
      modifies this`clients, clients.Values
      ensures Valid()
      ensures Sessions() == TableStep(old(Sessions()), PacketEvent(old(packet.Value()), addr, serverState.clients.Keys), now)
      ensures
        var p := old(packet.Value());
        Answers(p, addr, Encode(p), old(clients.Keys), serverState.Value(),
                settings.IsFrequencyTest(FrequencyAsFloat32(p)), Sessions(), sent, false)
    {
      if packet.kind == HELLO {
        sent := HandleHello(packet, addr, now);
      } else if packet.kind == BYE {
        DisconnectClient(packet.sender);
        sent := [];
      } else if packet.kind == KEEPALIVE {
        sent := HandleKeepalive(packet, addr, now);
      } else {
        sent := [];
      }
    }

    /** What is sent for a datagram, given the clients that had a session. */
    ghost predicate Answered(data: seq<byte>, addr: Address, known: set<Guid>, sent: seq<Datagram>, playLocally: bool)
      reads this, clients.Values, serverState, serverState.Objects(), settings
    {
      match Decode(data)
      case Err(_) => sent == [] && !playLocally
      case Ok(p) =>
        Answers(p, addr, data, known, serverState.Value(), settings.IsFrequencyTest(FrequencyAsFloat32(p)), Sessions(),
                sent, playLocally)
    }

    /** Parses a datagram and acts on it. A relayed datagram goes out byte for byte as it came in. */
    method HandlePacket(data: seq<byte>, addr: Address, now: Time)
      returns (sent: seq<Datagram>, playLocally: bool)
      requires Valid()
      modifies this`clients, clients.Values
      ensures Valid()
      ensures Sessions() == if running then TableStep(old(Sessions()), EventOf(data, addr, serverState.clients.Keys), now)
                            else old(Sessions())
      ensures
        if !running then sent == [] && !playLocally
        else Answered(data, addr, old(clients.Keys), sent, playLocally)
    {
      if !running {
        return [], false;
      }
      sent, playLocally := HandleDatagram(data, addr, now);
    }

    /** The same for a running server. */
    method HandleDatagram(data: seq<byte>, addr: Address, now: Time)
      returns (sent: seq<Datagram>, playLocally: bool)
      requires Valid()
      modifies this`clients, clients.Values
      ensures Valid()
      ensures Sessions() == TableStep(old(Sessions()), EventOf(data, addr, serverState.clients.Keys), now)
      ensures Answered(data, addr, old(clients.Keys), sent, playLocally)
    {
      var packet, error := ParsePacket(data);
      if packet == null {
        return [], false;
      }
      EncodeInvertsDecode(data);
      assert Sessions() == old(Sessions());
      sent, playLocally := Dispatch(packet, addr, now);
    }
  }
}

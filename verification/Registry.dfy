/** The shared registry of clients and their radios (state/server.go). */
module Registry {
  import opened Basics
  import opened Float32
  import opened Frequency

  type Role = r: int | 0 <= r < 0x100

  const GUEST: Role := 0

  datatype Radio = Radio(id: nat, name: string, frequency: Float, enabled: bool, isIntercom: bool)

  // ---- The registry as a value ----

  datatype ClientInfo = ClientInfo(name: string, unitId: string, coalition: string, role: Role, lastUpdate: Time)

  datatype RadioInfo = RadioInfo(radios: seq<Radio>, muted: bool)

  datatype Registry = Registry(clients: map<Guid, ClientInfo>, radios: map<Guid, RadioInfo>) {

    /** A client is admitted with an empty radio list; both entries are replaced if present. */
    function Admit(g: Guid, info: ClientInfo): Registry {
      Registry(clients[g := info], radios[g := RadioInfo([], false)])
    }

    /** Disconnecting and the cleanup pass clear both entries. */
    function Drop(g: Guid): Registry {
      Registry(clients - {g}, radios - {g})
    }

    /** Kicking and banning clear only the client entry. */
    function Kick(g: Guid): Registry {
      this.(clients := clients - {g})
    }

    function SetInfo(g: Guid, info: ClientInfo): Registry {
      this.(clients := clients[g := info])
    }

    function SetRadios(g: Guid, info: RadioInfo): Registry {
      this.(radios := radios[g := info])
    }
  }

  // ---- Listening ----

  /** The first radio tuned to f is switched on. */
  predicate Hears(radios: seq<Radio>, f: Float) {
    exists i | 0 <= i < |radios| ::
      Eq(radios[i].frequency, f) && radios[i].enabled && forall j | 0 <= j < i :: !Eq(radios[j].frequency, f)
  }

  function EnabledFrequencies(radios: seq<Radio>): seq<Float> {
    if radios == [] then []
    else EnabledFrequencies(radios[..|radios| - 1])
         + if radios[|radios| - 1].enabled then [radios[|radios| - 1].frequency] else []
  }

  /** The enabled frequencies are those of the radios that are switched on. */
  lemma {:induction false} EnabledIff(radios: seq<Radio>, f: Float)
    ensures Contains(EnabledFrequencies(radios), f)
            <==> exists i | 0 <= i < |radios| :: radios[i].enabled && Eq(radios[i].frequency, f)
  {
    if radios != [] {
      var last := |radios| - 1;
      var e, e' := EnabledFrequencies(radios[..last]), EnabledFrequencies(radios);
      EnabledIff(radios[..last], f);
      assert forall i | 0 <= i < |e| :: e'[i] == e[i];
      assert forall i | 0 <= i < last :: radios[i] == radios[..last][i];
      if Contains(e', f) {
        var i :| 0 <= i < |e'| && Eq(e'[i], f);
        assert i < |e| ==> Eq(e[i], f);
      }
      if radios[last].enabled && Eq(radios[last].frequency, f) {
        assert Eq(e'[|e|], f);
      }
    }
  }

  /** They come in the order of the radios, once for each radio that is on. */
  lemma {:induction false} EnabledInOrder(a: seq<Radio>, b: seq<Radio>)
    ensures EnabledFrequencies(a + b) == EnabledFrequencies(a) + EnabledFrequencies(b)
    ensures |b| == 1 ==> EnabledFrequencies(b) == if b[0].enabled then [b[0].frequency] else []
  {
    if b == [] {
      assert a + b == a;
    } else {
      var init := b[..|b| - 1];
      assert (a + b)[..|a + b| - 1] == a + init;
      EnabledInOrder(a, init);
    }
  }

  /** Position i is switched off, the first on its frequency, and masks a later one that is on. */
  predicate Masks(radios: seq<Radio>, i: nat, j: nat) {
    i < j < |radios| && Eq(radios[i].frequency, radios[j].frequency) && !radios[i].enabled && radios[j].enabled &&
    forall k | 0 <= k < i :: !Eq(radios[k].frequency, radios[i].frequency)
  }

  /** Hearing implies listing. */
  lemma HeardIsListed(radios: seq<Radio>, f: Float)
    requires Hears(radios, f)
    ensures Contains(EnabledFrequencies(radios), f)
  {
    EnabledIff(radios, f);
  }

  /** Hearing and listing agree on every frequency exactly when no radio masks another. */
  lemma HeardIffListedIff(radios: seq<Radio>)
    ensures (forall f: Float :: Hears(radios, f) <==> Contains(EnabledFrequencies(radios), f))
            <==> !exists i: nat, j: nat :: Masks(radios, i, j)
  {
    if i: nat, j: nat :| Masks(radios, i, j) {
      var f := radios[j].frequency;
      EnabledIff(radios, f);
      assert Eq(radios[j].frequency, f);
      assert !Hears(radios, f);
    } else {
      forall f: Float
        ensures Hears(radios, f) <==> Contains(EnabledFrequencies(radios), f)
      {
        EnabledIff(radios, f);
        if j :| 0 <= j < |radios| && radios[j].enabled && Eq(radios[j].frequency, f) {
          var i := FirstTuned(radios, f, j);
          assert !Masks(radios, i, j);
        }
      }
    }
  }

  lemma {:induction false} FirstTuned(radios: seq<Radio>, f: Float, j: nat) returns (i: nat)
    requires j < |radios| && Eq(radios[j].frequency, f)
    ensures i <= j && Eq(radios[i].frequency, f)
    ensures forall k | 0 <= k < i :: !Eq(radios[k].frequency, f)
    decreases j
  {
    if k :| 0 <= k < j && Eq(radios[k].frequency, f) {
      i := FirstTuned(radios, f, k);
    } else {
      i := j;
    }
  }

  /** Radios on distinct frequencies mask nothing. */
  lemma DistinctNeverMask(radios: seq<Radio>, f: Float)
    requires forall i, j | 0 <= i < j < |radios| :: !Eq(radios[i].frequency, radios[j].frequency)
    ensures Hears(radios, f) <==> Contains(EnabledFrequencies(radios), f)
  {
    HeardIffListedIff(radios);
  }

  /** Radios whose frequencies were entered as kHz values on the range that floats tell apart. */
  ghost predicate TunedTo(radios: seq<Radio>, kHz: seq<nat>) {
    |kHz| == |radios| &&
    forall i | 0 <= i < |radios| :: kHz[i] <= LAST_DISTINCT && radios[i].frequency == Megahertz(kHz[i])
  }

  /** Hearing, as the integers decide it. */
  predicate HearsKilohertz(radios: seq<Radio>, kHz: seq<nat>, k: nat)
    requires |kHz| == |radios|
  {
    exists i | 0 <= i < |radios| :: kHz[i] == k && radios[i].enabled && forall j | 0 <= j < i :: kHz[j] != k
  }

  /** Matching by float32 refines matching by kHz. */
  lemma HearsByKilohertz(radios: seq<Radio>, kHz: seq<nat>, k: nat)
    requires TunedTo(radios, kHz) && k <= LAST_DISTINCT
    ensures Hears(radios, Megahertz(k)) <==> HearsKilohertz(radios, kHz, k)
  {
    forall i | 0 <= i < |radios|
      ensures Eq(radios[i].frequency, Megahertz(k)) <==> kHz[i] == k
    {
      MatchIsKilohertzEquality(kHz[i], k);
    }
  }

  // ---- The registry objects ----

  class ClientState {
    var name: string
    var unitId: string
    var coalition: string
    var role: Role
    var lastUpdate: Time

    constructor (info: ClientInfo)
      ensures Value() == info
    {
      name, unitId, coalition := info.name, info.unitId, info.coalition;
      role, lastUpdate := info.role, info.lastUpdate;
    }

    function Value(): ClientInfo
      reads this
    {
      ClientInfo(name, unitId, coalition, role, lastUpdate)
    }
  }

  class RadioState {
    var radios: seq<Radio>
    var muted: bool

    constructor (info: RadioInfo)
      ensures Value() == info
    {
      radios, muted := info.radios, info.muted;
    }

    function Value(): RadioInfo
      reads this
    {
      RadioInfo(radios, muted)
    }
  }

  function Ids(all: seq<(Guid, ClientState)>): seq<Guid> {
    seq(|all|, i requires 0 <= i < |all| => all[i].0)
  }

  class ServerState {
    var clients: map<Guid, ClientState>
    var radioClients: map<Guid, RadioState>

    /** No two entries share an object. */
    ghost predicate Valid()
      reads this
    {
      && (forall g, h | g in clients && h in clients && g != h :: clients[g] != clients[h])
      && (forall g, h | g in radioClients && h in radioClients && g != h :: radioClients[g] != radioClients[h])
    }

    ghost function Objects(): set<object>
      reads this
    {
      clients.Values + radioClients.Values
    }

    ghost function Clients(): map<Guid, ClientInfo>
      reads this, clients.Values
    {
      map g | g in clients :: clients[g].Value()
    }

    ghost function Radios(): map<Guid, RadioInfo>
      reads this, radioClients.Values
    {
      map g | g in radioClients :: radioClients[g].Value()
    }

    ghost function Value(): Registry
      reads this, Objects()
    {
      Registry(Clients(), Radios())
    }

    constructor ()
      ensures Valid() && Value() == Registry(map[], map[])
    {
      clients, radioClients := map[], map[];
    }

    method AddClient(g: Guid, client: ClientState)
      requires Valid()
      modifies this
      ensures Value() == old(Value()).Admit(g, client.Value())
      ensures (forall h | h in old(clients) && h != g :: old(clients)[h] != client) ==> Valid()
    {
      var radios := new RadioState(RadioInfo([], false));
      clients := clients[g := client];
      radioClients := radioClients[g := radios];
      assert Clients() == old(Clients())[g := client.Value()];
      assert Radios() == old(Radios())[g := RadioInfo([], false)];
    }

    /** AddClient with a freshly made client, as both logins call it. */
    method AddNewClient(g: Guid, info: ClientInfo)
      requires Valid()
      modifies this
      ensures Valid() && Value() == old(Value()).Admit(g, info)
    {
      var client := new ClientState(info);
      AddClient(g, client);
    }

    /** The built-in delete on each map. */
    method DeleteClient(g: Guid)
      requires Valid()
      modifies this`clients
      ensures Valid() && clients == old(clients) - {g}
      ensures Clients() == old(Clients()) - {g} && Radios() == old(Radios())
    {
      clients := clients - {g};
    }

    method DeleteRadio(g: Guid)
      requires Valid()
      modifies this`radioClients
      ensures Valid() && radioClients == old(radioClients) - {g}
      ensures Radios() == old(Radios()) - {g} && Clients() == old(Clients())
    {
      radioClients := radioClients - {g};
    }

    /** Every client once, in an arbitrary order. */
    method GetAllClients() returns (all: seq<(Guid, ClientState)>)
      ensures forall i | 0 <= i < |all| :: all[i].0 in clients && all[i].1 == clients[all[i].0]
      ensures forall i, j | 0 <= i < j < |all| :: Ids(all)[i] != Ids(all)[j]
      ensures forall g :: g in Ids(all) <==> g in clients
    {
      all := [];
      var left := clients.Keys;
      while left != {}
        invariant left <= clients.Keys
        invariant forall i | 0 <= i < |all| :: all[i].0 in clients && all[i].1 == clients[all[i].0]
        invariant forall i, j | 0 <= i < j < |all| :: Ids(all)[i] != Ids(all)[j]
        invariant forall g :: g in Ids(all) <==> g in clients && g !in left
        decreases left
      {
        var g :| g in left;
        ghost var before := Ids(all);
        all := all + [(g, clients[g])];
        left := left - {g};
        assert Ids(all) == before + [g];
      }
    }

    method GetAllEnabledFrequencies(g: Guid) returns (frequencies: seq<Float>)
      ensures frequencies == if g in radioClients then EnabledFrequencies(radioClients[g].radios) else []
    {
      if g in radioClients {
        var radios := radioClients[g].radios;
        frequencies := [];
        for i := 0 to |radios|
          invariant frequencies == EnabledFrequencies(radios[..i])
        {
          if radios[i].enabled {
            frequencies := frequencies + [radios[i].frequency];
          }
          assert radios[..i + 1][..i] == radios[..i];
        }
        assert radios[..|radios|] == radios;
        return frequencies;
      }
      return [];
    }

    /**
     The receiver is looked up under the sender's id, so the coalition test compares the
     sender with itself and never rejects anyone.
     */
    method IsListeningOnFrequency(g: Guid, senderId: Guid, frequency: Float, globalFreq: bool)
      returns (listening: bool)
      ensures listening <==>
        senderId in clients && g in radioClients && Hears(radioClients[g].radios, frequency)
    {
      if senderId in clients {
        var sender := clients[senderId];
        if g in radioClients {
          var radios := radioClients[g].radios;
          var receiver := clients[senderId];
          if !globalFreq && sender.coalition != receiver.coalition {
            return false;
          }
          for i := 0 to |radios|
            invariant forall k | 0 <= k < i :: !Eq(radios[k].frequency, frequency)
          {
            if Eq(radios[i].frequency, frequency) {
              return radios[i].enabled;
            }
          }
        }
      }
      return false;
    }

    predicate DoesClientExist(g: Guid)
      reads this
    {
      g in clients
    }
  }
}

/**
 Whole runs of the server: control handlers, voice packets and eviction ticks in any order,
 each atomic.
 */
module VoiceRuns {
  import opened Basics
  import opened Histories
  import opened Registry
  import opened Protocol
  import opened VoiceServer
  import Frequency
  import ControlRuns

  datatype Step =
    | Control(step: ControlRuns.Step)
    | Receive(at: Time, data: seq<byte>, from: Address)
    | Tick(at: Time)

  type Log = seq<Step>

  datatype System = System(world: ControlRuns.World, table: Table)

  const START: System := System(ControlRuns.START, map[])

  function Instant(s: Step): Time {
    if s.Control? then s.step.now else s.at
  }

  /** What a step means to the session table of a running server. */
  function EventAt(sys: System, s: Step): VoiceEvent {
    match s
    case Control(_) => Ignored
    case Receive(_, data, from) => EventOf(data, from, sys.world.control.registry.clients.Keys)
    case Tick(_) => Cleanup
  }

  function Apply(sys: System, s: Step): System {
    System(if s.Control? then ControlRuns.Apply(sys.world, s.step) else sys.world,
           TableStep(sys.table, EventAt(sys, s), Instant(s)))
  }

  function After(log: Log): System {
    if log == [] then START else Apply(After(log[..|log| - 1]), log[|log| - 1])
  }

  /** The state in which step i is taken. */
  function Before(log: Log, i: nat): System
    requires i <= |log|
  {
    After(log[..i])
  }

  lemma BeforeStep(log: Log, i: nat)
    requires i < |log|
    ensures Before(log, i + 1) == Apply(Before(log, i), log[i])
  {
    assert log[..i + 1][..i] == log[..i];
  }

  function Sessions(log: Log, i: nat): Table
    requires i <= |log|
  {
    Before(log, i).table
  }

  function RegistryAt(log: Log, i: nat): Registry
    requires i <= |log|
  {
    Before(log, i).world.control.registry
  }

  function Happened(log: Log, i: nat): VoiceEvent
    requires i < |log|
  {
    EventAt(Before(log, i), log[i])
  }

  /** The control steps alone. */
  function ControlLog(log: Log): ControlRuns.Log {
    if log == [] then []
    else ControlLog(log[..|log| - 1]) + if log[|log| - 1].Control? then [log[|log| - 1].step] else []
  }

  /** Voice traffic never changes the registry: it is what the control steps alone make of it. */
  lemma {:induction false} WorldIsControlRun(log: Log)
    ensures After(log).world == ControlRuns.After(ControlLog(log))
  {
    if log != [] {
      var init, last := log[..|log| - 1], log[|log| - 1];
      WorldIsControlRun(init);
      if last.Control? {
        assert ControlLog(log)[..|ControlLog(init)|] == ControlLog(init);
      } else {
        assert ControlLog(log) == ControlLog(init);
      }
    }
  }

  /** Admitted by a login, and neither cleared, kicked nor banned since. */
  ghost predicate Joined(log: Log, n: nat, g: Guid)
    requires n <= |log|
  {
    var c := ControlLog(log[..n]);
    ControlRuns.Joined(c, |c|, g)
  }

  lemma RegisteredIffJoined(log: Log, n: nat, g: Guid)
    requires n <= |log|
    ensures g in RegistryAt(log, n).clients <==> Joined(log, n, g)
    ensures Joined(log, n, g) ==> g in RegistryAt(log, n).radios
  {
    var c := ControlLog(log[..n]);
    WorldIsControlRun(log[..n]);
    assert c[..|c|] == c;
    ControlRuns.PresentIffJoined(c, |c|, g);
    ControlRuns.ExactPairing(c, |c|, g);
  }

  // ---- The session table as a fold over the log ----

  predicate Greets(e: VoiceEvent, g: Guid) {
    e.Hello? && e.g == g && e.known
  }

  predicate Touches(e: VoiceEvent, g: Guid) {
    Greets(e, g) || e == Alive(g)
  }

  /** The accepted HELLO packets of g. */
  function Hellos(log: Log, g: Guid): seq<bool> {
    seq(|log|, i requires 0 <= i < |log| => Greets(Happened(log, i), g))
  }

  /** The accepted HELLO, VOICE and KEEPALIVE packets of g. */
  function Refreshes(log: Log, g: Guid): seq<bool> {
    seq(|log|, i requires 0 <= i < |log| => Touches(Happened(log, i), g))
  }

  /** Steps that end a session of g: a BYE, or a tick more than a minute after the last refresh. */
  function Ends(log: Log, g: Guid): seq<bool> {
    seq(|log|, i requires 0 <= i < |log| =>
      Happened(log, i) == Bye(g) ||
      (Happened(log, i) == Cleanup &&
       var k := Last(Refreshes(log, g), i); k >= 0 && Instant(log[k]) < Instant(log[i]) - SESSION_LIFETIME))
  }

  /** What one event does to the session of g. */
  lemma SessionStep(table: Table, e: VoiceEvent, now: Time, g: Guid)
    ensures var after := TableStep(table, e, now);
            if Greets(e, g) then g in after && after[g] == Session(e.addr, now)
            else if e == Alive(g) && g in table then g in after && after[g] == table[g].(lastSeen := now)
            else if e == Bye(g) || (e == Cleanup && g in table && table[g].lastSeen < now - SESSION_LIFETIME)
              then g !in after
            else g in after <==> g in table
    ensures var after := TableStep(table, e, now);
            g in table && g in after && !Touches(e, g) ==> after[g] == table[g]
  {
  }

  /** Only an accepted HELLO opens a session or changes its address. */
  lemma OnlyHelloOpens(table: Table, e: VoiceEvent, now: Time, g: Guid)
    requires g in TableStep(table, e, now)
    requires g !in table || TableStep(table, e, now)[g].addr != table[g].addr
    ensures Greets(e, g) && TableStep(table, e, now)[g] == Session(e.addr, now)
  {
  }

  /** The session that the packets before step n amount to, if it has not ended. */
  function LastSession(log: Log, n: nat, g: Guid): (s: Session)
    requires n <= |log|
    requires Last(Hellos(log, g), n) >= 0 && Last(Refreshes(log, g), n) >= 0
  {
    Session(Happened(log, Last(Hellos(log, g), n)).addr, Instant(log[Last(Refreshes(log, g), n)]))
  }

  /**
   A session is open exactly when an accepted HELLO has not been followed by a BYE or an
   eviction; it holds the address of the last such HELLO and the time of the last refresh.
   */
  lemma {:induction false} SessionIff(log: Log, n: nat, g: Guid)
    requires n <= |log|
    ensures g in Sessions(log, n) <==> Since(Hellos(log, g), Ends(log, g), n)
    ensures g in Sessions(log, n) ==>
      0 <= Last(Hellos(log, g), n) <= Last(Refreshes(log, g), n) && Sessions(log, n)[g] == LastSession(log, n, g)
  {
    if n > 0 {
      var m := n - 1;
      SessionIff(log, m, g);
      BeforeStep(log, m);
      SessionStep(Sessions(log, m), Happened(log, m), Instant(log[m]), g);
      SinceStep(Hellos(log, g), Ends(log, g), m);
    }
  }

  /** A HELLO opens a session exactly when its sender is then a joined client. */
  lemma HelloAcceptedIffJoined(log: Log, i: nat, p: Packet)
    requires i < |log| && log[i].Receive? && Decode(log[i].data) == Ok(p) && p.kind == HELLO
    ensures Hellos(log, p.sender)[i] <==> Joined(log, i, p.sender)
    ensures Joined(log, i, p.sender) ==>
      p.sender in Sessions(log, i + 1) && Sessions(log, i + 1)[p.sender] == Session(log[i].from, log[i].at)
  {
    RegisteredIffJoined(log, i, p.sender);
    BeforeStep(log, i);
  }

  /**
   What a datagram does to the sessions, by its type: HELLO (1) of a joined client opens or
   replaces a session, KEEPALIVE (3) and VOICE (0) refresh one where it is, BYE (4) closes it, and
   nothing else changes anything.
   */
  lemma PacketEffect(log: Log, i: nat, p: Packet)
    requires i < |log| && log[i].Receive? && Decode(log[i].data) == Ok(p)
    ensures var before, after, g := Sessions(log, i), Sessions(log, i + 1), p.sender;
            if p.kind == 1 && Joined(log, i, g) then after == before[g := Session(log[i].from, log[i].at)]
            else if (p.kind == 0 || p.kind == 3) && g in before then
              after == before[g := Session(before[g].addr, log[i].at)]
            else if p.kind == 4 then after == before - {g}
            else after == before
  {
    RegisteredIffJoined(log, i, p.sender);
    BeforeStep(log, i);
  }

  /** A datagram that is not accepted and a control request leave the sessions as they are. */
  lemma OthersKeepSessions(log: Log, i: nat)
    requires i < |log| && (log[i].Control? || (log[i].Receive? && Decode(log[i].data).Err?))
    ensures Sessions(log, i + 1) == Sessions(log, i)
  {
    BeforeStep(log, i);
  }

  // ---- Time ----

  predicate Chronological(log: Log) {
    forall i, j | 0 <= i < j < |log| :: Instant(log[i]) <= Instant(log[j])
  }

  lemma NotLater(log: Log, i: nat, j: nat)
    requires Chronological(log) && i <= j < |log|
    ensures Instant(log[i]) <= Instant(log[j])
  {
  }

  /** A tick spares a session exactly when its last refresh is at most a minute old. */
  lemma TickSpares(log: Log, j: nat, g: Guid)
    requires j < |log| && log[j].Tick?
    ensures var k := Last(Refreshes(log, g), j);
            !Ends(log, g)[j] <==> k < 0 || Instant(log[j]) - Instant(log[k]) <= SESSION_LIFETIME
  {
  }

  /** After a tick, no session is left that was last refreshed more than a minute before it. */
  lemma EvictedByTick(log: Log, k: nat, n: nat, g: Guid)
    requires Chronological(log) && k < n <= |log| && log[k].Tick? && g in Sessions(log, n)
    ensures Sessions(log, n)[g].lastSeen >= Instant(log[k]) - SESSION_LIFETIME
  {
    SessionIff(log, n, g);
    var hellos, refreshes, ends := Hellos(log, g), Refreshes(log, g), Ends(log, g);
    var last := Last(refreshes, n);
    if k <= last {
      NotLater(log, k, last);
    } else {
      var i: nat :| SinceAt(hellos, ends, i, n);
      assert i <= Last(hellos, n) <= last < k;
      LastStable(refreshes, k, n);
      TickSpares(log, k, g);
    }
  }

  /** A running server has ticked in the last half minute, or was started in it. */
  predicate TicksOnTime(log: Log, start: Time, n: nat, now: Time)
    requires n <= |log|
  {
    now - start <= 30 * SECOND || exists k | 0 <= k < n :: log[k].Tick? && now - Instant(log[k]) <= 30 * SECOND
  }

  /** With ticks at most half a minute apart, no session is ever silent for more than 90 seconds. */
  lemma SilenceBound(log: Log, start: Time, n: nat, now: Time, g: Guid)
    requires Chronological(log) && (forall i | 0 <= i < |log| :: start <= Instant(log[i]))
    requires n <= |log| && TicksOnTime(log, start, n, now) && g in Sessions(log, n)
    ensures now - Sessions(log, n)[g].lastSeen <= 90 * SECOND
  {
    if k :| 0 <= k < n && log[k].Tick? && now - Instant(log[k]) <= 30 * SECOND {
      EvictedByTick(log, k, n, g);
    } else {
      SessionIff(log, n, g);
    }
  }

  /** The 90 seconds are reached: ticks half a minute apart leave a session that long. */
  lemma SilenceBoundReached(log: Log, p: Packet, from: Address, t: Time)
    requires Joined(log, |log|, p.sender) && WellFormed(p) && p.kind == HELLO
    ensures var run := log + [Receive(t, Encode(p), from), Tick(t + 30 * SECOND), Tick(t + 60 * SECOND)];
            p.sender in Sessions(run, |run|) && Sessions(run, |run|)[p.sender].lastSeen == t
  {
    var run := log + [Receive(t, Encode(p), from), Tick(t + 30 * SECOND), Tick(t + 60 * SECOND)];
    var n := |log|;
    assert run[..n] == log == log[..n];
    DecodeInvertsEncode(p);
    HelloAcceptedIffJoined(run, n, p);
    BeforeStep(run, n + 1);
    BeforeStep(run, n + 2);
  }

  /**
   From step i on, the refreshes of g follow one another within a minute, and the last one is at
   most a minute old in step n - 1.
   */
  predicate RefreshedEveryMinute(log: Log, g: Guid, i: nat, n: nat)
    requires i < n <= |log|
  {
    var r := Refreshes(log, g);
    (forall k, l | i <= k < l < n && Consecutive(r, k, l) :: Instant(log[l]) - Instant(log[k]) <= SESSION_LIFETIME) &&
    (Last(r, n) >= 0 ==> Instant(log[n - 1]) - Instant(log[Last(r, n)]) <= SESSION_LIFETIME)
  }

  /** A session refreshed at least every minute is kept until its client says BYE. */
  lemma KeptAliveIsKept(log: Log, g: Guid, i: nat, n: nat)
    requires Chronological(log) && i < n <= |log|
    requires Greets(Happened(log, i), g) && RefreshedEveryMinute(log, g, i, n)
    requires forall j | i < j < n :: Happened(log, j) != Bye(g)
    ensures g in Sessions(log, n)
  {
    forall j | i < j < n
      ensures !Ends(log, g)[j]
    {
      if log[j].Tick? {
        RefreshedSpares(log, g, i, n, j);
      }
    }
    assert SinceAt(Hellos(log, g), Ends(log, g), i, n);
    SessionIff(log, n, g);
  }

  lemma RefreshedSpares(log: Log, g: Guid, i: nat, n: nat, j: nat)
    requires Chronological(log) && i < j < n <= |log|
    requires Greets(Happened(log, i), g) && RefreshedEveryMinute(log, g, i, n) && log[j].Tick?
    ensures !Ends(log, g)[j]
  {
    var refreshes := Refreshes(log, g);
    assert refreshes[i];
    var k := Last(refreshes, j);
    assert i <= k;
    var l := NextAfter(refreshes, j, n);
    NotLater(log, j, if l == n then n - 1 else l);
    assert Instant(log[j]) - Instant(log[k]) <= SESSION_LIFETIME;
    TickSpares(log, j, g);
  }

  // ---- Who hears whom ----

  /** The listeners to a voice packet received as step n, in terms of the log alone. */
  ghost predicate Reached(log: Log, n: nat, p: Packet, g: Guid)
    requires n < |log|
  {
    g != p.sender && Joined(log, n, p.sender) && Joined(log, n, g) &&
    Since(Hellos(log, g), Ends(log, g), n) &&
    g in RegistryAt(log, n).radios && Hears(RegistryAt(log, n).radios[g].radios, FrequencyAsFloat32(p))
  }

  /**
   Soundness and completeness of the relay: for a voice packet whose sender has a session, the
   datagrams go to exactly the clients reached, one to each, byte for byte as received, at the
   address from which that client last said HELLO.
   */
  lemma RelayExact(log: Log, n: nat, p: Packet, sent: seq<Datagram>) returns (ids: seq<Guid>)
    requires n < |log| && log[n].Receive? && Decode(log[n].data) == Ok(p) && p.kind == VOICE
    requires var table := Sessions(log, n + 1);
             Relayed(sent, log[n].data, table,
                     Listeners(RegistryAt(log, n), table.Keys, p.sender, FrequencyAsFloat32(p)))
    ensures forall g: Guid :: g in ids <==> Reached(log, n, p, g)
    ensures |sent| == |ids| && forall i, j | 0 <= i < j < |ids| :: ids[i] != ids[j]
    ensures forall i | 0 <= i < |ids| :: Last(Hellos(log, ids[i]), n) >= 0 &&
              sent[i] == Datagram(Happened(log, Last(Hellos(log, ids[i]), n)).addr, log[n].data)
  {
    BeforeStep(log, n);
    assert Happened(log, n) == Alive(p.sender);
    var table := Sessions(log, n + 1);
    ids :| Enumerates(ids, Listeners(RegistryAt(log, n), table.Keys, p.sender, FrequencyAsFloat32(p))) &&
           Addressed(sent, ids, log[n].data, table);
    forall g: Guid
      ensures g in ids <==> Reached(log, n, p, g)
    {
      ReachedIff(log, n, p, g);
    }
    forall i | 0 <= i < |ids|
      ensures Last(Hellos(log, ids[i]), n) >= 0
      ensures sent[i] == Datagram(Happened(log, Last(Hellos(log, ids[i]), n)).addr, log[n].data)
    {
      var g := ids[i];
      SessionIff(log, n, g);
      SessionStep(Sessions(log, n), Alive(p.sender), Instant(log[n]), g);
    }
  }

  /**
   Everything that is sent for a datagram: HELLO and KEEPALIVE are acknowledged to where they came
   from, VOICE is relayed or, on a test frequency, played on the server, and nothing else is answered.
   */
  lemma AnswerExact(log: Log, n: nat, p: Packet, test: bool, sent: seq<Datagram>, playLocally: bool)
    returns (ids: seq<Guid>)
    requires n < |log| && log[n].Receive? && Decode(log[n].data) == Ok(p)
    requires Answers(p, log[n].from, log[n].data, Sessions(log, n).Keys, RegistryAt(log, n), test,
                     Sessions(log, n + 1), sent, playLocally)
    ensures p.kind == 1 ==>
      sent == if Joined(log, n, p.sender) then [Datagram(log[n].from, Acknowledgement(0x12, p.sender))] else []
    ensures p.kind == 3 ==>
      sent == if p.sender in Sessions(log, n) then [Datagram(log[n].from, Acknowledgement(0x13, p.sender))] else []
    ensures p.kind !in {0, 1, 3} ==> sent == []
    ensures playLocally <==> p.kind == 0 && p.sender in Sessions(log, n) && test
    ensures p.kind == 0 && (p.sender !in Sessions(log, n) || test) ==> sent == []
    ensures p.kind == 0 && p.sender in Sessions(log, n) && !test ==>
      (forall g: Guid :: g in ids <==> Reached(log, n, p, g)) &&
      |sent| == |ids| && (forall i, j | 0 <= i < j < |ids| :: ids[i] != ids[j]) &&
      forall i | 0 <= i < |ids| :: Last(Hellos(log, ids[i]), n) >= 0 &&
        sent[i] == Datagram(Happened(log, Last(Hellos(log, ids[i]), n)).addr, log[n].data)
  {
    RegisteredIffJoined(log, n, p.sender);
    AcknowledgementBytes(p.sender);
    ids := [];
    if p.kind == VOICE && p.sender in Sessions(log, n) && !test {
      ids := RelayExact(log, n, p, sent);
    }
  }

  function Acknowledgement(versionAndType: byte, client: Guid): seq<byte> {
    [0x56, 0x43, 0x53, versionAndType, 0, 0, 0, 0, 0, 0, 0] + client
  }

  lemma ReachedIff(log: Log, n: nat, p: Packet, g: Guid)
    requires n < |log| && Happened(log, n) == Alive(p.sender)
    ensures g in Listeners(RegistryAt(log, n), Sessions(log, n + 1).Keys, p.sender, FrequencyAsFloat32(p))
            <==> Reached(log, n, p, g)
  {
    BeforeStep(log, n);
    RegisteredIffJoined(log, n, g);
    RegisteredIffJoined(log, n, p.sender);
    SessionIff(log, n, g);
    SessionStep(Sessions(log, n), Alive(p.sender), Instant(log[n]), g);
  }

  /** On the range that floats tell apart, who is reached is decided by whole kilohertz. */
  lemma ReachedByKilohertz(log: Log, n: nat, p: Packet, g: Guid, kHz: seq<nat>)
    requires n < |log| && KHz(p) <= Frequency.LAST_DISTINCT
    requires g in RegistryAt(log, n).radios && TunedTo(RegistryAt(log, n).radios[g].radios, kHz)
    ensures Reached(log, n, p, g) <==>
      g != p.sender && Joined(log, n, p.sender) && Joined(log, n, g) &&
      Since(Hellos(log, g), Ends(log, g), n) && HearsKilohertz(RegistryAt(log, n).radios[g].radios, kHz, KHz(p))
  {
    HearsByKilohertz(RegistryAt(log, n).radios[g].radios, kHz, KHz(p));
  }

  /** Until it logs in again, a client that was kicked or banned neither reaches anyone nor is reached. */
  lemma {:induction false} OustedIsSilent(log: Log, k: nat, n: nat, g: Guid, p: Packet, h: Guid)
    requires k < n < |log| && log[k].Control? && ControlRuns.Ousts(log[k].step, g)
    requires forall j | k < j < n && log[j].Control? :: !ControlRuns.Admits(Before(log, j).world, log[j].step, g)
    ensures p.sender == g ==> !Reached(log, n, p, h)
    ensures !Reached(log, n, p, g)
  {
    OustedStaysOut(log, k, n, g);
    RegisteredIffJoined(log, n, g);
  }

  lemma {:induction false} OustedStaysOut(log: Log, k: nat, n: nat, g: Guid)
    requires k < n <= |log| && log[k].Control? && ControlRuns.Ousts(log[k].step, g)
    requires forall j | k < j < n && log[j].Control? :: !ControlRuns.Admits(Before(log, j).world, log[j].step, g)
    ensures g !in RegistryAt(log, n).clients
  {
    var m := n - 1;
    if k < m {
      OustedStaysOut(log, k, m, g);
    }
    BeforeStep(log, m);
    if log[m].Control? {
      ControlRuns.PresenceStep(Before(log, m).world, log[m].step, g);
    }
  }
}

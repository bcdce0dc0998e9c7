/**
 Runs of the event bus: publishers, subscribers, the dispatching goroutine and the readers of
 the channels take their lock-delimited steps in any order.
 */
module EventRuns {
  import opened EventBus

  datatype Phase =
    | Idle
    | InFlight(e: Event)                       // off the queue, the lock released
    | Sending(e: Event, todo: seq<nat>)        // under the read lock, the sends still to make

  datatype System = System(bus: Bus, phase: Phase)

  datatype Action =
    | Publish(e: Event)
    | Subscribe(name: string)
    | Pop
    | Begin
    | Send
    | End
    | Consume(c: nat)

  type Log = seq<Action>

  const START: System := System(Bus(map[], [], []), Idle)

  /** Publish and Subscribe wait for the write lock; a reader waits for an event. */
  predicate Enabled(s: System, a: Action) {
    match a
    case Publish(_) => !s.phase.Sending?
    case Subscribe(_) => !s.phase.Sending?
    case Pop => s.phase.Idle? && s.bus.queue != []
    case Begin => s.phase.InFlight?
    case Send => s.phase.Sending? && s.phase.todo != []
    case End => s.phase.Sending? && s.phase.todo == []
    case Consume(c) => c < |s.bus.buffers| && s.bus.buffers[c] != []
  }

  /** A step that has to wait changes nothing. */
  function Apply(s: System, a: Action): System {
    if !Enabled(s, a) then s else
    match a
    case Publish(e) => s.(bus := s.bus.Publish(e))
    case Subscribe(name) => s.(bus := s.bus.Subscribe(name))
    case Pop => System(s.bus.(queue := s.bus.queue[1..]), InFlight(s.bus.queue[0]))
    case Begin => s.(phase := Sending(s.phase.e, s.bus.Targets(s.phase.e)))
    case Send =>
      System(s.bus.(buffers := Offer(s.bus.buffers, s.phase.e, s.phase.todo[0])), Sending(s.phase.e, s.phase.todo[1..]))
    case End => s.(phase := Idle)
    case Consume(c) => s.(bus := s.bus.(buffers := s.bus.buffers[c := s.bus.buffers[c][1..]]))
  }

  function Run(s: System, log: Log): System {
    if log == [] then s else Apply(Run(s, log[..|log| - 1]), log[|log| - 1])
  }

  // ---- What a run has done ----

  /** The state with a record of what led to it; the last four lists have an element for each channel. */
  datatype History = History(
    system: System,
    published: seq<Event>,
    dispatched: seq<Event>,         // the events whose dispatch has begun
    topics: seq<string>,            // the name subscribed to
    missed: seq<nat>,               // how many events had been dispatched by then
    received: seq<seq<Event>>,      // the events read
    lost: seq<nat>                  // how many sends found the channel full
  ) {

    /** A step that is taken is recorded. */
    function Record(a: Action): History {
      var h := this.(system := Apply(system, a));
      if !Enabled(system, a) then this else
      match a
      case Publish(e) => h.(published := published + [e])
      case Subscribe(name) =>
        h.(topics := topics + [name], missed := missed + [|dispatched|], received := received + [[]], lost := lost + [0])
      case Pop => h
      case Begin => h.(dispatched := dispatched + [system.phase.e])
      case Send =>
        var c := system.phase.todo[0];
        if c < |lost| && Full(system, c) then h.(lost := lost[c := lost[c] + 1]) else h
      case End => h
      case Consume(c) =>
        if c < |received| then h.(received := received[c := received[c] + [system.bus.buffers[c][0]]]) else h
    }

    /** There is one element for each channel. */
    predicate Shaped() {
      var n := |system.bus.buffers|;
      |topics| == n && |missed| == n && |received| == n && |lost| == n &&
      forall c | 0 <= c < n :: missed[c] <= |dispatched|
    }

    /** The events to be sent to a channel, from its subscription on. */
    function Offered(c: nat): seq<Event>
      requires Shaped() && c < |topics|
    {
      Wanted(topics[c], dispatched[missed[c]..])
    }

    /** All that has come through a channel or waits in it. */
    function Got(c: nat): seq<Event>
      requires Shaped() && c < |topics|
    {
      received[c] + system.bus.buffers[c]
    }

    /** The sends to a channel that the dispatch in progress has yet to make. */
    function Pending(c: nat): nat {
      if system.phase.Sending? then Count(system.phase.todo, c) else 0
    }
  }

  predicate Full(s: System, c: nat) {
    c < |s.bus.buffers| && |s.bus.buffers[c]| >= CAPACITY
  }

  function Of(log: Log): History {
    if log == [] then History(START, [], [], [], [], [], []) else Of(log[..|log| - 1]).Record(log[|log| - 1])
  }

  /** The record never disturbs the system. */
  lemma {:induction false} RecordsRun(log: Log)
    ensures Of(log).system == Run(START, log)
    ensures Of(log).Shaped()
  {
    if log != [] {
      RecordsRun(log[..|log| - 1]);
      StaysShaped(Of(log[..|log| - 1]), log[|log| - 1]);
    }
  }

  lemma StaysShaped(h: History, a: Action)
    requires h.Shaped()
    ensures h.Record(a).Shaped() && h.Record(a).system == Apply(h.system, a)
  {
  }

  // ---- What a subscriber is owed ----

  function Copies(topic: string, e: Event): seq<Event> {
    (if topic == e.name then [e] else []) + if topic == WILDCARD then [e] else []
  }

  function Wanted(topic: string, events: seq<Event>): seq<Event> {
    if events == [] then []
    else Wanted(topic, events[..|events| - 1]) + Copies(topic, events[|events| - 1])
  }

  predicate Matches(topic: string, e: Event) {
    topic == e.name || topic == WILDCARD
  }

  function Matching(topic: string, events: seq<Event>): seq<Event> {
    if events == [] then []
    else Matching(topic, events[..|events| - 1])
         + if Matches(topic, events[|events| - 1]) then [events[|events| - 1]] else []
  }

  /** Every matching event is owed exactly once, unless it carries the wildcard's own name. */
  lemma {:induction false} WantedOnceIff(topic: string, events: seq<Event>)
    ensures |Wanted(topic, events)| >= |Matching(topic, events)|
    ensures Wanted(topic, events) == Matching(topic, events)
            <==> topic != WILDCARD || forall i | 0 <= i < |events| :: events[i].name != WILDCARD
  {
    if events != [] {
      var last := |events| - 1;
      WantedOnceIff(topic, events[..last]);
      var w, m := Wanted(topic, events[..last]), Matching(topic, events[..last]);
      assert forall i | 0 <= i < last :: events[..last][i] == events[i];
      if |w| > |m| {
        assert w != m;
      } else if w != m {
        assert Wanted(topic, events)[..|w|] == w && Matching(topic, events)[..|m|] == m;
      }
    }
  }

  // ---- Subsequences ----

  ghost predicate Embeds(a: seq<Event>, b: seq<Event>, at: seq<nat>) {
    |at| == |a| && (forall i, j | 0 <= i < j < |at| :: at[i] < at[j]) &&
    forall i | 0 <= i < |at| :: at[i] < |b| && b[at[i]] == a[i]
  }

  /** In order, and no element of b used twice. */
  ghost predicate IsSubsequence(a: seq<Event>, b: seq<Event>) {
    exists at: seq<nat> :: Embeds(a, b, at)
  }

  lemma SubsequenceGrows(a: seq<Event>, b: seq<Event>, x: seq<Event>)
    requires IsSubsequence(a, b)
    ensures IsSubsequence(a, b + x)
  {
    var at: seq<nat> :| Embeds(a, b, at);
    assert Embeds(a, b + x, at);
  }

  lemma SubsequenceTakes(a: seq<Event>, b: seq<Event>, e: Event)
    requires IsSubsequence(a, b)
    ensures IsSubsequence(a + [e], b + [e])
  {
    var at: seq<nat> :| Embeds(a, b, at);
    var more: seq<nat> := at + [|b|];
    assert Embeds(a + [e], b + [e], more);
  }

  lemma {:induction false} AtLeast(at: seq<nat>, i: nat)
    requires i < |at| && forall j, k | 0 <= j < k < |at| :: at[j] < at[k]
    ensures at[i] >= i
  {
    if i > 0 {
      AtLeast(at, i - 1);
    }
  }

  lemma {:induction false} AtMost(at: seq<nat>, i: nat, n: nat)
    requires i < |at| && (forall j, k | 0 <= j < k < |at| :: at[j] < at[k]) && forall j | 0 <= j < |at| :: at[j] < n
    ensures at[i] + |at| <= n + i
    decreases |at| - i
  {
    if i + 1 < |at| {
      AtMost(at, i + 1, n);
    }
  }

  /** A subsequence of full length is the whole. */
  lemma FullSubsequence(a: seq<Event>, b: seq<Event>)
    requires IsSubsequence(a, b) && |a| == |b|
    ensures a == b
  {
    var at: seq<nat> :| Embeds(a, b, at);
    forall i | 0 <= i < |a|
      ensures a[i] == b[i]
    {
      AtLeast(at, i);
      AtMost(at, i, |b|);
    }
  }

  // ---- Which channels an event is sent to ----

  function Count(todo: seq<nat>, c: nat): nat {
    if todo == [] then 0 else (if todo[0] == c then 1 else 0) + Count(todo[1..], c)
  }

  lemma {:induction false} CountAppend(a: seq<nat>, b: seq<nat>, c: nat)
    ensures Count(a + b, c) == Count(a, c) + Count(b, c)
  {
    if a == [] {
      assert a + b == b;
    } else {
      assert (a + b)[1..] == a[1..] + b;
      CountAppend(a[1..], b, c);
    }
  }

  /** The channels of a topic, in the order of subscription. */
  function Listing(topics: seq<string>, name: string): seq<nat> {
    if topics == [] then []
    else Listing(topics[..|topics| - 1], name) + if topics[|topics| - 1] == name then [|topics| - 1] else []
  }

  lemma {:induction false} ListedOnce(topics: seq<string>, name: string, c: nat)
    ensures Count(Listing(topics, name), c) == if c < |topics| && topics[c] == name then 1 else 0
  {
    if topics != [] {
      var last := |topics| - 1;
      ListedOnce(topics[..last], name, c);
      CountAppend(Listing(topics[..last], name), if topics[last] == name then [last] else [], c);
    }
  }

  /** The subscriber table lists every channel made, once, under its topic. */
  ghost predicate Tabled(h: History) {
    forall name :: h.system.bus.Listed(name) == Listing(h.topics, name)
  }

  lemma {:induction false} TableIsListing(log: Log)
    ensures Tabled(Of(log))
  {
    if log != [] {
      var init := log[..|log| - 1];
      TableIsListing(init);
      RecordsRun(init);
      TabledStep(Of(init), log[|log| - 1]);
    }
  }

  lemma TabledStep(h: History, a: Action)
    requires Tabled(h) && h.Shaped()
    ensures Tabled(h.Record(a))
  {
  }

  /** An event is about to be sent to a channel as often as it is owed to it. */
  lemma TargetsAreCopies(h: History, e: Event, c: nat)
    requires Tabled(h) && c < |h.topics|
    ensures Count(h.system.bus.Targets(e), c) == |Copies(h.topics[c], e)|
  {
    CountAppend(Listing(h.topics, e.name), Listing(h.topics, WILDCARD), c);
    ListedOnce(h.topics, e.name, c);
    ListedOnce(h.topics, WILDCARD, c);
  }

  // ---- The queue ----

  function UnderWay(phase: Phase): seq<Event> {
    if phase.InFlight? then [phase.e] else []
  }

  predicate Fifo(h: History) {
    h.published == h.dispatched + UnderWay(h.system.phase) + h.system.bus.queue
  }

  /** Every event published is dispatched, under way or queued, once and in the order of publication. */
  lemma {:induction false} QueueIsFifo(log: Log)
    ensures Fifo(Of(log))
  {
    if log != [] {
      QueueIsFifo(log[..|log| - 1]);
    }
  }

  // ---- The channels ----

  /** What is owed is got, still to be sent, or lost. */
  ghost predicate Accounted(got: seq<Event>, offered: seq<Event>, phase: Phase, c: nat, lost: nat) {
    var p := if phase.Sending? then Count(phase.todo, c) else 0;
    |got| + p + lost == |offered| && IsSubsequence(got, offered[..|offered| - p]) &&
    forall i | |offered| - p <= i < |offered| :: offered[i] == phase.e
  }

  lemma AccountedBegin(got: seq<Event>, offered: seq<Event>, e: Event, copies: seq<Event>, todo: seq<nat>, c: nat, lost: nat)
    requires Accounted(got, offered, InFlight(e), c, lost)
    requires (forall i | 0 <= i < |copies| :: copies[i] == e) && Count(todo, c) == |copies|
    ensures Accounted(got, offered + copies, Sending(e, todo), c, lost)
  {
    assert (offered + copies)[..|offered|] == offered == offered[..|offered|];
  }

  lemma AccountedSend(got: seq<Event>, offered: seq<Event>, e: Event, todo: seq<nat>, c: nat, lost: nat)
    requires todo != [] && Accounted(got, offered, Sending(e, todo), c, lost)
    ensures todo[0] != c ==> Accounted(got, offered, Sending(e, todo[1..]), c, lost)
    ensures todo[0] == c ==> Accounted(got, offered, Sending(e, todo[1..]), c, lost + 1)
    ensures todo[0] == c ==> Accounted(got + [e], offered, Sending(e, todo[1..]), c, lost)
  {
    if todo[0] == c {
      var sent := |offered| - Count(todo, c);
      assert offered[..sent + 1] == offered[..sent] + [e];
      SubsequenceGrows(got, offered[..sent], [e]);
      SubsequenceTakes(got, offered[..sent], e);
    }
  }

  ghost predicate ChannelInv(h: History, c: nat)
    requires h.Shaped() && c < |h.topics|
  {
    |h.system.bus.buffers[c]| <= CAPACITY && Accounted(h.Got(c), h.Offered(c), h.system.phase, c, h.lost[c])
  }

  lemma InvSubscribe(h: History, name: string, c: nat)
    requires h.Shaped() && Enabled(h.system, Subscribe(name))
    requires c <= |h.topics| && (c < |h.topics| ==> ChannelInv(h, c))
    ensures h.Record(Subscribe(name)).Shaped() && ChannelInv(h.Record(Subscribe(name)), c)
  {
    var h' := h.Record(Subscribe(name));
    if c < |h.topics| {
      assert h'.Got(c) == h.Got(c) && h'.Offered(c) == h.Offered(c);
    } else {
      assert h'.Got(c) == [] && h'.Offered(c) == [];
      assert Embeds([], [], []);
    }
  }

  lemma OfferedBegin(h: History, c: nat)
    requires h.Shaped() && c < |h.topics| && Enabled(h.system, Begin)
    ensures h.Record(Begin).Shaped()
    ensures h.Record(Begin).Offered(c) == h.Offered(c) + Copies(h.topics[c], h.system.phase.e)
  {
    var since, e := h.dispatched[h.missed[c]..], h.system.phase.e;
    assert (h.dispatched + [e])[h.missed[c]..] == since + [e];
    assert (since + [e])[..|since|] == since;
  }

  lemma InvBegin(h: History, c: nat)
    requires h.Shaped() && Tabled(h) && c < |h.topics| && Enabled(h.system, Begin) && ChannelInv(h, c)
    ensures h.Record(Begin).Shaped() && ChannelInv(h.Record(Begin), c)
  {
    var e := h.system.phase.e;
    var copies := Copies(h.topics[c], e);
    TargetsAreCopies(h, e, c);
    OfferedBegin(h, c);
    AccountedBegin(h.Got(c), h.Offered(c), e, copies, h.system.bus.Targets(e), c, h.lost[c]);
  }

  lemma InvSend(h: History, c: nat)
    requires h.Shaped() && c < |h.topics| && Enabled(h.system, Send) && ChannelInv(h, c)
    ensures h.Record(Send).Shaped() && ChannelInv(h.Record(Send), c)
  {
    var e, todo := h.system.phase.e, h.system.phase.todo;
    AccountedSend(h.Got(c), h.Offered(c), e, todo, c, h.lost[c]);
    if todo[0] == c && !Full(h.system, c) {
      assert h.Record(Send).Got(c) == h.Got(c) + [e];
    }
  }

  lemma InvConsume(h: History, c: nat, d: nat)
    requires h.Shaped() && c < |h.topics| && Enabled(h.system, Consume(d)) && ChannelInv(h, c)
    ensures h.Record(Consume(d)).Shaped() && ChannelInv(h.Record(Consume(d)), c)
  {
    assert h.Record(Consume(d)).Got(c) == h.Got(c);
  }

  lemma InvStep(h: History, a: Action, c: nat)
    requires h.Shaped() && Tabled(h) && h.Record(a).Shaped()
    requires c < |h.Record(a).topics| && (c < |h.topics| ==> ChannelInv(h, c))
    ensures ChannelInv(h.Record(a), c)
  {
    if Enabled(h.system, a) {
      match a
      case Publish(_) =>
      case Subscribe(name) => InvSubscribe(h, name, c);
      case Pop =>
      case Begin => InvBegin(h, c);
      case Send => InvSend(h, c);
      case End =>
      case Consume(d) => InvConsume(h, c, d);
    }
  }

  lemma {:induction false} ChannelAccounted(log: Log, c: nat)
    requires c < |Of(log).topics|
    ensures Of(log).Shaped() && ChannelInv(Of(log), c)
  {
    var init := log[..|log| - 1];
    RecordsRun(log);
    RecordsRun(init);
    TableIsListing(init);
    if c < |Of(init).topics| {
      ChannelAccounted(init, c);
    }
    InvStep(Of(init), log[|log| - 1], c);
  }

  /**
   Delivery, for every interleaving: what a channel has delivered and holds is an in-order
   subsequence of what it is owed, at most ten events wait in it, and between dispatches it is
   all that is owed exactly when no send found the channel full.
   */
  lemma Delivery(log: Log, c: nat)
    requires c < |Of(log).topics|
    ensures var h := Of(log);
            h.Shaped() && |h.system.bus.buffers[c]| <= 10 &&
            IsSubsequence(h.Got(c), h.Offered(c)) &&
            |h.Got(c)| + h.Pending(c) + h.lost[c] == |h.Offered(c)| &&
            (h.Pending(c) == 0 ==> (h.Got(c) == h.Offered(c) <==> h.lost[c] == 0))
  {
    ChannelAccounted(log, c);
    var h := Of(log);
    var got, offered, p := h.Got(c), h.Offered(c), h.Pending(c);
    SubsequenceGrows(got, offered[..|offered| - p], offered[|offered| - p..]);
    assert offered[..|offered| - p] + offered[|offered| - p..] == offered;
    if |got| == |offered| {
      FullSubsequence(got, offered);
    }
  }

  /**
   Once the bus is idle, a channel that was never full has got every matching event that was
   not yet dispatched when it was made.
   */
  lemma DrainedIsComplete(log: Log, c: nat)
    requires var h := Of(log);
             c < |h.topics| && h.Shaped() && h.system.phase.Idle? && h.system.bus.queue == [] && h.lost[c] == 0 &&
             (h.topics[c] == WILDCARD ==> forall i | 0 <= i < |h.published| :: h.published[i].name != WILDCARD)
    ensures var h := Of(log);
            h.missed[c] <= |h.published| && h.Got(c) == Matching(h.topics[c], h.published[h.missed[c]..])
  {
    var h := Of(log);
    Delivery(log, c);
    QueueIsFifo(log);
    assert h.published == h.dispatched;
    WantedOnceIff(h.topics[c], h.published[h.missed[c]..]);
  }

  // ---- The dispatching goroutine ----

  /** Sending without interruption from other steps does what the dispatch loops do. */
  lemma {:induction false} SendsAreOfferAll(s: System, n: nat)
    requires s.phase.Sending? && n <= |s.phase.todo|
    ensures var r := Run(s, seq(n, _ => Send));
            r.phase == Sending(s.phase.e, s.phase.todo[n..]) &&
            r.bus.subscribers == s.bus.subscribers && r.bus.queue == s.bus.queue &&
            OfferAll(r.bus.buffers, s.phase.e, s.phase.todo[n..]) == OfferAll(s.bus.buffers, s.phase.e, s.phase.todo)
  {
    if n > 0 {
      SendsAreOfferAll(s, n - 1);
      assert seq(n, _ => Send)[..n - 1] == seq(n - 1, _ => Send);
      assert s.phase.todo[n - 1..][1..] == s.phase.todo[n..];
    }
  }

  lemma {:induction false} RunAppend(s: System, a: Log, b: Log)
    ensures Run(s, a + b) == Run(Run(s, a), b)
  {
    if b == [] {
      assert a + b == a;
    } else {
      assert (a + b)[..|a + b| - 1] == a + b[..|b| - 1];
      RunAppend(s, a, b[..|b| - 1]);
    }
  }

  /** One round of the publisher is the run of its own steps with none in between. */
  lemma RoundIsRun(s: System)
    requires s.phase.Idle? && s.bus.queue != []
    ensures var e := s.bus.queue[0];
            Run(s, [Pop, Begin] + seq(|s.bus.Targets(e)|, _ => Send) + [End]) ==
            System(Bus(s.bus.subscribers, s.bus.queue[1..], OfferAll(s.bus.buffers, e, s.bus.Targets(e))), Idle)
  {
    var e := s.bus.queue[0];
    var sends := seq(|s.bus.Targets(e)|, _ => Send);
    var t := Run(s, [Pop, Begin]);
    assert [Pop, Begin][..1] == [Pop];
    assert Run(s, []) == s && Run(s, [Pop]) == Apply(s, Pop);
    assert t == System(s.bus.(queue := s.bus.queue[1..]), Sending(e, s.bus.Targets(e)));
    RunAppend(s, [Pop, Begin] + sends, [End]);
    RunAppend(s, [Pop, Begin], sends);
    SendsAreOfferAll(t, |t.phase.todo|);
  }
}

/** The event bus: a queue of published events and bounded subscriber channels (events/bus.go). */
module EventBus {
  import opened Basics

  const CAPACITY: nat := 10
  const WILDCARD: string := "*"

  datatype Event = Event(name: string, data: seq<byte>)

  // ---- The bus as a value: channels are numbered in the order in which they are made ----

  datatype Bus = Bus(subscribers: map<string, seq<nat>>, queue: seq<Event>, buffers: seq<seq<Event>>) {

    function Listed(name: string): seq<nat> {
      if name in subscribers then subscribers[name] else []
    }

    /** The channels an event is sent to, in order. */
    function Targets(e: Event): seq<nat> {
      Listed(e.name) + Listed(WILDCARD)
    }

    function Publish(e: Event): Bus {
      this.(queue := queue + [e])
    }

    function Subscribe(name: string): Bus {
      this.(subscribers := subscribers[name := Listed(name) + [|buffers|]], buffers := buffers + [[]])
    }
  }

  /** A send that does not wait: the event is lost if the channel is full. */
  function Offer(buffers: seq<seq<Event>>, e: Event, c: nat): (r: seq<seq<Event>>)
    ensures |r| == |buffers|
  {
    if c < |buffers| && |buffers[c]| < CAPACITY then buffers[c := buffers[c] + [e]] else buffers
  }

  function OfferAll(buffers: seq<seq<Event>>, e: Event, todo: seq<nat>): (r: seq<seq<Event>>)
    ensures |r| == |buffers|
    decreases |todo|
  {
    if todo == [] then buffers else OfferAll(Offer(buffers, e, todo[0]), e, todo[1..])
  }

  // ---- The objects ----

  class Channel {
    ghost const id: nat
    var buffer: seq<Event>

    constructor (ghost id: nat)
      ensures this.id == id && buffer == []
    {
      this.id, buffer := id, [];
    }

    /** Sends if there is room. */
    method TrySend(e: Event)
      modifies this
      ensures buffer == if |old(buffer)| < CAPACITY then old(buffer) + [e] else old(buffer)
    {
      if |buffer| < CAPACITY {
        buffer := buffer + [e];
      }
    }

    method Receive() returns (e: Event)
      requires buffer != []
      modifies this
      ensures old(buffer) == [e] + buffer
    {
      e := buffer[0];
      buffer := buffer[1..];
    }
  }

  ghost function Numbers(channels: seq<Channel>): seq<nat> {
    seq(|channels|, k requires 0 <= k < |channels| => channels[k].id)
  }

  /** Every channel of the list is found in the ghost list of channels, at its number. */
  ghost predicate AllMade(subs: seq<Channel>, channels: seq<Channel>) {
    forall k | 0 <= k < |subs| :: subs[k].id < |channels| && channels[subs[k].id] == subs[k]
  }

  lemma OneMoreMade(subs: seq<Channel>, channels: seq<Channel>, ch: Channel)
    requires AllMade(subs, channels) && ch.id == |channels|
    ensures AllMade(subs, channels + [ch]) && AllMade(subs + [ch], channels + [ch])
    ensures Numbers(subs + [ch]) == Numbers(subs) + [|channels|]
  {
  }

  class EventBus {
    var subscribers: map<string, seq<Channel>>
    var publishQueue: seq<Event>
    ghost var channels: seq<Channel>

    /** The ghost list holds every channel made so far, at the index that is its number. */
    ghost predicate Valid()
      reads this
    {
      && (forall c | 0 <= c < |channels| :: channels[c].id == c)
      && (forall name | name in subscribers :: AllMade(subscribers[name], channels))
    }

    ghost function Buffers(): seq<seq<Event>>
      reads this, channels
    {
      seq(|channels|, c requires 0 <= c < |channels| reads this, channels => channels[c].buffer)
    }

    ghost function Listings(): map<string, seq<nat>>
      reads this
    {
      map name | name in subscribers :: Numbers(subscribers[name])
    }

    ghost function Value(): Bus
      reads this, channels
    {
      Bus(Listings(), publishQueue, Buffers())
    }

    constructor ()
      ensures Valid() && Value() == Bus(map[], [], [])
    {
      subscribers, publishQueue, channels := map[], [], [];
    }

    method Publish(e: Event)
      requires Valid()
      modifies this`publishQueue
      ensures Valid() && Value() == old(Value()).Publish(e)
    {
      publishQueue := publishQueue + [e];
    }

    method Subscribe(name: string) returns (ch: Channel)
      requires Valid()
      modifies this`subscribers, this`channels
      ensures Valid() && Value() == old(Value()).Subscribe(name)
      ensures fresh(ch) && channels == old(channels) + [ch]
    {
      ch := new Channel(|channels|);
      var subs := if name in subscribers then subscribers[name] else [];
      subscribers := subscribers[name := subs + [ch]];
      channels := channels + [ch];
      forall n | n in subscribers
        ensures AllMade(subscribers[n], channels)
      {
        OneMoreMade(if n == name then subs else subscribers[n], old(channels), ch);
      }
      OneMoreMade(subs, old(channels), ch);
      assert Listings() == old(Listings())[name := Numbers(subs) + [|old(channels)|]];
      assert Buffers() == old(Buffers()) + [[]];
    }

    /** Takes the oldest event off the queue, if there is one. */
    method Pop() returns (e: Option<Event>)
      requires Valid()
      modifies this`publishQueue
      ensures Valid() && Listings() == old(Listings()) && Buffers() == old(Buffers())
      ensures old(publishQueue) == (if e.Some? then [e.value] else []) + publishQueue
      ensures e.None? ==> publishQueue == []
    {
      if |publishQueue| == 0 {
        return None;
      }
      e := Some(publishQueue[0]);
      publishQueue := publishQueue[1..];
    }

    /** A reader of a channel, which waits for an event, takes the oldest. */
    method Take(ch: Channel) returns (e: Event)
      requires Valid() && ch in channels && ch.buffer != []
      modifies ch
      ensures Valid() && [e] == old(ch.buffer)[..1]
      ensures Value() == old(Value()).(buffers := old(Buffers())[ch.id := old(ch.buffer)[1..]])
    {
      e := ch.Receive();
      assert Buffers() == old(Buffers())[ch.id := old(ch.buffer)[1..]];
    }

    method SendTo(sub: Channel, e: Event)
      requires Valid() && AllMade([sub], channels)
      modifies sub
      ensures Valid() && Buffers() == Offer(old(Buffers()), e, sub.id)
    {
      assert [sub][0] == sub;
      sub.TrySend(e);
    }

    /** The inner loop: one send to each channel of a list. */
    method SendToList(subs: seq<Channel>, e: Event)
      requires Valid() && AllMade(subs, channels)
      modifies channels
      ensures Valid() && Buffers() == OfferAll(old(Buffers()), e, Numbers(subs))
    {
      ghost var goal, numbers := OfferAll(Buffers(), e, Numbers(subs)), Numbers(subs);
      for k := 0 to |subs|
        invariant Valid()
        invariant OfferAll(Buffers(), e, numbers[k..]) == goal
      {
        assert numbers[k..][1..] == numbers[k + 1..];
        SendTo(subs[k], e);
      }
    }

    /** The lists are collected first and then sent to in turn; an event named "*" finds the same list twice. */
    method Dispatch(e: Event)
      requires Valid()
      modifies channels
      ensures Valid()
      ensures Value() == old(Value()).(buffers := OfferAll(old(Buffers()), e, old(Value()).Targets(e)))
    {
      ghost var targets := Value().Targets(e);
      var subsList: seq<seq<Channel>> := [];
      if e.name in subscribers {
        subsList := subsList + [subscribers[e.name]];
      }
      ghost var first := subsList;
      if WILDCARD in subscribers {
        subsList := subsList + [subscribers[WILDCARD]];
      }
      ghost var second := subsList[|first|..];
      ghost var goal := OfferAll(Buffers(), e, targets);
      FlatFew(first);
      FlatFew(second);
      FlatAppend(first, second);
      assert subsList == first + second;
      for i := 0 to |subsList|
        invariant Valid()
        invariant OfferAll(Buffers(), e, Flat(subsList[i..])) == goal
      {
        OfferAllAppend(Buffers(), e, Numbers(subsList[i]), Flat(subsList[i + 1..]));
        SendToList(subsList[i], e);
      }
    }

    /** One round of the publisher: an event, if there is one, goes from the queue to its channels. */
    method PublishNext() returns (busy: bool)
      requires Valid()
      modifies this`publishQueue, channels
      ensures Valid() && busy == (old(publishQueue) != [])
      ensures Value() ==
        if busy then
          var e, was := old(publishQueue)[0], old(Value());
          Bus(was.subscribers, was.queue[1..], OfferAll(was.buffers, e, was.Targets(e)))
        else old(Value())
    {
      var e := Pop();
      if e.None? {
        return false;
      }
      Dispatch(e.value);
      return true;
    }
  }

  ghost function Flat(subsList: seq<seq<Channel>>): seq<nat> {
    if subsList == [] then [] else Numbers(subsList[0]) + Flat(subsList[1..])
  }

  lemma FlatFew(subsList: seq<seq<Channel>>)
    ensures subsList == [] ==> Flat(subsList) == []
    ensures |subsList| == 1 ==> Flat(subsList) == Numbers(subsList[0])
  {
  }

  lemma {:induction false} FlatAppend(a: seq<seq<Channel>>, b: seq<seq<Channel>>)
    ensures Flat(a + b) == Flat(a) + Flat(b)
  {
    if a == [] {
      assert a + b == b;
    } else {
      assert (a + b)[1..] == a[1..] + b;
      FlatAppend(a[1..], b);
    }
  }

  lemma {:induction false} OfferAllAppend(buffers: seq<seq<Event>>, e: Event, first: seq<nat>, rest: seq<nat>)
    ensures OfferAll(buffers, e, first + rest) == OfferAll(OfferAll(buffers, e, first), e, rest)
    decreases |first|
  {
    if first == [] {
      assert first + rest == rest;
    } else {
      assert (first + rest)[1..] == first[1..] + rest;
      OfferAllAppend(Offer(buffers, e, first[0]), e, first[1..], rest);
    }
  }
}

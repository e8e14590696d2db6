/** Subscriptions: each listener has a bounded channel, and publishing never blocks. */
module Fanout {
  import opened Bytes
  import opened Events

  /** How many events a listener may leave pending. */
  const CAPACITY: nat := 64

  // ---------------------------------------------------------------------------
  // Histories
  // ---------------------------------------------------------------------------

  /** What happens at the hub; `Received` is a listener taking an event that was there. */
  datatype Act =
    | Subscribed(id: nat)
    | Unsubscribed(id: nat)
    | Published(event: Event)
    | Received(id: nat)

  ghost function Init(acts: seq<Act>): (r: seq<Act>)
    requires acts != []
    ensures |r| == |acts| - 1
  {
    acts[..|acts| - 1]
  }

  ghost function Last(acts: seq<Act>): Act
    requires acts != []
  {
    acts[|acts| - 1]
  }

  /** How many subscriptions were handed out. */
  ghost function Handed(acts: seq<Act>): nat {
    if acts == [] then 0 else Handed(Init(acts)) + (if Last(acts).Subscribed? then 1 else 0)
  }

  ghost predicate InForce(acts: seq<Act>, k: nat) {
    if acts == [] then false
    else if Last(acts) == Subscribed(k) then true
    else if Last(acts) == Unsubscribed(k) then false
    else InForce(Init(acts), k)
  }

  ghost function PublishedIn(acts: seq<Act>): seq<Event> {
    if acts == [] then []
    else PublishedIn(Init(acts)) + (if Last(acts).Published? then [Last(acts).event] else [])
  }

  /** What was published while the subscription was in force. */
  ghost function Offered(acts: seq<Act>, k: nat): seq<Event> {
    if acts == [] then []
    else
      Offered(Init(acts), k)
      + (if Last(acts).Published? && InForce(Init(acts), k) then [Last(acts).event] else [])
  }

  /** How many events the listener has received. */
  ghost function Got(acts: seq<Act>, k: nat): nat {
    if acts == [] then 0 else Got(Init(acts), k) + (if Last(acts) == Received(k) then 1 else 0)
  }

  /** What found room in the listener's channel. */
  ghost function Heard(acts: seq<Act>, k: nat): seq<Event> {
    if acts == [] then []
    else
      var heard := Heard(Init(acts), k);
      if Last(acts).Published? && InForce(Init(acts), k) && |heard| - Got(Init(acts), k) < CAPACITY
      then heard + [Last(acts).event] else heard
  }

  /** Identifiers are handed out in order, and only events that are there are received. */
  ghost predicate Legal(acts: seq<Act>) {
    acts == []
    || (&& Legal(Init(acts))
        && match Last(acts)
           case Subscribed(k) => k == Handed(Init(acts))
           case Unsubscribed(k) => k < Handed(Init(acts))
           case Published(_) => true
           case Received(k) => Got(Init(acts), k) < |Heard(Init(acts), k)|)
  }

  /** Received or unheard, at most 64 events wait. */
  ghost function Pending(acts: seq<Act>, k: nat): seq<Event>
    requires Got(acts, k) <= |Heard(acts, k)|
  {
    Heard(acts, k)[Got(acts, k)..]
  }

  lemma {:induction false} PendingIsBounded(acts: seq<Act>, k: nat)
    requires Legal(acts)
    ensures Got(acts, k) <= |Heard(acts, k)| <= Got(acts, k) + CAPACITY
    ensures k >= Handed(acts) ==> !InForce(acts, k) && Heard(acts, k) == []
  {
    if acts != [] {
      PendingIsBounded(Init(acts), k);
    }
  }

  /** Each of these events published, in order. */
  ghost function Publications(events: seq<Event>): seq<Act> {
    seq(|events|, i requires 0 <= i < |events| => Published(events[i]))
  }

  lemma PublicationsAppend(a: seq<Event>, b: seq<Event>)
    ensures Publications(a + b) == Publications(a) + Publications(b)
  {
  }

  lemma PublicationsCons(log: seq<Act>, events: seq<Event>, i: nat)
    requires i < |events|
    ensures log + Publications(events[..i]) + [Published(events[i])] == log + Publications(events[..i + 1])
  {
  }

  lemma AfterAct(acts: seq<Act>, act: Act)
    ensures Init(acts + [act]) == acts && Last(acts + [act]) == act
  {
  }

  // ---------------------------------------------------------------------------
  // The hub
  // ---------------------------------------------------------------------------

  /** A bounded channel. */
  datatype Channel = Channel(pending: seq<Event>, closed: bool) {
    /** The non-blocking send; a send on a closed channel would be a crash. */
    function Sent(ev: Event): Channel
      requires !closed
    {
      if |pending| < CAPACITY then this.(pending := pending + [ev]) else this
    }
  }

  class Hub {
    /** Every channel ever handed out, and the subscriptions still in force. */
    var channels: map<nat, Channel>
    var subs: set<nat>
    var nextID: nat
    /** History: everything that happened. */
    ghost var log: seq<Act>

    /** Everything is as the history says, and what is subscribed is open. */
    ghost predicate Valid()
      reads this
    {
      && (forall k: nat :: AsLogged(k))
      && (forall k | k in subs :: k in channels && !channels[k].closed)
    }

    /** The channel holds what its listener has heard and not received, and is closed once it is out of force. */
    ghost predicate AsLogged(k: nat)
      reads this
    {
      && Legal(log) && nextID == Handed(log)
      && (k in channels <==> k < nextID)
      && (k in subs <==> InForce(log, k))
      && (k in channels ==> Holds(channels[k], log, k))
    }

    static ghost predicate Holds(c: Channel, acts: seq<Act>, k: nat) {
      && Got(acts, k) <= |Heard(acts, k)|
      && c.pending == Pending(acts, k)
      && (c.closed <==> !InForce(acts, k))
    }

    /** What `Valid` says, spelled out. */
    lemma Logged()
      requires Valid()
      ensures Legal(log) && nextID == Handed(log)
      ensures forall k: nat :: k in channels <==> k < nextID
      ensures forall k: nat :: k in subs <==> InForce(log, k)
      ensures forall k | k in channels :: Holds(channels[k], log, k)
      ensures subs <= channels.Keys
    {
      assert AsLogged(0);
      forall k: nat ensures k in channels <==> k < nextID {
        assert AsLogged(k);
      }
      forall k: nat ensures k in subs <==> InForce(log, k) {
        assert AsLogged(k);
      }
      forall k | k in channels ensures Holds(channels[k], log, k) {
        assert AsLogged(k);
      }
      forall k | k in subs ensures k in channels {
        assert AsLogged(k);
        PendingIsBounded(log, k);
      }
    }

    constructor ()
      ensures Valid() && subs == {} && channels == map[] && log == []
    {
      channels, subs, nextID, log := map[], {}, 0, [];
    }

    method Subscribe() returns (id: nat)
      requires Valid()
      modifies this
      ensures Valid() && id == Handed(old(log)) && log == old(log) + [Subscribed(id)] && id !in old(channels)
      ensures subs == old(subs) + {id}
      ensures channels == old(channels)[id := Channel([], false)]
    {
      Logged();
      id := nextID;
      nextID := nextID + 1;
      channels := channels[id := Channel([], false)];
      subs := subs + {id};
      PendingIsBounded(log, id);
      AfterAct(log, Subscribed(id));
      log := log + [Subscribed(id)];
    }

    /** Unsubscribing a second time does nothing, so no channel is closed twice. */
    method Unsubscribe(id: nat)
      requires Valid() && id in channels
      modifies this
      ensures Valid() && log == old(log) + [Unsubscribed(id)]
      ensures subs == old(subs) - {id}
      ensures channels == old(channels)[id := old(channels)[id].(closed := true)]
    {
      Logged();
      if id in subs {
        subs := subs - {id};
        channels := channels[id := channels[id].(closed := true)];
      }
      log := log + [Unsubscribed(id)];
      LeftAsLogged(id);
    }

    twostate lemma LeftAsLogged(id: nat)
      requires old(Valid()) && nextID == old(nextID) && id in old(channels)
      requires subs == old(subs) - {id} && log == old(log) + [Unsubscribed(id)]
      requires channels == old(channels)[id := old(channels)[id].(closed := true)]
      ensures forall k: nat :: AsLogged(k)
    {
      assert old(AsLogged(id));
      forall k: nat ensures AsLogged(k) {
        assert old(AsLogged(k));
        AfterAct(old(log), Unsubscribed(id));
      }
    }

    /** The listener takes the oldest pending event, from a closed channel as well. */
    method Receive(id: nat) returns (ev: Option<Event>)
      requires Valid() && id in channels
      modifies this
      ensures Valid() && subs == old(subs)
      ensures ev == if old(channels)[id].pending == [] then None else Some(old(channels)[id].pending[0])
      ensures ev.Some? ==> Got(old(log), id) < |Heard(old(log), id)| && ev.value == Heard(old(log), id)[Got(old(log), id)]
      ensures log == if ev.None? then old(log) else old(log) + [Received(id)]
      ensures channels == if ev.None? then old(channels)
                          else old(channels)[id := old(channels)[id].(pending := old(channels)[id].pending[1..])]
    {
      var c := channels[id];
      if c.pending == [] {
        return None;
      }
      assert AsLogged(id);
      ev := Some(c.pending[0]);
      channels := channels[id := c.(pending := c.pending[1..])];
      log := log + [Received(id)];
      TakenAsLogged(id);
    }

    twostate lemma TakenAsLogged(id: nat)
      requires old(Valid()) && nextID == old(nextID) && subs == old(subs)
      requires id in old(channels) && old(channels)[id].pending != []
      requires log == old(log) + [Received(id)]
      requires channels == old(channels)[id := old(channels)[id].(pending := old(channels)[id].pending[1..])]
      ensures forall k: nat :: AsLogged(k)
    {
      assert old(AsLogged(id));
      forall k: nat ensures AsLogged(k) {
        assert old(AsLogged(k));
        ReceivedHolds(old(log), id, k);
      }
    }

    static lemma ReceivedHolds(acts: seq<Act>, id: nat, k: nat)
      requires Legal(acts) && Got(acts, id) < |Heard(acts, id)|
      ensures var next := acts + [Received(id)];
              && Legal(next) && Handed(next) == Handed(acts)
              && InForce(next, k) == InForce(acts, k) && Heard(next, k) == Heard(acts, k)
              && Got(next, k) == Got(acts, k) + if k == id then 1 else 0
    {
      AfterAct(acts, Received(id));
    }

    /** The loop over the listeners; every send in here is to an open channel. */
    method Publish(ev: Event)
      requires Valid()
      modifies this
      ensures Valid() && subs == old(subs)
      ensures log == old(log) + [Published(ev)]
      ensures channels.Keys == old(channels).Keys
      ensures forall k | k in channels ::
                channels[k] == if k in subs then old(channels)[k].Sent(ev) else old(channels)[k]
    {
      var todo := subs;
      while todo != {}
        invariant todo <= subs == old(subs) && nextID == old(nextID) && log == old(log)
        invariant channels.Keys == old(channels).Keys
        invariant forall k | k in channels ::
                    channels[k] == if k in subs - todo then old(channels)[k].Sent(ev) else old(channels)[k]
        decreases todo
      {
        var k :| k in todo;
        channels := channels[k := channels[k].Sent(ev)];
        todo := todo - {k};
      }
      log := log + [Published(ev)];
      AllAsLogged(ev);
    }

    /** The histories go on together. */
    twostate lemma AllAsLogged(ev: Event)
      requires old(Valid()) && nextID == old(nextID) && subs == old(subs) && channels.Keys == old(channels).Keys
      requires log == old(log) + [Published(ev)]
      requires forall k | k in channels ::
                 channels[k] == if k in subs then old(channels)[k].Sent(ev) else old(channels)[k]
      ensures forall k: nat :: AsLogged(k)
    {
      forall k: nat ensures AsLogged(k) {
        assert old(AsLogged(k));
        AfterAct(old(log), Published(ev));
        if k in channels {
          SentHolds(old(channels)[k], old(log), k, ev);
        }
      }
    }

    static lemma SentHolds(c: Channel, acts: seq<Act>, k: nat, ev: Event)
      requires Holds(c, acts, k)
      ensures Holds(if InForce(acts, k) then c.Sent(ev) else c, acts + [Published(ev)], k)
    {
      AfterAct(acts, Published(ev));
    }

    /** These events have been published since, and nothing else has happened. */
    twostate predicate Told(events: seq<Event>)
      reads this
    {
      log == old(log) + Publications(events)
    }

    method PublishEach(events: seq<Event>)
      requires Valid()
      modifies this
      ensures Valid() && subs == old(subs) && Told(events)
    {
      ghost var before := log;
      for i := 0 to |events|
        invariant Valid() && subs == old(subs)
        invariant log == before + Publications(events[..i])
      {
        PublicationsCons(before, events, i);
        Publish(events[i]);
      }
      assert events[..|events|] == events;
    }
  }

  // ---------------------------------------------------------------------------
  // What a listener hears over every history
  // ---------------------------------------------------------------------------

  /** The publication at position `p` finds the listener's channel in force and not full. */
  ghost predicate FindsRoom(acts: seq<Act>, k: nat, p: nat) {
    && p < |acts| && acts[p].Published? && InForce(acts[..p], k)
    && Got(acts[..p], k) <= |Heard(acts[..p], k)|
    && |Pending(acts[..p], k)| != CAPACITY
  }

  /** Where the events were published that the listener has heard. */
  ghost function HeardAt(acts: seq<Act>, k: nat): seq<nat> {
    if acts == [] then []
    else HeardAt(Init(acts), k) + (if FindsRoom(acts, k, |acts| - 1) then [|acts| - 1] else [])
  }

  lemma InitPrefix(acts: seq<Act>, p: nat)
    requires acts != [] && p < |acts|
    ensures acts[..p] == Init(acts)[..p] && (p < |acts| - 1 ==> acts[p] == Init(acts)[p])
  {
  }

  /** Positions rise, and a publication is among them exactly when fewer than 64 events were pending. */
  lemma {:induction false} HeardAtRises(acts: seq<Act>, k: nat)
    ensures forall i, j | 0 <= i < j < |HeardAt(acts, k)| :: HeardAt(acts, k)[i] < HeardAt(acts, k)[j]
    ensures forall p: nat :: p in HeardAt(acts, k) <==> FindsRoom(acts, k, p)
  {
    if acts != [] {
      var init, n := Init(acts), |acts| - 1;
      HeardAtRises(init, k);
      forall p: nat ensures p < n ==> (FindsRoom(acts, k, p) <==> FindsRoom(init, k, p)) {
        if p < n {
          InitPrefix(acts, p);
        }
      }
      assert forall i | 0 <= i < |HeardAt(init, k)| :: HeardAt(init, k)[i] in HeardAt(init, k);
    }
  }

  lemma HeardStep(acts: seq<Act>, k: nat)
    requires Legal(acts) && acts != []
    ensures Heard(acts, k) == Heard(Init(acts), k)
                              + (if FindsRoom(acts, k, |acts| - 1) then [acts[|acts| - 1].event] else [])
  {
    PendingIsBounded(Init(acts), k);
    assert Heard(Init(acts), k) + [] == Heard(Init(acts), k);
  }

  /** What a listener hears is, in order, what was published at those positions. */
  lemma {:induction false} HeardInOrder(acts: seq<Act>, k: nat)
    requires Legal(acts)
    ensures |Heard(acts, k)| == |HeardAt(acts, k)|
    ensures forall i | 0 <= i < |Heard(acts, k)| ::
              HeardAt(acts, k)[i] < |acts| && acts[HeardAt(acts, k)[i]] == Published(Heard(acts, k)[i])
  {
    if acts != [] {
      HeardInOrder(Init(acts), k);
      HeardStep(acts, k);
    }
  }

  /** Some publication found the listener's channel full. */
  ghost predicate Overrun(acts: seq<Act>, k: nat) {
    exists p: nat | p < |acts| && acts[p].Published? && InForce(acts[..p], k) :: !FindsRoom(acts, k, p)
  }

  lemma OverrunGrows(acts: seq<Act>, k: nat)
    requires acts != []
    ensures Overrun(acts, k) <==>
            Overrun(Init(acts), k)
            || (Last(acts).Published? && InForce(Init(acts), k) && !FindsRoom(acts, k, |acts| - 1))
  {
    forall p: nat | p < |acts| - 1 ensures FindsRoom(acts, k, p) <==> FindsRoom(Init(acts), k, p) {
      InitPrefix(acts, p);
    }
    forall p: nat | p < |acts| ensures acts[..p] == Init(acts)[..p] {
      InitPrefix(acts, p);
    }
  }

  /** A listener hears everything published while it is subscribed exactly when 64 events never wait. */
  lemma {:induction false} HeardAllIff(acts: seq<Act>, k: nat)
    requires Legal(acts)
    ensures |Heard(acts, k)| <= |Offered(acts, k)|
    ensures Heard(acts, k) == Offered(acts, k) <==> !Overrun(acts, k)
  {
    if acts != [] {
      HeardAllIff(Init(acts), k);
      HeardStep(acts, k);
      OverrunGrows(acts, k);
      var h, o, ev := Heard(Init(acts), k), Offered(Init(acts), k), [Last(acts)];
      if Last(acts).Published? && InForce(Init(acts), k) {
        assert Heard(acts, k) == Offered(acts, k) ==> Heard(acts, k)[..|h|] == o[..|h|];
      } else {
        assert o + [] == o;
      }
    }
  }

  /** A subscription is in force from the one time it is handed out until it is cancelled, and never again. */
  lemma {:induction false} InForceOnce(acts: seq<Act>, k: nat, p: nat)
    requires Legal(acts) && p < |acts|
    requires acts[p] == Unsubscribed(k)
    ensures k < Handed(acts) && !InForce(acts, k)
  {
    if p < |acts| - 1 {
      InForceOnce(Init(acts), k, p);
    }
  }

  lemma {:induction false} LegalPrefix(acts: seq<Act>, p: nat)
    requires Legal(acts) && p <= |acts|
    ensures Legal(acts[..p])
  {
    if p < |acts| {
      LegalPrefix(Init(acts), p);
      assert acts[..p] == Init(acts)[..p];
    } else {
      assert acts[..p] == acts;
    }
  }

  /** No event reaches a channel after it was closed. */
  lemma NothingAfterClosing(acts: seq<Act>, k: nat, closing: nat, p: nat)
    requires Legal(acts) && closing < p < |acts| && acts[closing] == Unsubscribed(k)
    ensures !FindsRoom(acts, k, p) && p !in HeardAt(acts, k)
  {
    LegalPrefix(acts, p);
    InForceOnce(acts[..p], k, closing);
    HeardAtRises(acts, k);
  }

  /** While a subscription is in force, what is offered is all that was published since. */
  lemma {:induction false} OfferedSince(acts: seq<Act>, k: nat, since: nat)
    requires Legal(acts) && InForce(acts, k) && since < |acts| && acts[since] == Subscribed(k)
    ensures |PublishedIn(acts[..since])| <= |PublishedIn(acts)|
    ensures Offered(acts, k) == PublishedIn(acts)[|PublishedIn(acts[..since])|..]
  {
    InitPrefix(acts, since);
    if since == |acts| - 1 {
      NothingBefore(Init(acts), k);
    } else {
      HandedBy(Init(acts), k, since);
      OfferedSince(Init(acts), k, since);
    }
  }

  lemma {:induction false} HandedBy(acts: seq<Act>, k: nat, since: nat)
    requires Legal(acts) && since < |acts| && acts[since] == Subscribed(k)
    ensures k < Handed(acts)
  {
    if since < |acts| - 1 {
      HandedBy(Init(acts), k, since);
    }
  }

  lemma {:induction false} NothingBefore(acts: seq<Act>, k: nat)
    requires Legal(acts) && k >= Handed(acts)
    ensures Offered(acts, k) == []
  {
    if acts != [] {
      NothingBefore(Init(acts), k);
      PendingIsBounded(Init(acts), k);
    }
  }

  lemma LegalStep(before: seq<Act>, acts: seq<Act>, i: nat)
    requires Legal(before + acts) && i < |acts|
    ensures Legal(before + acts[..i] + [acts[i]])
    ensures before + acts[..i + 1] == before + acts[..i] + [acts[i]]
  {
    LegalPrefix(before + acts, |before| + i + 1);
    assert (before + acts)[..|before| + i + 1] == before + acts[..i] + [acts[i]];
  }

  method Do(hub: Hub, act: Act)
    requires hub.Valid() && Legal(hub.log + [act])
    modifies hub
    ensures hub.Valid() && hub.log == old(hub.log) + [act]
  {
    AfterAct(hub.log, act);
    hub.Logged();
    match act {
      case Subscribed(_) => var _ := hub.Subscribe();
      case Unsubscribed(k) => hub.Unsubscribe(k);
      case Published(ev) => hub.Publish(ev);
      case Received(k) =>
        PendingIsBounded(hub.log, k);
        var _ := hub.Receive(k);
    }
  }

  /** Every legal history happens at the hub. */
  method Happen(hub: Hub, acts: seq<Act>)
    requires hub.Valid() && Legal(hub.log + acts)
    modifies hub
    ensures hub.Valid() && hub.log == old(hub.log) + acts
  {
    ghost var before := hub.log;
    for i := 0 to |acts|
      invariant hub.Valid() && hub.log == before + acts[..i]
    {
      LegalStep(before, acts, i);
      Do(hub, acts[i]);
    }
    assert acts[..|acts|] == acts;
  }
}

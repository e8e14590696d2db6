/**
 Listeners of the running store: one that joins, keeps its channel from filling up and folds what it
 hears on what it saw when it joined shows the store as it is.
 */
module Listening {
  import opened StoreModel
  import opened Events
  import opened Fanout
  import opened Stores
  import opened Running

  /** What the store and its listeners do, one thing after another. */
  datatype Turn =
    | Does(op: Op)
    | Joins
    | Leaves(k: nat)
    | Takes(k: nat)

  /** The store and everything that has happened at its hub. */
  datatype Scene = Scene(store: State, log: seq<Act>)

  /** A listener that nobody is does nothing, nor does one that finds no event. */
  ghost function LogOf(log: seq<Act>, t: Turn): seq<Act>
    requires !t.Does?
  {
    match t
    case Joins => log + [Subscribed(Handed(log))]
    case Leaves(k) => if k < Handed(log) then log + [Unsubscribed(k)] else log
    case Takes(k) => if Got(log, k) < |Heard(log, k)| then log + [Received(k)] else log
  }

  ghost function Turned(w: Scene, limits: Limits, t: Turn): Scene {
    if t.Does? then Scene(Apply(w.store, limits, t.op), w.log + Publications(EventsOf(w.store, limits, t.op)))
    else w.(log := LogOf(w.log, t))
  }

  ghost function After(w: Scene, limits: Limits, turns: seq<Turn>): Scene {
    if turns == [] then w else Turned(After(w, limits, turns[..|turns| - 1]), limits, turns[|turns| - 1])
  }

  ghost predicate Can(w: Scene, t: Turn) {
    t.Does? ==> Unused(w.store, t.op)
  }

  /** Deliveries get IDs that are not in use. */
  ghost predicate CanAll(w: Scene, limits: Limits, turns: seq<Turn>) {
    forall i | 0 <= i < |turns| :: Can(After(w, limits, turns[..i]), turns[i])
  }

  ghost predicate Sound(w: Scene, limits: Limits) {
    Agrees(w.store) && Capped(w.store, limits.maxMessages) && Legal(w.log)
  }

  lemma CanInit(w: Scene, limits: Limits, turns: seq<Turn>)
    requires turns != [] && CanAll(w, limits, turns)
    ensures CanAll(w, limits, turns[..|turns| - 1])
    ensures Can(After(w, limits, turns[..|turns| - 1]), turns[|turns| - 1])
  {
    var before := turns[..|turns| - 1];
    forall i | 0 <= i < |before| ensures Can(After(w, limits, before[..i]), before[i]) {
      assert before[..i] == turns[..i];
    }
  }

  // ---------------------------------------------------------------------------
  // Keeping up
  // ---------------------------------------------------------------------------

  /** Several publications, for one listener. */
  lemma {:induction false} AfterPublications(log: seq<Act>, events: seq<Event>, k: nat)
    requires Legal(log)
    ensures var next := log + Publications(events);
            && Legal(next) && Handed(next) == Handed(log) && (InForce(next, k) <==> InForce(log, k))
            && Offered(next, k) == Offered(log, k) + if InForce(log, k) then events else []
  {
    if events == [] {
      assert log + Publications(events) == log;
    } else {
      var before, e := events[..|events| - 1], events[|events| - 1];
      AfterPublications(log, before, k);
      PublicationsCons(log, events, |before|);
      assert before + [e] == events && events[..|events|] == events;
      AfterAct(log + Publications(before), Published(e));
    }
  }

  lemma TurnKeeps(w: Scene, limits: Limits, t: Turn)
    requires Sound(w, limits) && Can(w, t)
    ensures Sound(Turned(w, limits, t), limits)
  {
    match t
    case Does(op) =>
      ApplyAgrees(w.store, limits, op);
      AfterPublications(w.log, EventsOf(w.store, limits, op), 0);
    case Joins => AfterAct(w.log, Subscribed(Handed(w.log)));
    case Leaves(k) => AfterAct(w.log, Unsubscribed(k));
    case Takes(k) => AfterAct(w.log, Received(k));
  }

  lemma {:induction false} TurnsKeep(w: Scene, limits: Limits, turns: seq<Turn>)
    requires Sound(w, limits) && CanAll(w, limits, turns)
    ensures Sound(After(w, limits, turns), limits)
  {
    if turns != [] {
      CanInit(w, limits, turns);
      TurnsKeep(w, limits, turns[..|turns| - 1]);
      TurnKeeps(After(w, limits, turns[..|turns| - 1]), limits, turns[|turns| - 1]);
    }
  }

  /** What the listener was offered, folded on what it saw, is what there is. */
  ghost predicate InStep(w: Scene, seen: View, k: nat) {
    Replay(seen, Offered(w.log, k)) == ViewOf(w.store)
  }

  lemma ChangeInStep(w: Scene, limits: Limits, op: Op, seen: View, k: nat)
    requires Sound(w, limits) && InForce(w.log, k) && InStep(w, seen, k)
    ensures InStep(Turned(w, limits, Does(op)), seen, k)
  {
    var events := EventsOf(w.store, limits, op);
    AfterPublications(w.log, events, k);
    ReplayAppend(seen, Offered(w.log, k), events);
    Follow(w.store, limits, op);
  }

  /** What listeners do is no event. */
  lemma QuietTurn(w: Scene, limits: Limits, t: Turn, k: nat)
    requires !t.Does? && k < Handed(w.log)
    ensures var next := Turned(w, limits, t);
            && next.store == w.store && Offered(next.log, k) == Offered(w.log, k) && k < Handed(next.log)
            && (InForce(next.log, k) <==> InForce(w.log, k) && t != Leaves(k))
  {
    assert Offered(w.log, k) + [] == Offered(w.log, k);
    match t
    case Joins => AfterAct(w.log, Subscribed(Handed(w.log)));
    case Leaves(j) => AfterAct(w.log, Unsubscribed(j));
    case Takes(j) => AfterAct(w.log, Received(j));
  }

  lemma TurnInStep(w: Scene, limits: Limits, t: Turn, seen: View, k: nat)
    requires Sound(w, limits) && k < Handed(w.log) && (InForce(w.log, k) ==> InStep(w, seen, k))
    ensures var next := Turned(w, limits, t);
            k < Handed(next.log) && (InForce(next.log, k) ==> InStep(next, seen, k))
  {
    if t.Does? {
      AfterPublications(w.log, EventsOf(w.store, limits, t.op), k);
      if InForce(w.log, k) {
        ChangeInStep(w, limits, t.op, seen, k);
      }
    } else {
      QuietTurn(w, limits, t, k);
    }
  }

  lemma {:induction false} AlwaysInStep(w: Scene, limits: Limits, turns: seq<Turn>, seen: View, k: nat)
    requires Sound(w, limits) && CanAll(w, limits, turns)
    requires k < Handed(w.log) && InForce(w.log, k) && InStep(w, seen, k)
    ensures var end := After(w, limits, turns);
            k < Handed(end.log) && (InForce(end.log, k) ==> InStep(end, seen, k))
  {
    if turns != [] {
      var before := turns[..|turns| - 1];
      CanInit(w, limits, turns);
      AlwaysInStep(w, limits, before, seen, k);
      TurnsKeep(w, limits, before);
      TurnInStep(After(w, limits, before), limits, turns[|turns| - 1], seen, k);
    }
  }

  /** A new listener has seen everything. */
  lemma JoinsInStep(w: Scene, limits: Limits)
    requires Sound(w, limits)
    ensures var joined, k := Turned(w, limits, Joins), Handed(w.log);
            Sound(joined, limits) && k < Handed(joined.log) && InForce(joined.log, k) && InStep(joined, ViewOf(w.store), k)
  {
    var k := Handed(w.log);
    TurnKeeps(w, limits, Joins);
    AfterAct(w.log, Subscribed(k));
    NothingBefore(w.log, k);
  }

  /**
   A listener that joins, whatever it and the others do after that: as long as it stays and no event ever
   finds its channel full, what it has heard, folded on what there was when it joined, is what there is.
   */
  lemma ListenerKeepsUp(w: Scene, limits: Limits, turns: seq<Turn>)
    requires Sound(w, limits) && CanAll(Turned(w, limits, Joins), limits, turns)
    ensures var k, end := Handed(w.log), After(Turned(w, limits, Joins), limits, turns);
            InForce(end.log, k) && !Overrun(end.log, k) ==> Replay(ViewOf(w.store), Heard(end.log, k)) == ViewOf(end.store)
  {
    var joined, k := Turned(w, limits, Joins), Handed(w.log);
    JoinsInStep(w, limits);
    AlwaysInStep(joined, limits, turns, ViewOf(w.store), k);
    TurnsKeep(joined, limits, turns);
    HeardAllIff(After(joined, limits, turns).log, k);
  }

  // ---------------------------------------------------------------------------
  // The running store and its listeners
  // ---------------------------------------------------------------------------

  method AskHub(hub: Hub, t: Turn)
    requires hub.Valid() && !t.Does?
    modifies hub
    ensures hub.Valid() && hub.log == LogOf(old(hub.log), t)
  {
    hub.Logged();
    match t {
      case Joins => var _ := hub.Subscribe();
      case Leaves(k) =>
        if k in hub.channels {
          hub.Unsubscribe(k);
        }
      case Takes(k) =>
        PendingIsBounded(hub.log, k);
        if k in hub.channels {
          var _ := hub.Receive(k);
        }
    }
  }

  method AtHub(store: Store, t: Turn)
    requires store.Open() && !t.Does?
    modifies store.hub
    ensures store.Open() && Reach(store) == old(Reach(store)) && store.state == old(store.state)
    ensures store.hub.log == LogOf(old(store.hub.log), t)
  {
    AskHub(store.hub, t);
    store.Undisturbed();
    ReachKept(store);
  }

  /** The running store is where the value-level one is. */
  ghost predicate Stands(store: Store, w: Scene)
    reads store, store.hub
  {
    store.state == w.store && store.hub.log == w.log
  }

  method TakeTurn(store: Store, t: Turn, ghost w: Scene) returns (ghost reach: set<object>)
    requires store.Open() && Stands(store, w) && Can(w, t)
    modifies Reach(store)
    ensures store.Open() && Stands(store, Turned(w, store.limits, t))
    ensures reach == Reach(store) && fresh(reach - old(Reach(store)))
  {
    match t {
      case Does(op) => reach := ExecuteNext(store, op);
      case Joins => AtHub(store, t);
      case Leaves(_) => AtHub(store, t);
      case Takes(_) => AtHub(store, t);
    }
    reach := Reach(store);
  }

  /** Any turns of the store and its listeners. */
  method TakeTurns(store: Store, turns: seq<Turn>, ghost w: Scene, ghost start: set<object>) returns (ghost reach: set<object>)
    requires store.Open() && Stands(store, w) && CanAll(w, store.limits, turns) && start == Reach(store)
    modifies start
    ensures store.Open() && Stands(store, After(w, store.limits, turns))
    ensures reach == Reach(store) && fresh(reach - start)
    decreases |turns|
  {
    reach := start;
    if turns != [] {
      var before := turns[..|turns| - 1];
      CanInit(w, store.limits, turns);
      ghost var mid := TakeTurns(store, before, w, start);
      reach := TakeTurn(store, turns[|turns| - 1], After(w, store.limits, before));
      assert fresh(mid - start) && fresh(reach - mid);
    }
  }

  /** Somebody listens to an open store: as long as they stay and keep up, what they have heard shows the store. */
  method Listen(store: Store, turns: seq<Turn>, ghost w: Scene, ghost start: set<object>) returns (k: nat)
    requires store.Open() && Stands(store, w) && Capped(w.store, store.limits.maxMessages) && start == Reach(store)
    requires CanAll(Turned(w, store.limits, Joins), store.limits, turns)
    modifies start
    ensures store.Open() && Stands(store, After(Turned(w, store.limits, Joins), store.limits, turns))
    ensures InForce(store.hub.log, k) && !Overrun(store.hub.log, k) ==>
              Replay(ViewOf(w.store), Heard(store.hub.log, k)) == ViewOf(store.state)
  {
    OpenIsSound(store, w);
    ListenerKeepsUp(w, store.limits, turns);
    k := store.hub.nextID;
    ghost var reach := TakeTurn(store, Joins, w);
    reach := TakeTurns(store, turns, Turned(w, store.limits, Joins), reach);
  }

  lemma OpenIsSound(store: Store, w: Scene)
    requires store.Open() && Stands(store, w) && Capped(w.store, store.limits.maxMessages)
    ensures Sound(w, store.limits) && store.hub.nextID == Handed(w.log)
  {
    ConsistentAgrees(store.All(), store.byID);
    store.hub.Logged();
  }
}

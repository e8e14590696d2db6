/**
 The running store over whole lists of operations: what it holds, what it has published
 and what is on disk, and why a frozen view does not move.
 */
module Running {
  import opened Sequences
  import opened StoreModel
  import opened Events
  import opened Fanout
  import opened Disk
  import opened Recovery
  import opened Loading
  import opened Restart
  import opened Lifetimes
  import opened Mailboxes
  import opened PersistenceIO
  import opened Stores

  /** Marking a mailbox reaches indexed messages only. */
  lemma StoredIsIndexed(store: Store, n: string)
    requires store.Open() && n in store.boxes
    ensures store.boxes[n].Stored() <= store.byID.Values
  {
    var queue := store.All()[n];
    assert QueueFits(queue, n, store.byID);
    forall m | m in store.boxes[n].Stored() ensures m in store.byID.Values {
      var i :| 0 <= i < |queue| && queue[i] == m;
      assert store.byID[queue[i].id] == m;
    }
  }

  method ExecuteFlag(store: Store, op: Op)
    requires store.Open() && (op.MarkRead? || op.MarkAllRead?)
    modifies store`state, store.hub, store.byID.Values
    modifies if store.persist != null then {store.persist} else {}
    ensures store.Open() && store.state == Apply(old(store.state), store.limits, op)
    ensures store.hub.Told(EventsOf(old(store.state), store.limits, op))
    ensures store.persist != null ==>
              store.persist.Took(OpSteps(old(store.persist.files), old(store.state), store.limits, op))
    ensures store.SameLayout()
  {
    if op.MarkRead? {
      var found := store.MarkMessage(op.id, op.read);
    } else {
      if op.mailbox in store.boxes {
        StoredIsIndexed(store, op.mailbox);
      }
      var r := store.MarkMailbox(op.mailbox);
    }
  }

  method Execute(store: Store, op: Op)
    requires store.Open() && (op.Deliver? ==> op.id !in store.byID)
    modifies store, store.boxes.Values, store.Arrays(), store.hub, store.byID.Values
    modifies if store.persist != null then {store.persist} else {}
    ensures store.Open() && store.state == Apply(old(store.state), store.limits, op)
    ensures store.hub.Told(EventsOf(old(store.state), store.limits, op))
    ensures store.persist != null ==>
              store.persist.Took(OpSteps(old(store.persist.files), old(store.state), store.limits, op))
    ensures store.Rehoused() && store.Reindexed()
  {
    match op
    case Deliver(_, _, _, _, _, _) => var r := store.Deliver(op);
    case Delete(id) => var found := store.DeleteMessage(id);
    case Clear(n) => var r := store.ClearMailbox(n);
    case MarkRead(_, _) => ExecuteFlag(store, op);
    case MarkAllRead(_) => ExecuteFlag(store, op);
  }

  // ---------------------------------------------------------------------------
  // Lists of operations
  // ---------------------------------------------------------------------------

  /** What the run may write: the mailboxes, their arrays and the indexed messages. */
  ghost function Reach(store: Store): set<object>
    requires store.Sound()
    reads store, store.boxes.Values, store.Arrays()
  {
    {store} + store.boxes.Values + store.Held() + {store.hub}
    + if store.persist != null then {store.persist} else {}
  }

  twostate lemma ReachGrows(store: Store)
    requires old(store.Sound()) && store.Sound() && store.Rehoused() && store.Reindexed()
    ensures fresh(Reach(store) - old(Reach(store)))
  {
    store.HeldGrows();
  }

  twostate lemma ReachKept(store: Store)
    requires old(store.Sound()) && store.Sound() && store.SameLayout()
    ensures Reach(store) == old(Reach(store))
  {
    store.HeldKept();
  }

  method ExecuteNext(store: Store, op: Op) returns (ghost reach: set<object>)
    requires store.Open() && Unused(store.state, op)
    modifies Reach(store)
    ensures store.Open() && store.state == Apply(old(store.state), store.limits, op)
    ensures store.hub.Told(EventsOf(old(store.state), store.limits, op))
    ensures store.persist != null ==>
              store.persist.files == DoAll(old(store.persist.files), OpSteps(old(store.persist.files), old(store.state), store.limits, op))
    ensures reach == Reach(store) && fresh(reach - old(Reach(store)))
  {
    Execute(store, op);
    ReachGrows(store);
    reach := Reach(store);
  }

  twostate lemma ReachShrinks(store: Store)
    requires old(store.Sound()) && store.Sound() && store.Places() == old(store.Places())
    requires store.byID.Keys <= old(store.byID.Keys) && forall id | id in store.byID :: store.byID[id] == old(store.byID)[id]
    ensures Reach(store) <= old(Reach(store))
  {
    forall b | b in store.Arrays() ensures b in old(store.Arrays()) {
      var box :| box in store.boxes.Values && box.messages == b;
      var n :| n in store.boxes && store.boxes[n] == box;
      assert store.Places()[n] == b;
    }
    forall m | m in store.byID.Values ensures m in old(store.byID.Values) {
      var id :| id in store.byID && store.byID[id] == m;
    }
  }

  /** A deletion reaches nothing new: the queue shrinks in its own array. */
  method DeleteNext(store: Store, id: ID) returns (found: bool)
    requires store.Open()
    modifies Reach(store)
    ensures store.Open() && store.state == Apply(old(store.state), store.limits, Delete(id))
    ensures found <==> id in old(store.state).byID
    ensures Reach(store) <= old(Reach(store))
  {
    found := store.DeleteMessage(id);
    ReachShrinks(store);
  }

  /** The store is where a run from `s` over these files leads, and all its events are published. */
  ghost predicate At(store: Store, s: State, files: FS, ops: seq<Op>)
    reads store, store.hub
    reads if store.persist != null then {store.persist} else {}
  {
    && store.state == Run(s, store.limits, ops)
    && store.hub.log == Publications(AllEvents(s, store.limits, ops))
    && (store.persist != null ==> store.persist.files == FilesAfter(files, s, store.limits, ops))
  }

  method RunLast(store: Store, ghost s: State, ghost files: FS, ops: seq<Op>) returns (ghost reach: set<object>)
    requires ops != [] && Unused(store.state, ops[|ops| - 1])
    requires store.Open() && At(store, s, files, ops[..|ops| - 1])
    modifies Reach(store)
    ensures store.Open() && At(store, s, files, ops)
    ensures reach == Reach(store) && fresh(reach - old(Reach(store)))
  {
    PublicationsAppend(AllEvents(s, store.limits, ops[..|ops| - 1]), EventsOf(store.state, store.limits, ops[|ops| - 1]));
    reach := ExecuteNext(store, ops[|ops| - 1]);
  }

  /**
   A store that executes a list of operations holds what the value-level run holds, has
   published its events, and has left its files on disk.
   */
  method RunAll(store: Store, ghost s: State, ghost files: FS, ops: seq<Op>, ghost start: set<object>)
    returns (ghost reach: set<object>)
    requires store.Open() && At(store, s, files, []) && UnusedThroughout(s, store.limits, ops) && start == Reach(store)
    modifies start
    ensures store.Open() && At(store, s, files, ops)
    ensures reach == Reach(store) && fresh(reach - start)
    decreases |ops|
  {
    reach := start;
    if ops != [] {
      UnusedInit(s, store.limits, ops);
      ghost var mid := RunAll(store, s, files, ops[..|ops| - 1], start);
      reach := RunLast(store, s, files, ops);
      assert fresh(mid - start) && fresh(reach - mid);
    }
  }

  /** A store that has loaded what its directory holds. */
  method Begin(order: seq<string>, limits: Limits, persist: Persistence, ghost s: State)
    returns (store: Store, ghost own: set<object>)
    requires Distinct(order) && persist.Valid() && s == Loaded(persist.files, Members(order), order, limits.maxMessages)
    requires Agrees(s)
    modifies persist
    ensures store.Open() && store.limits == limits && store.persist == persist
    ensures At(store, s, LoadedFiles(old(persist.files), order, limits.maxMessages), [])
    ensures fresh(own) && Reach(store) == own + {persist}
  {
    store := NewStore(order, limits, persist);
    own := {store, store.hub} + store.boxes.Values + store.Held();
    ReachIs(store);
    AllNew(store);
  }

  twostate lemma AllNew(new store: Store)
    requires fresh(store) && fresh(store.hub) && fresh(store.boxes.Values) && fresh(store.Held())
    ensures fresh({store, store.hub} + store.boxes.Values + store.Held())
  {
  }

  lemma ReachIs(store: Store)
    requires store.Sound() && store.persist != null
    ensures Reach(store) == {store, store.hub} + store.boxes.Values + store.Held() + {store.persist}
  {
  }

  /** Loading what the directory holds, then a list of operations. */
  method LoadAndRun(order: seq<string>, limits: Limits, persist: Persistence, ops: seq<Op>, ghost s: State)
    returns (store: Store)
    requires Distinct(order) && persist.Valid() && s == Loaded(persist.files, Members(order), order, limits.maxMessages)
    requires Agrees(s) && UnusedThroughout(s, limits, ops)
    modifies persist
    ensures store.Open() && store.limits == limits && store.persist == persist
    ensures At(store, s, LoadedFiles(old(persist.files), order, limits.maxMessages), ops)
  {
    ghost var files, own := LoadedFiles(persist.files, order, limits.maxMessages), {};
    store, own := Begin(order, limits, persist, s);
    ghost var reach := RunAll(store, s, files, ops, own + {persist});
  }

  /**
   A whole life of the running store, over whatever earlier lives and their crashes have
   left: it ends in the store and the directory that the value-level life ends in.
   */
  method Live(order: seq<string>, limits: Limits, persist: Persistence, ops: seq<Op>, ghost homes: map<ID, string>)
    returns (store: Store)
    requires Distinct(order) && persist.Valid()
    requires Good(World(persist.files, homes, Down))
    requires CanAll(After(World(persist.files, homes, Down), Loads(order, limits)), Doing(ops))
    modifies persist
    ensures var end := AfterAll(After(World(old(persist.files), homes, Down), Loads(order, limits)), Doing(ops));
            && Good(end) && end.phase == Up(store.state, order, limits) && end.files == persist.files
    ensures store.Open() && store.persist == persist && store.limits == limits
  {
    ghost var w := After(World(persist.files, homes, Down), Loads(order, limits));
    StepKeeps(World(persist.files, homes, Down), Loads(order, limits));
    LifeIs(w, ops);
    store := LoadAndRun(order, limits, persist, ops, w.phase.store);
  }

  /** Operations run while somebody holds an array that is not one of the mailboxes'. */
  method RunBeside(store: Store, ops: seq<Op>, view: array<Message?>) returns (ghost reach: set<object>)
    requires store.Open() && UnusedThroughout(store.state, store.limits, ops)
    requires view !in Reach(store)
    modifies Reach(store)
    ensures store.Open() && store.state == Run(old(store.state), store.limits, ops)
    ensures reach == Reach(store) && fresh(reach - old(Reach(store)))
    ensures view[..] == old(view[..])
    decreases |ops|
  {
    ghost var start := Reach(store);
    reach := start;
    if ops != [] {
      UnusedInit(store.state, store.limits, ops);
      ghost var mid := RunBeside(store, ops[..|ops| - 1], view);
      reach := ExecuteNext(store, ops[|ops| - 1]);
      assert fresh(mid - start) && fresh(reach - mid);
    }
  }

  lemma QueueOf(store: Store, n: string)
    requires store.Open() && n in store.boxes
    ensures n in store.state.boxes && n in store.All() && store.state.boxes[n] == Values(store.All()[n])
  {
  }

  /** A snapshot and the messages it shows; it is none of the objects there were. */
  method SnapshotOf(store: Store, n: string, ghost others: set<object>) returns (view: array<Message?>, ghost queue: seq<Message>)
    requires store.Open() && n in store.boxes
    ensures store.Open() && store.SameShape() && view !in others
    ensures n in store.state.boxes && view[..] == queue && Values(queue) == store.state.boxes[n]
  {
    var r := store.Snapshot(n);
    view := r.value;
    QueueOf(store, n);
    queue := store.All()[n];
  }

  method Freeze(store: Store, n: string) returns (view: array<Message?>, ghost queue: seq<Message>)
    requires store.Open() && n in store.boxes
    ensures store.Open() && store.SameShape() && view !in Reach(store) && Reach(store) == old(Reach(store))
    ensures n in store.state.boxes && view[..] == queue && Values(queue) == store.state.boxes[n]
  {
    ghost var reach := Reach(store);
    view, queue := SnapshotOf(store, n, reach);
    ReachKept(store);
  }

  /** The message a value describes, whatever its read flag. */
  predicate Describes(v: Msg, m: Message) {
    && v.id == m.id && v.mailbox == m.mailbox && v.receivedAt == m.receivedAt
    && v.source == m.source && v.envelope == m.envelope && v.raw == m.raw
  }

  lemma ValuesDescribe(queue: seq<Message>, box: seq<Msg>)
    requires Values(queue) == box
    ensures |queue| == |box| && forall i | 0 <= i < |box| :: Describes(box[i], queue[i])
  {
    assert forall i | 0 <= i < |box| :: box[i] == queue[i].Value();
  }

  lemma ViewShows(view: array<Message?>, queue: seq<Message>, box: seq<Msg>)
    requires view[..] == queue && |queue| == |box|
    requires forall i | 0 <= i < |box| :: Describes(box[i], queue[i])
    ensures view.Length == |box|
    ensures forall i | 0 <= i < view.Length :: view[i] != null && Describes(box[i], view[i])
  {
    assert forall i | 0 <= i < view.Length :: view[i] == view[..][i] == queue[i];
  }

  /** A snapshot keeps its messages while the mailboxes change under it. */
  method HoldView(store: Store, n: string, ops: seq<Op>) returns (view: array<Message?>)
    requires store.Open() && n in store.boxes && UnusedThroughout(store.state, store.limits, ops)
    modifies Reach(store)
    ensures store.Open() && store.state == Run(old(store.state), store.limits, ops)
    ensures n in old(store.state).boxes && view.Length == |old(store.state).boxes[n]|
    ensures forall i | 0 <= i < view.Length :: view[i] != null && Describes(old(store.state).boxes[n][i], view[i])
  {
    ghost var queue: seq<Message>;
    view, queue := Freeze(store, n);
    ghost var box := store.state.boxes[n];
    ValuesDescribe(queue, box);
    ghost var reach := RunBeside(store, ops, view);
    ViewShows(view, queue, box);
  }
}

/**
 The store over several lives: operations, crashes in the middle of one, interrupted and
 completed loading, in any order, over one data directory.
 */
module Lifetimes {
  import opened Sequences
  import opened StoreModel
  import opened StoreRuns
  import opened Disk
  import opened Recovery
  import opened Restart
  import opened Loading

  /** A store is up with its configuration, or there is only the directory. */
  datatype Phase = Down | Up(store: State, order: seq<string>, limits: Limits)

  /** The directory, the mailbox of every ID ever handed out, and the running store. */
  datatype World = World(files: FS, homes: map<ID, string>, phase: Phase)

  datatype Happening =
    | Does(op: Op)
    | Dies(op: Op, left: FS)
    | Stops
    | Loads(order: seq<string>, limits: Limits)
    | LoadDies(order: seq<string>, limits: Limits, left: FS)

  /** IDs carry the time: a new one is above all earlier ones. */
  ghost predicate Newest(homes: map<ID, string>, op: Op) {
    op.Deliver? ==> forall id | id in homes :: id < op.id
  }

  ghost predicate Can(w: World, h: Happening) {
    match h
    case Does(op) => w.phase.Up? && Newest(w.homes, op)
    case Dies(op, left) =>
      w.phase.Up? && Newest(w.homes, op)
      && MayCrashIn(w.files, OpSteps(w.files, w.phase.store, w.phase.limits, op), left)
    case Stops => w.phase.Up?
    case Loads(order, _) => w.phase.Down? && Distinct(order)
    case LoadDies(order, limits, left) =>
      w.phase.Down? && Distinct(order)
      && MayCrashIn(w.files, LoadAllSteps(w.files, order, limits.maxMessages), left)
  }

  function HomesWith(homes: map<ID, string>, op: Op): map<ID, string> {
    if op.Deliver? then homes[op.id := op.mailbox] else homes
  }

  function After(w: World, h: Happening): World {
    match h
    case Does(op) =>
      if w.phase.Down? then w
      else
        var s, limits := w.phase.store, w.phase.limits;
        World(DoAll(w.files, OpSteps(w.files, s, limits, op)), HomesWith(w.homes, op),
              w.phase.(store := Apply(s, limits, op)))
    case Dies(op, left) => World(left, HomesWith(w.homes, op), Down)
    case Stops => w.(phase := Down)
    case Loads(order, limits) =>
      World(LoadedFiles(w.files, order, limits.maxMessages), w.homes,
            Up(Loaded(w.files, Members(order), order, limits.maxMessages), order, limits))
    case LoadDies(_, _, left) => w.(files := left)
  }

  // ---------------------------------------------------------------------------
  // The invariant
  // ---------------------------------------------------------------------------

  ghost predicate AtHome(files: FS, homes: map<ID, string>) {
    FilesAmong(files, Home(homes))
  }

  ghost function Home(homes: map<ID, string>): (string, ID) -> bool {
    (n: string, id: ID) => id in homes && homes[id] == n
  }

  /** Index and queues agree, the directory mirrors them, the cap holds, and the queues are in ID order. */
  ghost predicate StoreGood(files: FS, store: State, order: seq<string>, limits: Limits) {
    && Distinct(order) && store.boxes.Keys == Members(order)
    && Mirrors(files, store) && Agrees(store) && Capped(store, limits.maxMessages) && AllAscending(store)
  }

  ghost predicate Good(w: World) {
    AtHome(w.files, w.homes)
    && (w.phase.Up? ==> StoreGood(w.files, w.phase.store, w.phase.order, w.phase.limits))
  }

  /** Stored messages have their files, so their IDs are at home. */
  lemma IndexAtHome(files: FS, homes: map<ID, string>, s: State)
    requires AtHome(files, homes) && Mirrors(files, s) && Agrees(s)
    ensures forall id | id in s.byID :: Home(homes)(s.byID[id], id)
  {
    forall id | id in s.byID ensures Home(homes)(s.byID[id], id) {
      var n := s.byID[id];
      LookupNone(s.boxes[n], id);
      assert OnDisk(files, n, s.boxes[n]);
      assert Read(files, n, id).Some?;
      assert JsonOf(n, id) in files;
    }
  }

  lemma NewIsReady(files: FS, homes: map<ID, string>, s: State, op: Op)
    requires AtHome(files, homes) && Newest(homes, op)
    requires forall id | id in s.byID :: Home(homes)(s.byID[id], id)
    ensures Ready(files, op) && Unused(s, op)
    ensures op.Deliver? ==> forall id | id in s.byID :: id < op.id
  {
    if op.Deliver? {
      assert forall f | f in files :: Home(homes)(f.mailbox, f.id);
      assert op.id !in homes;
    }
  }

  lemma HomesGrow(files: FS, homes: map<ID, string>, op: Op)
    requires AtHome(files, homes) && Newest(homes, op)
    ensures AtHome(files, HomesWith(homes, op))
    ensures forall n, id: ID | Home(homes)(n, id) :: Home(HomesWith(homes, op))(n, id)
  {
    assert op.Deliver? ==> op.id !in homes;
    forall f | f in files ensures Home(HomesWith(homes, op))(f.mailbox, f.id) {
      assert Home(homes)(f.mailbox, f.id);
    }
  }

  lemma OpWritesAtHome(files: FS, homes: map<ID, string>, s: State, limits: Limits, op: Op)
    requires AtHome(files, homes) && Mirrors(files, s) && Agrees(s) && Newest(homes, op)
    ensures WritesAmong(OpSteps(files, s, limits, op), Home(HomesWith(homes, op)))
    ensures AtHome(files, HomesWith(homes, op))
  {
    IndexAtHome(files, homes, s);
    HomesGrow(files, homes, op);
    OpCreates(files, s, limits, op, Home(HomesWith(homes, op)));
  }

  lemma PrefixWrites(steps: seq<Step>, k: nat, ok: (string, ID) -> bool)
    requires k <= |steps| && WritesAmong(steps, ok)
    ensures WritesAmong(steps[..k], ok)
  {
    assert forall i | 0 <= i < k :: steps[..k][i] == steps[i];
  }

  /** A crash leaves files of the mailboxes and IDs that the steps write, and no others. */
  lemma CrashLeavesAtHome(files: FS, steps: seq<Step>, left: FS, homes: map<ID, string>)
    requires AtHome(files, homes) && WritesAmong(steps, Home(homes)) && MayCrashIn(files, steps, left)
    ensures AtHome(left, homes)
  {
    var k :| 0 <= k <= |steps| && CrashAt(files, steps, k, left);
    PrefixWrites(steps, k, Home(homes));
    StepsCreate(files, steps[..k], Home(homes));
  }

  lemma AppendInOrder(box: seq<Msg>, m: Msg, drop: nat)
    requires Ascending(box) && (forall i | 0 <= i < |box| :: box[i].id < m.id) && drop <= |box + [m]|
    ensures Ascending((box + [m])[drop..])
  {
    var grown := box + [m];
    assert forall i | 0 <= i < |grown[drop..]| :: grown[drop..][i] == grown[drop + i];
  }

  /** Every operation keeps the queues in ID order. */
  lemma ApplyAscends(s: State, limits: Limits, op: Op)
    requires Agrees(s) && AllAscending(s)
    requires op.Deliver? ==> forall id | id in s.byID :: id < op.id
    ensures AllAscending(Apply(s, limits, op))
  {
    match op
    case Deliver(_, _, _, _, _, _) =>
      if Accepts(s, limits, op) {
        assert BoxAgrees(s, op.mailbox) && Ascending(s.boxes[op.mailbox]);
        var m := Incoming(op);
        AppendInOrder(s.boxes[op.mailbox], m, Excess(|Grown(s, m)|, limits.maxMessages));
      }
    case Delete(id) =>
      if id in s.byID {
        assert Ascending(s.boxes[s.byID[id]]);
        WithoutAscends(s.boxes[s.byID[id]], id);
      }
    case Clear(_) =>
    case MarkRead(_, _) =>
      forall n | n in s.boxes ensures Ascending(Apply(s, limits, op).boxes[n]) {
        assert Ascending(s.boxes[n]);
        MarkReadAscends(s, limits, op, n);
      }
    case MarkAllRead(n) =>
      assert n in s.boxes ==> Ascending(s.boxes[n]);
  }

  lemma DoesKeeps(w: World, op: Op)
    requires Good(w) && Can(w, Does(op))
    ensures Good(After(w, Does(op)))
  {
    var fs, s, limits, homes := w.files, w.phase.store, w.phase.limits, HomesWith(w.homes, op);
    IndexAtHome(fs, w.homes, s);
    NewIsReady(fs, w.homes, s, op);
    OpMirrors(fs, s, limits, op);
    ApplyAgrees(s, limits, op);
    ApplyAscends(s, limits, op);
    OpWritesAtHome(fs, w.homes, s, limits, op);
    StepsCreate(fs, OpSteps(fs, s, limits, op), Home(homes));
  }

  lemma {:induction false} LoadWritesNothing(fs: FS, order: seq<string>, cap: int, ok: (string, ID) -> bool)
    ensures WritesAmong(LoadAllSteps(fs, order, cap), ok)
  {
    if order != [] {
      var before, n := order[..|order| - 1], order[|order| - 1];
      var mid := LoadedFiles(fs, before, cap);
      var all := Listing(mid, n);
      LoadWritesNothing(fs, before, cap, ok);
      RemovesCreateNothing(all[..Excess(|all|, cap)], ok);
    }
  }

  /** One home for each ID keeps the mailboxes apart. */
  lemma HomesKeepApart(files: FS, homes: map<ID, string>, order: seq<string>, cap: int)
    requires AtHome(files, homes) && Distinct(order)
    ensures KeptApart(files, order, cap)
  {
    forall i, j, id: ID | 0 <= i < j < |order| && id in IdSet(Recovered(files, order[i], cap))
      ensures Read(files, order[j], id).None?
    {
      InIdSet(Recovered(files, order[i], cap), id);
      RecoveredFacts(files, order[i], cap);
      ReadAtHome(files, homes, order[i], id);
      ReadAtHome(files, homes, order[j], id);
    }
  }

  lemma ReadAtHome(files: FS, homes: map<ID, string>, n: string, id: ID)
    requires AtHome(files, homes)
    ensures Read(files, n, id).Some? ==> id in homes && homes[id] == n
  {
    if Read(files, n, id).Some? {
      assert JsonOf(n, id) in files && Home(homes)(n, id);
    }
  }

  lemma LoadsKeeps(w: World, order: seq<string>, limits: Limits)
    requires Good(w) && Can(w, Loads(order, limits))
    ensures Good(After(w, Loads(order, limits)))
  {
    var cap := limits.maxMessages;
    LoadedMirrors(w.files, order, cap);
    LoadedWholeBoxes(w.files, order, cap);
    HomesKeepApart(w.files, w.homes, order, cap);
    LoadedAgreesIff(w.files, order, cap);
    LoadWritesNothing(w.files, order, cap, Home(w.homes));
    StepsCreate(w.files, LoadAllSteps(w.files, order, cap), Home(w.homes));
  }

  lemma StepKeeps(w: World, h: Happening)
    requires Good(w) && Can(w, h)
    ensures Good(After(w, h))
  {
    match h
    case Does(op) => DoesKeeps(w, op);
    case Dies(op, left) =>
      OpWritesAtHome(w.files, w.homes, w.phase.store, w.phase.limits, op);
      CrashLeavesAtHome(w.files, OpSteps(w.files, w.phase.store, w.phase.limits, op), left, HomesWith(w.homes, op));
    case Stops =>
    case Loads(order, limits) => LoadsKeeps(w, order, limits);
    case LoadDies(order, limits, left) =>
      LoadWritesNothing(w.files, order, limits.maxMessages, Home(w.homes));
      CrashLeavesAtHome(w.files, LoadAllSteps(w.files, order, limits.maxMessages), left, w.homes);
  }

  function AfterAll(w: World, hs: seq<Happening>): World {
    if hs == [] then w else After(AfterAll(w, hs[..|hs| - 1]), hs[|hs| - 1])
  }

  ghost predicate CanAll(w: World, hs: seq<Happening>) {
    forall i | 0 <= i < |hs| :: Can(AfterAll(w, hs[..i]), hs[i])
  }

  lemma CanInit(w: World, hs: seq<Happening>)
    requires hs != [] && CanAll(w, hs)
    ensures CanAll(w, hs[..|hs| - 1]) && Can(AfterAll(w, hs[..|hs| - 1]), hs[|hs| - 1])
  {
    var before := hs[..|hs| - 1];
    forall i | 0 <= i < |before| ensures Can(AfterAll(w, before[..i]), before[i]) {
      assert before[..i] == hs[..i];
    }
  }

  /** Through every sequence of lives the running store is sound and the directory mirrors it. */
  lemma {:induction false} LivesKeep(hs: seq<Happening>)
    requires CanAll(World(map[], map[], Down), hs)
    ensures Good(AfterAll(World(map[], map[], Down), hs))
  {
    if hs != [] {
      CanInit(World(map[], map[], Down), hs);
      LivesKeep(hs[..|hs| - 1]);
      StepKeeps(AfterAll(World(map[], map[], Down), hs[..|hs| - 1]), hs[|hs| - 1]);
    }
  }

  // ---------------------------------------------------------------------------
  // One life
  // ---------------------------------------------------------------------------

  function Doing(ops: seq<Op>): (r: seq<Happening>)
    ensures |r| == |ops| && forall i | 0 <= i < |r| :: r[i] == Does(ops[i])
  {
    seq(|ops|, i requires 0 <= i < |ops| => Does(ops[i]))
  }

  lemma DoingInit(ops: seq<Op>)
    requires ops != []
    ensures Doing(ops)[..|ops| - 1] == Doing(ops[..|ops| - 1]) && Doing(ops)[|ops| - 1] == Does(ops[|ops| - 1])
  {
  }

  /** A life is a run of the store that was loaded, over the directory that loading left. */
  lemma {:induction false} LifeIs(w: World, ops: seq<Op>)
    requires Good(w) && w.phase.Up? && CanAll(w, Doing(ops))
    ensures UnusedThroughout(w.phase.store, w.phase.limits, ops)
    ensures var v := AfterAll(w, Doing(ops));
            && Good(v) && v.phase == Up(Run(w.phase.store, w.phase.limits, ops), w.phase.order, w.phase.limits)
            && v.files == FilesAfter(w.files, w.phase.store, w.phase.limits, ops)
  {
    if ops != [] {
      var before, op := ops[..|ops| - 1], ops[|ops| - 1];
      DoingInit(ops);
      CanInit(w, Doing(ops));
      LifeIs(w, before);
      var mid := AfterAll(w, Doing(before));
      StepKeeps(mid, Does(op));
      IndexAtHome(mid.files, mid.homes, mid.phase.store);
      NewIsReady(mid.files, mid.homes, mid.phase.store, op);
      UnusedSoFar(w.phase.store, w.phase.limits, ops);
    }
  }

  lemma UnusedSoFar(s: State, limits: Limits, ops: seq<Op>)
    requires ops != [] && UnusedThroughout(s, limits, ops[..|ops| - 1])
    requires Unused(Run(s, limits, ops[..|ops| - 1]), ops[|ops| - 1])
    ensures UnusedThroughout(s, limits, ops)
  {
    var before := ops[..|ops| - 1];
    forall i | 0 <= i < |ops| ensures Unused(Run(s, limits, ops[..i]), ops[i]) {
      if i < |before| {
        assert before[..i] == ops[..i] && before[i] == ops[i];
      }
    }
  }

  // ---------------------------------------------------------------------------
  // What the next life begins with
  // ---------------------------------------------------------------------------

  lemma LoadedIs(files: FS, homes: map<ID, string>, order: seq<string>, cap: int, t: State)
    requires AtHome(files, homes) && Distinct(order) && Agrees(t)
    requires RecoveredAll(files, Members(order), cap) == t.boxes
    ensures Loaded(files, Members(order), order, cap) == t
  {
    HomesKeepApart(files, homes, order, cap);
    LoadedAgreesIff(files, order, cap);
    LoadedWholeBoxes(files, order, cap);
    AgreesDetermines(Loaded(files, Members(order), order, cap), t);
  }

  lemma SameStoreLoaded(w: World)
    requires Good(w) && w.phase.Up?
    ensures Loaded(w.files, Members(w.phase.order), w.phase.order, w.phase.limits.maxMessages) == w.phase.store
  {
    var s, cap := w.phase.store, w.phase.limits.maxMessages;
    forall n | n in s.boxes ensures Recovered(w.files, n, cap) == s.boxes[n] {
      assert OnDisk(w.files, n, s.boxes[n]);
      RecoveredUnchanged(w.files, s, cap, n);
    }
    RecoveredAllIs(w.files, cap, s.boxes);
    LoadedIs(w.files, w.homes, w.phase.order, cap, s);
  }

  lemma StoppedAndLoaded(w: World, order: seq<string>, limits: Limits)
    requires w.phase.Up?
    ensures After(After(w, Stops), Loads(order, limits)).phase
            == Up(Loaded(w.files, Members(order), order, limits.maxMessages), order, limits)
  {
  }

  /** Stopping and loading again brings back the same store, index included. */
  lemma StopThenLoad(w: World)
    requires Good(w) && w.phase.Up?
    ensures var again := After(After(w, Stops), Loads(w.phase.order, w.phase.limits));
            again.phase == w.phase
  {
    StoppedAndLoaded(w, w.phase.order, w.phase.limits);
    SameStoreLoaded(w);
  }

  /** The mailboxes before the operation, those after it, or, for two of them, a part of the way. */
  ghost predicate Between(s: State, limits: Limits, op: Op, boxes: map<string, seq<Msg>>) {
    || boxes == s.boxes
    || boxes == Apply(s, limits, op).boxes
    || (op.Clear? && op.mailbox in s.boxes
        && exists j :: 0 <= j <= |s.boxes[op.mailbox]| && boxes == s.boxes[op.mailbox := s.boxes[op.mailbox][j..]])
    || (op.MarkAllRead? && op.mailbox in s.boxes
        && exists j: nat :: boxes == s.boxes[op.mailbox := MarkedFirst(s.boxes[op.mailbox], j)])
  }

  /** What a mailbox shows that is in ID order and within the cap is what loading brings up. */
  lemma ShownIsLoaded(files: FS, n: string, box: seq<Msg>, cap: int)
    requires OnDisk(files, n, box) && Ascending(box) && (cap > 0 ==> |box| <= cap)
    ensures Recovered(files, n, cap) == box
  {
    RecoveredOf(files, n, box, cap);
    assert Excess(|box|, cap) == 0;
  }

  lemma PartAscends(box: seq<Msg>, j: nat)
    requires Ascending(box)
    ensures j <= |box| ==> Ascending(box[j..])
    ensures Ascending(MarkedFirst(box, j))
  {
    if j <= |box| {
      assert forall i | 0 <= i < |box[j..]| :: box[j..][i] == box[j + i];
    }
  }

  lemma ClearedTo(w: World, n: string, left: FS)
    requires Good(w) && Can(w, Dies(Clear(n), left)) && n in w.phase.store.boxes
    ensures exists j :: 0 <= j <= |w.phase.store.boxes[n]|
              && RecoveredAll(left, w.phase.store.boxes.Keys, w.phase.limits.maxMessages)
                 == w.phase.store.boxes[n := w.phase.store.boxes[n][j..]]
  {
    var s, limits := w.phase.store, w.phase.limits;
    var cap, box, steps := limits.maxMessages, s.boxes[n], OpSteps(w.files, s, limits, Clear(n));
    var k :| 0 <= k <= |steps| && CrashAt(w.files, steps, k, left);
    var j := (k + 1) / 2;
    RemoveAllCount(box);
    var boxes := s.boxes[n := box[j..]];
    forall x | x in boxes ensures Recovered(left, x, cap) == boxes[x] {
      ClearCrash(w.files, s, limits, n, k, left, x);
      assert Ascending(s.boxes[x]);
      PartAscends(s.boxes[x], j);
      ShownIsLoaded(left, x, boxes[x], cap);
    }
    RecoveredAllIs(left, cap, boxes);
  }

  lemma MarkedTo(w: World, n: string, left: FS)
    requires Good(w) && Can(w, Dies(MarkAllRead(n), left)) && n in w.phase.store.boxes
    ensures exists j: nat ::
              RecoveredAll(left, w.phase.store.boxes.Keys, w.phase.limits.maxMessages)
              == w.phase.store.boxes[n := MarkedFirst(w.phase.store.boxes[n], j)]
  {
    var s, limits := w.phase.store, w.phase.limits;
    var cap, box, steps := limits.maxMessages, s.boxes[n], OpSteps(w.files, s, limits, MarkAllRead(n));
    var k :| 0 <= k <= |steps| && CrashAt(w.files, steps, k, left);
    var j := k / 2;
    var boxes := s.boxes[n := MarkedFirst(box, j)];
    forall x | x in boxes ensures Recovered(left, x, cap) == boxes[x] {
      MarkAllCrash(w.files, s, limits, n, k, left, x);
      assert Ascending(s.boxes[x]);
      PartAscends(s.boxes[x], j);
      ShownIsLoaded(left, x, boxes[x], cap);
    }
    RecoveredAllIs(left, cap, boxes);
  }

  lemma GrownInOrder(w: World, op: Op)
    requires Good(w) && Can(w, Does(op)) && op.Deliver? && Accepts(w.phase.store, w.phase.limits, op)
    ensures Ascending(Grown(w.phase.store, Incoming(op)))
  {
    var s := w.phase.store;
    IndexAtHome(w.files, w.homes, s);
    NewIsReady(w.files, w.homes, s, op);
    assert BoxAgrees(s, op.mailbox) && Ascending(s.boxes[op.mailbox]);
    AppendInOrder(s.boxes[op.mailbox], Incoming(op), 0);
    assert Grown(s, Incoming(op))[0..] == Grown(s, Incoming(op));
  }

  /** Whatever operation a crash hits, loading brings up mailboxes between before and after. */
  lemma DiesBetween(w: World, op: Op, left: FS)
    requires Good(w) && Can(w, Dies(op, left))
    ensures Between(w.phase.store, w.phase.limits, op,
                    RecoveredAll(left, w.phase.store.boxes.Keys, w.phase.limits.maxMessages))
  {
    var s, limits := w.phase.store, w.phase.limits;
    if op.Clear? && op.mailbox in s.boxes {
      ClearedTo(w, op.mailbox, left);
    } else if op.MarkAllRead? && op.mailbox in s.boxes {
      MarkedTo(w, op.mailbox, left);
    } else if op.Clear? || op.MarkAllRead? {
      NothingDone(w, op, left);
    } else {
      IndexAtHome(w.files, w.homes, s);
      NewIsReady(w.files, w.homes, s, op);
      if op.Deliver? && Accepts(s, limits, op) {
        GrownInOrder(w, op);
      }
      CrashAtomic(w.files, s, limits, op, left);
    }
  }

  lemma NothingDone(w: World, op: Op, left: FS)
    requires Good(w) && Can(w, Dies(op, left)) && OpSteps(w.files, w.phase.store, w.phase.limits, op) == []
    ensures RecoveredAll(left, w.phase.store.boxes.Keys, w.phase.limits.maxMessages) == w.phase.store.boxes
  {
    var s, cap := w.phase.store, w.phase.limits.maxMessages;
    assert left == w.files;
    forall n | n in s.boxes ensures Recovered(left, n, cap) == s.boxes[n] {
      assert OnDisk(w.files, n, s.boxes[n]);
      RecoveredUnchanged(left, s, cap, n);
    }
    RecoveredAllIs(left, cap, s.boxes);
  }

  // ---------------------------------------------------------------------------
  // Interrupted loading
  // ---------------------------------------------------------------------------

  lemma {:induction false} StoppedLoad(fs: FS, order: seq<string>, cap: int, k: nat, n: string)
    requires k <= |LoadAllSteps(fs, order, cap)|
    ensures Recovered(DoAll(fs, LoadAllSteps(fs, order, cap)[..k]), n, cap) == Recovered(fs, n, cap)
  {
    if order != [] {
      var before := order[..|order| - 1];
      var a := LoadAllSteps(fs, before, cap);
      StoppedLoad(fs, before, cap, if k <= |a| then k else |a|, n);
      StoppedLater(fs, a, DoAll(fs, a), order[|order| - 1], cap, k, n);
    }
  }

  lemma StoppedLater(fs: FS, a: seq<Step>, mid: FS, m: string, cap: int, k: nat, n: string)
    requires mid == DoAll(fs, a) && k <= |a + LoadSteps(mid, m, cap)|
    requires Recovered(DoAll(fs, a[..if k <= |a| then k else |a|]), n, cap) == Recovered(fs, n, cap)
    ensures Recovered(DoAll(fs, (a + LoadSteps(mid, m, cap))[..k]), n, cap) == Recovered(fs, n, cap)
  {
    CrashSplit(fs, a, LoadSteps(mid, m, cap), k);
    assert a[..|a|] == a;
    if k > |a| {
      StoppedInBox(mid, m, cap, k - |a|, n);
    }
  }

  lemma StoppedInBox(fs: FS, m: string, cap: int, k: nat, n: string)
    requires k <= |LoadSteps(fs, m, cap)|
    ensures Recovered(DoAll(fs, LoadSteps(fs, m, cap)[..k]), n, cap) == Recovered(fs, n, cap)
  {
    var left := DoAll(fs, LoadSteps(fs, m, cap)[..k]);
    if n == m {
      assert CrashAt(fs, LoadSteps(fs, m, cap), k, left);
      LoadCrashIdempotent(fs, m, cap, left);
    } else {
      LoadStepsElsewhere(fs, m, cap, k, n);
      ReadDecides(left, fs, n);
    }
  }

  /** Wherever loading is interrupted, loading again brings up the same mailboxes. */
  lemma LoadDiesSame(fs: FS, order: seq<string>, cap: int, left: FS, names: set<string>)
    requires MayCrashIn(fs, LoadAllSteps(fs, order, cap), left)
    ensures RecoveredAll(left, names, cap) == RecoveredAll(fs, names, cap)
  {
    var steps := LoadAllSteps(fs, order, cap);
    var k :| 0 <= k <= |steps| && CrashAt(fs, steps, k, left);
    forall n | n in names ensures Recovered(left, n, cap) == Recovered(fs, n, cap) {
      LoadDiesOne(fs, order, cap, k, left, n);
    }
    RecoveredAllSame(left, fs, names, cap);
  }

  lemma RecoveredAllSame(a: FS, b: FS, names: set<string>, cap: int)
    requires forall n | n in names :: Recovered(a, n, cap) == Recovered(b, n, cap)
    ensures RecoveredAll(a, names, cap) == RecoveredAll(b, names, cap)
  {
  }

  lemma LoadDiesOne(fs: FS, order: seq<string>, cap: int, k: nat, left: FS, n: string)
    requires k <= |LoadAllSteps(fs, order, cap)| && CrashAt(fs, LoadAllSteps(fs, order, cap), k, left)
    ensures Recovered(left, n, cap) == Recovered(fs, n, cap)
  {
    StoppedLoad(fs, order, cap, k, n);
    SameAfterCrash(fs, LoadAllSteps(fs, order, cap), k, left, n, cap);
  }

  lemma SameAfterCrash(fs: FS, steps: seq<Step>, k: nat, left: FS, n: string, cap: int)
    requires k <= |steps| && CrashAt(fs, steps, k, left)
    ensures Recovered(left, n, cap) == Recovered(DoAll(fs, steps[..k]), n, cap)
  {
    CrashReads(fs, steps, k, left, n);
    ReadDecides(left, DoAll(fs, steps[..k]), n);
  }

  /** Attempts to load, all with the same configuration and all interrupted. */
  ghost predicate Attempts(hs: seq<Happening>, order: seq<string>, limits: Limits) {
    forall i | 0 <= i < |hs| :: hs[i].LoadDies? && hs[i].order == order && hs[i].limits == limits
  }

  lemma {:induction false} AttemptsSame(w: World, hs: seq<Happening>, order: seq<string>, limits: Limits)
    requires Good(w) && w.phase.Down? && CanAll(w, hs) && Attempts(hs, order, limits)
    ensures Good(AfterAll(w, hs)) && AfterAll(w, hs).phase.Down?
    ensures RecoveredAll(AfterAll(w, hs).files, Members(order), limits.maxMessages)
            == RecoveredAll(w.files, Members(order), limits.maxMessages)
  {
    if hs != [] {
      var before, h := hs[..|hs| - 1], hs[|hs| - 1];
      CanInit(w, hs);
      assert Attempts(before, order, limits);
      AttemptsSame(w, before, order, limits);
      var mid := AfterAll(w, before);
      StepKeeps(mid, h);
      assert h.order == order && h.limits == limits;
      LoadDiesSame(mid.files, order, limits.maxMessages, h.left, Members(order));
    }
  }

  /**
   A crash in any operation, any number of interrupted attempts to load, and one that
   succeeds: the next life begins with the mailboxes before the operation or after it, and
   for clearing and marking all with a part of the way; index and directory agree with them.
   */
  lemma NextLife(w: World, op: Op, left: FS, attempts: seq<Happening>)
    requires Good(w) && Can(w, Dies(op, left))
    requires CanAll(After(w, Dies(op, left)), attempts) && Attempts(attempts, w.phase.order, w.phase.limits)
    ensures var next := After(AfterAll(After(w, Dies(op, left)), attempts), Loads(w.phase.order, w.phase.limits));
            && Good(next) && next.phase.Up?
            && Between(w.phase.store, w.phase.limits, op, next.phase.store.boxes)
  {
    var order, limits := w.phase.order, w.phase.limits;
    var down := After(w, Dies(op, left));
    StepKeeps(w, Dies(op, left));
    DiesBetween(w, op, left);
    AttemptsSame(down, attempts, order, limits);
    var last := AfterAll(down, attempts);
    StepKeeps(last, Loads(order, limits));
    LoadedWholeBoxes(last.files, order, limits.maxMessages);
  }
}

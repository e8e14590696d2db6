/** Crashes and restarts after whole runs, and exactly when they lose nothing. */
module Restart {
  import opened StoreModel
  import opened StoreRuns
  import opened Disk
  import opened Recovery

  // ---------------------------------------------------------------------------
  // The directory over whole runs
  // ---------------------------------------------------------------------------

  /** The directory after a list of operations. */
  ghost function FilesAfter(fs: FS, s: State, limits: Limits, ops: seq<Op>): FS {
    if ops == [] then fs
    else
      var before := ops[..|ops| - 1];
      var mid := FilesAfter(fs, s, limits, before);
      DoAll(mid, OpSteps(mid, Run(s, limits, before), limits, ops[|ops| - 1]))
  }

  /** The directory after a list of operations on an empty store. */
  ghost function DiskOf(names: set<string>, limits: Limits, ops: seq<Op>): FS {
    FilesAfter(map[], Empty(names), limits, ops)
  }

  /** Every file belongs to a mailbox and an ID that `ok` admits. */
  ghost predicate FilesAmong(fs: FS, ok: (string, ID) -> bool) {
    forall f | f in fs :: ok(f.mailbox, f.id)
  }

  ghost predicate WritesAmong(steps: seq<Step>, ok: (string, ID) -> bool) {
    forall i | 0 <= i < |steps| && steps[i].WriteTmp? :: ok(steps[i].file.mailbox, steps[i].file.id)
  }

  lemma {:induction false} StepsCreate(fs: FS, steps: seq<Step>, ok: (string, ID) -> bool)
    requires WritesAmong(steps, ok) && FilesAmong(fs, ok)
    ensures FilesAmong(DoAll(fs, steps), ok)
    decreases steps
  {
    if steps != [] {
      var step := steps[0];
      assert WritesAmong(steps[1..], ok);
      assert FilesAmong(Do(fs, step), ok) by {
        assert step.Rename? && TmpOf(step.file) in fs ==> ok(TmpOf(step.file).mailbox, TmpOf(step.file).id);
      }
      StepsCreate(Do(fs, step), steps[1..], ok);
    }
  }

  lemma {:induction false} RemovesCreateNothing(gone: seq<Msg>, ok: (string, ID) -> bool)
    ensures WritesAmong(RemoveAllSteps(gone), ok)
  {
    if gone != [] {
      RemovesCreateNothing(gone[1..], ok);
    }
  }

  lemma {:induction false} SavesCreate(fs: FS, ms: seq<Msg>, ok: (string, ID) -> bool)
    requires forall m | m in ms :: ok(m.mailbox, m.id)
    ensures WritesAmong(SaveAllSteps(fs, ms), ok)
    decreases ms
  {
    if ms != [] {
      assert ms[0] in ms;
      SavesCreate(DoAll(fs, SaveSteps(fs, ms[0])), ms[1..], ok);
    }
  }

  lemma UnreadAreIndexed(s: State, n: string, ok: (string, ID) -> bool)
    requires Agrees(s) && n in s.boxes && forall id | id in s.byID :: ok(s.byID[id], id)
    ensures forall m | m in NewlyRead(s.boxes[n]) :: ok(m.mailbox, m.id)
  {
    assert BoxAgrees(s, n);
    NewlyReadFacts(s.boxes[n]);
    forall m | m in NewlyRead(s.boxes[n]) ensures ok(m.mailbox, m.id) {
      assert m.(read := false) in s.boxes[n];
    }
  }

  /** Operations write files for the delivered message or a stored one only. */
  lemma OpCreates(fs: FS, s: State, limits: Limits, op: Op, ok: (string, ID) -> bool)
    requires Agrees(s) && forall id | id in s.byID :: ok(s.byID[id], id)
    requires op.Deliver? && Accepts(s, limits, op) ==> ok(op.mailbox, op.id)
    ensures WritesAmong(OpSteps(fs, s, limits, op), ok)
  {
    match op
    case Deliver(_, _, _, _, _, _) =>
      if Accepts(s, limits, op) {
        RemovesCreateNothing(Evicted(s, limits.maxMessages, Incoming(op)), ok);
      }
    case Delete(id) =>
    case Clear(n) =>
      if n in s.boxes {
        RemovesCreateNothing(s.boxes[n], ok);
      }
    case MarkRead(id, read) =>
      if id in s.byID {
        assert BoxAgrees(s, s.byID[id]);
        LookupNone(s.boxes[s.byID[id]], id);
      }
    case MarkAllRead(n) =>
      if n in s.boxes {
        UnreadAreIndexed(s, n, ok);
        SavesCreate(fs, NewlyRead(s.boxes[n]), ok);
      }
  }

  lemma RecordedKeeps(l: Ledger, s: State, limits: Limits, op: Op, id: ID)
    requires EverDelivered(l, id)
    ensures EverDelivered(Recorded(l, s, limits, op), id)
  {
    var n :| n in l.delivered && id in l.delivered[n];
    assert id in Recorded(l, s, limits, op).delivered[n];
  }

  lemma RecordedAdds(l: Ledger, s: State, limits: Limits, op: Op)
    requires op.Deliver? && Accepts(s, limits, op) && op.mailbox in l.delivered
    ensures EverDelivered(Recorded(l, s, limits, op), op.id)
  {
    var l' := Recorded(l, s, limits, op);
    assert l'.delivered[op.mailbox] == l.delivered[op.mailbox] + [op.id];
    assert op.id in l'.delivered[op.mailbox];
  }

  ghost predicate KnownFiles(fs: FS, l: Ledger) {
    FilesAmong(fs, (n: string, id: ID) => EverDelivered(l, id))
  }

  lemma FilesStayKnown(fs: FS, s: State, l: Ledger, limits: Limits, op: Op)
    requires Agrees(s) && Accounted(s, l) && KnownFiles(fs, l)
    ensures KnownFiles(DoAll(fs, OpSteps(fs, s, limits, op)), Recorded(l, s, limits, op))
  {
    var l' := Recorded(l, s, limits, op);
    var ok := (n: string, id: ID) => EverDelivered(l', id);
    forall id: ID | EverDelivered(l, id) ensures EverDelivered(l', id) {
      RecordedKeeps(l, s, limits, op, id);
    }
    if op.Deliver? && Accepts(s, limits, op) {
      RecordedAdds(l, s, limits, op);
    }
    forall f | f in fs ensures ok(f.mailbox, f.id) {
      assert EverDelivered(l, f.id);
    }
    OpCreates(fs, s, limits, op, ok);
    StepsCreate(fs, OpSteps(fs, s, limits, op), ok);
  }

  lemma UnknownIsUnwritten(fs: FS, l: Ledger, op: Op)
    requires KnownFiles(fs, l) && FreshID(l, op)
    ensures Ready(fs, op)
  {
  }

  /** After any run of completed operations the directory mirrors the queues. */
  lemma {:induction false} RunMirrors(names: set<string>, limits: Limits, ops: seq<Op>)
    requires FreshRun(names, limits, ops)
    ensures Mirrors(DiskOf(names, limits, ops), Run(Empty(names), limits, ops))
    ensures KnownFiles(DiskOf(names, limits, ops), LedgerOf(names, limits, ops))
  {
    if ops != [] {
      var before, op := ops[..|ops| - 1], ops[|ops| - 1];
      var fs, s := DiskOf(names, limits, before), Run(Empty(names), limits, before);
      var l := LedgerOf(names, limits, before);
      FreshRunInit(names, limits, ops);
      RunMirrors(names, limits, before);
      RunInvariant(names, limits, before);
      UnknownIsUnwritten(fs, l, op);
      FreshMeansUnused(s, l, op);
      OpMirrors(fs, s, limits, op);
      FilesStayKnown(fs, s, l, limits, op);
    }
  }

  // ---------------------------------------------------------------------------
  // Restarting
  // ---------------------------------------------------------------------------

  /** Loading after a run restores a queue exactly when its IDs are in delivery order. */
  lemma RestartIff(names: set<string>, limits: Limits, ops: seq<Op>, n: string)
    requires FreshRun(names, limits, ops) && n in names
    ensures n in Run(Empty(names), limits, ops).boxes
    ensures Recovered(DiskOf(names, limits, ops), n, limits.maxMessages) == Run(Empty(names), limits, ops).boxes[n]
            <==> Ascending(Run(Empty(names), limits, ops).boxes[n])
  {
    var fs, s := DiskOf(names, limits, ops), Run(Empty(names), limits, ops);
    RunInvariant(names, limits, ops);
    RunMirrors(names, limits, ops);
    assert OnDisk(fs, n, s.boxes[n]) && BoxAgrees(s, n);
    ListingRestoresIff(fs, n, s.boxes[n]);
    assert Excess(|Listing(fs, n)|, limits.maxMessages) == 0;
  }

  /** Every delivery gets an ID above all earlier ones. */
  ghost predicate RisingRun(names: set<string>, limits: Limits, ops: seq<Op>) {
    forall i | 0 <= i < |ops| :: Rising(LedgerOf(names, limits, ops[..i]), ops[i])
  }

  ghost predicate Rising(l: Ledger, op: Op) {
    op.Deliver? ==> forall id: ID | EverDelivered(l, id) :: id < op.id
  }

  ghost predicate Rises(ids: seq<ID>) {
    forall i, j | 0 <= i < j < |ids| :: ids[i] < ids[j]
  }

  lemma RisingIsFresh(names: set<string>, limits: Limits, ops: seq<Op>)
    requires RisingRun(names, limits, ops)
    ensures FreshRun(names, limits, ops)
  {
    forall i | 0 <= i < |ops| ensures FreshID(LedgerOf(names, limits, ops[..i]), ops[i]) {
      assert Rising(LedgerOf(names, limits, ops[..i]), ops[i]);
    }
  }

  lemma RisingRunInit(names: set<string>, limits: Limits, ops: seq<Op>)
    requires ops != [] && RisingRun(names, limits, ops)
    ensures RisingRun(names, limits, ops[..|ops| - 1])
    ensures Rising(LedgerOf(names, limits, ops[..|ops| - 1]), ops[|ops| - 1])
  {
    var before := ops[..|ops| - 1];
    forall i | 0 <= i < |before| ensures Rising(LedgerOf(names, limits, before[..i]), before[i]) {
      assert before[..i] == ops[..i] && before[i] == ops[i];
    }
  }

  lemma RecordedRises(l: Ledger, s: State, limits: Limits, op: Op)
    requires Rising(l, op) && forall n | n in l.delivered :: Rises(l.delivered[n])
    ensures forall n | n in Recorded(l, s, limits, op).delivered :: Rises(Recorded(l, s, limits, op).delivered[n])
  {
    var l' := Recorded(l, s, limits, op);
    forall n | n in l'.delivered ensures Rises(l'.delivered[n]) {
      assert Rises(l.delivered[n]);
      forall i | 0 <= i < |l.delivered[n]| ensures op.Deliver? ==> l.delivered[n][i] < op.id {
        assert l.delivered[n][i] in l.delivered[n];
        assert EverDelivered(l, l.delivered[n][i]);
      }
    }
  }

  lemma {:induction false} LedgerRises(names: set<string>, limits: Limits, ops: seq<Op>)
    requires RisingRun(names, limits, ops)
    ensures forall n | n in LedgerOf(names, limits, ops).delivered :: Rises(LedgerOf(names, limits, ops).delivered[n])
  {
    if ops != [] {
      var before := ops[..|ops| - 1];
      RisingRunInit(names, limits, ops);
      LedgerRises(names, limits, before);
      RecordedRises(LedgerOf(names, limits, before), Run(Empty(names), limits, before), limits, ops[|ops| - 1]);
    }
  }

  lemma {:induction false} KeptRises(all: seq<ID>, present: set<ID>)
    requires Rises(all)
    ensures Rises(Kept(all, present))
  {
    if all != [] {
      var rest := all[1..];
      assert forall i | 0 <= i < |rest| :: rest[i] == all[i + 1];
      KeptRises(rest, present);
      KeptMembers(rest, present);
      var kept := Kept(rest, present);
      forall i | 0 <= i < |kept| ensures all[0] < kept[i] {
        assert kept[i] in kept;
      }
    }
  }

  /** With rising IDs every queue of every reachable store is in ID order. */
  lemma RisingRunAscends(names: set<string>, limits: Limits, ops: seq<Op>)
    requires RisingRun(names, limits, ops)
    ensures AllAscending(Run(Empty(names), limits, ops))
  {
    var s, l := Run(Empty(names), limits, ops), LedgerOf(names, limits, ops);
    RisingIsFresh(names, limits, ops);
    RunInvariant(names, limits, ops);
    LedgerRises(names, limits, ops);
    forall n | n in s.boxes ensures Ascending(s.boxes[n]) {
      assert QueueKept(s, l, n) && Rises(l.delivered[n]);
      KeptRises(l.delivered[n], s.byID.Keys);
      assert forall i | 0 <= i < |s.boxes[n]| :: Ids(s.boxes[n])[i] == s.boxes[n][i].id;
    }
  }

  /**
   Restarting with any cap after any run with rising IDs: the newest messages within
   the cap, in order, with their bytes, envelopes and read flags, and nothing else can be
   read from disk.
   */
  lemma RestartExact(names: set<string>, limits: Limits, ops: seq<Op>, cap: int, n: string)
    requires RisingRun(names, limits, ops) && n in names
    ensures n in Run(Empty(names), limits, ops).boxes
    ensures var fs, box := DiskOf(names, limits, ops), Run(Empty(names), limits, ops).boxes[n];
            && Recovered(fs, n, cap) == box[Excess(|box|, cap)..]
            && OnDisk(DoAll(fs, LoadSteps(fs, n, cap)), n, box[Excess(|box|, cap)..])
  {
    var fs, s := DiskOf(names, limits, ops), Run(Empty(names), limits, ops);
    RisingIsFresh(names, limits, ops);
    RunInvariant(names, limits, ops);
    RunMirrors(names, limits, ops);
    RisingRunAscends(names, limits, ops);
    assert OnDisk(fs, n, s.boxes[n]);
    RecoveredOf(fs, n, s.boxes[n], cap);
    LoadedOnDisk(fs, n, cap);
  }

  /** The new message ends up last in ID order. */
  lemma GrownAscends(names: set<string>, limits: Limits, ops: seq<Op>, op: Op)
    requires RisingRun(names, limits, ops) && Rising(LedgerOf(names, limits, ops), op)
    requires op.Deliver? && Accepts(Run(Empty(names), limits, ops), limits, op)
    ensures Ascending(Grown(Run(Empty(names), limits, ops), Incoming(op)))
  {
    var s := Run(Empty(names), limits, ops);
    RisingIsFresh(names, limits, ops);
    RunInvariant(names, limits, ops);
    RisingRunAscends(names, limits, ops);
    assert Ascending(s.boxes[op.mailbox]);
    AppendAscends(s, LedgerOf(names, limits, ops), op);
  }

  lemma AppendAscends(s: State, l: Ledger, op: Op)
    requires Agrees(s) && Accounted(s, l) && Rising(l, op)
    requires op.Deliver? && op.mailbox in s.boxes && Ascending(s.boxes[op.mailbox])
    ensures Ascending(Grown(s, Incoming(op)))
  {
    var box := s.boxes[op.mailbox];
    assert BoxAgrees(s, op.mailbox);
    forall i | 0 <= i < |box| ensures box[i].id < op.id {
      StoredWasDelivered(s, l, box[i].id);
    }
  }

  lemma StoredWasDelivered(s: State, l: Ledger, id: ID)
    requires Accounted(s, l) && id in s.byID
    ensures EverDelivered(l, id)
  {
  }

  /**
   Run any operations, then crash anywhere in the next one and restart: the mailboxes
   are those before that operation or those after it.
   */
  lemma CrashAfterRun(names: set<string>, limits: Limits, ops: seq<Op>, op: Op, fs': FS)
    requires RisingRun(names, limits, ops) && Rising(LedgerOf(names, limits, ops), op)
    requires op.Deliver? || op.Delete? || op.MarkRead?
    requires MayCrashIn(DiskOf(names, limits, ops),
                        OpSteps(DiskOf(names, limits, ops), Run(Empty(names), limits, ops), limits, op), fs')
    ensures RecoveredAll(fs', names, limits.maxMessages) == Run(Empty(names), limits, ops).boxes
            || RecoveredAll(fs', names, limits.maxMessages) == Run(Empty(names), limits, ops + [op]).boxes
  {
    var fs, s, l := DiskOf(names, limits, ops), Run(Empty(names), limits, ops), LedgerOf(names, limits, ops);
    RisingIsFresh(names, limits, ops);
    RunInvariant(names, limits, ops);
    RunMirrors(names, limits, ops);
    RisingRunAscends(names, limits, ops);
    UnknownIsUnwritten(fs, l, op);
    FreshMeansUnused(s, l, op);
    if op.Deliver? && Accepts(s, limits, op) {
      GrownAscends(names, limits, ops, op);
    }
    CrashAtomic(fs, s, limits, op, fs');
    assert (ops + [op])[..|ops|] == ops;
    assert Run(Empty(names), limits, ops + [op]) == Apply(s, limits, op);
  }

  /** Two deliveries within one millisecond whose IDs came out the other way round. */
  lemma OrderLostWithinAMillisecond(limits: Limits, first: Op, second: Op)
    requires limits.maxMessages != 1 && limits.maxSize >= 0
    requires first == Deliver(7, "inbox", 0, "smtp", Envelope("", [], "", "", false), [])
    requires second == Deliver(3, "inbox", 0, "smtp", Envelope("", [], "", "", false), [])
    ensures FreshRun({"inbox"}, limits, [first, second])
    ensures "inbox" in Run(Empty({"inbox"}), limits, [first, second]).boxes
    ensures Recovered(DiskOf({"inbox"}, limits, [first, second]), "inbox", limits.maxMessages)
            != Run(Empty({"inbox"}), limits, [first, second]).boxes["inbox"]
  {
    var names, ops := {"inbox"}, [first, second];
    var l0, s0 := Books(names), Empty(names);
    assert ops[..0] == [] && ops[..1] == [first] && [first][..0] == [];
    assert LedgerOf(names, limits, []) == l0 && Run(s0, limits, []) == s0;
    var l1, s1 := Recorded(l0, s0, limits, first), Apply(s0, limits, first);
    assert LedgerOf(names, limits, [first]) == l1 && Run(s0, limits, [first]) == s1;
    assert s0.boxes["inbox"] == [] && Grown(s0, Incoming(first)) == [Incoming(first)];
    assert Excess(1, limits.maxMessages) == 0;
    assert s1.boxes["inbox"] == [Incoming(first)];
    assert l1.delivered["inbox"] == [7];
    forall i | 0 <= i < |ops| ensures FreshID(LedgerOf(names, limits, ops[..i]), ops[i]) {
      if i == 1 {
        assert !EverDelivered(l1, 3);
      }
    }
    var s2 := Apply(s1, limits, second);
    assert Run(s0, limits, ops) == s2;
    assert Grown(s1, Incoming(second)) == [Incoming(first), Incoming(second)];
    assert Excess(2, limits.maxMessages) == 0;
    assert s2.boxes["inbox"] == [Incoming(first), Incoming(second)];
    RestartIff(names, limits, ops, "inbox");
    assert s2.boxes["inbox"][0].id == 7 && s2.boxes["inbox"][1].id == 3;
  }
}

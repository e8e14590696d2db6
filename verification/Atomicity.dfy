/** For every operation, exactly when a crash in the middle of it leaves the mail as before or as after. */
module Atomicity {
  import opened Bytes
  import opened StoreModel
  import opened Disk
  import opened Recovery

  /** Loading brings up the queue before the operation or the queue after it. */
  ghost predicate OldOrNew(fs: FS, s: State, limits: Limits, op: Op, n: string)
    requires n in s.boxes
  {
    var after := Apply(s, limits, op).boxes;
    n in after && Recovered(fs, n, limits.maxMessages) in {s.boxes[n], after[n]}
  }

  ghost predicate AtomicIn(fs: FS, s: State, limits: Limits, op: Op, n: string)
    requires n in s.boxes
  {
    forall fs' | MayCrashIn(fs, OpSteps(fs, s, limits, op), fs') :: OldOrNew(fs', s, limits, op, n)
  }

  ghost predicate Setting(fs: FS, s: State, limits: Limits, op: Op) {
    Mirrors(fs, s) && Agrees(s) && Capped(s, limits.maxMessages) && Unused(s, op) && Ready(fs, op)
  }

  ghost predicate DeliverySetting(fs: FS, s: State, limits: Limits, op: Op) {
    op.Deliver? && Accepts(s, limits, op) && Setting(fs, s, limits, op)
  }

  // ---------------------------------------------------------------------------
  // Delivery
  // ---------------------------------------------------------------------------

  /** What the directory shows when it is stopped after `k` whole steps. */
  lemma StoppedAt(fs: FS, s: State, limits: Limits, op: Op, k: nat) returns (fs': FS)
    requires DeliverySetting(fs, s, limits, op)
    requires k <= 4 + 2 * Excess(|Grown(s, Incoming(op))|, limits.maxMessages)
    ensures MayCrashIn(fs, OpSteps(fs, s, limits, op), fs')
    ensures OnDisk(fs', op.mailbox, ShownAfter(s, Incoming(op), k))
  {
    var steps := OpSteps(fs, s, limits, op);
    SaveNewReads(fs, Incoming(op), 4, op.mailbox, op.id);
    RemoveAllCount(Evicted(s, limits.maxMessages, Incoming(op)));
    fs' := DoAll(fs, steps[..k]);
    assert CrashAt(fs, steps, k, fs');
    DeliverCrash(fs, s, limits.maxMessages, Incoming(op), k, fs', op.mailbox);
  }

  /** A full queue of one: the survivor is the old message or the new one. */
  lemma CapOneIsAtomic(fs: FS, s: State, limits: Limits, op: Op)
    requires DeliverySetting(fs, s, limits, op)
    requires limits.maxMessages == 1 && |s.boxes[op.mailbox]| == 1
    ensures AtomicIn(fs, s, limits, op, op.mailbox)
  {
    var m, n := Incoming(op), op.mailbox;
    var grown := Grown(s, m);
    GrownFacts(s, m);
    assert grown[0..] == grown;
    var was := s.boxes[n][0];
    assert s.boxes[n] == [was] && grown == [was, m] && grown[1..] == [m];
    assert Apply(s, limits, op).boxes[n] == grown[1..];
    forall fs' | MayCrashIn(fs, OpSteps(fs, s, limits, op), fs') ensures OldOrNew(fs', s, limits, op, op.mailbox) {
      var k :| 0 <= k <= |OpSteps(fs, s, limits, op)| && CrashAt(fs, OpSteps(fs, s, limits, op), k, fs');
      DeliverCrash(fs, s, 1, m, k, fs', n);
      assert grown[0].id != grown[1].id;
      OneSurvives(fs', n, was, m, ShownAfter(s, m, k));
    }
  }

  lemma OneSurvives(fs: FS, n: string, old_: Msg, new_: Msg, shown: seq<Msg>)
    requires old_.id != new_.id && shown in {[old_], [old_, new_], [new_]}
    requires OnDisk(fs, n, shown)
    ensures Recovered(fs, n, 1) in {[old_], [new_]}
  {
    ListingRestoresIff(fs, n, shown);
    ListingOfBox(fs, n, shown);
    var listed := Listing(fs, n);
    if |shown| == 2 {
      assert listed[1..] == [listed[1]] && listed[1] in listed;
    }
  }

  lemma AscendingIsAtomic(fs: FS, s: State, limits: Limits, op: Op)
    requires DeliverySetting(fs, s, limits, op) && Ascending(Grown(s, Incoming(op)))
    ensures AtomicIn(fs, s, limits, op, op.mailbox)
  {
    var n, grown := op.mailbox, Grown(s, Incoming(op));
    assert forall i | 0 <= i < |s.boxes[n]| :: s.boxes[n][i] == grown[i];
    forall fs' | MayCrashIn(fs, OpSteps(fs, s, limits, op), fs') ensures OldOrNew(fs', s, limits, op, op.mailbox) {
      var k :| 0 <= k <= |OpSteps(fs, s, limits, op)| && CrashAt(fs, OpSteps(fs, s, limits, op), k, fs');
      DeliverRecovers(fs, s, limits, op, k, fs', n);
    }
  }

  /** Dropping the smallest of the grown queue and getting the queue after the operation. */
  lemma TailIsNew(listed: seq<Msg>, grown: seq<Msg>)
    requires Ascending(listed) && DistinctIds(grown) && |listed| == |grown| > 0
    requires forall x :: x in listed <==> x in grown
    requires listed[1..] == grown[1..]
    ensures listed == grown
  {
    assert listed[0] in listed && grown[0] in grown;
    assert listed[0] !in listed[1..] by {
      assert forall i | 0 <= i < |listed[1..]| :: listed[1..][i] == listed[i + 1];
    }
    assert grown == [grown[0]] + grown[1..];
    assert listed == [listed[0]] + listed[1..];
  }

  /** Dropping the smallest and getting the old queue: the new message was the smallest. */
  lemma TailIsOld(listed: seq<Msg>, box: seq<Msg>, m: Msg)
    requires Ascending(listed) && DistinctIds(box + [m]) && |listed| == |box| + 1
    requires forall x :: x in listed <==> x in box + [m]
    requires listed[1..] == box
    ensures listed[0] == m
    ensures forall i | 0 <= i < |box| :: m.id < box[i].id
  {
    assert (box + [m])[|box|] == m && m in box + [m];
    assert forall i | 0 <= i < |box| :: (box + [m])[i] == box[i] && box[i] != m;
    assert listed == [listed[0]] + listed[1..];
    assert forall i | 0 <= i < |box| :: box[i] == listed[i + 1];
  }

  lemma AtomicNeedsOldOrder(fs: FS, s: State, limits: Limits, op: Op)
    requires DeliverySetting(fs, s, limits, op) && AtomicIn(fs, s, limits, op, op.mailbox)
    ensures Ascending(s.boxes[op.mailbox])
  {
    var n, m := op.mailbox, Incoming(op);
    var fs0 := StoppedAt(fs, s, limits, op, 0);
    GrownFacts(s, m);
    assert BoxAgrees(s, n);
    assert OldOrNew(fs0, s, limits, op, op.mailbox);
    ListingRestoresIff(fs0, n, s.boxes[n]);
    ListingOfBox(fs0, n, s.boxes[n]);
    NewHasMessage(s, limits.maxMessages, m);
    assert m !in s.boxes[n];
  }

  lemma NewHasMessage(s: State, cap: int, m: Msg)
    requires m.mailbox in s.boxes
    ensures m in Delivered(s, cap, m).boxes[m.mailbox]
  {
    var t := Delivered(s, cap, m).boxes[m.mailbox];
    assert t[|t| - 1] == m;
  }

  /**
   For every queue and new message: a crash anywhere in the delivery leaves the old or
   the new queue after loading if and only if the grown queue is in ID order, or the
   mailbox holds one message and no more fit.
   */
  lemma DeliveryAtomicIff(fs: FS, s: State, limits: Limits, op: Op)
    requires DeliverySetting(fs, s, limits, op)
    ensures AtomicIn(fs, s, limits, op, op.mailbox)
            <==> Ascending(Grown(s, Incoming(op))) || (limits.maxMessages == 1 && |s.boxes[op.mailbox]| == 1)
  {
    if Ascending(Grown(s, Incoming(op))) {
      AscendingIsAtomic(fs, s, limits, op);
    } else if limits.maxMessages == 1 && |s.boxes[op.mailbox]| == 1 {
      CapOneIsAtomic(fs, s, limits, op);
    } else if AtomicIn(fs, s, limits, op, op.mailbox) {
      AtomicNeedsOrder(fs, s, limits, op);
    }
  }

  lemma LaterThanFirst(box: seq<Msg>, m: Msg)
    requires |box| >= 2 && Ascending(box) && Ascending((box + [m])[1..])
    ensures box[0].id < m.id
  {
    var rest := (box + [m])[1..];
    assert rest[0] == box[1] && rest[|box| - 1] == m;
  }

  lemma AtomicNeedsOrder(fs: FS, s: State, limits: Limits, op: Op)
    requires DeliverySetting(fs, s, limits, op) && AtomicIn(fs, s, limits, op, op.mailbox)
    ensures Ascending(Grown(s, Incoming(op))) || (limits.maxMessages == 1 && |s.boxes[op.mailbox]| == 1)
  {
    var n, m, cap := op.mailbox, Incoming(op), limits.maxMessages;
    var box, grown := s.boxes[n], Grown(s, m);
    AtomicNeedsOldOrder(fs, s, limits, op);
    GrownFacts(s, m);
    var fs4 := StoppedAt(fs, s, limits, op, 4);
    assert grown[0..] == grown;
    assert OldOrNew(fs4, s, limits, op, op.mailbox);
    ListingRestoresIff(fs4, n, grown);
    ListingOfBox(fs4, n, grown);
    ListingFacts(fs4, n);
    var listed := Listing(fs4, n);
    if Excess(|grown|, cap) == 0 {
      assert Recovered(fs4, n, cap) == listed;
      assert |listed| != |box|;
    } else {
      assert Excess(|grown|, cap) == 1 && cap == |box|;
      assert Recovered(fs4, n, cap) == listed[1..];
      if listed[1..] != grown[1..] {
        AtomicNeedsNewOrder(fs, s, limits, op);
      }
      OneTooMany(box, m, listed);
    }
  }

  /** Of a full mailbox one message is dropped: loading drops the right one only in ID order, or if there is one only. */
  lemma OneTooMany(box: seq<Msg>, m: Msg, listed: seq<Msg>)
    requires box != [] && DistinctIds(box + [m]) && Ascending(box)
    requires Ascending(listed) && |listed| == |box| + 1 && forall x :: x in listed <==> x in box + [m]
    requires listed[1..] == (box + [m])[1..] || (listed[1..] == box && Ascending((box + [m])[1..]))
    ensures Ascending(box + [m]) || |box| == 1
  {
    if listed[1..] == (box + [m])[1..] {
      TailIsNew(listed, box + [m]);
    } else {
      if |box| >= 2 {
        LaterThanFirst(box, m);
      }
      TailIsOld(listed, box, m);
    }
  }

  lemma AtomicNeedsNewOrder(fs: FS, s: State, limits: Limits, op: Op)
    requires DeliverySetting(fs, s, limits, op) && AtomicIn(fs, s, limits, op, op.mailbox)
    requires Excess(|Grown(s, Incoming(op))|, limits.maxMessages) == 1
    ensures Ascending(Grown(s, Incoming(op))[1..])
  {
    var n, m, cap := op.mailbox, Incoming(op), limits.maxMessages;
    var grown := Grown(s, m);
    GrownFacts(s, m);
    var fs6 := StoppedAt(fs, s, limits, op, 6);
    assert OldOrNew(fs6, s, limits, op, op.mailbox);
    assert DistinctIds(grown[1..]);
    assert grown[1..][|grown| - 2] == m && m in grown[1..];
    AllLoaded(fs6, n, grown[1..], m, cap);
    assert m !in s.boxes[n];
  }

  /** A queue within the cap is loaded whole, in its order exactly when that is the order of its IDs. */
  lemma AllLoaded(fs: FS, n: string, box: seq<Msg>, m: Msg, cap: int)
    requires OnDisk(fs, n, box) && DistinctIds(box) && m in box && Excess(|box|, cap) == 0
    ensures m in Recovered(fs, n, cap) && (Recovered(fs, n, cap) == box <==> Ascending(box))
  {
    ListingRestoresIff(fs, n, box);
    ListingOfBox(fs, n, box);
  }

  // ---------------------------------------------------------------------------
  // Deleting and marking one message
  // ---------------------------------------------------------------------------

  /** A crash may come before the first step. */
  lemma NotBegun(fs: FS, steps: seq<Step>)
    ensures MayCrashIn(fs, steps, fs)
  {
    assert steps[..0] == [];
    assert CrashAt(fs, steps, 0, fs);
  }

  /** What loading makes of a queue that is on disk whole. */
  lemma LoadedWhole(fs: FS, n: string, box: seq<Msg>, cap: int)
    requires OnDisk(fs, n, box) && DistinctIds(box) && Excess(|box|, cap) == 0
    ensures |Recovered(fs, n, cap)| == |box|
    ensures forall m :: m in Recovered(fs, n, cap) <==> m in box
    ensures Recovered(fs, n, cap) == box <==> Ascending(box)
  {
    ListingRestoresIff(fs, n, box);
    ListingOfBox(fs, n, box);
    assert Recovered(fs, n, cap) == Listing(fs, n);
  }

  /** Before the first step loading must already keep the order, or bring up the new queue. */
  lemma AtomicAtTheStart(fs: FS, s: State, limits: Limits, op: Op, n: string)
    requires Setting(fs, s, limits, op) && n in s.boxes && AtomicIn(fs, s, limits, op, n)
    ensures Ascending(s.boxes[n]) || Recovered(fs, n, limits.maxMessages) == Apply(s, limits, op).boxes[n]
  {
    NotBegun(fs, OpSteps(fs, s, limits, op));
    assert OldOrNew(fs, s, limits, op, n);
    assert BoxAgrees(s, n) && OnDisk(fs, n, s.boxes[n]);
    LoadedWhole(fs, n, s.boxes[n], limits.maxMessages);
  }

  /** Deleting a message is crash-atomic if and only if the mailbox is in ID order. */
  lemma DeleteAtomicIff(fs: FS, s: State, limits: Limits, id: ID)
    requires Setting(fs, s, limits, Delete(id)) && id in s.byID
    ensures s.byID[id] in s.boxes
    ensures AtomicIn(fs, s, limits, Delete(id), s.byID[id]) <==> Ascending(s.boxes[s.byID[id]])
  {
    var n, op := s.byID[id], Delete(id);
    var box := s.boxes[n];
    assert BoxAgrees(s, n) && OnDisk(fs, n, box) && HasID(box, id);
    assert |Without(box, id)| < |box|;
    if Ascending(box) {
      forall fs' | MayCrashIn(fs, OpSteps(fs, s, limits, op), fs') ensures OldOrNew(fs', s, limits, op, n) {
        var k :| 0 <= k <= |OpSteps(fs, s, limits, op)| && CrashAt(fs, OpSteps(fs, s, limits, op), k, fs');
        DeleteRecovers(fs, s, limits, id, k, fs', n);
      }
    } else if AtomicIn(fs, s, limits, op, n) {
      AtomicAtTheStart(fs, s, limits, op, n);
      LoadedWhole(fs, n, box, limits.maxMessages);
    }
  }

  /** Marking a message is crash-atomic if and only if the mailbox is in ID order. */
  lemma MarkReadAtomicIff(fs: FS, s: State, limits: Limits, id: ID, read: bool)
    requires Setting(fs, s, limits, MarkRead(id, read)) && id in s.byID
    ensures s.byID[id] in s.boxes
    ensures AtomicIn(fs, s, limits, MarkRead(id, read), s.byID[id]) <==> Ascending(s.boxes[s.byID[id]])
  {
    var n, op := s.byID[id], MarkRead(id, read);
    var box := s.boxes[n];
    assert BoxAgrees(s, n) && OnDisk(fs, n, box) && HasID(box, id);
    if Ascending(box) {
      forall fs' | MayCrashIn(fs, OpSteps(fs, s, limits, op), fs') ensures OldOrNew(fs', s, limits, op, n) {
        var k :| 0 <= k <= |OpSteps(fs, s, limits, op)| && CrashAt(fs, OpSteps(fs, s, limits, op), k, fs');
        MarkReadRecovers(fs, s, limits, op, k, fs', n);
      }
    } else if AtomicIn(fs, s, limits, op, n) {
      AtomicAtTheStart(fs, s, limits, op, n);
      LoadedWhole(fs, n, box, limits.maxMessages);
      SameFlagsOrNone(box, WithRead(box, id, read), Recovered(fs, n, limits.maxMessages));
    }
  }

  /** A queue with the same messages cannot have other read flags. */
  lemma SameFlagsOrNone(box: seq<Msg>, flagged: seq<Msg>, loaded: seq<Msg>)
    requires DistinctIds(box) && |flagged| == |box|
    requires forall i | 0 <= i < |box| :: flagged[i].(read := box[i].read) == box[i]
    requires loaded == flagged && forall m :: m in loaded <==> m in box
    ensures flagged == box
  {
    forall i | 0 <= i < |box| ensures flagged[i] == box[i] {
      assert flagged[i] in box;
    }
  }

  // ---------------------------------------------------------------------------
  // Clearing and marking a whole mailbox
  // ---------------------------------------------------------------------------

  /** The directory after `k` whole steps of an operation. */
  lemma StoppedIn(fs: FS, steps: seq<Step>, k: nat) returns (fs': FS)
    requires k <= |steps|
    ensures CrashAt(fs, steps, k, fs') && MayCrashIn(fs, steps, fs')
  {
    fs' := DoAll(fs, steps[..k]);
    assert CrashAt(fs, steps, k, fs');
  }

  /** With two messages or more, clearing can stop with some of them gone and some still there. */
  lemma HalfCleared(fs: FS, s: State, limits: Limits, n: string) returns (fs': FS)
    requires Setting(fs, s, limits, Clear(n)) && n in s.boxes && |s.boxes[n]| >= 2
    ensures MayCrashIn(fs, OpSteps(fs, s, limits, Clear(n)), fs')
    ensures |Recovered(fs', n, limits.maxMessages)| == |s.boxes[n]| - 1
    ensures !OldOrNew(fs', s, limits, Clear(n), n)
  {
    var box := s.boxes[n];
    assert BoxAgrees(s, n);
    RemoveAllCount(box);
    fs' := StoppedIn(fs, OpSteps(fs, s, limits, Clear(n)), 2);
    ClearCrash(fs, s, limits, n, 2, fs', n);
    LoadedWhole(fs', n, box[1..], limits.maxMessages);
  }

  /** Clearing is crash-atomic if and only if there is at most one message. */
  lemma ClearAtomicIff(fs: FS, s: State, limits: Limits, n: string)
    requires Setting(fs, s, limits, Clear(n)) && n in s.boxes
    ensures AtomicIn(fs, s, limits, Clear(n), n) <==> |s.boxes[n]| <= 1
  {
    var box, op := s.boxes[n], Clear(n);
    if |box| <= 1 {
      assert BoxAgrees(s, n) && OnDisk(fs, n, box);
      forall fs' | MayCrashIn(fs, OpSteps(fs, s, limits, op), fs') ensures OldOrNew(fs', s, limits, op, n) {
        var k :| 0 <= k <= |OpSteps(fs, s, limits, op)| && CrashAt(fs, OpSteps(fs, s, limits, op), k, fs');
        ClearCrash(fs, s, limits, n, k, fs', n);
        assert box[(k + 1) / 2..] == if (k + 1) / 2 == 0 then box else [];
        LoadedWhole(fs', n, box[(k + 1) / 2..], limits.maxMessages);
      }
    } else {
      var fs' := HalfCleared(fs, s, limits, n);
    }
  }

  lemma {:induction false} OneMarkedOnly(box: seq<Msg>) returns (first: Msg, last: Msg)
    requires DistinctIds(box) && |NewlyRead(box)| >= 2
    ensures first in box && !first.read && first !in MarkedFirst(box, 1)
    ensures last in box && !last.read && last in MarkedFirst(box, 1)
  {
    var ms := NewlyRead(box);
    NewlyReadFacts(box);
    assert ms[0] in ms && ms[1] in ms;
    first, last := ms[0].(read := false), ms[1].(read := false);
    MarkedFound(box, first, 0);
    MarkedFound(box, last, 1);
  }

  /** Of the unread messages, the first is marked and the second is not. */
  lemma MarkedFound(box: seq<Msg>, m: Msg, i: nat)
    requires DistinctIds(box) && 2 <= |NewlyRead(box)| && i < 2
    requires m in box && !m.read && NewlyRead(box)[i] == m.(read := true)
    ensures m in MarkedFirst(box, 1) <==> i == 1
  {
    var ms, r := NewlyRead(box), MarkedFirst(box, 1);
    NewlyReadFacts(box);
    LookupMarkedFirst(box, 1, m.id);
    LookupMember(box, m);
    assert AmongIds(ms, 1, m.id) <==> i == 0;
    assert DistinctIds(r) by {
      assert forall k | 0 <= k < |box| :: r[k].id == box[k].id;
    }
    LookupMember(r, m);
  }

  /** With two unread messages or more, marking all can stop between them. */
  lemma HalfMarked(fs: FS, s: State, limits: Limits, n: string) returns (fs': FS)
    requires Setting(fs, s, limits, MarkAllRead(n)) && n in s.boxes && |NewlyRead(s.boxes[n])| >= 2
    ensures MayCrashIn(fs, OpSteps(fs, s, limits, MarkAllRead(n)), fs')
    ensures !OldOrNew(fs', s, limits, MarkAllRead(n), n)
  {
    assert BoxAgrees(s, n);
    MarkAllLength(fs, s, limits, n);
    fs' := StoppedIn(fs, OpSteps(fs, s, limits, MarkAllRead(n)), 2);
    MarkAllCrash(fs, s, limits, n, 2, fs', n);
    PartShown(fs', s, limits, n);
  }

  lemma PartShown(fs: FS, s: State, limits: Limits, n: string)
    requires n in s.boxes && DistinctIds(s.boxes[n]) && |NewlyRead(s.boxes[n])| >= 2
    requires Excess(|s.boxes[n]|, limits.maxMessages) == 0 && OnDisk(fs, n, MarkedFirst(s.boxes[n], 1))
    ensures !OldOrNew(fs, s, limits, MarkAllRead(n), n)
  {
    var box, part := s.boxes[n], MarkedFirst(s.boxes[n], 1);
    assert forall k | 0 <= k < |box| :: part[k].id == box[k].id;
    LoadedWhole(fs, n, part, limits.maxMessages);
    NeitherQueue(box, Recovered(fs, n, limits.maxMessages));
    MarkedAllBox(s, limits, n);
  }

  lemma MarkedAllBox(s: State, limits: Limits, n: string)
    requires n in s.boxes
    ensures n in Apply(s, limits, MarkAllRead(n)).boxes && Apply(s, limits, MarkAllRead(n)).boxes[n] == AllRead(s.boxes[n])
  {
  }

  lemma NeitherQueue(box: seq<Msg>, loaded: seq<Msg>)
    requires DistinctIds(box) && |NewlyRead(box)| >= 2
    requires forall m :: m in loaded <==> m in MarkedFirst(box, 1)
    ensures loaded != box && loaded != AllRead(box)
  {
    var first, last := OneMarkedOnly(box);
    assert forall m | m in AllRead(box) :: m.read;
  }

  lemma MarkAllLength(fs: FS, s: State, limits: Limits, n: string)
    requires Setting(fs, s, limits, MarkAllRead(n)) && n in s.boxes
    ensures |OpSteps(fs, s, limits, MarkAllRead(n))| == 2 * |NewlyRead(s.boxes[n])|
  {
    var fs' := StoppedIn(fs, OpSteps(fs, s, limits, MarkAllRead(n)), 0);
    MarkAllCrash(fs, s, limits, n, 0, fs', n);
  }

  lemma FewMarked(box: seq<Msg>, count: nat)
    requires count <= |NewlyRead(box)| <= 1
    ensures MarkedFirst(box, count) in {box, AllRead(box)}
  {
    MarkedAll(box);
  }

  lemma MarkedAscends(box: seq<Msg>, count: nat)
    requires Ascending(box)
    ensures Ascending(MarkedFirst(box, count)) && DistinctIds(MarkedFirst(box, count))
  {
    var r := MarkedFirst(box, count);
    assert forall i | 0 <= i < |box| :: r[i].id == box[i].id;
  }

  lemma OneMarkOrNone(fs: FS, s: State, limits: Limits, n: string, fs': FS)
    requires Setting(fs, s, limits, MarkAllRead(n)) && n in s.boxes
    requires Ascending(s.boxes[n]) && |NewlyRead(s.boxes[n])| <= 1
    requires MayCrashIn(fs, OpSteps(fs, s, limits, MarkAllRead(n)), fs')
    ensures OldOrNew(fs', s, limits, MarkAllRead(n), n)
  {
    var box, steps := s.boxes[n], OpSteps(fs, s, limits, MarkAllRead(n));
    var k :| 0 <= k <= |steps| && CrashAt(fs, steps, k, fs');
    MarkAllCrash(fs, s, limits, n, k, fs', n);
    FewMarked(box, k / 2);
    MarkedAscends(box, k / 2);
    LoadedWhole(fs', n, MarkedFirst(box, k / 2), limits.maxMessages);
  }

  /** Marking all is crash-atomic if and only if the mailbox is in ID order with at most one unread message. */
  lemma MarkAllAtomicIff(fs: FS, s: State, limits: Limits, n: string)
    requires Setting(fs, s, limits, MarkAllRead(n)) && n in s.boxes
    ensures AtomicIn(fs, s, limits, MarkAllRead(n), n) <==> Ascending(s.boxes[n]) && |NewlyRead(s.boxes[n])| <= 1
  {
    var box, op := s.boxes[n], MarkAllRead(n);
    assert BoxAgrees(s, n) && OnDisk(fs, n, box);
    if |NewlyRead(box)| >= 2 {
      var fs' := HalfMarked(fs, s, limits, n);
    } else if Ascending(box) {
      forall fs' | MayCrashIn(fs, OpSteps(fs, s, limits, op), fs') ensures OldOrNew(fs', s, limits, op, n) {
        OneMarkOrNone(fs, s, limits, n, fs');
      }
    } else if AtomicIn(fs, s, limits, op, n) {
      AtomicAtTheStart(fs, s, limits, op, n);
      LoadedWhole(fs, n, box, limits.maxMessages);
      SameFlagsOrNone(box, AllRead(box), Recovered(fs, n, limits.maxMessages));
    }
  }

  // ---------------------------------------------------------------------------
  // All mailboxes together
  // ---------------------------------------------------------------------------

  /** The mailbox an operation changes, if it changes one. */
  function HomeOf(s: State, limits: Limits, op: Op): Option<string> {
    match op
    case Deliver(_, n, _, _, _, _) => if Accepts(s, limits, op) then Some(n) else None
    case Delete(id) => if id in s.byID then Some(s.byID[id]) else None
    case MarkRead(id, _) => if id in s.byID then Some(s.byID[id]) else None
    case Clear(n) => if n in s.boxes then Some(n) else None
    case MarkAllRead(n) => if n in s.boxes then Some(n) else None
  }

  /** The other mailboxes are on disk as they were, wherever the operation stops. */
  lemma OthersUntouched(fs: FS, s: State, limits: Limits, op: Op, fs': FS, n: string)
    requires Setting(fs, s, limits, op) && n in s.boxes && HomeOf(s, limits, op) != Some(n)
    requires MayCrashIn(fs, OpSteps(fs, s, limits, op), fs')
    ensures OnDisk(fs', n, s.boxes[n])
    ensures n in Apply(s, limits, op).boxes && Apply(s, limits, op).boxes[n] == s.boxes[n]
  {
    var k :| 0 <= k <= |OpSteps(fs, s, limits, op)| && CrashAt(fs, OpSteps(fs, s, limits, op), k, fs');
    assert OnDisk(fs, n, s.boxes[n]);
    match op
    case Deliver(_, _, _, _, _, _) =>
      if Accepts(s, limits, op) {
        DeliverCrash(fs, s, limits.maxMessages, Incoming(op), k, fs', n);
      }
    case Delete(id) =>
      if id in s.byID {
        DeleteCrash(fs, s, limits, id, k, fs', n);
      }
    case Clear(name) =>
      if name in s.boxes {
        ClearCrash(fs, s, limits, name, k, fs', n);
      }
    case MarkRead(id, read) =>
      if id in s.byID {
        MarkReadCrash(fs, s, limits, id, read, k, fs', n);
      }
    case MarkAllRead(name) =>
      if name in s.boxes {
        MarkAllCrash(fs, s, limits, name, k, fs', n);
      }
  }

  /** The whole store comes up as before the operation or as after it. */
  ghost predicate OldOrNewStore(fs: FS, s: State, limits: Limits, op: Op) {
    RecoveredAll(fs, s.boxes.Keys, limits.maxMessages) in {s.boxes, Apply(s, limits, op).boxes}
  }

  ghost predicate Atomic(fs: FS, s: State, limits: Limits, op: Op) {
    forall fs' | MayCrashIn(fs, OpSteps(fs, s, limits, op), fs') :: OldOrNewStore(fs', s, limits, op)
  }

  ghost predicate OthersAscend(s: State, limits: Limits, op: Op) {
    forall n | n in s.boxes && HomeOf(s, limits, op) != Some(n) :: Ascending(s.boxes[n])
  }

  lemma OthersLoaded(fs: FS, s: State, limits: Limits, op: Op, fs': FS, n: string)
    requires Setting(fs, s, limits, op) && n in s.boxes && HomeOf(s, limits, op) != Some(n)
    requires MayCrashIn(fs, OpSteps(fs, s, limits, op), fs')
    ensures Recovered(fs', n, limits.maxMessages) == s.boxes[n] <==> Ascending(s.boxes[n])
    ensures n in Apply(s, limits, op).boxes && Apply(s, limits, op).boxes[n] == s.boxes[n]
  {
    OthersUntouched(fs, s, limits, op, fs', n);
    assert BoxAgrees(s, n);
    LoadedWhole(fs', n, s.boxes[n], limits.maxMessages);
  }

  /** Where the mailboxes come up one by one as before or as after, and only one differs, so does the store. */
  lemma StoreFromBoxes(fs: FS, s: State, limits: Limits, op: Op)
    requires forall n | n in s.boxes :: OldOrNew(fs, s, limits, op, n)
    requires Apply(s, limits, op).boxes.Keys == s.boxes.Keys
    requires forall n | n in s.boxes && HomeOf(s, limits, op) != Some(n) :: Apply(s, limits, op).boxes[n] == s.boxes[n]
    ensures OldOrNewStore(fs, s, limits, op)
  {
    var cap, after, home := limits.maxMessages, Apply(s, limits, op).boxes, HomeOf(s, limits, op);
    forall n | n in s.boxes
      ensures Recovered(fs, n, cap) == s.boxes[n] || (home == Some(n) && Recovered(fs, n, cap) == after[n])
      ensures home != Some(n) ==> after[n] == s.boxes[n]
    {
      assert OldOrNew(fs, s, limits, op, n);
    }
    if home.Some? && home.value in s.boxes && Recovered(fs, home.value, cap) != s.boxes[home.value] {
      RecoveredAllIs(fs, cap, after);
    } else {
      RecoveredAllIs(fs, cap, s.boxes);
    }
  }

  lemma BoxFromStore(fs: FS, s: State, limits: Limits, op: Op, n: string)
    requires OldOrNewStore(fs, s, limits, op) && n in s.boxes
    ensures OldOrNew(fs, s, limits, op, n)
  {
    var all := RecoveredAll(fs, s.boxes.Keys, limits.maxMessages);
    assert n in all && all[n] == Recovered(fs, n, limits.maxMessages);
    ApplyKeepsNames(s, limits, op);
  }

  /**
   An operation is crash-atomic for the whole store if and only if it is so for the
   mailbox it changes and every other mailbox is in ID order.
   */
  lemma AtomicIff(fs: FS, s: State, limits: Limits, op: Op)
    requires Setting(fs, s, limits, op)
    ensures HomeOf(s, limits, op).Some? ==> HomeOf(s, limits, op).value in s.boxes
    ensures Atomic(fs, s, limits, op)
            <==> OthersAscend(s, limits, op)
                 && (HomeOf(s, limits, op).Some? ==> AtomicIn(fs, s, limits, op, HomeOf(s, limits, op).value))
  {
    var home := HomeOf(s, limits, op);
    ApplyKeepsNames(s, limits, op);
    if Atomic(fs, s, limits, op) {
      NotBegun(fs, OpSteps(fs, s, limits, op));
      assert OldOrNewStore(fs, s, limits, op);
      forall n | n in s.boxes && home != Some(n) ensures Ascending(s.boxes[n]) {
        OthersLoaded(fs, s, limits, op, fs, n);
        BoxFromStore(fs, s, limits, op, n);
      }
      if home.Some? {
        forall fs' | MayCrashIn(fs, OpSteps(fs, s, limits, op), fs') ensures OldOrNew(fs', s, limits, op, home.value) {
          assert OldOrNewStore(fs', s, limits, op);
          BoxFromStore(fs', s, limits, op, home.value);
        }
      }
    } else if OthersAscend(s, limits, op) && (home.Some? ==> AtomicIn(fs, s, limits, op, home.value)) {
      forall fs' | MayCrashIn(fs, OpSteps(fs, s, limits, op), fs') ensures OldOrNewStore(fs', s, limits, op) {
        forall n | n in s.boxes ensures OldOrNew(fs', s, limits, op, n) {
          if home != Some(n) {
            OthersLoaded(fs, s, limits, op, fs', n);
          } else {
            assert AtomicIn(fs, s, limits, op, n);
          }
        }
        StoreFromBoxes(fs', s, limits, op);
      }
    }
  }
}

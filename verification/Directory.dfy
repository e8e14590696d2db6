/**
 The data directory file by file: what is taken out of a mailbox leaves no file behind, and
 completed operations keep exactly the two files of each stored message.
 */
module Directory {
  import opened Bytes
  import opened Sequences
  import opened StoreModel
  import opened StoreRuns
  import opened Disk
  import opened Recovery
  import opened Restart
  import opened Loading
  import opened Lifetimes

  /** The directory holds both files of each indexed message and nothing else. */
  ghost predicate Exact(fs: FS, s: State) {
    forall f: File :: f in fs <==> !f.tmp && f.id in s.byID && s.byID[f.id] == f.mailbox
  }

  /** Neither the body nor the metadata of the message is there. */
  ghost predicate NoFile(fs: FS, n: string, id: ID) {
    EmlOf(n, id) !in fs && JsonOf(n, id) !in fs
  }

  // ---------------------------------------------------------------------------
  // Removals
  // ---------------------------------------------------------------------------

  /** The file belongs to one of these messages. */
  ghost predicate FileOf(gone: seq<Msg>, f: File) {
    exists m :: m in gone && (f == EmlOf(m.mailbox, m.id) || f == JsonOf(m.mailbox, m.id))
  }

  lemma RemovedOne(fs: FS, m: Msg)
    ensures DoAll(fs, RemoveSteps(m)) == fs - {EmlOf(m.mailbox, m.id)} - {JsonOf(m.mailbox, m.id)}
    ensures forall f :: f in DoAll(fs, RemoveSteps(m)) <==> f in fs && !FileOf([m], f)
  {
    DoTwo(fs, Remove(EmlOf(m.mailbox, m.id)), Remove(JsonOf(m.mailbox, m.id)));
    forall f: File ensures FileOf([m], f) <==> f == EmlOf(m.mailbox, m.id) || f == JsonOf(m.mailbox, m.id) {
      assert m in [m] && forall x | x in [m] :: x == m;
    }
  }

  lemma FileOfCons(gone: seq<Msg>, f: File)
    requires gone != []
    ensures FileOf(gone, f) <==> FileOf([gone[0]], f) || FileOf(gone[1..], f)
  {
    assert gone == [gone[0]] + gone[1..];
    assert gone[0] in [gone[0]];
  }

  /** The files of the removed messages go, and no other file changes. */
  lemma {:induction false} RemovedAll(fs: FS, gone: seq<Msg>)
    ensures forall f :: f in DoAll(fs, RemoveAllSteps(gone)) <==> f in fs && !FileOf(gone, f)
    ensures forall f | f in DoAll(fs, RemoveAllSteps(gone)) :: DoAll(fs, RemoveAllSteps(gone))[f] == fs[f]
    decreases gone
  {
    if gone != [] {
      var m, rest := gone[0], gone[1..];
      RemovedOne(fs, m);
      RemovedAll(DoAll(fs, RemoveSteps(m)), rest);
      DoAllAppend(fs, RemoveSteps(m), RemoveAllSteps(rest));
      forall f: File ensures FileOf(gone, f) <==> FileOf([m], f) || FileOf(rest, f) {
        FileOfCons(gone, f);
      }
    }
  }

  lemma TwoFiles(f: File)
    requires !f.tmp
    ensures f == EmlOf(f.mailbox, f.id) || f == JsonOf(f.mailbox, f.id)
  {
    match f.ext
    case Eml =>
    case Json =>
  }

  /** The files of messages of one mailbox, by ID. */
  lemma FilesOfOneMailbox(gone: seq<Msg>, n: string, f: File)
    requires forall m | m in gone :: m.mailbox == n
    ensures FileOf(gone, f) <==> !f.tmp && f.mailbox == n && HasID(gone, f.id)
  {
    if FileOf(gone, f) {
      var m :| m in gone && (f == EmlOf(m.mailbox, m.id) || f == JsonOf(m.mailbox, m.id));
      var i :| 0 <= i < |gone| && gone[i] == m;
      assert gone[i].id == f.id;
    }
    if !f.tmp && f.mailbox == n && HasID(gone, f.id) {
      var i :| 0 <= i < |gone| && gone[i].id == f.id;
      assert gone[i] in gone;
      TwoFiles(f);
    }
  }

  // ---------------------------------------------------------------------------
  // Writes
  // ---------------------------------------------------------------------------

  /** Writing a message leaves both its files and takes away at most their temporary forms. */
  lemma Saved(fs: FS, m: Msg)
    ensures var fs' := DoAll(fs, SaveSteps(fs, m));
            && EmlOf(m.mailbox, m.id) in fs' && JsonOf(m.mailbox, m.id) in fs'
            && (forall f | f in fs' :: f in fs || f == EmlOf(m.mailbox, m.id) || f == JsonOf(m.mailbox, m.id))
            && (forall f | f in fs && !f.tmp :: f in fs')
  {
    var eml, json := EmlOf(m.mailbox, m.id), JsonOf(m.mailbox, m.id);
    var a := if eml in fs then [] else AtomicSteps(eml, Body(m.raw));
    DoAllAppend(fs, a, AtomicSteps(json, Metadata(MetaOf(m))));
    WriteAtomically(fs, eml, Body(m.raw));
    WriteAtomically(DoAll(fs, a), json, Metadata(MetaOf(m)));
  }

  /** No file of another message comes or goes. */
  lemma {:induction false} SavedAll(fs: FS, ms: seq<Msg>)
    ensures forall f | f in DoAll(fs, SaveAllSteps(fs, ms)) :: f in fs || FileOf(ms, f)
    ensures forall f | f in fs && !f.tmp :: f in DoAll(fs, SaveAllSteps(fs, ms))
    decreases ms
  {
    if ms != [] {
      var m, rest := ms[0], ms[1..];
      var fs1 := DoAll(fs, SaveSteps(fs, m));
      Saved(fs, m);
      SavedAll(fs1, rest);
      DoAllAppend(fs, SaveSteps(fs, m), SaveAllSteps(fs1, rest));
      assert m in [m];
      forall f: File ensures FileOf(ms, f) <==> FileOf([m], f) || FileOf(rest, f) {
        FileOfCons(ms, f);
      }
    }
  }

  // ---------------------------------------------------------------------------
  // Completed operations
  // ---------------------------------------------------------------------------

  /** The directory once an operation is complete. */
  ghost function Done(fs: FS, s: State, limits: Limits, op: Op): FS {
    FilesAfter(fs, s, limits, [op])
  }

  lemma DoneIs(fs: FS, s: State, limits: Limits, op: Op)
    ensures Done(fs, s, limits, op) == DoAll(fs, OpSteps(fs, s, limits, op))
  {
    assert [op][..|[op]| - 1] == [];
    assert FilesAfter(fs, s, limits, []) == fs && Run(s, limits, []) == s;
  }

  /** The operation takes this message out of the store. */
  ghost predicate TakesOut(s: State, limits: Limits, op: Op, n: string, id: ID) {
    id in s.byID && s.byID[id] == n && id !in Apply(s, limits, op).byID
  }

  lemma InBox(s: State, id: ID)
    requires Agrees(s) && id in s.byID
    ensures s.byID[id] in s.boxes
    ensures exists m :: m in s.boxes[s.byID[id]] && m.id == id && m.mailbox == s.byID[id]
  {
    var box := s.boxes[s.byID[id]];
    assert BoxAgrees(s, s.byID[id]) && HasID(box, id);
    var i :| 0 <= i < |box| && box[i].id == id;
    assert box[i] in box;
  }

  lemma EvictedFiles(s: State, cap: int, m: Msg, f: File)
    requires Agrees(s) && m.mailbox in s.boxes && m.id !in s.byID
    ensures FileOf(Evicted(s, cap, m), f)
            <==> !f.tmp && f.mailbox == m.mailbox && f.id !in Delivered(s, cap, m).byID
                 && (f.id == m.id || (f.id in s.byID && s.byID[f.id] == m.mailbox))
  {
    var grown, gone := Grown(s, m), Evicted(s, cap, m);
    GrownFacts(s, m);
    assert forall i | 0 <= i < |gone| :: gone[i] == grown[i] && grown[i] in grown;
    FilesOfOneMailbox(gone, m.mailbox, f);
    EvictedIDs(s, cap, m, f.id);
  }

  lemma EvictedIDs(s: State, cap: int, m: Msg, id: ID)
    requires Agrees(s) && m.mailbox in s.boxes && m.id !in s.byID
    ensures HasID(Evicted(s, cap, m), id)
            <==> id !in Delivered(s, cap, m).byID && (id == m.id || (id in s.byID && s.byID[id] == m.mailbox))
  {
    var grown, gone := Grown(s, m), Evicted(s, cap, m);
    assert BoxAgrees(s, m.mailbox);
    assert HasID(gone, id) <==> exists i :: 0 <= i < |gone| && grown[i].id == id;
    if i :| 0 <= i < |gone| && grown[i].id == id {
      assert i < |s.boxes[m.mailbox]| ==> grown[i] == s.boxes[m.mailbox][i];
    }
  }

  lemma ClearedFiles(s: State, limits: Limits, n: string, f: File)
    requires Agrees(s) && n in s.boxes
    ensures FileOf(s.boxes[n], f) <==> !f.tmp && f.mailbox == n && TakesOut(s, limits, Clear(n), n, f.id)
  {
    var box := s.boxes[n];
    assert BoxAgrees(s, n);
    FilesOfOneMailbox(box, n, f);
    if HasID(box, f.id) {
      var i :| 0 <= i < |box| && box[i].id == f.id;
      assert box[i] in box;
    }
    if f.id in s.byID {
      assert HasID(s.boxes[s.byID[f.id]], f.id);
    }
  }

  lemma DeletedFiles(fs: FS, s: State, limits: Limits, id: ID)
    requires Agrees(s) && id in s.byID
    ensures var fs' := Done(fs, s, limits, Delete(id));
            fs' == fs - {EmlOf(s.byID[id], id)} - {JsonOf(s.byID[id], id)}
  {
    var box := s.boxes[s.byID[id]];
    DoneIs(fs, s, limits, Delete(id));
    InBox(s, id);
    LookupNone(box, id);
    assert BoxAgrees(s, s.byID[id]) && HasID(box, id);
    var m := Lookup(box, id).value;
    LookupMember(box, m);
    RemovedOne(fs, m);
  }

  /** A message that an operation takes out leaves neither of its files, whatever else is in the directory. */
  lemma TakenOutLeavesNoFile(fs: FS, s: State, limits: Limits, op: Op, n: string, id: ID)
    requires Agrees(s) && Unused(s, op) && TakesOut(s, limits, op, n, id)
    ensures NoFile(Done(fs, s, limits, op), n, id)
  {
    DoneIs(fs, s, limits, op);
    match op
    case Deliver(_, _, _, _, _, _) =>
      var m := Incoming(op);
      var gone := Evicted(s, limits.maxMessages, m);
      DoAllAppend(fs, SaveSteps(fs, m), RemoveAllSteps(gone));
      RemovedAll(DoAll(fs, SaveSteps(fs, m)), gone);
      assert BoxAgrees(s, m.mailbox);
      EvictedFiles(s, limits.maxMessages, m, EmlOf(n, id));
      EvictedFiles(s, limits.maxMessages, m, JsonOf(n, id));
    case Delete(x) => DeletedFiles(fs, s, limits, x);
    case Clear(name) =>
      RemovedAll(fs, s.boxes[name]);
      ClearedFiles(s, limits, name, EmlOf(n, id));
      ClearedFiles(s, limits, name, JsonOf(n, id));
    case MarkRead(_, _) =>
    case MarkAllRead(_) =>
  }

  /** Completed operations keep the directory exact. */
  lemma ExactAfter(fs: FS, s: State, limits: Limits, op: Op)
    requires Agrees(s) && Unused(s, op) && Exact(fs, s)
    ensures Exact(Done(fs, s, limits, op), Apply(s, limits, op))
  {
    DoneIs(fs, s, limits, op);
    match op
    case Deliver(_, _, _, _, _, _) =>
      if Accepts(s, limits, op) {
        ExactAfterDelivery(fs, s, limits.maxMessages, Incoming(op));
      }
    case Delete(id) =>
      if id in s.byID {
        DeletedFiles(fs, s, limits, id);
        ExactAfterDeletion(fs, s, limits, id);
      }
    case Clear(n) =>
      if n in s.boxes {
        ExactAfterClearing(fs, s, limits, n);
      }
    case MarkRead(id, read) => ExactAfterMark(fs, s, limits, id, read);
    case MarkAllRead(n) =>
      if n in s.boxes {
        ExactAfterMarkAll(fs, s, limits, n);
      }
  }

  lemma ExactAfterDelivery(fs: FS, s: State, cap: int, m: Msg)
    requires Agrees(s) && m.mailbox in s.boxes && m.id !in s.byID && Exact(fs, s)
    ensures Exact(DoAll(fs, DeliverSteps(fs, s, cap, m)), Delivered(s, cap, m))
  {
    var gone, fs1 := Evicted(s, cap, m), DoAll(fs, SaveSteps(fs, m));
    DoAllAppend(fs, SaveSteps(fs, m), RemoveAllSteps(gone));
    Saved(fs, m);
    RemovedAll(fs1, gone);
    forall f: File
      ensures f in DoAll(fs1, RemoveAllSteps(gone))
              <==> !f.tmp && f.id in Delivered(s, cap, m).byID && Delivered(s, cap, m).byID[f.id] == f.mailbox
    {
      EvictedFiles(s, cap, m, f);
      SavedFiles(fs, s, m, f);
      DeliveredIndex(s, cap, m, f.id);
    }
  }

  lemma SavedFiles(fs: FS, s: State, m: Msg, f: File)
    requires m.id !in s.byID && Exact(fs, s)
    ensures f in DoAll(fs, SaveSteps(fs, m))
            <==> !f.tmp && ((f.id in s.byID && s.byID[f.id] == f.mailbox) || (f.id == m.id && f.mailbox == m.mailbox))
  {
    Saved(fs, m);
    if !f.tmp {
      TwoFiles(f);
    }
  }

  /** An ID is indexed after a delivery if it was, or is the new one, and was not evicted. */
  lemma DeliveredIndex(s: State, cap: int, m: Msg, id: ID)
    requires Agrees(s) && m.mailbox in s.boxes && m.id !in s.byID
    ensures var t := Delivered(s, cap, m);
            && (id in t.byID ==> t.byID[id] == if id == m.id then m.mailbox else if id in s.byID then s.byID[id] else "")
            && (id in t.byID <==> (id in s.byID || id == m.id) && !HasID(Evicted(s, cap, m), id))
  {
    EvictedIDs(s, cap, m, id);
    assert forall i | 0 <= i < |Evicted(s, cap, m)| :: Evicted(s, cap, m)[i] == Grown(s, m)[i];
  }

  lemma ExactAfterDeletion(fs: FS, s: State, limits: Limits, id: ID)
    requires Agrees(s) && id in s.byID && Exact(fs, s)
    ensures Exact(fs - {EmlOf(s.byID[id], id)} - {JsonOf(s.byID[id], id)}, Apply(s, limits, Delete(id)))
  {
    forall f: File | !f.tmp && f.id == id && f.mailbox == s.byID[id] ensures f == EmlOf(s.byID[id], id) || f == JsonOf(s.byID[id], id) {
      TwoFiles(f);
    }
  }

  lemma ExactAfterClearing(fs: FS, s: State, limits: Limits, n: string)
    requires Agrees(s) && n in s.boxes && Exact(fs, s)
    ensures Exact(DoAll(fs, RemoveAllSteps(s.boxes[n])), Apply(s, limits, Clear(n)))
  {
    RemovedAll(fs, s.boxes[n]);
    forall f: File
      ensures f in DoAll(fs, RemoveAllSteps(s.boxes[n]))
              <==> !f.tmp && f.id in Apply(s, limits, Clear(n)).byID && Apply(s, limits, Clear(n)).byID[f.id] == f.mailbox
    {
      ClearedFiles(s, limits, n, f);
      ClearedIndex(s, limits, n, f.id);
    }
  }

  lemma ClearedIndex(s: State, limits: Limits, n: string, id: ID)
    requires Agrees(s) && n in s.boxes
    ensures var t := Apply(s, limits, Clear(n));
            && (id in t.byID <==> id in s.byID && s.byID[id] != n) && (id in t.byID ==> t.byID[id] == s.byID[id])
  {
    var box := s.boxes[n];
    assert BoxAgrees(s, n);
    if id in s.byID {
      InBox(s, id);
    }
  }

  lemma Rewritten(fs: FS, s: State, m: Msg)
    requires Exact(fs, s) && m.id in s.byID && s.byID[m.id] == m.mailbox
    ensures Exact(DoAll(fs, SaveSteps(fs, m)), s)
  {
    Saved(fs, m);
  }

  lemma ExactAfterMark(fs: FS, s: State, limits: Limits, id: ID, read: bool)
    requires Agrees(s) && Exact(fs, s)
    ensures Exact(DoAll(fs, OpSteps(fs, s, limits, MarkRead(id, read))), Apply(s, limits, MarkRead(id, read)))
  {
    if id in s.byID {
      var box := s.boxes[s.byID[id]];
      assert BoxAgrees(s, s.byID[id]) && HasID(box, id);
      LookupNone(box, id);
      Rewritten(fs, s, Lookup(box, id).value.(read := read));
    }
  }

  lemma ExactAfterMarkAll(fs: FS, s: State, limits: Limits, n: string)
    requires Agrees(s) && n in s.boxes && Exact(fs, s)
    ensures Exact(DoAll(fs, SaveAllSteps(fs, NewlyRead(s.boxes[n]))), Apply(s, limits, MarkAllRead(n)))
  {
    var ms := NewlyRead(s.boxes[n]);
    SavedAll(fs, ms);
    UnreadAreIndexed(s, n, (x: string, id: ID) => id in s.byID && s.byID[id] == x);
  }

  // ---------------------------------------------------------------------------
  // Whole runs
  // ---------------------------------------------------------------------------

  /** Over every run of completed operations, from any exact directory on. */
  lemma {:induction false} RunKeepsExact(fs: FS, s: State, limits: Limits, ops: seq<Op>)
    requires Agrees(s) && Capped(s, limits.maxMessages) && Exact(fs, s) && UnusedThroughout(s, limits, ops)
    ensures Exact(FilesAfter(fs, s, limits, ops), Run(s, limits, ops))
  {
    if ops != [] {
      var before, op := ops[..|ops| - 1], ops[|ops| - 1];
      UnusedInit(s, limits, ops);
      RunKeepsExact(fs, s, limits, before);
      RunAgrees(s, limits, before);
      ExactAfter(FilesAfter(fs, s, limits, before), Run(s, limits, before), limits, op);
      DoneIs(FilesAfter(fs, s, limits, before), Run(s, limits, before), limits, op);
    }
  }

  /** From an empty directory and an empty store: the files are exactly the two of each stored message. */
  lemma RunIsExact(names: set<string>, limits: Limits, ops: seq<Op>)
    requires UnusedThroughout(Empty(names), limits, ops)
    ensures Exact(DiskOf(names, limits, ops), Run(Empty(names), limits, ops))
  {
    RunKeepsExact(map[], Empty(names), limits, ops);
  }

  // ---------------------------------------------------------------------------
  // A deletion that stops half way
  // ---------------------------------------------------------------------------

  /** A crash in a deletion leaves the directory as it was, or without the body, or without both files. */
  lemma DeletionStopped(w: World, id: ID, left: FS)
    requires w.phase.Up? && Agrees(w.phase.store) && id in w.phase.store.byID
    requires Can(w, Dies(Delete(id), left))
    ensures var n := w.phase.store.byID[id];
            left in {w.files, w.files - {EmlOf(n, id)}, w.files - {EmlOf(n, id)} - {JsonOf(n, id)}}
  {
    var s, steps := w.phase.store, OpSteps(w.files, w.phase.store, w.phase.limits, Delete(id));
    var box := s.boxes[s.byID[id]];
    assert BoxAgrees(s, s.byID[id]) && HasID(box, id);
    LookupNone(box, id);
    var m := Lookup(box, id).value;
    var k :| 0 <= k <= |steps| && CrashAt(w.files, steps, k, left);
    DoOne(w.files, steps[0]);
    DoTwo(w.files, steps[0], steps[1]);
    assert steps[..k] == if k == 0 then [] else if k == 1 then [steps[0]] else [steps[0], steps[1]];
  }

  // ---------------------------------------------------------------------------
  // Loading
  // ---------------------------------------------------------------------------

  /** A readable message of a loaded mailbox that loading does not keep. */
  ghost predicate Discarded(fs: FS, order: seq<string>, cap: int, f: File) {
    !f.tmp && f.mailbox in order && Read(fs, f.mailbox, f.id).Some? && !HasID(Recovered(fs, f.mailbox, cap), f.id)
  }

  lemma DiscardedOfOne(fs: FS, n: string, cap: int, f: File)
    ensures var all := Listing(fs, n);
            FileOf(all[..Excess(|all|, cap)], f) <==> Discarded(fs, [n], cap, f)
  {
    var all := Listing(fs, n);
    var gone := all[..Excess(|all|, cap)];
    ListingFacts(fs, n);
    forall m | m in gone ensures m.mailbox == n {
      assert m in all && Read(fs, n, m.id) == Some(m);
    }
    FilesOfOneMailbox(gone, n, f);
    ListedParts(fs, n, cap, f.id);
    InIdSet(gone, f.id);
    InIdSet(Recovered(fs, n, cap), f.id);
    GoneIsListed(all, gone, f.id);
  }

  lemma GoneIsListed(all: seq<Msg>, gone: seq<Msg>, id: ID)
    requires gone <= all
    ensures HasID(gone, id) ==> id in IdSet(all)
  {
    if HasID(gone, id) {
      var i :| 0 <= i < |gone| && gone[i].id == id;
      assert all[i] in all;
    }
  }

  lemma OneLoadedFilesAre(fs: FS, n: string, cap: int)
    ensures var after := DoAll(fs, LoadSteps(fs, n, cap));
            && (forall f :: f in after <==> f in fs && !Discarded(fs, [n], cap, f))
            && (forall f | f in after :: after[f] == fs[f])
  {
    var all := Listing(fs, n);
    RemovedAll(fs, all[..Excess(|all|, cap)]);
    forall f: File ensures FileOf(all[..Excess(|all|, cap)], f) <==> Discarded(fs, [n], cap, f) {
      DiscardedOfOne(fs, n, cap, f);
    }
  }

  lemma DiscardedNext(fs: FS, order: seq<string>, cap: int, f: File)
    requires Distinct(order) && order != []
    ensures var before, n := order[..|order| - 1], order[|order| - 1];
            Discarded(fs, order, cap, f)
            <==> Discarded(fs, before, cap, f) || Discarded(LoadedFiles(fs, before, cap), [n], cap, f)
  {
    var before, n := order[..|order| - 1], order[|order| - 1];
    assert order == before + [n];
    LoadedReads(fs, before, cap, n);
    ListedInTurn(fs, order, cap);
  }

  /** Whatever the directory holds, loading removes both files of what it discards, and no other file. */
  lemma {:induction false} LoadedFilesAre(fs: FS, order: seq<string>, cap: int)
    requires Distinct(order)
    ensures forall f :: f in LoadedFiles(fs, order, cap) <==> f in fs && !Discarded(fs, order, cap, f)
    ensures forall f | f in LoadedFiles(fs, order, cap) :: LoadedFiles(fs, order, cap)[f] == fs[f]
  {
    if order != [] {
      var before, n := order[..|order| - 1], order[|order| - 1];
      LoadedFilesAre(fs, before, cap);
      LoadedFilesNext(fs, order, cap);
      OneLoadedFilesAre(LoadedFiles(fs, before, cap), n, cap);
      forall f: File ensures f in LoadedFiles(fs, order, cap) <==> f in fs && !Discarded(fs, order, cap, f) {
        DiscardedNext(fs, order, cap, f);
      }
    }
  }

  /** What loading drops leaves neither of its files. */
  lemma DiscardedLeavesNoFile(fs: FS, order: seq<string>, cap: int, n: string, id: ID)
    requires Distinct(order) && n in order && Read(fs, n, id).Some? && !HasID(Recovered(fs, n, cap), id)
    ensures NoFile(LoadedFiles(fs, order, cap), n, id)
  {
    LoadedFilesAre(fs, order, cap);
  }

  /** An ID that is readable in one mailbox only leads there, if it is kept. */
  lemma {:induction false} OnlyHome(fs: FS, order: seq<string>, cap: int, id: ID, home: string)
    requires Distinct(order) && forall n | n in order && n != home :: Read(fs, n, id).None?
    ensures LastHome(fs, order, cap, id)
            == if home in order && Read(fs, home, id).Some? && HasID(Recovered(fs, home, cap), id) then Some(home) else None
  {
    if order != [] {
      var before, n := order[..|order| - 1], order[|order| - 1];
      assert order == before + [n];
      OnlyHome(fs, before, cap, id, home);
      InIdSet(Recovered(fs, n, cap), id);
    }
  }

  lemma ReadIffIndexed(fs: FS, s: State, n: string, id: ID)
    requires Agrees(s) && Mirrors(fs, s) && n in s.boxes
    ensures Read(fs, n, id).Some? <==> id in s.byID && s.byID[id] == n
  {
    assert OnDisk(fs, n, s.boxes[n]) && BoxAgrees(s, n);
    LookupNone(s.boxes[n], id);
    if id in s.byID {
      assert HasID(s.boxes[s.byID[id]], id);
    }
  }

  lemma KeptOfExact(fs: FS, s: State, order: seq<string>, cap: int, f: File)
    requires Distinct(order) && s.boxes.Keys == Members(order) && Agrees(s) && Mirrors(fs, s) && Exact(fs, s)
    ensures var t := Loaded(fs, Members(order), order, cap);
            f in fs && !Discarded(fs, order, cap, f) <==> !f.tmp && f.id in t.byID && t.byID[f.id] == f.mailbox
  {
    var home := if f.id in s.byID then s.byID[f.id] else "";
    forall n | n in order ensures Read(fs, n, f.id).Some? <==> f.id in s.byID && s.byID[f.id] == n {
      ReadIffIndexed(fs, s, n, f.id);
    }
    OnlyHome(fs, order, cap, f.id, home);
    LoadedIndex(fs, Members(order), order, cap, f.id);
  }

  /** Stopping with an exact directory and loading it, with any cap, leaves an exact directory. */
  lemma LoadKeepsExact(fs: FS, s: State, order: seq<string>, cap: int)
    requires Distinct(order) && s.boxes.Keys == Members(order) && Agrees(s) && Mirrors(fs, s) && Exact(fs, s)
    ensures Exact(LoadedFiles(fs, order, cap), Loaded(fs, Members(order), order, cap))
  {
    var t := Loaded(fs, Members(order), order, cap);
    LoadedFilesAre(fs, order, cap);
    forall f: File ensures f in LoadedFiles(fs, order, cap) <==> !f.tmp && f.id in t.byID && t.byID[f.id] == f.mailbox {
      KeptOfExact(fs, s, order, cap, f);
    }
  }

  lemma FreshIsUnused(names: set<string>, limits: Limits, ops: seq<Op>)
    requires FreshRun(names, limits, ops)
    ensures UnusedThroughout(Empty(names), limits, ops)
  {
    forall i | 0 <= i < |ops| ensures Unused(Run(Empty(names), limits, ops[..i]), ops[i]) {
      forall j | 0 <= j < i ensures FreshID(LedgerOf(names, limits, ops[..i][..j]), ops[..i][j]) {
        assert ops[..i][..j] == ops[..j];
        assert FreshID(LedgerOf(names, limits, ops[..j]), ops[j]);
      }
      RunInvariant(names, limits, ops[..i]);
      assert FreshID(LedgerOf(names, limits, ops[..i]), ops[i]);
      FreshMeansUnused(Run(Empty(names), limits, ops[..i]), LedgerOf(names, limits, ops[..i]), ops[i]);
    }
  }

  /** Restarting after any run, with any cap: the files are exactly the two of each message that is loaded. */
  lemma RestartIsExact(order: seq<string>, limits: Limits, ops: seq<Op>, cap: int)
    requires Distinct(order) && FreshRun(Members(order), limits, ops)
    ensures var fs := DiskOf(Members(order), limits, ops);
            Exact(LoadedFiles(fs, order, cap), Loaded(fs, Members(order), order, cap))
  {
    FreshIsUnused(Members(order), limits, ops);
    RunIsExact(Members(order), limits, ops);
    RunInvariant(Members(order), limits, ops);
    RunMirrors(Members(order), limits, ops);
    RunAgrees(Empty(Members(order)), limits, ops);
    LoadKeepsExact(DiskOf(Members(order), limits, ops), Run(Empty(Members(order)), limits, ops), order, cap);
  }
}

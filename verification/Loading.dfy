/**
 Loading the whole store from its directory, mailbox after mailbox: the queues, the index
 and the removals, for whatever the directory holds.
 */
module Loading {
  import opened Bytes
  import opened Sequences
  import opened StoreModel
  import opened StoreRuns
  import opened Disk
  import opened Recovery

  // ---------------------------------------------------------------------------
  // The loop over the mailboxes
  // ---------------------------------------------------------------------------

  /** One mailbox: all its readable messages are indexed, and those over the cap come off again. */
  function LoadBox(fs: FS, s: State, n: string, cap: int): State {
    var all := Listing(fs, n);
    var drop := Excess(|all|, cap);
    State(s.boxes[n := all[drop..]],
          (s.byID + (map id | id in IdSet(all) :: n)) - IdSet(all[..drop]))
  }

  function LoadAllSteps(fs: FS, order: seq<string>, cap: int): seq<Step> {
    if order == [] then []
    else
      var before := LoadAllSteps(fs, order[..|order| - 1], cap);
      before + LoadSteps(DoAll(fs, before), order[|order| - 1], cap)
  }

  /** The directory once the mailboxes of `order` are loaded. */
  function LoadedFiles(fs: FS, order: seq<string>, cap: int): FS {
    DoAll(fs, LoadAllSteps(fs, order, cap))
  }

  /** The store once the mailboxes of `order` are loaded. */
  function Loaded(fs: FS, names: set<string>, order: seq<string>, cap: int): State {
    if order == [] then Empty(names)
    else
      var before := order[..|order| - 1];
      LoadBox(LoadedFiles(fs, before, cap), Loaded(fs, names, before, cap), order[|order| - 1], cap)
  }

  lemma LoadedFilesNext(fs: FS, order: seq<string>, cap: int)
    requires order != []
    ensures var before := order[..|order| - 1];
            LoadedFiles(fs, order, cap)
            == DoAll(LoadedFiles(fs, before, cap), LoadSteps(LoadedFiles(fs, before, cap), order[|order| - 1], cap))
  {
    var before := LoadAllSteps(fs, order[..|order| - 1], cap);
    DoAllAppend(fs, before, LoadSteps(DoAll(fs, before), order[|order| - 1], cap));
  }

  // ---------------------------------------------------------------------------
  // Mailboxes do not interfere
  // ---------------------------------------------------------------------------

  lemma LoadStepsElsewhere(fs: FS, m: string, cap: int, k: nat, n: string)
    requires k <= |LoadSteps(fs, m, cap)| && n != m
    ensures forall id :: Read(DoAll(fs, LoadSteps(fs, m, cap)[..k]), n, id) == Read(fs, n, id)
  {
    var all := Listing(fs, m);
    var gone := all[..Excess(|all|, cap)];
    ListingFacts(fs, m);
    forall id ensures Read(DoAll(fs, LoadSteps(fs, m, cap)[..k]), n, id) == Read(fs, n, id) {
      RemoveAllReads(fs, gone, k, n, id);
      forall i | 0 <= i < |gone| ensures gone[i].mailbox == m {
        assert gone[i] == all[i] && all[i] in all;
      }
    }
  }

  lemma LoadedElsewhere(fs: FS, m: string, cap: int, n: string)
    requires n != m
    ensures forall id :: Read(DoAll(fs, LoadSteps(fs, m, cap)), n, id) == Read(fs, n, id)
  {
    var steps := LoadSteps(fs, m, cap);
    LoadStepsElsewhere(fs, m, cap, |steps|, n);
    assert steps[..|steps|] == steps;
  }

  /** What is readable after loading: in each loaded mailbox what loading keeps, elsewhere what was. */
  lemma {:induction false} LoadedReads(fs: FS, order: seq<string>, cap: int, n: string)
    requires Distinct(order)
    ensures n !in order ==> forall id :: Read(LoadedFiles(fs, order, cap), n, id) == Read(fs, n, id)
    ensures n in order ==> OnDisk(LoadedFiles(fs, order, cap), n, Recovered(fs, n, cap))
  {
    if order != [] {
      var before, m := order[..|order| - 1], order[|order| - 1];
      var mid := LoadedFiles(fs, before, cap);
      assert order == before + [m];
      LoadedReads(fs, before, cap, n);
      LoadedFilesNext(fs, order, cap);
      if n == m {
        assert n !in before;
        ReadDecides(mid, fs, n);
        LoadedOnDisk(mid, n, cap);
      } else {
        LoadedElsewhere(mid, m, cap, n);
      }
    }
  }

  /** When its turn comes, a mailbox is listed as it was at the start. */
  lemma ListedInTurn(fs: FS, order: seq<string>, cap: int)
    requires Distinct(order) && order != []
    ensures var m := order[|order| - 1];
            Listing(LoadedFiles(fs, order[..|order| - 1], cap), m) == Listing(fs, m)
  {
    var before, m := order[..|order| - 1], order[|order| - 1];
    LoadedReads(fs, before, cap, m);
    ReadDecides(LoadedFiles(fs, before, cap), fs, m);
  }

  /** The queues when these mailboxes have been loaded, each on its own. */
  function BoxesOf(fs: FS, names: set<string>, order: seq<string>, cap: int): map<string, seq<Msg>> {
    map n | n in names :: if n in order then Recovered(fs, n, cap) else []
  }

  lemma OneMoreBox(fs: FS, names: set<string>, before: seq<string>, m: string, cap: int)
    requires m in names
    ensures BoxesOf(fs, names, before + [m], cap) == BoxesOf(fs, names, before, cap)[m := Recovered(fs, m, cap)]
  {
  }

  /** The loaded queues are those of the mailboxes loaded each on its own. */
  lemma {:induction false} LoadedBoxes(fs: FS, names: set<string>, order: seq<string>, cap: int)
    requires Distinct(order) && Members(order) <= names
    ensures Loaded(fs, names, order, cap).boxes == BoxesOf(fs, names, order, cap)
  {
    if order != [] {
      var before, m := order[..|order| - 1], order[|order| - 1];
      assert order == before + [m];
      LoadedBoxes(fs, names, before, cap);
      ListedInTurn(fs, order, cap);
      OneMoreBox(fs, names, before, m, cap);
    }
  }

  lemma LoadedWholeBoxes(fs: FS, order: seq<string>, cap: int)
    requires Distinct(order)
    ensures Loaded(fs, Members(order), order, cap).boxes == RecoveredAll(fs, Members(order), cap)
  {
    LoadedBoxes(fs, Members(order), order, cap);
  }

  /** The directory mirrors the loaded store, whose queues are within the cap and in ID order. */
  lemma LoadedMirrors(fs: FS, order: seq<string>, cap: int)
    requires Distinct(order)
    ensures Mirrors(LoadedFiles(fs, order, cap), Loaded(fs, Members(order), order, cap))
    ensures Capped(Loaded(fs, Members(order), order, cap), cap)
    ensures AllAscending(Loaded(fs, Members(order), order, cap))
  {
    var s := Loaded(fs, Members(order), order, cap);
    LoadedWholeBoxes(fs, order, cap);
    forall n | n in s.boxes
      ensures OnDisk(LoadedFiles(fs, order, cap), n, s.boxes[n]) && Ascending(s.boxes[n])
      ensures cap > 0 ==> |s.boxes[n]| <= cap
    {
      LoadedReads(fs, order, cap, n);
      RecoveredFacts(fs, n, cap);
    }
  }

  lemma RecoveredFacts(fs: FS, n: string, cap: int)
    ensures Ascending(Recovered(fs, n, cap))
    ensures cap > 0 ==> |Recovered(fs, n, cap)| <= cap
    ensures forall m | m in Recovered(fs, n, cap) :: Read(fs, n, m.id) == Some(m) && m.mailbox == n
    ensures forall id | HasID(Recovered(fs, n, cap), id) :: Read(fs, n, id).Some?
  {
    var all, kept := Listing(fs, n), Recovered(fs, n, cap);
    var drop := Excess(|all|, cap);
    ListingFacts(fs, n);
    assert forall i | 0 <= i < |kept| :: kept[i] == all[drop + i] && kept[i] in all;
    forall id | HasID(kept, id) ensures Read(fs, n, id).Some? {
      var i :| 0 <= i < |kept| && kept[i].id == id;
      assert kept[i] in all;
    }
  }

  lemma InitOf(order: seq<string>, i: nat)
    requires i < |order|
    ensures var now := order[..i + 1];
            now != [] && now[..|now| - 1] == order[..i] && now[|now| - 1] == order[i]
  {
  }

  /** One mailbox more: what it finds, and what it makes of it. */
  lemma LoadedNext(fs: FS, names: set<string>, order: seq<string>, i: nat, cap: int)
    requires Distinct(order) && i < |order| && Members(order) == names
    ensures var s := Loaded(fs, names, order[..i], cap);
            && order[i] in s.boxes && s.boxes[order[i]] == []
            && Loaded(fs, names, order[..i + 1], cap) == LoadBox(LoadedFiles(fs, order[..i], cap), s, order[i], cap)
  {
    InitOf(order, i);
    LoadedBoxes(fs, names, order[..i], cap);
    assert order[i] !in order[..i];
  }

  lemma LoadedNextSteps(fs: FS, order: seq<string>, i: nat, cap: int, taken: seq<Step>)
    requires i < |order|
    ensures var mid := LoadedFiles(fs, order[..i], cap);
            && LoadedFiles(fs, order[..i + 1], cap) == DoAll(mid, LoadSteps(mid, order[i], cap))
            && taken + LoadAllSteps(fs, order[..i + 1], cap)
               == (taken + LoadAllSteps(fs, order[..i], cap)) + LoadSteps(mid, order[i], cap)
  {
    InitOf(order, i);
    LoadedFilesNext(fs, order[..i + 1], cap);
    Assoc(taken, LoadAllSteps(fs, order[..i], cap), LoadSteps(LoadedFiles(fs, order[..i], cap), order[i], cap));
  }

  // ---------------------------------------------------------------------------
  // The index
  // ---------------------------------------------------------------------------

  /** The last mailbox that lists the ID decides: the ID leads there if it is kept there, and nowhere if not. */
  function LastHome(fs: FS, order: seq<string>, cap: int, id: ID): Option<string> {
    if order == [] then None
    else
      var n := order[|order| - 1];
      if Read(fs, n, id).None? then LastHome(fs, order[..|order| - 1], cap, id)
      else if id in IdSet(Recovered(fs, n, cap)) then Some(n) else None
  }

  lemma InIdSet(box: seq<Msg>, id: ID)
    ensures id in IdSet(box) <==> HasID(box, id)
  {
    if HasID(box, id) {
      var i :| 0 <= i < |box| && box[i].id == id;
      assert box[i] in box;
    }
  }

  /** A listed ID is in exactly one of the two parts of the listing. */
  lemma ListedParts(fs: FS, n: string, cap: int, id: ID)
    ensures var all := Listing(fs, n);
            && (id in IdSet(all) <==> Read(fs, n, id).Some?)
            && (id in IdSet(all) ==> (id in IdSet(Recovered(fs, n, cap)) <==> id !in IdSet(all[..Excess(|all|, cap)])))
  {
    var all := Listing(fs, n);
    var drop := Excess(|all|, cap);
    ListedLookup(fs, n, id);
    LookupNone(all, id);
    InIdSet(all, id);
    InIdSet(all[..drop], id);
    InIdSet(all[drop..], id);
    ListingFacts(fs, n);
    if i :| 0 <= i < |all| && all[i].id == id {
      assert if i < drop then all[..drop][i].id == id else all[drop..][i - drop].id == id;
    }
  }

  ghost predicate Indexed(byID: map<ID, string>, id: ID, home: Option<string>) {
    if id in byID then home == Some(byID[id]) else home == None
  }

  lemma {:induction false} LoadedIndex(fs: FS, names: set<string>, order: seq<string>, cap: int, id: ID)
    requires Distinct(order)
    ensures Indexed(Loaded(fs, names, order, cap).byID, id, LastHome(fs, order, cap, id))
  {
    if order != [] {
      var before, m := order[..|order| - 1], order[|order| - 1];
      LoadedIndex(fs, names, before, cap, id);
      ListedInTurn(fs, order, cap);
      ListedParts(fs, m, cap, id);
    }
  }

  /** No ID that is kept in one mailbox is readable in a mailbox loaded later. */
  ghost predicate KeptApart(fs: FS, order: seq<string>, cap: int) {
    forall i, j, id: ID | 0 <= i < j < |order| && id in IdSet(Recovered(fs, order[i], cap)) ::
      Read(fs, order[j], id).None?
  }

  lemma {:induction false} HomeIsLater(fs: FS, order: seq<string>, cap: int, id: ID, j: nat)
    requires j < |order| && Read(fs, order[j], id).Some?
    ensures var home := LastHome(fs, order, cap, id);
            home.None? || exists k :: j <= k < |order| && home == Some(order[k])
  {
    var last := |order| - 1;
    if Read(fs, order[last], id).None? {
      var before := order[..last];
      HomeIsLater(fs, before, cap, id, j);
      var home := LastHome(fs, before, cap, id);
      if home.Some? {
        var k :| j <= k < |before| && home == Some(before[k]);
        assert before[k] == order[k];
      }
    }
  }

  lemma {:induction false} HomeIfKept(fs: FS, order: seq<string>, cap: int, id: ID, i: nat)
    requires i < |order| && id in IdSet(Recovered(fs, order[i], cap))
    requires forall j | i < j < |order| :: Read(fs, order[j], id).None?
    ensures LastHome(fs, order, cap, id) == Some(order[i])
  {
    if i < |order| - 1 {
      HomeIfKept(fs, order[..|order| - 1], cap, id, i);
    } else {
      ListedParts(fs, order[i], cap, id);
      InIdSet(Recovered(fs, order[i], cap), id);
      RecoveredFacts(fs, order[i], cap);
    }
  }

  lemma {:induction false} HomeKeeps(fs: FS, order: seq<string>, cap: int, id: ID)
    requires LastHome(fs, order, cap, id).Some?
    ensures LastHome(fs, order, cap, id).value in order
    ensures id in IdSet(Recovered(fs, LastHome(fs, order, cap, id).value, cap))
  {
    var before := order[..|order| - 1];
    assert order == before + [order[|order| - 1]];
    if Read(fs, order[|order| - 1], id).None? {
      HomeKeeps(fs, before, cap, id);
    }
  }

  /** What the index must say of every kept message. */
  ghost predicate KeptIndexed(fs: FS, order: seq<string>, cap: int) {
    forall i, id: ID | 0 <= i < |order| && id in IdSet(Recovered(fs, order[i], cap)) ::
      LastHome(fs, order, cap, id) == Some(order[i])
  }

  lemma KeptApartIff(fs: FS, order: seq<string>, cap: int)
    requires Distinct(order)
    ensures KeptApart(fs, order, cap) <==> KeptIndexed(fs, order, cap)
  {
    if KeptApart(fs, order, cap) {
      forall i, id: ID | 0 <= i < |order| && id in IdSet(Recovered(fs, order[i], cap))
        ensures LastHome(fs, order, cap, id) == Some(order[i])
      {
        HomeIfKept(fs, order, cap, id, i);
      }
    }
    if KeptIndexed(fs, order, cap) {
      forall i, j, id: ID | 0 <= i < j < |order| && id in IdSet(Recovered(fs, order[i], cap))
        ensures Read(fs, order[j], id).None?
      {
        if Read(fs, order[j], id).Some? {
          HomeIsLater(fs, order, cap, id, j);
        }
      }
    }
  }

  /** Index and queues agree after loading exactly when the mailboxes are kept apart. */
  lemma LoadedAgreesIff(fs: FS, order: seq<string>, cap: int)
    requires Distinct(order)
    ensures Agrees(Loaded(fs, Members(order), order, cap)) <==> KeptApart(fs, order, cap)
  {
    LoadedWholeBoxes(fs, order, cap);
    KeptApartIff(fs, order, cap);
    if KeptApart(fs, order, cap) {
      AgreesIfApart(fs, order, cap);
    }
    if Agrees(Loaded(fs, Members(order), order, cap)) {
      IndexedIfAgrees(fs, order, cap);
    }
  }

  lemma BoxAgreesIfApart(fs: FS, order: seq<string>, cap: int, i: nat)
    requires Distinct(order) && KeptIndexed(fs, order, cap) && i < |order|
    ensures var s := Loaded(fs, Members(order), order, cap);
            order[i] in s.boxes && BoxAgrees(s, order[i])
  {
    var s, n := Loaded(fs, Members(order), order, cap), order[i];
    LoadedWholeBoxes(fs, order, cap);
    RecoveredFacts(fs, n, cap);
    var box := s.boxes[n];
    forall k | 0 <= k < |box| ensures box[k].mailbox == n && box[k].id in s.byID && s.byID[box[k].id] == n {
      assert box[k] in box && box[k].id in IdSet(Recovered(fs, order[i], cap));
      LoadedIndex(fs, Members(order), order, cap, box[k].id);
    }
  }

  lemma AgreesIfApart(fs: FS, order: seq<string>, cap: int)
    requires Distinct(order) && KeptIndexed(fs, order, cap)
    ensures Agrees(Loaded(fs, Members(order), order, cap))
  {
    var s := Loaded(fs, Members(order), order, cap);
    LoadedWholeBoxes(fs, order, cap);
    forall n | n in s.boxes ensures BoxAgrees(s, n) {
      var i :| 0 <= i < |order| && order[i] == n;
      BoxAgreesIfApart(fs, order, cap, i);
    }
    forall id | id in s.byID ensures s.byID[id] in s.boxes && HasID(s.boxes[s.byID[id]], id) {
      LoadedIndex(fs, Members(order), order, cap, id);
      HomeKeeps(fs, order, cap, id);
      InIdSet(s.boxes[s.byID[id]], id);
    }
  }

  lemma IndexedIfAgrees(fs: FS, order: seq<string>, cap: int)
    requires Distinct(order) && Agrees(Loaded(fs, Members(order), order, cap))
    ensures KeptIndexed(fs, order, cap)
  {
    var s := Loaded(fs, Members(order), order, cap);
    LoadedWholeBoxes(fs, order, cap);
    forall i, id: ID | 0 <= i < |order| && id in IdSet(Recovered(fs, order[i], cap))
      ensures LastHome(fs, order, cap, id) == Some(order[i])
    {
      var n := order[i];
      assert n in s.boxes && BoxAgrees(s, n);
      InIdSet(s.boxes[n], id);
      var k :| 0 <= k < |s.boxes[n]| && s.boxes[n][k].id == id;
      LoadedIndex(fs, Members(order), order, cap, id);
    }
  }

  // ---------------------------------------------------------------------------
  // Loading again
  // ---------------------------------------------------------------------------

  /** A store is its queues, once the index agrees with them. */
  lemma AgreesDetermines(s: State, t: State)
    requires Agrees(s) && Agrees(t) && s.boxes == t.boxes
    ensures s == t
  {
    forall id | id in s.byID ensures id in t.byID && t.byID[id] == s.byID[id] {
      SameHome(s, t, id);
    }
    forall id | id in t.byID ensures id in s.byID {
      SameHome(t, s, id);
    }
  }

  lemma SameHome(s: State, t: State, id: ID)
    requires Agrees(s) && Agrees(t) && s.boxes == t.boxes && id in s.byID
    ensures id in t.byID && t.byID[id] == s.byID[id]
  {
    var n := s.byID[id];
    assert HasID(s.boxes[n], id) && BoxAgrees(t, n);
    var i :| 0 <= i < |s.boxes[n]| && s.boxes[n][i].id == id;
    assert t.boxes[n][i].id == id;
  }
}

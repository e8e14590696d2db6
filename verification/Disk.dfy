/**
 The data directory: two files per message, written through temporary files, and what
 loading makes of it, whatever prefix of the file steps was carried out.
 */
module Disk {
  import opened Bytes
  import opened Sequences
  import opened StoreModel

  datatype Ext = Eml | Json

  /** `mailbox/id.ext`, with `.tmp` appended when `tmp` is set. */
  datatype File = File(mailbox: string, id: ID, ext: Ext, tmp: bool)

  datatype Meta = Meta(id: ID, mailbox: string, receivedAt: int, source: string, envelope: Envelope, read: bool)

  /** File contents: verbatim mail, a metadata record, or bytes that are neither. */
  datatype Content = Body(raw: Bytes) | Metadata(meta: Meta) | Torn

  type FS = map<File, Content>

  datatype Step =
    | WriteTmp(file: File, content: Content)
    | Rename(file: File)
    | Remove(file: File)

  function TmpOf(file: File): File {
    file.(tmp := true)
  }

  function Do(fs: FS, step: Step): FS {
    match step
    case WriteTmp(file, content) => fs[TmpOf(file) := content]
    case Rename(file) => if TmpOf(file) in fs then (fs - {TmpOf(file)})[file := fs[TmpOf(file)]] else fs
    case Remove(file) => fs - {file}
  }

  function DoAll(fs: FS, steps: seq<Step>): FS
    decreases steps
  {
    if steps == [] then fs else DoAll(Do(fs, steps[0]), steps[1..])
  }

  function EmlOf(n: string, id: ID): File {
    File(n, id, Eml, false)
  }

  function JsonOf(n: string, id: ID): File {
    File(n, id, Json, false)
  }

  function MetaOf(m: Msg): Meta {
    Meta(m.id, m.mailbox, m.receivedAt, m.source, m.envelope, m.read)
  }

  function AtomicSteps(file: File, content: Content): seq<Step> {
    [WriteTmp(file, content), Rename(file)]
  }

  /** Writing a message: its body unless that is there already, then its metadata. */
  function SaveSteps(fs: FS, m: Msg): seq<Step> {
    (if EmlOf(m.mailbox, m.id) in fs then [] else AtomicSteps(EmlOf(m.mailbox, m.id), Body(m.raw)))
    + AtomicSteps(JsonOf(m.mailbox, m.id), Metadata(MetaOf(m)))
  }

  function RemoveSteps(m: Msg): seq<Step> {
    [Remove(EmlOf(m.mailbox, m.id)), Remove(JsonOf(m.mailbox, m.id))]
  }

  function RemoveAllSteps(gone: seq<Msg>): seq<Step> {
    if gone == [] then [] else RemoveSteps(gone[0]) + RemoveAllSteps(gone[1..])
  }

  // ---------------------------------------------------------------------------
  // Reading back
  // ---------------------------------------------------------------------------

  /** A message is visible when both its files are readable. */
  function Read(fs: FS, n: string, id: ID): Option<Msg> {
    if JsonOf(n, id) in fs && fs[JsonOf(n, id)].Metadata? && EmlOf(n, id) in fs && fs[EmlOf(n, id)].Body? then
      var meta, raw := fs[JsonOf(n, id)].meta, fs[EmlOf(n, id)].raw;
      Some(Msg(id, n, meta.receivedAt, meta.source, meta.envelope, raw, meta.read))
    else None
  }

  ghost predicate IsMin(m: nat, s: set<nat>) {
    m in s && forall x | x in s :: m <= x
  }

  lemma {:induction false} MinExists(s: set<nat>)
    requires s != {}
    ensures exists m :: IsMin(m, s)
  {
    var x :| x in s;
    var others := s - {x};
    if others == {} {
      assert s == {x};
      assert IsMin(x, s);
    } else {
      MinExists(others);
      var m :| IsMin(m, others);
      assert s == others + {x};
      assert IsMin(if m <= x then m else x, s);
    }
  }

  function MinOf(s: set<nat>): (m: nat)
    requires s != {}
    ensures m in s && forall x | x in s :: m <= x
  {
    MinExists(s);
    var m :| m in s && forall x | x in s :: m <= x;
    m
  }

  /** The members in ascending order. */
  function Sorted(ids: set<ID>): (r: seq<ID>)
    ensures forall id :: id in r <==> id in ids
    ensures forall i, j | 0 <= i < j < |r| :: r[i] < r[j]
  {
    if ids == {} then [] else [MinOf(ids)] + Sorted(ids - {MinOf(ids)})
  }

  /** The IDs with a metadata file in a mailbox directory. */
  function JsonIds(fs: FS, n: string): set<ID> {
    set f | f in fs && f == JsonOf(n, f.id) :: f.id
  }

  /** The readable ones among some IDs, in the given order. */
  function ReadEach(fs: FS, n: string, ids: seq<ID>): seq<Msg> {
    if ids == [] then []
    else
      (match Read(fs, n, ids[0])
       case None => []
       case Some(m) => [m]) + ReadEach(fs, n, ids[1..])
  }

  function Listing(fs: FS, n: string): seq<Msg> {
    ReadEach(fs, n, Sorted(JsonIds(fs, n)))
  }

  /** What loading puts in a mailbox: the newest ones within the cap. */
  function Recovered(fs: FS, n: string, cap: int): seq<Msg> {
    var all := Listing(fs, n);
    all[Excess(|all|, cap)..]
  }

  /** What loading removes from a mailbox directory. */
  function LoadSteps(fs: FS, n: string, cap: int): seq<Step> {
    var all := Listing(fs, n);
    RemoveAllSteps(all[..Excess(|all|, cap)])
  }

  ghost predicate Ascending(box: seq<Msg>) {
    forall i, j | 0 <= i < j < |box| :: box[i].id < box[j].id
  }

  lemma {:induction false} ReadEachFacts(fs: FS, n: string, ids: seq<ID>)
    requires forall i, j | 0 <= i < j < |ids| :: ids[i] < ids[j]
    ensures Ascending(ReadEach(fs, n, ids))
    ensures forall m :: m in ReadEach(fs, n, ids) <==> m.id in ids && Read(fs, n, m.id) == Some(m)
  {
    if ids != [] {
      var rest := ids[1..];
      ReadEachFacts(fs, n, rest);
      assert forall i | 0 <= i < |rest| :: rest[i] == ids[i + 1];
      assert ids == [ids[0]] + rest;
      assert forall m | m in ReadEach(fs, n, rest) :: ids[0] < m.id;
    }
  }

  lemma ListingFacts(fs: FS, n: string)
    ensures Ascending(Listing(fs, n))
    ensures forall m :: m in Listing(fs, n) <==> Read(fs, n, m.id) == Some(m)
  {
    var ids := Sorted(JsonIds(fs, n));
    ReadEachFacts(fs, n, ids);
    forall m: Msg | Read(fs, n, m.id) == Some(m) ensures m in Listing(fs, n) {
      assert JsonOf(n, m.id) in fs;
      assert m.id in JsonIds(fs, n);
    }
  }

  lemma {:induction false} AscendingUnique(a: seq<Msg>, b: seq<Msg>)
    requires Ascending(a) && Ascending(b)
    requires forall m :: m in a <==> m in b
    ensures a == b
  {
    HasMember(a);
    HasMember(b);
    if a != [] {
      SameFirst(a, b);
      forall m ensures m in a[1..] <==> m in b[1..] {
        TailMember(a, m);
        TailMember(b, m);
      }
      AscendingUnique(a[1..], b[1..]);
      assert a == [a[0]] + a[1..] && b == [b[0]] + b[1..];
    }
  }

  lemma HasMember<T>(s: seq<T>)
    ensures s != [] <==> exists x :: x in s
    ensures s != [] ==> s[0] in s
  {
    if s != [] {
      assert s[0] in s;
    }
  }

  lemma SameFirst(a: seq<Msg>, b: seq<Msg>)
    requires Ascending(a) && Ascending(b) && a != [] && b != []
    requires a[0] in b && b[0] in a
    ensures a[0] == b[0]
  {
  }

  lemma TailMember(a: seq<Msg>, m: Msg)
    requires Ascending(a) && a != []
    ensures m in a[1..] <==> m in a && m != a[0]
  {
    assert a == [a[0]] + a[1..];
    assert forall i | 0 <= i < |a[1..]| :: a[1..][i] == a[i + 1];
  }

  // ---------------------------------------------------------------------------
  // The mirror
  // ---------------------------------------------------------------------------

  function Lookup(box: seq<Msg>, id: ID): Option<Msg> {
    var i := IndexOfID(box, id);
    if i < |box| then Some(box[i]) else None
  }

  /** Exactly the messages of `box` are visible in the directory of mailbox `n`. */
  ghost predicate OnDisk(fs: FS, n: string, box: seq<Msg>) {
    forall id :: Read(fs, n, id) == Lookup(box, id)
  }

  ghost predicate Mirrors(fs: FS, s: State) {
    forall n | n in s.boxes :: OnDisk(fs, n, s.boxes[n])
  }

  lemma LookupAt(box: seq<Msg>, i: nat)
    requires DistinctIds(box) && i < |box|
    ensures Lookup(box, box[i].id) == Some(box[i])
  {
  }

  lemma LookupMember(box: seq<Msg>, m: Msg)
    requires DistinctIds(box)
    ensures Lookup(box, m.id) == Some(m) <==> m in box
  {
    if m in box {
      var i :| 0 <= i < |box| && box[i] == m;
      LookupAt(box, i);
    }
  }

  lemma ListingOfBox(fs: FS, n: string, box: seq<Msg>)
    requires OnDisk(fs, n, box) && DistinctIds(box)
    ensures forall m :: m in Listing(fs, n) <==> m in box
  {
    ListingFacts(fs, n);
    forall m ensures m in Listing(fs, n) <==> m in box {
      LookupMember(box, m);
    }
  }

  /** Loading restores the order of a mirrored queue exactly when its IDs ascend. */
  lemma ListingRestoresIff(fs: FS, n: string, box: seq<Msg>)
    requires OnDisk(fs, n, box) && DistinctIds(box)
    ensures Listing(fs, n) == box <==> Ascending(box)
    ensures |Listing(fs, n)| == |box|
  {
    ListingFacts(fs, n);
    ListingOfBox(fs, n, box);
    if Ascending(box) {
      AscendingUnique(Listing(fs, n), box);
    }
    SameSize(Listing(fs, n), box);
  }

  lemma SameSize(a: seq<Msg>, b: seq<Msg>)
    requires DistinctIds(a) && DistinctIds(b) && forall m :: m in a <==> m in b
    ensures |a| == |b|
  {
    assert Distinct(a) && Distinct(b);
    DistinctCount(a);
    DistinctCount(b);
    assert Members(a) == Members(b);
  }

  lemma ReadDecides(fs: FS, fs': FS, n: string)
    requires forall id :: Read(fs, n, id) == Read(fs', n, id)
    ensures Listing(fs, n) == Listing(fs', n)
  {
    ListingFacts(fs, n);
    ListingFacts(fs', n);
    AscendingUnique(Listing(fs, n), Listing(fs', n));
  }

  // ---------------------------------------------------------------------------
  // What single steps do to visibility
  // ---------------------------------------------------------------------------

  lemma DoAllAppend(fs: FS, a: seq<Step>, b: seq<Step>)
    ensures DoAll(fs, a + b) == DoAll(DoAll(fs, a), b)
    decreases a
  {
    if a == [] {
      assert a + b == b;
    } else {
      assert (a + b)[1..] == a[1..] + b;
      DoAllAppend(Do(fs, a[0]), a[1..], b);
    }
  }

  lemma DoOne(fs: FS, a: Step)
    ensures DoAll(fs, [a]) == Do(fs, a)
  {
    assert [a][1..] == [];
  }

  lemma DoTwo(fs: FS, a: Step, b: Step)
    ensures DoAll(fs, [a, b]) == Do(Do(fs, a), b)
  {
    assert [a, b][1..] == [b];
    DoOne(Do(fs, a), b);
  }

  lemma WriteAtomically(fs: FS, file: File, content: Content)
    requires !file.tmp
    ensures DoAll(fs, AtomicSteps(file, content)) == (fs - {TmpOf(file)})[file := content]
  {
    DoTwo(fs, WriteTmp(file, content), Rename(file));
    assert fs[TmpOf(file) := content] - {TmpOf(file)} == fs - {TmpOf(file)};
  }

  /** The directory after some prefix of the steps, the next write cut short at any point. */
  ghost predicate MayCrashIn(fs: FS, steps: seq<Step>, fs': FS) {
    exists k :: 0 <= k <= |steps| && CrashAt(fs, steps, k, fs')
  }

  ghost predicate CrashAt(fs: FS, steps: seq<Step>, k: nat, fs': FS)
    requires k <= |steps|
  {
    || fs' == DoAll(fs, steps[..k])
    || (k < |steps| && steps[k].WriteTmp?
        && exists torn :: fs' == TornWrite(DoAll(fs, steps[..k]), steps[k].file, torn))
  }

  function TornWrite(fs: FS, file: File, torn: Content): FS {
    fs[TmpOf(file) := torn]
  }

  /** A cut-short write of a temporary file shows the same as not having begun it. */
  lemma CrashReads(fs: FS, steps: seq<Step>, k: nat, fs': FS, n: string)
    requires k <= |steps| && CrashAt(fs, steps, k, fs')
    ensures forall id :: Read(fs', n, id) == Read(DoAll(fs, steps[..k]), n, id)
  {
  }

  /** Crashing in `a + b` is crashing in `a`, or in `b` once `a` is done. */
  lemma CrashSplit(fs: FS, a: seq<Step>, b: seq<Step>, k: nat)
    requires k <= |a + b|
    ensures k <= |a| ==> DoAll(fs, (a + b)[..k]) == DoAll(fs, a[..k])
    ensures k > |a| ==> DoAll(fs, (a + b)[..k]) == DoAll(DoAll(fs, a), b[..k - |a|])
  {
    if k <= |a| {
      assert (a + b)[..k] == a[..k];
    } else {
      assert (a + b)[..k] == a + b[..k - |a|];
      DoAllAppend(fs, a, b[..k - |a|]);
    }
  }

  /** No file of this ID has its final name yet. */
  ghost predicate Unwritten(fs: FS, n: string, id: ID) {
    EmlOf(n, id) !in fs && JsonOf(n, id) !in fs
  }

  /** Saving a new message: invisible until the last rename, then complete. */
  lemma SaveNewReads(fs: FS, m: Msg, k: nat, n: string, id: ID)
    requires Unwritten(fs, m.mailbox, m.id) && k <= |SaveSteps(fs, m)|
    ensures |SaveSteps(fs, m)| == 4
    ensures Read(DoAll(fs, SaveSteps(fs, m)[..k]), n, id)
            == if k == 4 && n == m.mailbox && id == m.id then Some(m) else Read(fs, n, id)
  {
    var eml, json := EmlOf(m.mailbox, m.id), JsonOf(m.mailbox, m.id);
    var a, b := AtomicSteps(eml, Body(m.raw)), AtomicSteps(json, Metadata(MetaOf(m)));
    assert SaveSteps(fs, m) == a + b;
    CrashSplit(fs, a, b, k);
    WriteAtomically(fs, eml, Body(m.raw));
    var fs1 := DoAll(fs, a);
    WriteAtomically(fs1, json, Metadata(MetaOf(m)));
    HalfAtomic(fs, eml, Body(m.raw));
    HalfAtomic(fs1, json, Metadata(MetaOf(m)));
    assert a[..2] == a && b[..2] == b;
  }

  lemma HalfAtomic(fs: FS, file: File, content: Content)
    ensures DoAll(fs, AtomicSteps(file, content)[..0]) == fs
    ensures DoAll(fs, AtomicSteps(file, content)[..1]) == fs[TmpOf(file) := content]
  {
    DoOne(fs, WriteTmp(file, content));
    assert AtomicSteps(file, content)[..1] == [WriteTmp(file, content)];
  }

  /** Saving a message again: the old metadata until the rename, then the new. */
  lemma SaveAgainReads(fs: FS, was: Msg, m: Msg, k: nat, n: string, id: ID)
    requires was == m.(read := was.read) && Read(fs, m.mailbox, m.id) == Some(was) && k <= |SaveSteps(fs, m)|
    ensures |SaveSteps(fs, m)| == 2
    ensures Read(DoAll(fs, SaveSteps(fs, m)[..k]), n, id)
            == if k == 2 && n == m.mailbox && id == m.id then Some(m) else Read(fs, n, id)
  {
    var json := JsonOf(m.mailbox, m.id);
    var b := AtomicSteps(json, Metadata(MetaOf(m)));
    assert SaveSteps(fs, m) == b && b[..2] == b;
    WriteAtomically(fs, json, Metadata(MetaOf(m)));
    HalfAtomic(fs, json, Metadata(MetaOf(m)));
  }

  /** Removing one message: gone with the first of its two files. */
  lemma RemoveReads(fs: FS, m: Msg, k: nat, n: string, id: ID)
    requires k <= 2
    ensures Read(DoAll(fs, RemoveSteps(m)[..k]), n, id)
            == if k >= 1 && n == m.mailbox && id == m.id then None else Read(fs, n, id)
  {
    var steps := RemoveSteps(m);
    DoOne(fs, steps[0]);
    DoTwo(fs, steps[0], steps[1]);
    assert steps[..k] == if k == 0 then [] else if k == 1 then [steps[0]] else [steps[0], steps[1]];
  }

  lemma {:induction false} RemoveAllCount(gone: seq<Msg>)
    ensures |RemoveAllSteps(gone)| == 2 * |gone|
  {
    if gone != [] {
      RemoveAllCount(gone[1..]);
    }
  }

  ghost predicate AmongFirst(gone: seq<Msg>, count: nat, n: string, id: ID)
    requires count <= |gone|
  {
    exists i :: 0 <= i < count && gone[i].mailbox == n && gone[i].id == id
  }

  /** Removing several messages, stopped anywhere: a prefix of them is gone. */
  lemma {:induction false} RemoveAllReads(fs: FS, gone: seq<Msg>, k: nat, n: string, id: ID)
    requires k <= |RemoveAllSteps(gone)|
    ensures (k + 1) / 2 <= |gone|
    ensures Read(DoAll(fs, RemoveAllSteps(gone)[..k]), n, id)
            == if AmongFirst(gone, (k + 1) / 2, n, id) then None else Read(fs, n, id)
    decreases gone
  {
    RemoveAllCount(gone);
    if gone != [] {
      var m, rest := gone[0], gone[1..];
      CrashSplit(fs, RemoveSteps(m), RemoveAllSteps(rest), k);
      if k <= 2 {
        RemoveReads(fs, m, k, n, id);
        FirstAmong(gone, (k + 1) / 2, n, id);
      } else {
        var fs1 := DoAll(fs, RemoveSteps(m));
        assert RemoveSteps(m)[..2] == RemoveSteps(m);
        RemoveReads(fs, m, 2, n, id);
        RemoveAllCount(rest);
        RemoveAllReads(fs1, rest, k - 2, n, id);
        AmongCons(gone, (k + 1) / 2, n, id);
      }
    }
  }

  lemma FirstAmong(gone: seq<Msg>, count: nat, n: string, id: ID)
    requires gone != [] && count <= 1
    ensures AmongFirst(gone, count, n, id) <==> count == 1 && gone[0].mailbox == n && gone[0].id == id
  {
  }

  lemma AmongCons(gone: seq<Msg>, count: nat, n: string, id: ID)
    requires 1 <= count <= |gone|
    ensures AmongFirst(gone, count, n, id)
            <==> (gone[0].mailbox == n && gone[0].id == id) || AmongFirst(gone[1..], count - 1, n, id)
  {
    var rest := gone[1..];
    if i :| 0 <= i < count && gone[i].mailbox == n && gone[i].id == id {
      if i > 0 {
        assert rest[i - 1] == gone[i];
      }
    }
    if j :| 0 <= j < count - 1 && rest[j].mailbox == n && rest[j].id == id {
      assert gone[j + 1] == rest[j];
    }
  }
}

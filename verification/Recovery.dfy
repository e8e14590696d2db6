/**
 What a crash or a restart does to the stored mail: which of the file steps of an
 operation decides it, and when loading brings back exactly the queues.
 */
module Recovery {
  import opened Bytes
  import opened StoreModel
  import opened Disk

  function SaveAllSteps(fs: FS, ms: seq<Msg>): seq<Step>
    decreases ms
  {
    if ms == [] then []
    else SaveSteps(fs, ms[0]) + SaveAllSteps(DoAll(fs, SaveSteps(fs, ms[0])), ms[1..])
  }

  function DeliverSteps(fs: FS, s: State, cap: int, m: Msg): seq<Step>
    requires m.mailbox in s.boxes
  {
    SaveSteps(fs, m) + RemoveAllSteps(Evicted(s, cap, m))
  }

  /** The file steps of an operation, in the order they are carried out. */
  function OpSteps(fs: FS, s: State, limits: Limits, op: Op): seq<Step> {
    match op
    case Deliver(_, _, _, _, _, _) =>
      if Accepts(s, limits, op) then DeliverSteps(fs, s, limits.maxMessages, Incoming(op)) else []
    case Delete(id) =>
      if id in s.byID && s.byID[id] in s.boxes then
        match Lookup(s.boxes[s.byID[id]], id)
        case Some(m) => RemoveSteps(m)
        case None => []
      else []
    case Clear(n) => if n in s.boxes then RemoveAllSteps(s.boxes[n]) else []
    case MarkRead(id, read) =>
      if id in s.byID && s.byID[id] in s.boxes then
        match Lookup(s.boxes[s.byID[id]], id)
        case Some(m) => if m.read != read then SaveSteps(fs, m.(read := read)) else []
        case None => []
      else []
    case MarkAllRead(n) => if n in s.boxes then SaveAllSteps(fs, NewlyRead(s.boxes[n])) else []
  }

  /** A new message's files do not exist yet. */
  ghost predicate Ready(fs: FS, op: Op) {
    op.Deliver? ==> Unwritten(fs, op.mailbox, op.id)
  }

  // ---------------------------------------------------------------------------
  // Lookups in changed queues
  // ---------------------------------------------------------------------------

  lemma LookupNone(box: seq<Msg>, id: ID)
    ensures Lookup(box, id) == None <==> !HasID(box, id)
  {
  }

  lemma LookupAppend(box: seq<Msg>, m: Msg, id: ID)
    requires DistinctIds(box + [m])
    ensures Lookup(box + [m], id) == if id == m.id then Some(m) else Lookup(box, id)
  {
    var grown := box + [m];
    if id == m.id {
      LookupAt(grown, |box|);
    } else {
      var i := IndexOfID(box, id);
      if i < |box| {
        assert grown[i] == box[i];
        LookupAt(grown, i);
      } else {
        LookupNone(grown, id);
      }
    }
  }

  lemma LookupDrop(box: seq<Msg>, n: string, count: nat, id: ID)
    requires DistinctIds(box) && count <= |box| && forall m | m in box :: m.mailbox == n
    ensures Lookup(box[count..], id) == if AmongFirst(box, count, n, id) then None else Lookup(box, id)
  {
    var rest := box[count..];
    assert forall i | 0 <= i < |box| :: box[i] in box;
    assert forall j | 0 <= j < |rest| :: rest[j] == box[count + j];
    LookupNone(rest, id);
    LookupNone(box, id);
    var i := IndexOfID(box, id);
    if i < |box| && !AmongFirst(box, count, n, id) {
      assert rest[i - count] == box[i];
      LookupAt(rest, i - count);
    }
  }

  lemma LookupWithout(box: seq<Msg>, x: ID, id: ID)
    requires DistinctIds(box)
    ensures Lookup(Without(box, x), id) == if id == x then None else Lookup(box, id)
  {
    var r, i := Without(box, x), IndexOfID(box, x);
    WithoutFacts(box, x);
    LookupNone(r, id);
    if id != x {
      match Lookup(box, id)
      case Some(m) =>
        LookupMember(box, m);
        LookupMember(r, m);
      case None =>
        LookupNone(box, id);
        assert forall k | 0 <= k < |r| :: r[k] in r && r[k] in box;
    }
  }

  lemma LookupWithRead(box: seq<Msg>, x: ID, read: bool, id: ID)
    requires DistinctIds(box)
    ensures Lookup(WithRead(box, x, read), id)
            == match Lookup(box, id)
               case None => None
               case Some(m) => Some(if id == x then m.(read := read) else m)
  {
    var r, i := WithRead(box, x, read), IndexOfID(box, id);
    if i < |box| {
      LookupAt(r, i);
    } else {
      LookupNone(box, id);
      LookupNone(r, id);
    }
  }

  // ---------------------------------------------------------------------------
  // Crash points
  // ---------------------------------------------------------------------------

  /** What the new message's mailbox shows on disk after `k` steps of a delivery. */
  ghost function ShownAfter(s: State, m: Msg, k: nat): seq<Msg>
    requires m.mailbox in s.boxes
  {
    if k < 4 then s.boxes[m.mailbox]
    else if (k - 3) / 2 <= |Grown(s, m)| then Grown(s, m)[(k - 3) / 2..]
    else []
  }

  lemma GrownFacts(s: State, m: Msg)
    requires Agrees(s) && m.mailbox in s.boxes && m.id !in s.byID
    ensures DistinctIds(Grown(s, m))
    ensures forall x | x in Grown(s, m) :: x.mailbox == m.mailbox
  {
    assert BoxAgrees(s, m.mailbox);
  }

  /** A delivery stopped anywhere shows the old queue, or the grown one less some evicted. */
  lemma DeliverCrash(fs: FS, s: State, cap: int, m: Msg, k: nat, fs': FS, n: string)
    requires Mirrors(fs, s) && Agrees(s) && m.mailbox in s.boxes && n in s.boxes
    requires m.id !in s.byID && Unwritten(fs, m.mailbox, m.id)
    requires k <= |DeliverSteps(fs, s, cap, m)| && CrashAt(fs, DeliverSteps(fs, s, cap, m), k, fs')
    ensures |DeliverSteps(fs, s, cap, m)| == 4 + 2 * Excess(|Grown(s, m)|, cap)
    ensures OnDisk(fs', n, if n == m.mailbox then ShownAfter(s, m, k) else s.boxes[n])
  {
    var save, gone := SaveSteps(fs, m), Evicted(s, cap, m);
    SaveNewReads(fs, m, 4, n, m.id);
    RemoveAllCount(gone);
    CrashReads(fs, DeliverSteps(fs, s, cap, m), k, fs', n);
    CrashSplit(fs, save, RemoveAllSteps(gone), k);
    GrownFacts(s, m);
    forall id ensures Read(fs', n, id)
                      == Lookup(if n == m.mailbox then ShownAfter(s, m, k) else s.boxes[n], id)
    {
      DeliverCrashID(fs, s, cap, m, k, n, id);
    }
  }

  lemma DeliverCrashID(fs: FS, s: State, cap: int, m: Msg, k: nat, n: string, id: ID)
    requires Mirrors(fs, s) && Agrees(s) && m.mailbox in s.boxes && n in s.boxes
    requires m.id !in s.byID && Unwritten(fs, m.mailbox, m.id)
    requires k <= |DeliverSteps(fs, s, cap, m)|
    ensures Read(DoAll(fs, DeliverSteps(fs, s, cap, m)[..k]), n, id)
            == Lookup(if n == m.mailbox then ShownAfter(s, m, k) else s.boxes[n], id)
  {
    var save, gone, box := SaveSteps(fs, m), Evicted(s, cap, m), s.boxes[n];
    SaveNewReads(fs, m, 4, n, id);
    CrashSplit(fs, save, RemoveAllSteps(gone), k);
    GrownFacts(s, m);
    assert Read(fs, n, id) == Lookup(box, id);
    assert save[..4] == save;
    if n == m.mailbox {
      LookupAppend(box, m, id);
    }
    if k <= 4 {
      SaveNewReads(fs, m, k, n, id);
      assert k == 4 ==> Grown(s, m)[0..] == Grown(s, m);
    } else {
      RemoveAllReads(DoAll(fs, save), gone, k - 4, n, id);
      FrontIsAmong(Grown(s, m), |gone|, (k - 3) / 2, n, id);
      if n == m.mailbox {
        LookupDrop(Grown(s, m), n, (k - 3) / 2, id);
      } else {
        assert !AmongFirst(Grown(s, m), (k - 3) / 2, n, id) by {
          assert forall i | 0 <= i < |Grown(s, m)| :: Grown(s, m)[i] in Grown(s, m);
        }
      }
    }
  }

  lemma FrontIsAmong(box: seq<Msg>, cut: nat, count: nat, n: string, id: ID)
    requires count <= cut <= |box|
    ensures AmongFirst(box[..cut], count, n, id) <==> AmongFirst(box, count, n, id)
  {
    assert forall i | 0 <= i < count :: box[..cut][i] == box[i];
  }

  lemma DeleteCrash(fs: FS, s: State, limits: Limits, x: ID, k: nat, fs': FS, n: string)
    requires Mirrors(fs, s) && Agrees(s) && n in s.boxes && x in s.byID
    requires k <= |OpSteps(fs, s, limits, Delete(x))| && CrashAt(fs, OpSteps(fs, s, limits, Delete(x)), k, fs')
    ensures |OpSteps(fs, s, limits, Delete(x))| == 2
    ensures OnDisk(fs', n, if k == 0 then s.boxes[n] else Apply(s, limits, Delete(x)).boxes[n])
  {
    var home := s.byID[x];
    assert BoxAgrees(s, home) && BoxAgrees(s, n) && HasID(s.boxes[home], x);
    var m := Lookup(s.boxes[home], x).value;
    LookupNone(s.boxes[home], x);
    LookupMember(s.boxes[home], m);
    CrashReads(fs, OpSteps(fs, s, limits, Delete(x)), k, fs', n);
    forall id ensures Read(fs', n, id)
                      == Lookup(if k == 0 then s.boxes[n] else Apply(s, limits, Delete(x)).boxes[n], id)
    {
      RemoveReads(fs, m, k, n, id);
      LookupWithout(s.boxes[home], x, id);
      assert Read(fs, n, id) == Lookup(s.boxes[n], id);
    }
  }

  lemma MarkReadCrash(fs: FS, s: State, limits: Limits, x: ID, read: bool, k: nat, fs': FS, n: string)
    requires Mirrors(fs, s) && Agrees(s) && n in s.boxes && x in s.byID
    requires k <= |OpSteps(fs, s, limits, MarkRead(x, read))|
    requires CrashAt(fs, OpSteps(fs, s, limits, MarkRead(x, read)), k, fs')
    ensures |OpSteps(fs, s, limits, MarkRead(x, read))| in {0, 2}
    ensures OnDisk(fs', n, if k < |OpSteps(fs, s, limits, MarkRead(x, read))| then s.boxes[n]
                           else Apply(s, limits, MarkRead(x, read)).boxes[n])
  {
    var home, op := s.byID[x], MarkRead(x, read);
    assert BoxAgrees(s, home) && BoxAgrees(s, n) && HasID(s.boxes[home], x);
    LookupNone(s.boxes[home], x);
    var was := Lookup(s.boxes[home], x).value;
    LookupMember(s.boxes[home], was);
    CrashReads(fs, OpSteps(fs, s, limits, op), k, fs', n);
    assert Read(fs, home, x) == Some(was);
    var m := was.(read := read);
    assert m.mailbox == home && m.id == x;
    SaveAgainReads(fs, was, m, 0, n, x);
    forall id ensures Read(fs', n, id)
                      == Lookup(if k < |OpSteps(fs, s, limits, op)| then s.boxes[n] else Apply(s, limits, op).boxes[n], id)
    {
      LookupWithRead(s.boxes[home], x, read, id);
      assert Read(fs, n, id) == Lookup(s.boxes[n], id);
      if was.read != read {
        SaveAgainReads(fs, was, m, k, n, id);
      }
    }
  }

  /** Clearing is not atomic: stopped anywhere, it has removed a prefix of the queue. */
  lemma ClearCrash(fs: FS, s: State, limits: Limits, name: string, k: nat, fs': FS, n: string)
    requires Mirrors(fs, s) && Agrees(s) && n in s.boxes && name in s.boxes
    requires k <= |OpSteps(fs, s, limits, Clear(name))| && CrashAt(fs, OpSteps(fs, s, limits, Clear(name)), k, fs')
    ensures |OpSteps(fs, s, limits, Clear(name))| == 2 * |s.boxes[name]|
    ensures OnDisk(fs', n, if n == name then s.boxes[n][(k + 1) / 2..] else s.boxes[n])
  {
    var gone := s.boxes[name];
    RemoveAllCount(gone);
    assert BoxAgrees(s, name);
    CrashReads(fs, OpSteps(fs, s, limits, Clear(name)), k, fs', n);
    forall id ensures Read(fs', n, id) == Lookup(if n == name then gone[(k + 1) / 2..] else s.boxes[n], id) {
      RemoveAllReads(fs, gone, k, n, id);
      assert Read(fs, n, id) == Lookup(s.boxes[n], id);
      if n == name {
        LookupDrop(gone, n, (k + 1) / 2, id);
      }
    }
  }

  // ---------------------------------------------------------------------------
  // Marking a whole mailbox
  // ---------------------------------------------------------------------------

  /** Each message is already on disk in its unread form. */
  ghost predicate Resavable(fs: FS, n: string, ms: seq<Msg>) {
    && DistinctIds(ms)
    && forall i | 0 <= i < |ms| :: ms[i].mailbox == n && ms[i].read && Read(fs, n, ms[i].id) == Some(ms[i].(read := false))
  }

  ghost predicate AmongIds(ms: seq<Msg>, count: nat, id: ID)
    requires count <= |ms|
  {
    exists i :: 0 <= i < count && ms[i].id == id
  }

  lemma ResavableTail(fs: FS, n: string, ms: seq<Msg>)
    requires ms != [] && Resavable(fs, n, ms)
    ensures Resavable(DoAll(fs, SaveSteps(fs, ms[0])), n, ms[1..])
    ensures |SaveSteps(fs, ms[0])| == 2
    ensures forall x, id :: Read(DoAll(fs, SaveSteps(fs, ms[0])), x, id)
              == if x == n && id == ms[0].id then Some(ms[0]) else Read(fs, x, id)
  {
    var m, rest := ms[0], ms[1..];
    var steps := SaveSteps(fs, m);
    SaveAgainReads(fs, m.(read := false), m, 2, n, m.id);
    assert steps[..2] == steps;
    forall x, id ensures Read(DoAll(fs, steps), x, id) == if x == n && id == m.id then Some(m) else Read(fs, x, id) {
      SaveAgainReads(fs, m.(read := false), m, 2, x, id);
    }
    assert forall i | 0 <= i < |rest| :: rest[i] == ms[i + 1] && rest[i].id != m.id;
  }

  /** Stopped anywhere, a prefix of the messages has been marked on disk. */
  lemma {:induction false} SaveAllReads(fs: FS, n: string, ms: seq<Msg>, k: nat, x: string, id: ID)
    requires Resavable(fs, n, ms) && k <= |SaveAllSteps(fs, ms)|
    ensures |SaveAllSteps(fs, ms)| == 2 * |ms|
    ensures Read(DoAll(fs, SaveAllSteps(fs, ms)[..k]), x, id)
            == if x == n && AmongIds(ms, k / 2, id) then Some(Lookup(ms, id).value) else Read(fs, x, id)
    decreases ms
  {
    if ms != [] {
      var m, rest := ms[0], ms[1..];
      var steps := SaveSteps(fs, m);
      var fs1 := DoAll(fs, steps);
      ResavableTail(fs, n, ms);
      CrashSplit(fs, steps, SaveAllSteps(fs1, rest), k);
      SaveAllReads(fs1, n, rest, 0, x, id);
      AmongIdsCons(ms, k / 2, id);
      if k < 2 {
        SaveAgainReads(fs, m.(read := false), m, k, x, id);
      } else {
        SaveAllReads(fs1, n, rest, k - 2, x, id);
        assert steps[..2] == steps && (k - 2) / 2 == k / 2 - 1;
      }
    }
  }

  lemma AmongIdsCons(ms: seq<Msg>, count: nat, id: ID)
    requires ms != [] && count <= |ms| && DistinctIds(ms)
    ensures AmongIds(ms, count, id)
            <==> count > 0 && (ms[0].id == id || AmongIds(ms[1..], count - 1, id))
    ensures Lookup(ms, id) == if ms[0].id == id then Some(ms[0]) else Lookup(ms[1..], id)
  {
    var rest := ms[1..];
    assert forall j | 0 <= j < |rest| :: rest[j] == ms[j + 1];
    if i :| 0 <= i < count && ms[i].id == id {
      if i > 0 {
        assert rest[i - 1].id == id;
      }
    }
    if count > 0 && AmongIds(rest, count - 1, id) {
      var j :| 0 <= j < count - 1 && rest[j].id == id;
      assert ms[j + 1].id == id;
    }
  }

  lemma {:induction false} NewlyReadMembers(box: seq<Msg>)
    ensures forall m :: m in NewlyRead(box) <==> m.read && m.(read := false) in box
  {
    if box != [] {
      var rest := box[1..];
      NewlyReadMembers(rest);
      assert box == [box[0]] + rest;
      forall m ensures m in NewlyRead(box) <==> m.read && m.(read := false) in box {
        assert m.read && m.(read := false) == box[0] ==> m == box[0].(read := true);
      }
    }
  }

  lemma {:induction false} NewlyReadDistinct(box: seq<Msg>)
    requires DistinctIds(box)
    ensures DistinctIds(NewlyRead(box))
  {
    if box != [] {
      var rest, marked := box[1..], NewlyRead(box[1..]);
      assert forall i | 0 <= i < |rest| :: rest[i] == box[i + 1] && rest[i].id != box[0].id;
      NewlyReadDistinct(rest);
      NewlyReadMembers(rest);
      forall i | 0 <= i < |marked| ensures marked[i].id != box[0].id {
        assert marked[i] in marked && marked[i].(read := false) in rest;
      }
    }
  }

  lemma NewlyReadFacts(box: seq<Msg>)
    requires DistinctIds(box)
    ensures DistinctIds(NewlyRead(box))
    ensures forall m :: m in NewlyRead(box) <==> m.read && m.(read := false) in box
  {
    NewlyReadDistinct(box);
    NewlyReadMembers(box);
  }

  /** The queue with its `count` oldest unread messages marked. */
  function MarkedFirst(box: seq<Msg>, count: nat): (r: seq<Msg>)
    ensures |r| == |box|
    ensures forall i | 0 <= i < |box| :: r[i].(read := box[i].read) == box[i]
  {
    if box == [] || count == 0 then box
    else if box[0].read then [box[0]] + MarkedFirst(box[1..], count)
    else [box[0].(read := true)] + MarkedFirst(box[1..], count - 1)
  }

  lemma LookupCons(m: Msg, rest: seq<Msg>, id: ID)
    ensures Lookup([m] + rest, id) == if m.id == id then Some(m) else Lookup(rest, id)
  {
    IndexCons(m, rest, id);
  }

  lemma {:induction false} MarkedAll(box: seq<Msg>)
    ensures MarkedFirst(box, |NewlyRead(box)|) == AllRead(box)
  {
    if box != [] {
      var rest := box[1..];
      MarkedAll(rest);
      assert AllRead(box) == [box[0].(read := true)] + AllRead(rest);
      if |NewlyRead(box)| == 0 {
        assert MarkedFirst(rest, 0) == rest;
        assert box == [box[0]] + rest;
      }
    }
  }

  lemma UnreadCons(m: Msg, rest: seq<Msg>)
    ensures NewlyRead([m] + rest) == if m.read then NewlyRead(rest) else [m.(read := true)] + NewlyRead(rest)
    ensures forall count: nat :: MarkedFirst([m] + rest, count)
              == if count == 0 then [m] + rest
                 else if m.read then [m] + MarkedFirst(rest, count)
                 else [m.(read := true)] + MarkedFirst(rest, count - 1)
  {
    assert ([m] + rest)[1..] == rest;
  }

  /** What a lookup finds once the first `count` unread messages are marked. */
  ghost predicate FindsMarked(box: seq<Msg>, count: nat, id: ID)
    requires count <= |NewlyRead(box)|
  {
    Lookup(MarkedFirst(box, count), id)
    == match Lookup(box, id)
       case None => None
       case Some(m) => Some(if AmongIds(NewlyRead(box), count, id) then m.(read := true) else m)
  }

  lemma FindsBehindRead(m: Msg, rest: seq<Msg>, count: nat, id: ID)
    requires m.read && DistinctIds([m] + rest) && 0 < count <= |NewlyRead(rest)| && FindsMarked(rest, count, id)
    ensures NewlyRead([m] + rest) == NewlyRead(rest) && FindsMarked([m] + rest, count, id)
  {
    UnreadCons(m, rest);
    NotMarkedTwice(m, rest, count);
    LookupCons(m, rest, id);
    LookupCons(m, MarkedFirst(rest, count), id);
  }

  lemma FindsBehindUnread(m: Msg, rest: seq<Msg>, count: nat, id: ID)
    requires !m.read && DistinctIds([m] + rest) && 0 < count <= |NewlyRead(rest)| + 1 && FindsMarked(rest, count - 1, id)
    ensures |NewlyRead([m] + rest)| == |NewlyRead(rest)| + 1 && FindsMarked([m] + rest, count, id)
  {
    UnreadCons(m, rest);
    NewlyReadFacts([m] + rest);
    var marked := [m.(read := true)] + NewlyRead(rest);
    assert marked[1..] == NewlyRead(rest);
    AmongIdsCons(marked, count, id);
    LookupCons(m, rest, id);
    LookupCons(m.(read := true), MarkedFirst(rest, count - 1), id);
  }

  lemma FindsBehind(m: Msg, rest: seq<Msg>, count: nat, id: ID)
    requires DistinctIds([m] + rest) && DistinctIds(rest) && 0 < count <= |NewlyRead([m] + rest)|
    requires var more := if m.read then count else count - 1;
             more <= |NewlyRead(rest)| && FindsMarked(rest, more, id)
    ensures FindsMarked([m] + rest, count, id)
  {
    UnreadCons(m, rest);
    if m.read {
      FindsBehindRead(m, rest, count, id);
    } else {
      FindsBehindUnread(m, rest, count, id);
    }
  }

  lemma {:induction false} LookupMarkedFirst(box: seq<Msg>, count: nat, id: ID)
    requires DistinctIds(box) && count <= |NewlyRead(box)|
    ensures FindsMarked(box, count, id)
  {
    if box != [] && count > 0 {
      var m, rest := box[0], box[1..];
      assert box == [m] + rest;
      TailDistinct(m, rest);
      UnreadCons(m, rest);
      LookupMarkedFirst(rest, if m.read then count else count - 1, id);
      FindsBehind(m, rest, count, id);
    }
  }

  lemma TailDistinct(m: Msg, rest: seq<Msg>)
    requires DistinctIds([m] + rest)
    ensures DistinctIds(rest)
  {
    assert forall i | 0 <= i < |rest| :: rest[i] == ([m] + rest)[i + 1];
  }

  /** A message that is read already is not among the marked ones. */
  lemma NotMarkedTwice(m: Msg, rest: seq<Msg>, count: nat)
    requires DistinctIds([m] + rest) && count <= |NewlyRead(rest)|
    ensures !AmongIds(NewlyRead(rest), count, m.id)
  {
    NewlyReadMembers(rest);
    assert forall j | 0 <= j < |rest| :: ([m] + rest)[0] == m && ([m] + rest)[j + 1] == rest[j] && rest[j].id != m.id;
    forall i | 0 <= i < count ensures NewlyRead(rest)[i].id != m.id {
      assert NewlyRead(rest)[i] in NewlyRead(rest);
      var x := NewlyRead(rest)[i].(read := false);
      var j :| 0 <= j < |rest| && rest[j] == x;
    }
  }

  /** Marking all as read, stopped anywhere, has marked the oldest unread messages. */
  lemma MarkAllCrash(fs: FS, s: State, limits: Limits, name: string, k: nat, fs': FS, n: string)
    requires Mirrors(fs, s) && Agrees(s) && n in s.boxes && name in s.boxes
    requires k <= |OpSteps(fs, s, limits, MarkAllRead(name))|
    requires CrashAt(fs, OpSteps(fs, s, limits, MarkAllRead(name)), k, fs')
    ensures |OpSteps(fs, s, limits, MarkAllRead(name))| == 2 * |NewlyRead(s.boxes[name])|
    ensures OnDisk(fs', n, if n == name then MarkedFirst(s.boxes[n], k / 2) else s.boxes[n])
  {
    var box, ms := s.boxes[name], NewlyRead(s.boxes[name]);
    assert BoxAgrees(s, name);
    assert OnDisk(fs, name, box) && OnDisk(fs, n, s.boxes[n]);
    UnreadAreResavable(fs, name, box);
    CrashReads(fs, SaveAllSteps(fs, ms), k, fs', n);
    SaveAllReads(fs, name, ms, k, n, 0);
    forall id ensures Read(fs', n, id) == Lookup(if n == name then MarkedFirst(box, k / 2) else s.boxes[n], id) {
      SaveAllReads(fs, name, ms, k, n, id);
      LookupMarkedFirst(box, k / 2, id);
      LookupNewlyRead(box, id);
      LookupNone(ms, id);
      assert AmongIds(ms, k / 2, id) ==> HasID(ms, id);
      assert Read(fs, n, id) == Lookup(s.boxes[n], id);
    }
  }

  lemma UnreadAreResavable(fs: FS, n: string, box: seq<Msg>)
    requires OnDisk(fs, n, box) && DistinctIds(box) && forall m | m in box :: m.mailbox == n
    ensures Resavable(fs, n, NewlyRead(box))
  {
    var ms := NewlyRead(box);
    NewlyReadFacts(box);
    forall i | 0 <= i < |ms|
      ensures ms[i].mailbox == n && ms[i].read && Read(fs, n, ms[i].id) == Some(ms[i].(read := false))
    {
      assert ms[i] in ms;
      LookupMember(box, ms[i].(read := false));
    }
  }

  /** A queue's marked messages are its unread ones, marked. */
  lemma LookupNewlyRead(box: seq<Msg>, id: ID)
    requires DistinctIds(box)
    ensures Lookup(NewlyRead(box), id)
            == match Lookup(box, id)
               case None => None
               case Some(m) => if m.read then None else Some(m.(read := true))
  {
    NewlyReadFacts(box);
    var ms := NewlyRead(box);
    match Lookup(box, id)
    case None =>
      LookupNone(box, id);
      LookupNone(ms, id);
      if HasID(ms, id) {
        var i :| 0 <= i < |ms| && ms[i].id == id;
        assert ms[i] in ms;
        HasIDMember(box, ms[i].(read := false));
      }
    case Some(m) =>
      LookupMember(box, m);
      if m.read {
        LookupNone(ms, id);
        if HasID(ms, id) {
          var i :| 0 <= i < |ms| && ms[i].id == id;
          assert ms[i] in ms;
          LookupMember(box, ms[i].(read := false));
        }
      } else {
        assert m.(read := true).(read := false) == m;
        LookupMember(ms, m.(read := true));
      }
  }

  // ---------------------------------------------------------------------------
  // Completed operations
  // ---------------------------------------------------------------------------

  lemma Completed(fs: FS, steps: seq<Step>)
    ensures CrashAt(fs, steps, |steps|, DoAll(fs, steps))
  {
    assert steps[..|steps|] == steps;
  }

  /** A completed operation leaves the directory mirroring the new queues. */
  lemma OpMirrors(fs: FS, s: State, limits: Limits, op: Op)
    requires Mirrors(fs, s) && Agrees(s) && Unused(s, op) && Ready(fs, op)
    ensures Mirrors(DoAll(fs, OpSteps(fs, s, limits, op)), Apply(s, limits, op))
  {
    ApplyKeepsNames(s, limits, op);
    forall n | n in s.boxes
      ensures OnDisk(DoAll(fs, OpSteps(fs, s, limits, op)), n, Apply(s, limits, op).boxes[n])
    {
      OpMirrorsBox(fs, s, limits, op, n);
    }
  }

  lemma ApplyKeepsNames(s: State, limits: Limits, op: Op)
    ensures Apply(s, limits, op).boxes.Keys == s.boxes.Keys
  {
  }

  lemma DeliverMirrors(fs: FS, s: State, cap: int, m: Msg, n: string)
    requires Mirrors(fs, s) && Agrees(s) && m.mailbox in s.boxes && n in s.boxes
    requires m.id !in s.byID && Unwritten(fs, m.mailbox, m.id)
    ensures OnDisk(DoAll(fs, DeliverSteps(fs, s, cap, m)), n, Delivered(s, cap, m).boxes[n])
  {
    var steps := DeliverSteps(fs, s, cap, m);
    Completed(fs, steps);
    DeliverCrash(fs, s, cap, m, |steps|, DoAll(fs, steps), n);
  }

  lemma ClearMirrors(fs: FS, s: State, limits: Limits, name: string, n: string)
    requires Mirrors(fs, s) && Agrees(s) && name in s.boxes && n in s.boxes
    ensures OnDisk(DoAll(fs, OpSteps(fs, s, limits, Clear(name))), n, Apply(s, limits, Clear(name)).boxes[n])
  {
    var steps := OpSteps(fs, s, limits, Clear(name));
    Completed(fs, steps);
    RemoveAllCount(s.boxes[name]);
    ClearCrash(fs, s, limits, name, |steps|, DoAll(fs, steps), n);
    assert s.boxes[name][|s.boxes[name]|..] == [];
  }

  lemma MarkAllMirrors(fs: FS, s: State, limits: Limits, name: string, n: string)
    requires Mirrors(fs, s) && Agrees(s) && name in s.boxes && n in s.boxes
    ensures OnDisk(DoAll(fs, OpSteps(fs, s, limits, MarkAllRead(name))), n,
                   Apply(s, limits, MarkAllRead(name)).boxes[n])
  {
    var steps := OpSteps(fs, s, limits, MarkAllRead(name));
    Completed(fs, steps);
    MarkAllCrash(fs, s, limits, name, |steps|, DoAll(fs, steps), n);
    AllMarked(s, limits, name, n, |steps|);
  }

  lemma AllMarked(s: State, limits: Limits, name: string, n: string, k: nat)
    requires n in s.boxes && name in s.boxes && k == 2 * |NewlyRead(s.boxes[name])|
    ensures Apply(s, limits, MarkAllRead(name)).boxes.Keys == s.boxes.Keys
    ensures Apply(s, limits, MarkAllRead(name)).boxes[n]
            == if n == name then MarkedFirst(s.boxes[n], k / 2) else s.boxes[n]
  {
    MarkedAll(s.boxes[name]);
  }

  lemma OpMirrorsBox(fs: FS, s: State, limits: Limits, op: Op, n: string)
    requires Mirrors(fs, s) && Agrees(s) && Unused(s, op) && Ready(fs, op) && n in s.boxes
    ensures OnDisk(DoAll(fs, OpSteps(fs, s, limits, op)), n, Apply(s, limits, op).boxes[n])
  {
    var steps := OpSteps(fs, s, limits, op);
    Completed(fs, steps);
    assert OnDisk(fs, n, s.boxes[n]);
    match op
    case Deliver(_, _, _, _, _, _) =>
      if Accepts(s, limits, op) {
        DeliverMirrors(fs, s, limits.maxMessages, Incoming(op), n);
      }
    case Delete(id) =>
      if id in s.byID {
        DeleteCrash(fs, s, limits, id, |steps|, DoAll(fs, steps), n);
      }
    case Clear(name) =>
      if name in s.boxes {
        ClearMirrors(fs, s, limits, name, n);
      }
    case MarkRead(id, read) =>
      if id in s.byID {
        MarkReadCrash(fs, s, limits, id, read, |steps|, DoAll(fs, steps), n);
      }
    case MarkAllRead(name) =>
      if name in s.boxes {
        MarkAllMirrors(fs, s, limits, name, n);
      }
  }

  // ---------------------------------------------------------------------------
  // Loading
  // ---------------------------------------------------------------------------

  /** Loading an ascending queue keeps the newest messages within the cap, in order. */
  lemma RecoveredOf(fs: FS, n: string, box: seq<Msg>, cap: int)
    requires OnDisk(fs, n, box) && Ascending(box)
    ensures Recovered(fs, n, cap) == box[Excess(|box|, cap)..]
  {
    ListingRestoresIff(fs, n, box);
  }

  function RecoveredAll(fs: FS, names: set<string>, cap: int): map<string, seq<Msg>> {
    map n | n in names :: Recovered(fs, n, cap)
  }

  ghost predicate AllAscending(s: State) {
    forall n | n in s.boxes :: Ascending(s.boxes[n])
  }

  /** The directory is in the middle of removing what loading removes, or done with it. */
  lemma LoadCrashReads(fs: FS, n: string, cap: int, k: nat, fs': FS, id: ID)
    requires k <= |LoadSteps(fs, n, cap)| && CrashAt(fs, LoadSteps(fs, n, cap), k, fs')
    ensures (k + 1) / 2 <= Excess(|Listing(fs, n)|, cap)
    ensures Read(fs', n, id) == Lookup(Listing(fs, n)[(k + 1) / 2..], id)
    ensures k == |LoadSteps(fs, n, cap)| ==> (k + 1) / 2 == Excess(|Listing(fs, n)|, cap)
  {
    var all := Listing(fs, n);
    var gone, count := all[..Excess(|all|, cap)], (k + 1) / 2;
    ListingFacts(fs, n);
    RemoveAllCount(gone);
    CrashReads(fs, LoadSteps(fs, n, cap), k, fs', n);
    RemoveAllReads(fs, gone, k, n, id);
    ListedLookup(fs, n, id);
    forall m | m in all ensures m.mailbox == n {
      assert Read(fs, n, m.id) == Some(m);
    }
    FrontIsAmong(all, |gone|, count, n, id);
    LookupDrop(all, n, count, id);
  }

  lemma ListedLookup(fs: FS, n: string, id: ID)
    ensures Lookup(Listing(fs, n), id) == Read(fs, n, id)
  {
    var all := Listing(fs, n);
    ListingFacts(fs, n);
    match Read(fs, n, id)
    case Some(m) => LookupMember(all, m);
    case None =>
      LookupNone(all, id);
      assert forall i | 0 <= i < |all| :: all[i] in all;
  }

  /**
   Loading can itself be interrupted: whatever the directory holds, and wherever the
   removals stop, the next load brings up the same queue.
   */
  lemma LoadCrashIdempotent(fs: FS, n: string, cap: int, fs': FS)
    requires MayCrashIn(fs, LoadSteps(fs, n, cap), fs')
    ensures Recovered(fs', n, cap) == Recovered(fs, n, cap)
  {
    var steps := LoadSteps(fs, n, cap);
    var k :| 0 <= k <= |steps| && CrashAt(fs, steps, k, fs');
    var all := Listing(fs, n);
    LoadCrashReads(fs, n, cap, k, fs', 0);
    forall id ensures Read(fs', n, id) == Lookup(all[(k + 1) / 2..], id) {
      LoadCrashReads(fs, n, cap, k, fs', id);
    }
    ListingFacts(fs, n);
    RestIsLoaded(fs', n, all, (k + 1) / 2, cap);
  }

  /** Dropping a few of the messages that are over the cap does not change what loading keeps. */
  lemma RestIsLoaded(fs: FS, n: string, all: seq<Msg>, gone: nat, cap: int)
    requires gone <= Excess(|all|, cap) && Ascending(all) && OnDisk(fs, n, all[gone..])
    ensures Recovered(fs, n, cap) == all[Excess(|all|, cap)..]
  {
    var rest := all[gone..];
    assert forall i | 0 <= i < |rest| :: rest[i] == all[gone + i];
    RecoveredOf(fs, n, rest, cap);
  }

  /** After loading, exactly the loaded messages are visible; the rest is gone from disk. */
  lemma LoadedOnDisk(fs: FS, n: string, cap: int)
    ensures OnDisk(DoAll(fs, LoadSteps(fs, n, cap)), n, Recovered(fs, n, cap))
  {
    var steps := LoadSteps(fs, n, cap);
    Completed(fs, steps);
    forall id ensures Read(DoAll(fs, steps), n, id) == Lookup(Recovered(fs, n, cap), id) {
      LoadCrashReads(fs, n, cap, |steps|, DoAll(fs, steps), id);
    }
  }

  // ---------------------------------------------------------------------------
  // Atomicity
  // ---------------------------------------------------------------------------

  lemma RecoveredUnchanged(fs: FS, s: State, cap: int, n: string)
    requires n in s.boxes && OnDisk(fs, n, s.boxes[n]) && Ascending(s.boxes[n]) && Capped(s, cap)
    ensures Recovered(fs, n, cap) == s.boxes[n]
  {
    RecoveredOf(fs, n, s.boxes[n], cap);
    assert Excess(|s.boxes[n]|, cap) == 0;
  }

  lemma DeliverRecovers(fs: FS, s: State, limits: Limits, op: Op, k: nat, fs': FS, n: string)
    requires op.Deliver? && Accepts(s, limits, op) && n in s.boxes
    requires Mirrors(fs, s) && Agrees(s) && Capped(s, limits.maxMessages) && Unused(s, op) && Ready(fs, op)
    requires Ascending(s.boxes[n]) && Ascending(Grown(s, Incoming(op)))
    requires k <= |OpSteps(fs, s, limits, op)| && CrashAt(fs, OpSteps(fs, s, limits, op), k, fs')
    ensures Recovered(fs', n, limits.maxMessages)
            == if k < 4 then s.boxes[n] else Apply(s, limits, op).boxes[n]
  {
    var m, cap := Incoming(op), limits.maxMessages;
    var grown := Grown(s, m);
    DeliverCrash(fs, s, cap, m, k, fs', n);
    if n != m.mailbox || k < 4 {
      RecoveredUnchanged(fs', s, cap, n);
    } else {
      assert (k - 3) / 2 <= Excess(|grown|, cap) <= |grown|;
      RestIsLoaded(fs', n, grown, (k - 3) / 2, cap);
    }
  }

  lemma DeleteRecovers(fs: FS, s: State, limits: Limits, id: ID, k: nat, fs': FS, n: string)
    requires id in s.byID && n in s.boxes
    requires Mirrors(fs, s) && Agrees(s) && Capped(s, limits.maxMessages) && Ascending(s.boxes[n])
    requires k <= |OpSteps(fs, s, limits, Delete(id))| && CrashAt(fs, OpSteps(fs, s, limits, Delete(id)), k, fs')
    ensures Recovered(fs', n, limits.maxMessages)
            == if k == 0 then s.boxes[n] else Apply(s, limits, Delete(id)).boxes[n]
  {
    DeleteCrash(fs, s, limits, id, k, fs', n);
    if k == 0 {
      RecoveredUnchanged(fs', s, limits.maxMessages, n);
    } else {
      ApplyAgrees(s, limits, Delete(id));
      WithoutAscends(s.boxes[n], id);
      RecoveredUnchanged(fs', Apply(s, limits, Delete(id)), limits.maxMessages, n);
    }
  }

  lemma MarkReadRecovers(fs: FS, s: State, limits: Limits, op: Op, k: nat, fs': FS, n: string)
    requires op.MarkRead? && op.id in s.byID && n in s.boxes
    requires Mirrors(fs, s) && Agrees(s) && Capped(s, limits.maxMessages) && Ascending(s.boxes[n])
    requires k <= |OpSteps(fs, s, limits, op)| && CrashAt(fs, OpSteps(fs, s, limits, op), k, fs')
    ensures Recovered(fs', n, limits.maxMessages)
            == if k < |OpSteps(fs, s, limits, op)| then s.boxes[n] else Apply(s, limits, op).boxes[n]
  {
    assert op == MarkRead(op.id, op.read);
    MarkReadCrash(fs, s, limits, op.id, op.read, k, fs', n);
    if k < |OpSteps(fs, s, limits, op)| {
      RecoveredUnchanged(fs', s, limits.maxMessages, n);
    } else {
      ApplyAgrees(s, limits, op);
      MarkReadAscends(s, limits, op, n);
      RecoveredUnchanged(fs', Apply(s, limits, op), limits.maxMessages, n);
    }
  }

  lemma MarkReadAscends(s: State, limits: Limits, op: Op, n: string)
    requires op.MarkRead? && n in s.boxes && Ascending(s.boxes[n])
    ensures Apply(s, limits, op).boxes.Keys == s.boxes.Keys
    ensures Ascending(Apply(s, limits, op).boxes[n])
  {
  }

  /** An operation without file steps. */
  lemma NothingRecovers(fs: FS, s: State, cap: int, k: nat, fs': FS, n: string)
    requires n in s.boxes && Mirrors(fs, s) && Capped(s, cap) && Ascending(s.boxes[n])
    requires k == 0 && CrashAt(fs, [], k, fs')
    ensures Recovered(fs', n, cap) == s.boxes[n]
  {
    assert fs' == fs;
    RecoveredUnchanged(fs, s, cap, n);
  }

  /** The number of file steps after which an operation has taken effect. */
  ghost function CommitPoint(op: Op): nat {
    match op
    case Deliver(_, _, _, _, _, _) => 4
    case Delete(_) => 1
    case MarkRead(_, _) => 2
    case Clear(_) => 0
    case MarkAllRead(_) => 0
  }

  lemma CrashOutcome(fs: FS, s: State, limits: Limits, op: Op, k: nat, fs': FS, n: string)
    requires op.Deliver? || op.Delete? || op.MarkRead?
    requires Mirrors(fs, s) && Agrees(s) && Capped(s, limits.maxMessages) && Unused(s, op) && Ready(fs, op)
    requires n in s.boxes && Ascending(s.boxes[n])
    requires op.Deliver? && Accepts(s, limits, op) ==> Ascending(Grown(s, Incoming(op)))
    requires k <= |OpSteps(fs, s, limits, op)| && CrashAt(fs, OpSteps(fs, s, limits, op), k, fs')
    ensures k < CommitPoint(op) && OpSteps(fs, s, limits, op) != [] ==> Recovered(fs', n, limits.maxMessages) == s.boxes[n]
    ensures k >= CommitPoint(op) || OpSteps(fs, s, limits, op) == []
            ==> n in Apply(s, limits, op).boxes
                && Recovered(fs', n, limits.maxMessages) == Apply(s, limits, op).boxes[n]
  {
    match op
    case Deliver(_, _, _, _, _, _) =>
      if Accepts(s, limits, op) {
        DeliverRecovers(fs, s, limits, op, k, fs', n);
        SaveNewReads(fs, Incoming(op), 4, n, op.id);
      } else {
        NothingRecovers(fs, s, limits.maxMessages, k, fs', n);
      }
    case Delete(id) =>
      if id in s.byID {
        DeleteRecovers(fs, s, limits, id, k, fs', n);
        DeleteCrash(fs, s, limits, id, k, fs', n);
      } else {
        NothingRecovers(fs, s, limits.maxMessages, k, fs', n);
      }
    case MarkRead(id, read) =>
      if id in s.byID {
        MarkReadRecovers(fs, s, limits, op, k, fs', n);
        MarkReadCrash(fs, s, limits, id, read, k, fs', n);
      } else {
        NothingRecovers(fs, s, limits.maxMessages, k, fs', n);
      }
  }

  /**
   Stop a delivery, a deletion or a change of a read flag between any two file steps,
   or in the middle of writing a temporary file: loading brings up exactly the queues
   before the operation or exactly those after it.
   */
  lemma CrashAtomic(fs: FS, s: State, limits: Limits, op: Op, fs': FS)
    requires op.Deliver? || op.Delete? || op.MarkRead?
    requires Mirrors(fs, s) && Agrees(s) && Capped(s, limits.maxMessages) && Unused(s, op) && Ready(fs, op)
    requires AllAscending(s)
    requires op.Deliver? && Accepts(s, limits, op) ==> Ascending(Grown(s, Incoming(op)))
    requires MayCrashIn(fs, OpSteps(fs, s, limits, op), fs')
    ensures RecoveredAll(fs', s.boxes.Keys, limits.maxMessages) == s.boxes
            || RecoveredAll(fs', s.boxes.Keys, limits.maxMessages) == Apply(s, limits, op).boxes
  {
    var k :| 0 <= k <= |OpSteps(fs, s, limits, op)| && CrashAt(fs, OpSteps(fs, s, limits, op), k, fs');
    forall n | n in s.boxes
      ensures n in Apply(s, limits, op).boxes
      ensures Recovered(fs', n, limits.maxMessages)
              == if k < CommitPoint(op) && OpSteps(fs, s, limits, op) != [] then s.boxes[n]
                 else Apply(s, limits, op).boxes[n]
    {
      CrashOutcome(fs, s, limits, op, k, fs', n);
    }
    ApplyKeepsNames(s, limits, op);
    if k < CommitPoint(op) && OpSteps(fs, s, limits, op) != [] {
      RecoveredAllIs(fs', limits.maxMessages, s.boxes);
    } else {
      RecoveredAllIs(fs', limits.maxMessages, Apply(s, limits, op).boxes);
    }
  }

  lemma RecoveredAllIs(fs: FS, cap: int, boxes: map<string, seq<Msg>>)
    requires forall n | n in boxes :: Recovered(fs, n, cap) == boxes[n]
    ensures RecoveredAll(fs, boxes.Keys, cap) == boxes
  {
  }

  lemma WithoutAscends(box: seq<Msg>, id: ID)
    requires Ascending(box)
    ensures Ascending(Without(box, id))
  {
    var i, r := IndexOfID(box, id), Without(box, id);
    assert forall k | 0 <= k < |r| :: r[k] == box[if k < i then k else k + 1];
  }
}

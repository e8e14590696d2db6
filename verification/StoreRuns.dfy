/** Whole runs of the store: where every delivered message ended up, and what the statistics add up to. */
module StoreRuns {
  import opened Sequences
  import opened StoreModel

  // ---------------------------------------------------------------------------
  // The account of every delivery
  // ---------------------------------------------------------------------------

  /** All IDs delivered to each mailbox in order, and how stored messages left. */
  datatype Ledger = Ledger(
    delivered: map<string, seq<ID>>, evicted: set<ID>, deleted: set<ID>, cleared: set<ID>)

  function IdSet(box: seq<Msg>): set<ID> {
    set m | m in box :: m.id
  }

  ghost function Recorded(l: Ledger, s: State, limits: Limits, op: Op): Ledger {
    match op
    case Deliver(id, n, _, _, _, _) =>
      if Accepts(s, limits, op) && n in l.delivered then
        l.(delivered := l.delivered[n := l.delivered[n] + [id]],
           evicted := l.evicted + IdSet(Evicted(s, limits.maxMessages, Incoming(op))))
      else l
    case Delete(id) => if id in s.byID then l.(deleted := l.deleted + {id}) else l
    case Clear(n) => if n in s.boxes then l.(cleared := l.cleared + IdSet(s.boxes[n])) else l
    case MarkRead(_, _) => l
    case MarkAllRead(_) => l
  }

  /** The IDs of `all` that are in `present`, in the same order. */
  function Kept(all: seq<ID>, present: set<ID>): seq<ID> {
    if all == [] then []
    else (if all[0] in present then [all[0]] else []) + Kept(all[1..], present)
  }

  ghost predicate EverDelivered(l: Ledger, id: ID) {
    exists n :: n in l.delivered && id in l.delivered[n]
  }

  /** The ID source never repeats itself. */
  ghost predicate FreshID(l: Ledger, op: Op) {
    op.Deliver? ==> !EverDelivered(l, op.id)
  }

  ghost predicate DeliveredOnce(l: Ledger) {
    && (forall n | n in l.delivered :: Distinct(l.delivered[n]))
    && forall n, k, id | n in l.delivered && k in l.delivered && id in l.delivered[n] && id in l.delivered[k] :: n == k
  }

  ghost predicate Gone(l: Ledger, id: ID) {
    id in l.evicted || id in l.deleted || id in l.cleared
  }

  /** A queue is exactly the deliveries to it that are still present, in delivery order. */
  ghost predicate QueueKept(s: State, l: Ledger, n: string)
    requires n in s.boxes && n in l.delivered
  {
    Ids(s.boxes[n]) == Kept(l.delivered[n], s.byID.Keys)
  }

  ghost predicate QueuesKept(s: State, l: Ledger) {
    && l.delivered.Keys == s.boxes.Keys
    && forall n | n in s.boxes :: QueueKept(s, l, n)
  }

  /** A message that is not present left in exactly one way. */
  ghost predicate Balanced(l: Ledger, present: set<ID>) {
    && (forall id :: EverDelivered(l, id) <==> id in present || Gone(l, id))
    && (forall id | id in present :: !Gone(l, id))
    && l.evicted !! l.deleted !! l.cleared
  }

  ghost predicate Accounted(s: State, l: Ledger) {
    QueuesKept(s, l) && DeliveredOnce(l) && Balanced(l, s.byID.Keys)
  }

  lemma {:induction false} KeptAppend(a: seq<ID>, b: seq<ID>, present: set<ID>)
    ensures Kept(a + b, present) == Kept(a, present) + Kept(b, present)
  {
    if a == [] {
      assert a + b == b;
    } else {
      var head := if a[0] in present then [a[0]] else [];
      assert (a + b)[1..] == a[1..] + b;
      KeptAppend(a[1..], b, present);
      Assoc(head, Kept(a[1..], present), Kept(b, present));
    }
  }

  lemma {:induction false} KeptMembers(all: seq<ID>, present: set<ID>)
    ensures forall id :: id in Kept(all, present) <==> id in all && id in present
  {
    if all != [] {
      KeptMembers(all[1..], present);
      assert all == [all[0]] + all[1..];
    }
  }

  lemma {:induction false} KeptTwice(all: seq<ID>, p: set<ID>, q: set<ID>)
    ensures Kept(Kept(all, p), q) == Kept(all, p * q)
  {
    if all != [] {
      KeptTwice(all[1..], p, q);
      var head := if all[0] in p then [all[0]] else [];
      KeptAppend(head, Kept(all[1..], p), q);
      assert head != [] ==> head[1..] == [];
    }
  }

  lemma {:induction false} KeptSame(all: seq<ID>, p: set<ID>, q: set<ID>)
    requires forall id | id in all :: id in p <==> id in q
    ensures Kept(all, p) == Kept(all, q)
  {
    if all != [] {
      KeptSame(all[1..], p, q);
    }
  }

  lemma {:induction false} KeptAll(all: seq<ID>, p: set<ID>)
    requires forall id | id in all :: id in p
    ensures Kept(all, p) == all
  {
    if all != [] {
      KeptAll(all[1..], p);
    }
  }

  lemma {:induction false} KeptNone(all: seq<ID>, p: set<ID>)
    requires forall id | id in all :: id !in p
    ensures Kept(all, p) == []
  {
    if all != [] {
      KeptNone(all[1..], p);
    }
  }

  /** Removing a block of a duplicate-free list by its members. */
  lemma KeptOutside(a: seq<ID>, b: seq<ID>, c: seq<ID>, p: set<ID>)
    requires forall id | id in a || id in c :: id in p
    requires forall id | id in b :: id !in p
    ensures Kept(a + b + c, p) == a + c
  {
    KeptAppend(a + b, c, p);
    KeptAppend(a, b, p);
    KeptAll(a, p);
    KeptNone(b, p);
    KeptAll(c, p);
  }

  lemma BoxIdsIn(s: State, n: string)
    requires Agrees(s) && n in s.boxes
    ensures Distinct(Ids(s.boxes[n]))
    ensures forall id | id in Ids(s.boxes[n]) :: id in s.byID && s.byID[id] == n
    ensures IdSet(s.boxes[n]) == Members(Ids(s.boxes[n]))
  {
    assert BoxAgrees(s, n);
    var box := s.boxes[n];
    assert forall i | 0 <= i < |box| :: Ids(box)[i] == box[i].id && box[i] in box;
    forall id | id in Ids(box) ensures id in IdSet(box) {
      var i :| 0 <= i < |box| && Ids(box)[i] == id;
      assert box[i] in box;
    }
    forall id | id in IdSet(box) ensures id in Ids(box) {
      var m :| m in box && m.id == id;
      var i :| 0 <= i < |box| && box[i] == m;
      assert Ids(box)[i] == id;
    }
  }

  /** An ID in the index was delivered to the mailbox the index names. */
  lemma PresentWasDelivered(s: State, l: Ledger, id: ID)
    requires Agrees(s) && QueuesKept(s, l) && id in s.byID
    ensures id in l.delivered[s.byID[id]]
  {
    var n := s.byID[id];
    assert QueueKept(s, l, n);
    assert HasID(s.boxes[n], id);
    var i :| 0 <= i < |s.boxes[n]| && s.boxes[n][i].id == id;
    assert Ids(s.boxes[n])[i] == id;
    KeptMembers(l.delivered[n], s.byID.Keys);
  }

  lemma OtherQueueKept(s: State, l: Ledger, n: string, gone: set<ID>, k: string)
    requires Agrees(s) && QueuesKept(s, l) && DeliveredOnce(l)
    requires n in s.boxes && k in s.boxes && k != n
    requires forall id | id in gone :: id in s.byID && s.byID[id] == n
    ensures Ids(s.boxes[k]) == Kept(l.delivered[k], s.byID.Keys - gone)
  {
    forall id | id in l.delivered[k] ensures id !in gone {
      if id in gone {
        PresentWasDelivered(s, l, id);
      }
    }
    assert QueueKept(s, l, k);
    KeptSame(l.delivered[k], s.byID.Keys, s.byID.Keys - gone);
  }

  /** One queue changes, and the index loses `gone` from it. */
  lemma RemovalKept(s: State, l: Ledger, n: string, box: seq<Msg>, gone: set<ID>)
    requires Agrees(s) && QueuesKept(s, l) && DeliveredOnce(l) && n in s.boxes
    requires forall id | id in gone :: id in s.byID && s.byID[id] == n
    requires Ids(box) == Kept(Ids(s.boxes[n]), s.byID.Keys - gone)
    ensures QueuesKept(State(s.boxes[n := box], s.byID - gone), l)
  {
    var t := State(s.boxes[n := box], s.byID - gone);
    assert t.byID.Keys == s.byID.Keys - gone;
    forall k | k in t.boxes ensures QueueKept(t, l, k) {
      if k == n {
        assert QueueKept(s, l, n);
        KeptTwice(l.delivered[n], s.byID.Keys, t.byID.Keys);
        assert s.byID.Keys * t.byID.Keys == t.byID.Keys;
      } else {
        OtherQueueKept(s, l, n, gone, k);
      }
    }
  }

  lemma RemovalBalanced(l: Ledger, l': Ledger, present: set<ID>, gone: set<ID>)
    requires Balanced(l, present) && gone <= present
    requires l'.delivered == l.delivered
    requires forall id :: Gone(l', id) <==> Gone(l, id) || id in gone
    requires l'.evicted !! l'.deleted !! l'.cleared
    ensures Balanced(l', present - gone)
  {
    forall id ensures EverDelivered(l', id) <==> id in present - gone || Gone(l', id) {
      assert EverDelivered(l', id) <==> EverDelivered(l, id);
    }
  }

  lemma IdsCut(box: seq<Msg>, id: ID)
    requires HasID(box, id)
    ensures var i := IndexOfID(box, id);
            && i < |box| && Ids(box) == Ids(box)[..i] + [id] + Ids(box)[i + 1..]
            && Ids(Without(box, id)) == Ids(box)[..i] + Ids(box)[i + 1..]
  {
  }

  lemma DeleteKept(s: State, l: Ledger, id: ID)
    requires Agrees(s) && QueuesKept(s, l) && DeliveredOnce(l) && id in s.byID
    ensures QueuesKept(State(s.boxes[s.byID[id] := Without(s.boxes[s.byID[id]], id)], s.byID - {id}), l)
  {
    var n := s.byID[id];
    var box, i := s.boxes[n], IndexOfID(s.boxes[n], id);
    assert HasID(box, id);
    BoxIdsIn(s, n);
    IdsCut(box, id);
    CutKept(Ids(box)[..i], id, Ids(box)[i + 1..], s.byID.Keys);
    RemovalKept(s, l, n, Without(box, id), {id});
  }

  lemma CutKept(a: seq<ID>, id: ID, b: seq<ID>, present: set<ID>)
    requires Distinct(a + [id] + b) && forall x | x in a + [id] + b :: x in present
    ensures Kept(a + [id] + b, present - {id}) == a + b
  {
    var all := a + [id] + b;
    forall x | x in a || x in b ensures x in present - {id} {
      assert x in all;
      assert all[|a|] == id;
      assert forall k | 0 <= k < |a| :: all[k] == a[k];
      assert forall k | 0 <= k < |b| :: all[|a| + 1 + k] == b[k];
    }
    KeptOutside(a, [id], b, present - {id});
  }

  lemma DeleteAccounted(s: State, l: Ledger, limits: Limits, id: ID)
    requires Agrees(s) && Accounted(s, l)
    ensures Accounted(Apply(s, limits, Delete(id)), Recorded(l, s, limits, Delete(id)))
  {
    if id in s.byID {
      var l' := Recorded(l, s, limits, Delete(id));
      DeleteKept(s, l, id);
      RemovalBalanced(l, l', s.byID.Keys, {id});
      assert (s.byID - {id}).Keys == s.byID.Keys - {id};
    }
  }

  lemma ClearAccounted(s: State, l: Ledger, limits: Limits, n: string)
    requires Agrees(s) && Accounted(s, l)
    ensures Accounted(Apply(s, limits, Clear(n)), Recorded(l, s, limits, Clear(n)))
  {
    if n in s.boxes {
      var gone, l' := IdSet(s.boxes[n]), Recorded(l, s, limits, Clear(n));
      BoxIdsIn(s, n);
      KeptNone(Ids(s.boxes[n]), s.byID.Keys - gone);
      RemovalKept(s, l, n, [], gone);
      RemovalBalanced(l, l', s.byID.Keys, gone);
      assert (s.byID - gone).Keys == s.byID.Keys - gone;
    }
  }

  ghost function Appended(s: State, m: Msg): State
    requires m.mailbox in s.boxes
  {
    State(s.boxes[m.mailbox := Grown(s, m)], s.byID[m.id := m.mailbox])
  }

  ghost function Credited(l: Ledger, m: Msg): Ledger
    requires m.mailbox in l.delivered
  {
    l.(delivered := l.delivered[m.mailbox := l.delivered[m.mailbox] + [m.id]])
  }

  lemma CreditedEver(l: Ledger, m: Msg, id: ID)
    requires m.mailbox in l.delivered
    ensures EverDelivered(Credited(l, m), id) <==> EverDelivered(l, id) || id == m.id
  {
    var l' := Credited(l, m);
    if EverDelivered(l, id) {
      var k :| k in l.delivered && id in l.delivered[k];
      assert id in l'.delivered[k];
    }
    assert m.id in l'.delivered[m.mailbox];
  }

  lemma CreditedOnce(l: Ledger, m: Msg)
    requires m.mailbox in l.delivered && DeliveredOnce(l) && !EverDelivered(l, m.id)
    ensures DeliveredOnce(Credited(l, m))
  {
    var l' := Credited(l, m);
    forall n, k, id | n in l'.delivered && k in l'.delivered && id in l'.delivered[n] && id in l'.delivered[k]
      ensures n == k
    {
      if id != m.id {
        assert id in l.delivered[n] && id in l.delivered[k];
      }
    }
  }

  lemma AppendKept(s: State, l: Ledger, m: Msg)
    requires QueuesKept(s, l) && m.mailbox in s.boxes && !EverDelivered(l, m.id)
    ensures QueuesKept(Appended(s, m), Credited(l, m))
  {
    var t, l' := Appended(s, m), Credited(l, m);
    assert t.byID.Keys == s.byID.Keys + {m.id};
    forall k | k in t.boxes ensures QueueKept(t, l', k) {
      assert QueueKept(s, l, k);
      KeptSame(l.delivered[k], s.byID.Keys, t.byID.Keys);
      if k == m.mailbox {
        KeptAppend(l.delivered[k], [m.id], t.byID.Keys);
        KeptAll([m.id], t.byID.Keys);
        assert Ids(t.boxes[k]) == Ids(s.boxes[k]) + [m.id];
      }
    }
  }

  lemma AppendAgrees(s: State, m: Msg)
    requires Agrees(s) && m.mailbox in s.boxes && m.id !in s.byID
    ensures Agrees(Appended(s, m))
  {
    DeliverAgrees(s, 0, m);
    var t := Delivered(s, 0, m);
    assert t.boxes == Appended(s, m).boxes;
    assert t.byID == Appended(s, m).byID;
  }

  lemma AppendBalanced(l: Ledger, present: set<ID>, m: Msg)
    requires Balanced(l, present) && m.mailbox in l.delivered && !EverDelivered(l, m.id)
    ensures Balanced(Credited(l, m), present + {m.id})
  {
    var l' := Credited(l, m);
    forall id ensures EverDelivered(l', id) <==> id in present + {m.id} || Gone(l', id) {
      CreditedEver(l, m, id);
    }
    assert !Gone(l, m.id);
  }

  /** The message is appended and indexed; nothing is evicted yet. */
  lemma AppendAccounted(s: State, l: Ledger, m: Msg)
    requires Accounted(s, l) && m.mailbox in s.boxes && !EverDelivered(l, m.id)
    ensures Accounted(Appended(s, m), Credited(l, m))
  {
    AppendKept(s, l, m);
    CreditedOnce(l, m);
    AppendBalanced(l, s.byID.Keys, m);
    assert Appended(s, m).byID.Keys == s.byID.Keys + {m.id};
  }

  /** Trimming the front of a queue. */
  lemma TrimKept(s: State, l: Ledger, n: string, drop: nat)
    requires Agrees(s) && QueuesKept(s, l) && DeliveredOnce(l) && n in s.boxes && drop <= |s.boxes[n]|
    ensures QueuesKept(State(s.boxes[n := s.boxes[n][drop..]], s.byID - IdSet(s.boxes[n][..drop])), l)
    ensures IdSet(s.boxes[n][..drop]) <= s.byID.Keys
  {
    var box, ids := s.boxes[n], Ids(s.boxes[n]);
    BoxIdsIn(s, n);
    FrontIds(box, drop);
    KeptOfTrimmed(ids, drop, s.byID.Keys);
    assert Ids(box[drop..]) == ids[drop..];
    forall id | id in Members(ids[..drop]) ensures id in s.byID && s.byID[id] == n {
      assert id in ids;
    }
    RemovalKept(s, l, n, box[drop..], Members(ids[..drop]));
  }

  lemma FrontIds(box: seq<Msg>, drop: nat)
    requires drop <= |box|
    ensures IdSet(box[..drop]) == Members(Ids(box)[..drop])
  {
    forall i | 0 <= i < drop ensures Ids(box)[..drop][i] in IdSet(box[..drop]) {
      assert box[..drop][i] in box[..drop];
    }
    forall m | m in box[..drop] ensures m.id in Ids(box)[..drop] {
      var i :| 0 <= i < drop && box[i] == m;
      assert Ids(box)[..drop][i] == m.id;
    }
  }

  lemma KeptOfTrimmed(ids: seq<ID>, drop: nat, present: set<ID>)
    requires Distinct(ids) && drop <= |ids| && forall id | id in ids :: id in present
    ensures Kept(ids, present - Members(ids[..drop])) == ids[drop..]
  {
    var gone := Members(ids[..drop]);
    assert ids == [] + ids[..drop] + ids[drop..];
    forall i | drop <= i < |ids| ensures ids[i] in present - gone {
      assert forall j | 0 <= j < drop :: ids[..drop][j] == ids[j] != ids[i];
    }
    KeptOutside([], ids[..drop], ids[drop..], present - gone);
    assert [] + ids[drop..] == ids[drop..];
  }

  lemma DeliverAccounted(s: State, l: Ledger, limits: Limits, op: Op)
    requires op.Deliver? && Agrees(s) && Accounted(s, l) && FreshID(l, op) && Accepts(s, limits, op)
    ensures Accounted(Apply(s, limits, op), Recorded(l, s, limits, op))
  {
    var m, cap := Incoming(op), limits.maxMessages;
    var drop := Excess(|Grown(s, m)|, cap);
    var mid, l1, gone := Appended(s, m), Credited(l, m), IdSet(Grown(s, m)[..drop]);
    FreshMeansUnused(s, l, op);
    AppendAgrees(s, m);
    AppendAccounted(s, l, m);
    TrimKept(mid, l1, m.mailbox, drop);
    RemovalBalanced(l1, Recorded(l, s, limits, op), mid.byID.Keys, gone);
    DeliveredIsTrimmed(s, cap, m);
    assert (mid.byID - gone).Keys == mid.byID.Keys - gone;
  }

  /** Delivery appends first and trims afterwards. */
  lemma DeliveredIsTrimmed(s: State, cap: int, m: Msg)
    requires m.mailbox in s.boxes
    ensures var mid, box, drop := Appended(s, m), Grown(s, m), Excess(|Grown(s, m)|, cap);
            Delivered(s, cap, m)
            == State(mid.boxes[m.mailbox := box[drop..]], mid.byID - IdSet(box[..drop]))
  {
    var box, drop := Grown(s, m), Excess(|Grown(s, m)|, cap);
    var gone := set i | 0 <= i < drop :: box[i].id;
    forall id ensures id in gone <==> id in IdSet(box[..drop]) {
      if id in gone {
        var i :| 0 <= i < drop && box[i].id == id;
        assert box[..drop][i] in box[..drop];
      }
    }
    assert gone == IdSet(box[..drop]);
  }

  /** Every operation keeps the books balanced. */
  lemma ApplyAccounted(s: State, l: Ledger, limits: Limits, op: Op)
    requires Agrees(s) && Accounted(s, l) && FreshID(l, op)
    ensures Accounted(Apply(s, limits, op), Recorded(l, s, limits, op))
  {
    match op
    case Deliver(_, _, _, _, _, _) =>
      if Accepts(s, limits, op) {
        DeliverAccounted(s, l, limits, op);
      }
    case Delete(id) => DeleteAccounted(s, l, limits, id);
    case Clear(n) => ClearAccounted(s, l, limits, n);
    case MarkRead(id, read) =>
      if id in s.byID {
        ReflagAccounted(s, l, s.byID[id], WithRead(s.boxes[s.byID[id]], id, read));
      }
    case MarkAllRead(n) =>
      if n in s.boxes {
        ReflagAccounted(s, l, n, AllRead(s.boxes[n]));
      }
  }

  /** Read flags are not in the books. */
  lemma ReflagAccounted(s: State, l: Ledger, n: string, box: seq<Msg>)
    requires Accounted(s, l) && n in s.boxes && |box| == |s.boxes[n]|
    requires forall i | 0 <= i < |box| :: box[i].id == s.boxes[n][i].id
    ensures Accounted(s.(boxes := s.boxes[n := box]), l)
  {
    var t := s.(boxes := s.boxes[n := box]);
    assert Ids(box) == Ids(s.boxes[n]);
    forall k | k in t.boxes ensures QueueKept(t, l, k) {
      assert QueueKept(s, l, k);
    }
  }

  // ---------------------------------------------------------------------------
  // Runs
  // ---------------------------------------------------------------------------

  ghost function Books(names: set<string>): Ledger {
    Ledger(map n | n in names :: [], {}, {}, {})
  }

  ghost function LedgerOf(names: set<string>, limits: Limits, ops: seq<Op>): Ledger {
    if ops == [] then Books(names)
    else
      var before := ops[..|ops| - 1];
      Recorded(LedgerOf(names, limits, before), Run(Empty(names), limits, before), limits, ops[|ops| - 1])
  }

  /** Every delivery of the run gets an ID that no earlier delivery got. */
  ghost predicate FreshRun(names: set<string>, limits: Limits, ops: seq<Op>) {
    forall i | 0 <= i < |ops| :: FreshID(LedgerOf(names, limits, ops[..i]), ops[i])
  }

  lemma FreshRunInit(names: set<string>, limits: Limits, ops: seq<Op>)
    requires ops != [] && FreshRun(names, limits, ops)
    ensures FreshRun(names, limits, ops[..|ops| - 1])
    ensures FreshID(LedgerOf(names, limits, ops[..|ops| - 1]), ops[|ops| - 1])
  {
    var before := ops[..|ops| - 1];
    forall i | 0 <= i < |before| ensures FreshID(LedgerOf(names, limits, before[..i]), before[i]) {
      assert before[..i] == ops[..i] && before[i] == ops[i];
    }
  }

  lemma FreshMeansUnused(s: State, l: Ledger, op: Op)
    requires Accounted(s, l) && FreshID(l, op)
    ensures Unused(s, op)
  {
  }

  /** In every reachable store: agreement, the cap, and a complete account. */
  lemma {:induction false} RunInvariant(names: set<string>, limits: Limits, ops: seq<Op>)
    requires FreshRun(names, limits, ops)
    ensures Agrees(Run(Empty(names), limits, ops))
    ensures Capped(Run(Empty(names), limits, ops), limits.maxMessages)
    ensures Accounted(Run(Empty(names), limits, ops), LedgerOf(names, limits, ops))
    ensures Run(Empty(names), limits, ops).boxes.Keys == names
  {
    if ops == [] {
      assert Empty(names).boxes.Keys == names;
    } else {
      var before, op := ops[..|ops| - 1], ops[|ops| - 1];
      FreshRunInit(names, limits, ops);
      RunInvariant(names, limits, before);
      var s, l := Run(Empty(names), limits, before), LedgerOf(names, limits, before);
      FreshMeansUnused(s, l, op);
      ApplyAgrees(s, limits, op);
      ApplyAccounted(s, l, limits, op);
    }
  }

  // ---------------------------------------------------------------------------
  // Counting
  // ---------------------------------------------------------------------------

  function Total(s: State, order: seq<string>): nat {
    if order == [] then 0
    else (if order[0] in s.boxes then |s.boxes[order[0]]| else 0) + Total(s, order[1..])
  }

  ghost function IdsOver(s: State, order: seq<string>): set<ID> {
    set id | id in s.byID && s.byID[id] in order
  }

  lemma {:induction false} TotalCounts(s: State, order: seq<string>)
    requires Agrees(s) && Distinct(order) && forall n | n in order :: n in s.boxes
    ensures Total(s, order) == |IdsOver(s, order)|
  {
    if order != [] {
      var n, rest := order[0], order[1..];
      DistinctTail(order);
      TotalCounts(s, rest);
      MineCount(s, n);
      assert order == [n] + rest;
      IdsOverSplit(s, n, rest);
    }
  }

  lemma IdsOverSplit(s: State, n: string, rest: seq<string>)
    requires n !in rest
    ensures |IdsOver(s, [n] + rest)| == |IdsOver(s, rest)| + |Mine(s, n)|
  {
    assert IdsOver(s, [n] + rest) == IdsOver(s, rest) + Mine(s, n);
    assert IdsOver(s, rest) !! Mine(s, n);
  }

  ghost function Mine(s: State, n: string): set<ID> {
    set id | id in s.byID && s.byID[id] == n
  }

  lemma MineCount(s: State, n: string)
    requires Agrees(s) && n in s.boxes
    ensures |Mine(s, n)| == |s.boxes[n]|
  {
    var ids := Ids(s.boxes[n]);
    BoxIdsIn(s, n);
    DistinctCount(ids);
    forall id | id in Mine(s, n) ensures id in ids {
      assert HasID(s.boxes[n], id);
      var i :| 0 <= i < |s.boxes[n]| && s.boxes[n][i].id == id;
      assert ids[i] == id;
    }
    assert Mine(s, n) == Members(ids);
  }

  /** The sidebar totals add up to the size of the index. */
  lemma TotalsAddUp(s: State, order: seq<string>)
    requires Agrees(s) && Distinct(order) && (forall n :: n in order <==> n in s.boxes)
    ensures Total(s, order) == |s.byID|
  {
    TotalCounts(s, order);
    assert IdsOver(s, order) == s.byID.Keys;
  }

  /** What the sidebar shows of a mailbox. */
  datatype MailboxStats = MailboxStats(name: string, total: nat, unread: nat, bytes: nat)

  function Counted(n: string, box: seq<Msg>): MailboxStats {
    MailboxStats(n, |box|, |Unread(box)|, Octets(box))
  }

  function Unread(box: seq<Msg>): seq<Msg> {
    if box == [] then [] else (if box[0].read then [] else [box[0]]) + Unread(box[1..])
  }

  function Octets(box: seq<Msg>): nat {
    if box == [] then 0 else |box[0].raw| + Octets(box[1..])
  }

  function StatsOf(s: State, order: seq<string>): (r: seq<MailboxStats>)
    ensures |r| == |order|
  {
    seq(|order|, i requires 0 <= i < |order| =>
      Counted(order[i], if order[i] in s.boxes then s.boxes[order[i]] else []))
  }

  lemma StatsNext(s: State, order: seq<string>, i: nat)
    requires i < |order| && order[i] in s.boxes
    ensures StatsOf(s, order[..i + 1]) == StatsOf(s, order[..i]) + [Counted(order[i], s.boxes[order[i]])]
  {
  }

  lemma {:induction false} CountsAppend(box: seq<Msg>, m: Msg)
    ensures |Unread(box + [m])| == |Unread(box)| + if m.read then 0 else 1
    ensures Octets(box + [m]) == Octets(box) + |m.raw|
  {
    if box == [] {
      assert [] + [m] == [m];
    } else {
      assert (box + [m])[1..] == box[1..] + [m];
      CountsAppend(box[1..], m);
    }
  }

  lemma CountedNext(n: string, box: seq<Msg>, i: nat)
    requires i < |box|
    ensures Counted(n, box[..i + 1])
            == MailboxStats(n, i + 1, |Unread(box[..i])| + (if box[i].read then 0 else 1), Octets(box[..i]) + |box[i].raw|)
  {
    assert box[..i + 1] == box[..i] + [box[i]];
    CountsAppend(box[..i], box[i]);
  }

  function Totals(stats: seq<MailboxStats>): nat {
    if stats == [] then 0 else stats[0].total + Totals(stats[1..])
  }

  /** The totals of the statistics count every indexed message once. */
  lemma StatsAddUp(s: State, order: seq<string>)
    requires Agrees(s) && Distinct(order) && Members(order) == s.boxes.Keys
    ensures Totals(StatsOf(s, order)) == |s.byID|
  {
    assert forall n :: n in order <==> n in Members(order);
    TotalsOf(s, order);
    TotalsAddUp(s, order);
  }

  lemma {:induction false} TotalsOf(s: State, order: seq<string>)
    ensures Totals(StatsOf(s, order)) == Total(s, order)
  {
    if order != [] {
      assert StatsOf(s, order)[1..] == StatsOf(s, order[1..]);
      TotalsOf(s, order[1..]);
    }
  }

  ghost function EverSet(l: Ledger): set<ID> {
    set n, id | n in l.delivered && id in l.delivered[n] :: id
  }

  /** Deliveries are the present, the evicted, the deleted and the cleared. */
  lemma Conservation(names: set<string>, limits: Limits, ops: seq<Op>)
    requires FreshRun(names, limits, ops)
    ensures var s, l := Run(Empty(names), limits, ops), LedgerOf(names, limits, ops);
            |EverSet(l)| == |s.byID| + |l.evicted| + |l.deleted| + |l.cleared|
  {
    RunInvariant(names, limits, ops);
    var s, l := Run(Empty(names), limits, ops), LedgerOf(names, limits, ops);
    BalanceCounts(l, s.byID.Keys);
  }

  lemma BalanceCounts(l: Ledger, present: set<ID>)
    requires Balanced(l, present)
    ensures |EverSet(l)| == |present| + |l.evicted| + |l.deleted| + |l.cleared|
  {
    var gone := l.evicted + l.deleted + l.cleared;
    forall id ensures id in EverSet(l) <==> id in present + gone {
      assert id in EverSet(l) <==> EverDelivered(l, id);
    }
    assert EverSet(l) == present + gone;
    assert forall id | id in gone :: Gone(l, id);
    assert present !! gone;
  }
}

/** The mailboxes as values: what every store operation does to the queues and the index. */
module StoreModel {
  import opened Bytes
  import opened Sequences

  /** Message IDs, ordered as the fixed-width IDs sort. */
  type ID = nat

  datatype Envelope = Envelope(from: string, to: seq<string>, remoteAddr: string, username: string, tls: bool)

  datatype Msg = Msg(
    id: ID, mailbox: string, receivedAt: int, source: string, envelope: Envelope, raw: Bytes, read: bool)

  /** Per-mailbox queues, oldest first, and the mailbox of every stored ID. */
  datatype State = State(boxes: map<string, seq<Msg>>, byID: map<ID, string>)

  datatype Limits = Limits(maxMessages: int, maxSize: int)

  datatype Op =
    | Deliver(id: ID, mailbox: string, receivedAt: int, source: string, envelope: Envelope, raw: Bytes)
    | Delete(id: ID)
    | Clear(mailbox: string)
    | MarkRead(id: ID, read: bool)
    | MarkAllRead(mailbox: string)

  function Empty(names: set<string>): State {
    State(map n | n in names :: [], map[])
  }

  // ---------------------------------------------------------------------------
  // Queues
  // ---------------------------------------------------------------------------

  function Ids(box: seq<Msg>): (r: seq<ID>)
    ensures |r| == |box|
    ensures forall i | 0 <= i < |box| :: r[i] == box[i].id
  {
    seq(|box|, i requires 0 <= i < |box| => box[i].id)
  }

  /** How many messages from the front are over the cap; a cap of 0 or less is no cap. */
  function Excess(count: nat, cap: int): (drop: nat)
    ensures drop <= count
  {
    if cap <= 0 || count <= cap then 0 else count - cap
  }

  function IndexOfID(box: seq<Msg>, id: ID): (i: nat)
    ensures i <= |box|
    ensures forall j | 0 <= j < i :: box[j].id != id
    ensures i < |box| ==> box[i].id == id
  {
    if box == [] || box[0].id == id then 0 else 1 + IndexOfID(box[1..], id)
  }

  function Without(box: seq<Msg>, id: ID): seq<Msg> {
    var i := IndexOfID(box, id);
    if i < |box| then box[..i] + box[i + 1..] else box
  }

  lemma IndexCons(m: Msg, rest: seq<Msg>, id: ID)
    ensures IndexOfID([m] + rest, id) == if m.id == id then 0 else 1 + IndexOfID(rest, id)
  {
    assert ([m] + rest)[1..] == rest;
  }

  lemma HeadOut(m: Msg, rest: seq<Msg>)
    ensures ([m] + rest)[..0] + ([m] + rest)[1..] == rest
  {
  }

  lemma WithoutCons(m: Msg, rest: seq<Msg>, id: ID)
    ensures Without([m] + rest, id) == if m.id == id then rest else [m] + Without(rest, id)
  {
    IndexCons(m, rest, id);
    var i := IndexOfID(rest, id);
    if m.id == id {
      HeadOut(m, rest);
    } else if i < |rest| {
      CutCons(m, rest, i);
    }
  }

  function WithRead(box: seq<Msg>, id: ID, read: bool): (r: seq<Msg>)
    ensures |r| == |box|
    ensures forall i | 0 <= i < |box| :: r[i] == if box[i].id == id then box[i].(read := read) else box[i]
  {
    seq(|box|, i requires 0 <= i < |box| => if box[i].id == id then box[i].(read := read) else box[i])
  }

  function AllRead(box: seq<Msg>): (r: seq<Msg>)
    ensures |r| == |box|
    ensures forall i | 0 <= i < |box| :: r[i] == box[i].(read := true)
  {
    seq(|box|, i requires 0 <= i < |box| => box[i].(read := true))
  }

  /** The unread messages of a queue, as they are once marked. */
  function NewlyRead(box: seq<Msg>): seq<Msg> {
    if box == [] then []
    else (if box[0].read then [] else [box[0].(read := true)]) + NewlyRead(box[1..])
  }

  // ---------------------------------------------------------------------------
  // Operations
  // ---------------------------------------------------------------------------

  function Incoming(op: Op): Msg
    requires op.Deliver?
  {
    Msg(op.id, op.mailbox, op.receivedAt, op.source, op.envelope, op.raw, false)
  }

  /** The queue with the new message, before it is trimmed. */
  function Grown(s: State, m: Msg): seq<Msg>
    requires m.mailbox in s.boxes
  {
    s.boxes[m.mailbox] + [m]
  }

  function Evicted(s: State, cap: int, m: Msg): seq<Msg>
    requires m.mailbox in s.boxes
  {
    Grown(s, m)[..Excess(|Grown(s, m)|, cap)]
  }

  function Delivered(s: State, cap: int, m: Msg): State
    requires m.mailbox in s.boxes
  {
    var box := Grown(s, m);
    var drop := Excess(|box|, cap);
    State(s.boxes[m.mailbox := box[drop..]],
          s.byID[m.id := m.mailbox] - (set i | 0 <= i < drop :: box[i].id))
  }

  predicate Accepts(s: State, limits: Limits, op: Op)
    requires op.Deliver?
  {
    |op.raw| <= limits.maxSize && op.mailbox in s.boxes
  }

  function Apply(s: State, limits: Limits, op: Op): State {
    match op
    case Deliver(_, _, _, _, _, _) =>
      if Accepts(s, limits, op) then Delivered(s, limits.maxMessages, Incoming(op)) else s
    case Delete(id) =>
      if id in s.byID && s.byID[id] in s.boxes then
        var n := s.byID[id];
        State(s.boxes[n := Without(s.boxes[n], id)], s.byID - {id})
      else s
    case Clear(n) =>
      if n in s.boxes then State(s.boxes[n := []], s.byID - (set m | m in s.boxes[n] :: m.id)) else s
    case MarkRead(id, read) =>
      if id in s.byID && s.byID[id] in s.boxes then
        var n := s.byID[id];
        s.(boxes := s.boxes[n := WithRead(s.boxes[n], id, read)])
      else s
    case MarkAllRead(n) =>
      if n in s.boxes then s.(boxes := s.boxes[n := AllRead(s.boxes[n])]) else s
  }

  function Run(s: State, limits: Limits, ops: seq<Op>): State {
    if ops == [] then s
    else Apply(Run(s, limits, ops[..|ops| - 1]), limits, ops[|ops| - 1])
  }

  // ---------------------------------------------------------------------------
  // Index agreement
  // ---------------------------------------------------------------------------

  ghost predicate DistinctIds(box: seq<Msg>) {
    forall i, j | 0 <= i < j < |box| :: box[i].id != box[j].id
  }

  ghost predicate HasID(box: seq<Msg>, id: ID) {
    exists i :: 0 <= i < |box| && box[i].id == id
  }

  /** Every message is indexed under the mailbox whose queue holds it. */
  ghost predicate BoxAgrees(s: State, n: string)
    requires n in s.boxes
  {
    && DistinctIds(s.boxes[n])
    && forall i | 0 <= i < |s.boxes[n]| ::
         var m := s.boxes[n][i];
         m.mailbox == n && m.id in s.byID && s.byID[m.id] == n
  }

  /** The index is exactly the disjoint union of the queues. */
  ghost predicate Agrees(s: State) {
    && (forall n | n in s.boxes :: BoxAgrees(s, n))
    && (forall id | id in s.byID :: s.byID[id] in s.boxes && HasID(s.boxes[s.byID[id]], id))
  }

  ghost predicate Capped(s: State, cap: int) {
    cap > 0 ==> forall n | n in s.boxes :: |s.boxes[n]| <= cap
  }

  /** The ID source has not produced this ID for a message that is still stored. */
  ghost predicate Unused(s: State, op: Op) {
    op.Deliver? ==> op.id !in s.byID
  }

  lemma WithoutFacts(box: seq<Msg>, id: ID)
    requires DistinctIds(box)
    ensures DistinctIds(Without(box, id))
    ensures !HasID(Without(box, id), id)
    ensures forall m :: m in Without(box, id) <==> m in box && m.id != id
  {
    var i, r := IndexOfID(box, id), Without(box, id);
    if i < |box| {
      assert forall k | 0 <= k < |r| :: r[k] == box[if k < i then k else k + 1];
      forall m | m in box && m.id != id ensures m in r {
        var k :| 0 <= k < |box| && box[k] == m;
        assert r[if k < i then k else k - 1] == m;
      }
    }
  }

  lemma HasIDMember(box: seq<Msg>, m: Msg)
    requires m in box
    ensures HasID(box, m.id)
  {
  }

  /** The grown queue before trimming, and what trimming keeps of it. */
  lemma TrimmedFits(s: State, grown: seq<Msg>, drop: nat, n: string, byID: map<ID, string>)
    requires drop <= |grown| && DistinctIds(grown)
    requires forall i | 0 <= i < |grown| :: grown[i].mailbox == n
    requires forall i | drop <= i < |grown| :: grown[i].id in byID && byID[grown[i].id] == n
    requires s.boxes == s.boxes[n := grown[drop..]] && s.byID == byID
    ensures BoxAgrees(s, n)
  {
    assert forall i | 0 <= i < |grown[drop..]| :: grown[drop..][i] == grown[drop + i];
  }

  lemma GrownDistinct(s: State, m: Msg)
    requires Agrees(s) && m.mailbox in s.boxes && m.id !in s.byID
    ensures DistinctIds(Grown(s, m)) && forall i | 0 <= i < |Grown(s, m)| :: Grown(s, m)[i].mailbox == m.mailbox
    ensures forall i | 0 <= i < |s.boxes[m.mailbox]| :: Grown(s, m)[i].id in s.byID
    ensures forall id | id in s.byID && s.byID[id] == m.mailbox :: HasID(Grown(s, m), id)
    ensures HasID(Grown(s, m), m.id)
  {
    var box, grown := s.boxes[m.mailbox], Grown(s, m);
    assert BoxAgrees(s, m.mailbox);
    assert grown[|box|] == m;
    forall id | id in s.byID && s.byID[id] == m.mailbox ensures HasID(grown, id) {
      assert HasID(box, id);
      var j :| 0 <= j < |box| && box[j].id == id;
      assert grown[j].id == id;
    }
  }

  lemma StillListed(grown: seq<Msg>, drop: nat, id: ID)
    requires drop <= |grown| && HasID(grown, id) && id !in set i | 0 <= i < drop :: grown[i].id
    ensures HasID(grown[drop..], id)
  {
    var i :| 0 <= i < |grown| && grown[i].id == id;
    assert grown[drop..][i - drop].id == id;
  }

  lemma DeliverAgrees(s: State, cap: int, m: Msg)
    requires Agrees(s) && m.mailbox in s.boxes && m.id !in s.byID
    ensures Agrees(Delivered(s, cap, m))
  {
    var n, t, grown := m.mailbox, Delivered(s, cap, m), Grown(s, m);
    var drop := Excess(|grown|, cap);
    GrownDistinct(s, m);
    forall k | k in t.boxes ensures BoxAgrees(t, k) {
      assert BoxAgrees(s, k);
      if k == n {
        KeptIndexed(s, m, drop);
        TrimmedFits(t, grown, drop, n, t.byID);
      }
    }
    forall id | id in t.byID ensures t.byID[id] in t.boxes && HasID(t.boxes[t.byID[id]], id) {
      if t.byID[id] == n {
        StillListed(grown, drop, id);
      } else {
        assert HasID(s.boxes[s.byID[id]], id);
      }
    }
  }

  lemma KeptIndexed(s: State, m: Msg, drop: nat)
    requires Agrees(s) && m.mailbox in s.boxes && m.id !in s.byID && drop <= |Grown(s, m)|
    ensures var byID := s.byID[m.id := m.mailbox] - (set i | 0 <= i < drop :: Grown(s, m)[i].id);
            forall i | drop <= i < |Grown(s, m)| :: Grown(s, m)[i].id in byID && byID[Grown(s, m)[i].id] == m.mailbox
  {
    GrownDistinct(s, m);
    assert BoxAgrees(s, m.mailbox);
  }

  /** `t` is `s` without the message that has this ID. */
  ghost predicate OneDeleted(s: State, t: State, n: string, id: ID) {
    && id in s.byID && n == s.byID[id] && n in s.boxes
    && t.boxes == s.boxes[n := Without(s.boxes[n], id)] && t.byID == s.byID - {id}
  }

  lemma DeletedFromBox(s: State, t: State, n: string, id: ID, k: string)
    requires Agrees(s) && OneDeleted(s, t, n, id) && k in t.boxes
    ensures BoxAgrees(t, k)
  {
    assert BoxAgrees(s, k);
    assert BoxAgrees(s, n);
    WithoutFacts(s.boxes[n], id);
    assert forall i | 0 <= i < |t.boxes[n]| :: t.boxes[n][i] in s.boxes[n];
  }

  lemma DeletedFromIndex(s: State, t: State, n: string, id: ID, x: ID)
    requires Agrees(s) && OneDeleted(s, t, n, id) && x in t.byID
    ensures t.byID[x] in t.boxes && HasID(t.boxes[t.byID[x]], x)
  {
    assert HasID(s.boxes[s.byID[x]], x);
    if s.byID[x] == n {
      assert BoxAgrees(s, n);
      WithoutFacts(s.boxes[n], id);
      var i :| 0 <= i < |s.boxes[n]| && s.boxes[n][i].id == x;
      assert s.boxes[n][i] in t.boxes[n];
    }
  }

  lemma DeleteAgrees(s: State, limits: Limits, id: ID)
    requires Agrees(s)
    ensures Agrees(Apply(s, limits, Delete(id)))
  {
    if id in s.byID {
      var n, t := s.byID[id], Apply(s, limits, Delete(id));
      assert OneDeleted(s, t, n, id);
      forall k | k in t.boxes ensures BoxAgrees(t, k) {
        DeletedFromBox(s, t, n, id, k);
      }
      forall x | x in t.byID ensures t.byID[x] in t.boxes && HasID(t.boxes[t.byID[x]], x) {
        DeletedFromIndex(s, t, n, id, x);
      }
    }
  }

  lemma ClearAgrees(s: State, limits: Limits, n: string)
    requires Agrees(s)
    ensures Agrees(Apply(s, limits, Clear(n)))
  {
    if n in s.boxes {
      var t := Apply(s, limits, Clear(n));
      assert BoxAgrees(s, n);
      assert forall i | 0 <= i < |s.boxes[n]| :: s.boxes[n][i] in s.boxes[n] && s.boxes[n][i].id !in t.byID;
      forall k | k in t.boxes ensures BoxAgrees(t, k) {
        assert BoxAgrees(s, k);
      }
      forall x | x in t.byID ensures t.byID[x] in t.boxes && HasID(t.boxes[t.byID[x]], x) {
        assert HasID(s.boxes[s.byID[x]], x);
      }
    }
  }

  /** Changing read flags in one queue. */
  lemma ReflagAgrees(s: State, n: string, box: seq<Msg>)
    requires Agrees(s) && n in s.boxes && |box| == |s.boxes[n]|
    requires forall i | 0 <= i < |box| :: box[i].(read := s.boxes[n][i].read) == s.boxes[n][i]
    ensures Agrees(s.(boxes := s.boxes[n := box]))
  {
    var t := s.(boxes := s.boxes[n := box]);
    assert BoxAgrees(s, n);
    assert forall i | 0 <= i < |box| :: box[i].id == s.boxes[n][i].id && box[i].mailbox == s.boxes[n][i].mailbox;
    forall k | k in t.boxes ensures BoxAgrees(t, k) {
      assert BoxAgrees(s, k);
    }
    forall x | x in t.byID ensures t.byID[x] in t.boxes && HasID(t.boxes[t.byID[x]], x) {
      assert HasID(s.boxes[s.byID[x]], x);
      if s.byID[x] == n {
        var i :| 0 <= i < |s.boxes[n]| && s.boxes[n][i].id == x;
        assert box[i].id == x;
      }
    }
  }

  lemma MarkAgrees(s: State, limits: Limits, id: ID, read: bool)
    requires Agrees(s) && Capped(s, limits.maxMessages)
    ensures var t := Apply(s, limits, MarkRead(id, read));
            Agrees(t) && Capped(t, limits.maxMessages) && t.boxes.Keys == s.boxes.Keys
  {
    if id in s.byID {
      ReflagAgrees(s, s.byID[id], WithRead(s.boxes[s.byID[id]], id, read));
    }
  }

  /** Every operation keeps the index and the queues in agreement and within the cap. */
  lemma ApplyAgrees(s: State, limits: Limits, op: Op)
    requires Agrees(s) && Capped(s, limits.maxMessages) && Unused(s, op)
    ensures Agrees(Apply(s, limits, op)) && Capped(Apply(s, limits, op), limits.maxMessages)
    ensures Apply(s, limits, op).boxes.Keys == s.boxes.Keys
  {
    match op
    case Deliver(_, _, _, _, _, _) =>
      if Accepts(s, limits, op) {
        DeliverAgrees(s, limits.maxMessages, Incoming(op));
      }
    case Delete(id) => DeleteAgrees(s, limits, id);
    case Clear(n) => ClearAgrees(s, limits, n);
    case MarkRead(id, read) => MarkAgrees(s, limits, id, read);
    case MarkAllRead(n) =>
      if n in s.boxes {
        ReflagAgrees(s, n, AllRead(s.boxes[n]));
      }
  }

  // ---------------------------------------------------------------------------
  // Lists of operations
  // ---------------------------------------------------------------------------

  /** No delivery of the list repeats the ID of a message that is stored at that moment. */
  ghost predicate UnusedThroughout(s: State, limits: Limits, ops: seq<Op>) {
    forall i | 0 <= i < |ops| :: Unused(Run(s, limits, ops[..i]), ops[i])
  }

  lemma UnusedInit(s: State, limits: Limits, ops: seq<Op>)
    requires ops != [] && UnusedThroughout(s, limits, ops)
    ensures UnusedThroughout(s, limits, ops[..|ops| - 1])
    ensures Unused(Run(s, limits, ops[..|ops| - 1]), ops[|ops| - 1])
  {
    var before := ops[..|ops| - 1];
    forall i | 0 <= i < |before| ensures Unused(Run(s, limits, before[..i]), before[i]) {
      assert before[..i] == ops[..i];
    }
  }

  /** Agreement and the cap hold through every list of operations. */
  lemma {:induction false} RunAgrees(s: State, limits: Limits, ops: seq<Op>)
    requires Agrees(s) && Capped(s, limits.maxMessages) && UnusedThroughout(s, limits, ops)
    ensures Agrees(Run(s, limits, ops)) && Capped(Run(s, limits, ops), limits.maxMessages)
    ensures Run(s, limits, ops).boxes.Keys == s.boxes.Keys
  {
    if ops != [] {
      UnusedInit(s, limits, ops);
      RunAgrees(s, limits, ops[..|ops| - 1]);
      ApplyAgrees(Run(s, limits, ops[..|ops| - 1]), limits, ops[|ops| - 1]);
    }
  }
}

/**
 The store as it runs: mailbox queues and an index that share message objects, an
 optional data directory, and listeners. Every operation is tied to its value-level
 counterpart, to the file steps it takes and to the events it publishes.
 */
module Stores {
  import opened Bytes
  import opened Sequences
  import opened StoreModel
  import opened StoreRuns
  import opened Events
  import opened Fanout
  import opened Disk
  import opened Recovery
  import opened Loading
  import opened Mailboxes
  import opened PersistenceIO

  type Queues = map<string, seq<Message>>
  type Index = map<ID, Message>

  /** One queue holds indexed messages of its own mailbox, each once. */
  ghost predicate QueueFits(queue: seq<Message>, n: string, index: Index) {
    && (forall i | 0 <= i < |queue| ::
          queue[i].mailbox == n && queue[i].id in index && index[queue[i].id] == queue[i])
    && Distinct(queue)
  }

  /** Queues and index hold the same message objects. */
  ghost predicate Consistent(queues: Queues, index: Index) {
    && (forall n | n in queues :: QueueFits(queues[n], n, index))
    && forall id | id in index ::
         index[id].id == id && index[id].mailbox in queues && index[id] in queues[index[id].mailbox]
  }

  ghost function Everything(queues: Queues): set<Message> {
    set n, m | n in queues && m in queues[n] :: m
  }

  ghost function QueueValues(queues: Queues): map<string, seq<Msg>>
    reads Everything(queues)
  {
    assert forall n, m | n in queues && m in queues[n] :: m in Everything(queues);
    map n | n in queues :: Values(queues[n])
  }

  function Homes(index: Index): map<ID, string> {
    map id | id in index :: index[id].mailbox
  }

  ghost function AbsOf(queues: Queues, index: Index): State
    reads Everything(queues)
  {
    State(QueueValues(queues), Homes(index))
  }

  function IdsOfRefs(ms: seq<Message>): set<ID> {
    set m | m in ms :: m.id
  }

  lemma ConsistentAgrees(queues: Queues, index: Index)
    requires Consistent(queues, index)
    ensures Agrees(AbsOf(queues, index))
  {
    var s := AbsOf(queues, index);
    forall n | n in s.boxes ensures BoxAgrees(s, n) {
      assert QueueFits(queues[n], n, index);
    }
    forall id | id in s.byID ensures s.byID[id] in s.boxes && HasID(s.boxes[s.byID[id]], id) {
      var n := index[id].mailbox;
      var i :| 0 <= i < |queues[n]| && queues[n][i] == index[id];
      assert s.boxes[n][i].id == id;
    }
  }

  lemma AppendConsistent(queues: Queues, index: Index, m: Message)
    requires Consistent(queues, index) && m.mailbox in queues && m.id !in index
    ensures Consistent(queues[m.mailbox := queues[m.mailbox] + [m]], index[m.id := m])
  {
    var n := m.mailbox;
    var queues' := queues[n := queues[n] + [m]];
    var index' := index[m.id := m];
    forall k | k in queues' ensures QueueFits(queues'[k], k, index') {
      assert QueueFits(queues[k], k, index);
    }
    forall id | id in index'
      ensures index'[id].id == id && index'[id].mailbox in queues' && index'[id] in queues'[index'[id].mailbox]
    {
      if id == m.id {
        assert queues'[n][|queues[n]|] == m;
      }
    }
  }

  /** Taking messages out of one queue and their IDs out of the index. */
  lemma RemoveConsistent(queues: Queues, index: Index, n: string, rest: seq<Message>, gone: set<ID>)
    requires Consistent(queues, index) && n in queues && Distinct(rest)
    requires forall m | m in rest :: m in queues[n] && m.id !in gone
    requires forall m | m in queues[n] && m !in rest :: m.id in gone
    requires forall id | id in gone && id in index :: index[id].mailbox == n
    ensures Consistent(queues[n := rest], index - gone)
  {
    var queues', index' := queues[n := rest], index - gone;
    assert QueueFits(queues[n], n, index);
    forall k | k in queues' ensures QueueFits(queues'[k], k, index') {
      assert QueueFits(queues[k], k, index);
      if k == n {
        forall i | 0 <= i < |rest| ensures rest[i].mailbox == n && rest[i].id in index' && index'[rest[i].id] == rest[i] {
          assert rest[i] in rest && rest[i] in queues[n];
        }
      }
    }
  }

  lemma TrimConsistent(queues: Queues, index: Index, n: string, drop: nat)
    requires Consistent(queues, index) && n in queues && drop <= |queues[n]|
    ensures Consistent(queues[n := queues[n][drop..]], index - IdsOfRefs(queues[n][..drop]))
  {
    var queue := queues[n];
    var front, rest := queue[..drop], queue[drop..];
    assert QueueFits(queue, n, index);
    assert queue == front + rest;
    assert forall i | 0 <= i < |front| :: front[i] == queue[i];
    assert forall i | 0 <= i < |rest| :: rest[i] == queue[drop + i];
    forall m | m in rest ensures m in queue && m.id !in IdsOfRefs(front) {
      assert m !in front;
      assert forall x | x in front :: x in queue && index[x.id] == x;
    }
    forall id | id in IdsOfRefs(front) && id in index ensures index[id].mailbox == n {
      var x :| x in front && x.id == id;
      assert x in queue;
    }
    RemoveConsistent(queues, index, n, rest, IdsOfRefs(front));
  }

  lemma CutOut(queue: seq<Message>, i: nat)
    requires i < |queue| && forall j, k | 0 <= j < k < |queue| :: queue[j].id != queue[k].id
    ensures var rest := queue[..i] + queue[i + 1..];
            && (forall m | m in queue && m !in rest :: m.id == queue[i].id)
            && (forall m | m in rest :: m in queue && m.id != queue[i].id)
            && forall j, k | 0 <= j < k < |rest| :: rest[j].id != rest[k].id
  {
    var rest := queue[..i] + queue[i + 1..];
    assert forall k | 0 <= k < |rest| :: rest[k] == queue[if k < i then k else k + 1];
    assert forall k | 0 <= k < |queue| && k != i :: queue[k] == rest[if k < i then k else k - 1];
    forall m | m in queue && m !in rest ensures m.id == queue[i].id {
      var k :| 0 <= k < |queue| && queue[k] == m;
    }
    forall m | m in rest ensures m in queue && m.id != queue[i].id {
      var k :| 0 <= k < |rest| && rest[k] == m;
    }
  }

  lemma TakeOutConsistent(queues: Queues, index: Index, n: string, i: nat)
    requires Consistent(queues, index) && n in queues && i < |queues[n]|
    ensures Consistent(queues[n := queues[n][..i] + queues[n][i + 1..]], index - {queues[n][i].id})
  {
    var queue := queues[n];
    assert QueueFits(queue, n, index);
    CutOut(queue, i);
    RemoveConsistent(queues, index, n, queue[..i] + queue[i + 1..], {queue[i].id});
  }

  // ---------------------------------------------------------------------------
  // Correspondence with the values
  // ---------------------------------------------------------------------------

  /** A delivery on message references: the trimmed messages, the queues and the index. */
  function EvictedRefs(queues: Queues, m: Message, cap: int): seq<Message>
    requires m.mailbox in queues
  {
    var grown := queues[m.mailbox] + [m];
    grown[..Excess(|grown|, cap)]
  }

  function QueuesWith(queues: Queues, m: Message, cap: int): Queues
    requires m.mailbox in queues
  {
    var grown := queues[m.mailbox] + [m];
    queues[m.mailbox := grown[Excess(|grown|, cap)..]]
  }

  function IndexWith(queues: Queues, index: Index, m: Message, cap: int): Index
    requires m.mailbox in queues
  {
    index[m.id := m] - IdsOfRefs(EvictedRefs(queues, m, cap))
  }

  lemma AbsOfDelivered(queues: Queues, index: Index, m: Message, cap: int)
    requires Consistent(queues, index) && m.mailbox in queues && m.id !in index
    ensures AbsOf(QueuesWith(queues, m, cap), IndexWith(queues, index, m, cap))
            == Delivered(AbsOf(queues, index), cap, m.Value())
    ensures Values(EvictedRefs(queues, m, cap)) == Evicted(AbsOf(queues, index), cap, m.Value())
  {
    var n, s := m.mailbox, AbsOf(queues, index);
    var grown := queues[n] + [m];
    var drop := Excess(|grown|, cap);
    ValuesAppend(queues[n], m);
    ValuesSlice(grown, drop);
    assert Values(grown) == Grown(s, m.Value());
    DeliveredQueues(queues, n, grown[drop..]);
    DeliveredHomes(index, m, grown, drop);
  }

  lemma DeliveredRefs(queues: Queues, index: Index, m: Message, cap: int)
    requires Consistent(queues, index) && m.mailbox in queues && m.id !in index
    ensures Consistent(QueuesWith(queues, m, cap), IndexWith(queues, index, m, cap))
    ensures AbsOf(QueuesWith(queues, m, cap), IndexWith(queues, index, m, cap))
            == Delivered(AbsOf(queues, index), cap, m.Value())
    ensures Values(EvictedRefs(queues, m, cap)) == Evicted(AbsOf(queues, index), cap, m.Value())
  {
    var n, grown := m.mailbox, queues[m.mailbox] + [m];
    var drop := Excess(|grown|, cap);
    AppendConsistent(queues, index, m);
    TrimConsistent(queues[n := grown], index[m.id := m], n, drop);
    assert queues[n := grown][n := grown[drop..]] == queues[n := grown[drop..]];
    AbsOfDelivered(queues, index, m, cap);
  }

  lemma DeliveredQueues(queues: Queues, n: string, rest: seq<Message>)
    requires n in queues
    ensures QueueValues(queues[n := rest]) == QueueValues(queues)[n := Values(rest)]
  {
  }

  lemma DeliveredHomes(index: Index, m: Message, grown: seq<Message>, drop: nat)
    requires drop <= |grown|
    ensures Homes(index[m.id := m] - IdsOfRefs(grown[..drop]))
            == Homes(index)[m.id := m.mailbox] - (set i | 0 <= i < drop :: Values(grown)[i].id)
  {
    var gone := set i | 0 <= i < drop :: Values(grown)[i].id;
    RefIds(grown, drop, gone);
  }

  lemma RefIds(ms: seq<Message>, drop: nat, gone: set<ID>)
    requires drop <= |ms| && gone == set i | 0 <= i < drop :: Values(ms)[i].id
    ensures IdsOfRefs(ms[..drop]) == gone
  {
    forall i | 0 <= i < drop ensures Values(ms)[i].id in IdsOfRefs(ms[..drop]) {
      assert ms[..drop][i] in ms[..drop];
    }
    forall m | m in ms[..drop] ensures m.id in gone {
      var i :| 0 <= i < drop && ms[i] == m;
      assert Values(ms)[i].id == m.id;
    }
  }

  lemma QueueIndex(queue: seq<Message>, n: string, index: Index, m: Message, i: nat)
    requires QueueFits(queue, n, index) && m in queue && FoundAt(queue, m.id, i)
    ensures i < |queue| && queue[i] == m
  {
    var j :| 0 <= j < |queue| && queue[j] == m;
  }

  /** A deletion on message references. */
  function QueuesWithout(queues: Queues, n: string, i: nat): Queues
    requires n in queues && i < |queues[n]|
  {
    queues[n := queues[n][..i] + queues[n][i + 1..]]
  }

  lemma {:induction false} ValuesCut(ms: seq<Message>, i: nat)
    requires i < |ms|
    ensures Values(ms[..i] + ms[i + 1..]) == Values(ms)[..i] + Values(ms)[i + 1..]
  {
    ValuesJoin(ms[..i], ms[i + 1..]);
    assert Values(ms[..i]) == Values(ms)[..i] && Values(ms[i + 1..]) == Values(ms)[i + 1..];
  }

  lemma DeletedValues(queues: Queues, index: Index, id: ID, i: nat, limits: Limits)
    requires id in index && index[id].mailbox in queues && i < |queues[index[id].mailbox]|
    requires FoundAt(queues[index[id].mailbox], id, i)
    ensures AbsOf(QueuesWithout(queues, index[id].mailbox, i), index - {id})
            == Apply(AbsOf(queues, index), limits, Delete(id))
  {
    var n := index[id].mailbox;
    var queue := queues[n];
    ValuesCut(queue, i);
    FirstIndex(Values(queue), i, id);
    DeliveredQueues(queues, n, queue[..i] + queue[i + 1..]);
    assert Homes(index - {id}) == Homes(index) - {id};
  }

  lemma DeletedRefs(queues: Queues, index: Index, id: ID, i: nat)
    requires Consistent(queues, index) && id in index
    requires FoundAt(queues[index[id].mailbox], id, i)
    ensures i < |queues[index[id].mailbox]| && queues[index[id].mailbox][i] == index[id]
    ensures Consistent(QueuesWithout(queues, index[id].mailbox, i), index - {id})
  {
    var n, m := index[id].mailbox, index[id];
    assert QueueFits(queues[n], n, index);
    QueueIndex(queues[n], n, index, m, i);
    TakeOutConsistent(queues, index, n, i);
  }

  lemma DeletedBoth(queues: Queues, index: Index, id: ID, i: nat, limits: Limits)
    requires Consistent(queues, index) && id in index
    requires FoundAt(queues[index[id].mailbox], id, i)
    ensures i < |queues[index[id].mailbox]|
    ensures Consistent(QueuesWithout(queues, index[id].mailbox, i), index - {id})
    ensures AbsOf(QueuesWithout(queues, index[id].mailbox, i), index - {id})
            == Apply(AbsOf(queues, index), limits, Delete(id))
  {
    DeletedRefs(queues, index, id, i);
    DeletedValues(queues, index, id, i, limits);
  }

  lemma ClearedRefs(queues: Queues, index: Index, n: string, limits: Limits)
    requires Consistent(queues, index) && n in queues
    ensures Consistent(queues[n := []], index - IdsOfRefs(queues[n]))
    ensures AbsOf(queues[n := []], index - IdsOfRefs(queues[n])) == Apply(AbsOf(queues, index), limits, Clear(n))
  {
    var queue := queues[n];
    TrimConsistent(queues, index, n, |queue|);
    assert queue[..|queue|] == queue && queue[|queue|..] == [];
    ClearedValues(queues, index, n, limits);
  }

  lemma ClearedValues(queues: Queues, index: Index, n: string, limits: Limits)
    requires n in queues
    ensures AbsOf(queues[n := []], index - IdsOfRefs(queues[n])) == Apply(AbsOf(queues, index), limits, Clear(n))
  {
    DeliveredQueues(queues, n, []);
    var gone := set m | m in Values(queues[n]) :: m.id;
    AllRefIds(queues[n], gone);
    assert Homes(index - gone) == Homes(index) - gone;
  }

  lemma AllRefIds(queue: seq<Message>, gone: set<ID>)
    requires gone == set m | m in Values(queue) :: m.id
    ensures IdsOfRefs(queue) == gone
  {
    forall m | m in queue ensures m.id in gone {
      var i :| 0 <= i < |queue| && queue[i] == m;
      assert Values(queue)[i] in Values(queue);
    }
    forall v | v in Values(queue) ensures v.id in IdsOfRefs(queue) {
      var i :| 0 <= i < |queue| && Values(queue)[i] == v;
      assert queue[i] in queue;
    }
  }

  // ---------------------------------------------------------------------------
  // Loading
  // ---------------------------------------------------------------------------

  /** The index once these messages are entered, the last one with an ID winning. */
  function Entered(index: Index, read: seq<Message>): Index {
    if read == [] then index else Entered(index, read[..|read| - 1])[read[|read| - 1].id := read[|read| - 1]]
  }

  lemma EnteredNext(index: Index, read: seq<Message>, m: Message)
    ensures Entered(index, read + [m]) == Entered(index, read)[m.id := m]
  {
    assert (read + [m])[..|read|] == read;
  }

  /** What is indexed after entering and removing was indexed before or was read. */
  lemma EnteredFrom(index: Index, read: seq<Message>, now: Index)
    requires now.Keys <= Entered(index, read).Keys && forall id | id in now :: now[id] == Entered(index, read)[id]
    ensures forall id | id in now :: (id in index && now[id] == index[id]) || now[id] in Members(read)
  {
    EnteredFacts(index, read);
  }

  lemma {:induction false} EnteredOn(index: Index, read: seq<Message>, more: seq<Message>)
    ensures Entered(index, read + more) == Entered(Entered(index, read), more)
  {
    if more == [] {
      assert read + more == read;
    } else {
      var before, m := more[..|more| - 1], more[|more| - 1];
      assert read + more == (read + before) + [m];
      EnteredOn(index, read, before);
      EnteredNext(index, read + before, m);
    }
  }

  lemma {:induction false} ValuesJoin(a: seq<Message>, b: seq<Message>)
    ensures Values(a + b) == Values(a) + Values(b)
  {
  }

  lemma {:induction false} EnteredFacts(index: Index, read: seq<Message>)
    ensures Entered(index, read).Keys == index.Keys + IdsOfRefs(read)
    ensures forall id | id in Entered(index, read) ::
              if id in IdsOfRefs(read) then Entered(index, read)[id] in read && Entered(index, read)[id].id == id
              else id in index && Entered(index, read)[id] == index[id]
  {
    if read != [] {
      var before, m := read[..|read| - 1], read[|read| - 1];
      assert read == before + [m];
      EnteredFacts(index, before);
      assert IdsOfRefs(read) == IdsOfRefs(before) + {m.id};
    }
  }

  ghost predicate OfMailbox(ms: seq<Message>, n: string) {
    forall m | m in ms :: m.mailbox == n
  }

  ghost predicate QueueTracked(queues: Queues, n: string) {
    n in queues ==> OfMailbox(queues[n], n)
  }

  ghost predicate EntryTracked(queues: Queues, index: Index, id: ID) {
    id in index ==> index[id].id == id && index[id].mailbox in queues && index[id] in queues[index[id].mailbox]
  }

  /** Every indexed message is in the queue of its mailbox. */
  ghost predicate Tracked(queues: Queues, index: Index) {
    (forall n: string :: QueueTracked(queues, n)) && forall id: ID :: EntryTracked(queues, index, id)
  }

  lemma SameID(queue: seq<Message>, a: Message, b: Message)
    requires DistinctIds(Values(queue)) && a in queue && b in queue && a.id == b.id
    ensures a == b
  {
    var i :| 0 <= i < |queue| && queue[i] == a;
    var j :| 0 <= j < |queue| && queue[j] == b;
    assert Values(queue)[i].id == Values(queue)[j].id;
  }

  lemma DistinctValues(queue: seq<Message>)
    requires DistinctIds(Values(queue))
    ensures Distinct(queue)
  {
    forall i, j | 0 <= i < j < |queue| ensures queue[i] != queue[j] {
      assert Values(queue)[i].id != Values(queue)[j].id;
    }
  }

  lemma TrackedEntry(queues: Queues, index: Index, n: string, m: Message)
    requires Tracked(queues, index) && Agrees(AbsOf(queues, index)) && n in queues && m in queues[n]
    ensures m.mailbox == n && m.id in index && index[m.id] == m
  {
    var s := AbsOf(queues, index);
    assert QueueTracked(queues, n) && EntryTracked(queues, index, m.id);
    assert BoxAgrees(s, n);
    var i :| 0 <= i < |queues[n]| && queues[n][i] == m;
    assert s.boxes[n][i].id in s.byID && s.byID[m.id] == n;
    SameID(queues[n], index[m.id], m);
  }

  lemma TrackedQueue(queues: Queues, index: Index, n: string)
    requires Tracked(queues, index) && Agrees(AbsOf(queues, index)) && n in queues
    ensures QueueFits(queues[n], n, index)
  {
    assert BoxAgrees(AbsOf(queues, index), n);
    DistinctValues(queues[n]);
    forall i | 0 <= i < |queues[n]|
      ensures queues[n][i].mailbox == n && queues[n][i].id in index && index[queues[n][i].id] == queues[n][i]
    {
      TrackedEntry(queues, index, n, queues[n][i]);
    }
  }

  /** When the values agree, queues and index share their messages. */
  lemma TrackedConsistent(queues: Queues, index: Index)
    requires Tracked(queues, index) && Agrees(AbsOf(queues, index))
    ensures Consistent(queues, index)
  {
    forall n | n in queues ensures QueueFits(queues[n], n, index) {
      TrackedQueue(queues, index, n);
    }
    forall id | id in index
      ensures index[id].id == id && index[id].mailbox in queues && index[id] in queues[index[id].mailbox]
    {
      assert EntryTracked(queues, index, id);
    }
  }

  lemma StaysBehind(read: seq<Message>, drop: nat, m: Message)
    requires drop <= |read| && m in read && m.id !in IdsOfRefs(read[..drop])
    ensures m in read[drop..]
  {
    var i :| 0 <= i < |read| && read[i] == m;
    forall k | 0 <= k < drop ensures read[k] in read[..drop] {
      assert read[..drop][k] == read[k];
    }
    assert read[drop..][i - drop] == m;
  }

  /** What loading one mailbox makes of queues and index. */
  lemma LoadedRefs(queues: Queues, index: Index, n: string, read: seq<Message>, drop: nat)
    requires n in queues && queues[n] == [] && drop <= |read|
    requires OfMailbox(read, n) && Tracked(queues, index)
    ensures Tracked(queues[n := read[drop..]], Entered(index, read) - IdsOfRefs(read[..drop]))
  {
    var gone := IdsOfRefs(read[..drop]);
    var queues', index' := queues[n := read[drop..]], Entered(index, read) - gone;
    EnteredFacts(index, read);
    forall id: ID ensures EntryTracked(queues', index', id) {
      assert EntryTracked(queues, index, id);
      if id in index' && id in IdsOfRefs(read) {
        StaysBehind(read, drop, index'[id]);
      }
    }
    forall k: string ensures QueueTracked(queues', k) {
      assert QueueTracked(queues, k);
      assert forall m | m in read[drop..] :: m in read;
    }
  }

  lemma EnteredHomes(index: Index, n: string, read: seq<Message>, ids: set<ID>)
    requires OfMailbox(read, n) && ids == IdsOfRefs(read)
    ensures Homes(Entered(index, read)) == Homes(index) + (map id | id in ids :: n)
  {
    EnteredFacts(index, read);
  }

  lemma LoadedHomes(index: Index, n: string, read: seq<Message>, drop: nat)
    requires drop <= |read| && OfMailbox(read, n)
    ensures Homes(Entered(index, read) - IdsOfRefs(read[..drop]))
            == (Homes(index) + (map id | id in IdSet(Values(read)) :: n)) - IdSet(Values(read)[..drop])
  {
    AllRefIds(read, IdSet(Values(read)));
    ValuesSlice(read, drop);
    AllRefIds(read[..drop], IdSet(Values(read)[..drop]));
    EnteredHomes(index, n, read, IdSet(Values(read)));
    HomesLess(Entered(index, read), IdsOfRefs(read[..drop]));
  }

  lemma HomesLess(index: Index, gone: set<ID>)
    ensures Homes(index - gone) == Homes(index) - gone
  {
  }

  lemma LoadedAbs(queues: Queues, index: Index, n: string, read: seq<Message>, all: seq<Msg>, cap: int)
    requires n in queues && queues[n] == [] && Tracked(queues, index)
    requires Values(read) == all && OfMailbox(read, n)
    ensures var drop := Excess(|all|, cap);
            var queues', index' := queues[n := read[drop..]], Entered(index, read) - IdsOfRefs(read[..drop]);
            && Tracked(queues', index')
            && AbsOf(queues', index')
               == State(AbsOf(queues, index).boxes[n := all[drop..]],
                        (AbsOf(queues, index).byID + (map id | id in IdSet(all) :: n)) - IdSet(all[..drop]))
  {
    var drop := Excess(|all|, cap);
    LoadedRefs(queues, index, n, read, drop);
    LoadedHomes(index, n, read, drop);
    ValuesSlice(read, drop);
    DeliveredQueues(queues, n, read[drop..]);
  }

  lemma ListedOfMailbox(fs: FS, n: string, read: seq<Message>)
    requires Values(read) == Listing(fs, n)
    ensures OfMailbox(read, n)
  {
    ListingFacts(fs, n);
    forall m | m in read ensures m.mailbox == n {
      var i :| 0 <= i < |read| && read[i] == m;
      assert Listing(fs, n)[i] in Listing(fs, n);
    }
  }

  lemma ReadMore(queues: Queues, index: Index, n: string, read: seq<Message>, more: seq<Message>)
    ensures queues[n := read][n := read + more] == queues[n := read + more]
    ensures Entered(Entered(index, read), more) == Entered(index, read + more)
    ensures Values(read + more) == Values(read) + Values(more)
  {
    LastWriteCounts(queues, n, read, read + more);
    EnteredOn(index, read, more);
    ValuesJoin(read, more);
  }

  method NewMailboxes(order: seq<string>) returns (made: map<string, Mailbox>)
    ensures made.Keys == Members(order)
    ensures forall n | n in made ::
              fresh(made[n]) && made[n].Valid() && made[n].name == n && made[n].Live() == [] && fresh(made[n].messages)
    ensures forall n, k | n in made && k in made && n != k :: made[n].messages != made[k].messages
  {
    made := map[];
    for i := 0 to |order|
      invariant made.Keys == Members(order[..i])
      invariant forall n | n in made ::
                  fresh(made[n]) && made[n].Valid() && made[n].name == n && made[n].Live() == [] && fresh(made[n].messages)
      invariant forall n, k | n in made && k in made && n != k :: made[n].messages != made[k].messages
    {
      var box := new Mailbox(order[i]);
      made := made[order[i] := box];
      assert order[..i + 1] == order[..i] + [order[i]];
    }
    assert order[..|order|] == order;
  }

  class Store {
    const limits: Limits
    const boxes: map<string, Mailbox>
    const persist: Persistence?
    const hub: Hub
    var byID: Index
    /** The store as a value, kept up to date by whole operations. */
    ghost var state: State

    /** A store with empty mailboxes; `persist` is null when no data directory is set. */
    constructor (order: seq<string>, limits: Limits, persist: Persistence?)
      requires Distinct(order) && (persist != null ==> persist.Valid())
      ensures Open() && fresh(hub) && hub.log == [] && hub.subs == {}
      ensures this.limits == limits && this.persist == persist && boxes.Keys == Members(order)
      ensures state == Empty(Members(order)) && Tracked(All(), byID)
      ensures fresh(boxes.Values) && fresh(Held()) && hub !in Held()
    {
      var made := NewMailboxes(order);
      this.limits, this.persist, boxes, byID := limits, persist, made, map[];
      hub := new Hub();
      state := Empty(Members(order));
      new;
      EmptyQueues();
    }

    /** What the store starts with. */
    ghost function Initial(order: seq<string>): State
      reads if persist != null then {persist} else {}
    {
      if persist == null then Empty(Members(order))
      else Loaded(persist.files, Members(order), order, limits.maxMessages)
    }

    /** Loads what a data directory holds; without one the mailboxes stay empty. */
    method Restore(order: seq<string>, ghost s: State, ghost held: set<object>) returns (ghost now: set<object>)
      requires Sound() && Distinct(order) && boxes.Keys == Members(order) && Tracked(All(), byID) && held == Held()
      requires Abs() == Empty(Members(order)) && hub.Valid() && (persist != null ==> persist.Valid())
      requires s == Initial(order) && hub !in held
      modifies this, boxes.Values, held
      modifies if persist != null then {persist} else {}
      ensures Sound() && state == s == Abs() && now == Held() && fresh(now - held)
      ensures persist != null ==> persist.Took(LoadAllSteps(old(persist.files), order, limits.maxMessages))
      ensures unchanged(hub) && (Agrees(s) ==> Open())
    {
      now := held;
      if persist != null {
        now := Load(order, persist.files, held);
      }
      Settle(s, now);
    }

    ghost method Settle(s: State, held: set<object>)
      requires Sound() && Tracked(All(), byID) && hub.Valid() && (persist != null ==> persist.Valid())
      requires s == Abs() && held == Held()
      modifies this`state
      ensures Sound() && state == s == Abs() && held == Held()
      ensures Agrees(s) ==> Open()
    {
      ghost var queues := All();
      state := s;
      QueuesKept();
      SameValues(queues);
      HeldKept();
      OpenIfAgreed();
    }

    lemma OpenIfAgreed()
      requires Sound() && state == Abs() && hub.Valid() && (persist != null ==> persist.Valid())
      requires Tracked(All(), byID)
      ensures Agrees(state) ==> Open()
    {
      if Agrees(state) {
        TrackedConsistent(All(), byID);
      }
    }

    lemma EmptyQueues()
      requires Sound() && byID == map[]
      requires forall n | n in boxes :: boxes[n].Live() == []
      ensures Valid() && Abs() == Empty(boxes.Keys) && Tracked(All(), byID)
    {
      assert QueueValues(All()) == Empty(boxes.Keys).boxes;
    }

    twostate lemma ValuesKept(ms: seq<Message>)
      requires forall m | m in ms :: unchanged(m)
      ensures Values(ms) == old(Values(ms))
    {
      forall i | 0 <= i < |ms| ensures Values(ms)[i] == old(Values(ms))[i] {
        assert ms[i] in ms;
      }
    }

    /** A message that was read goes to the end of its queue and into the index. */
    method Enter(n: string, m: Message?, ghost queues: Queues) returns (ghost read: seq<Message>)
      requires Sound() && n in boxes && queues == All() && (m != null ==> m.mailbox == n)
      modifies this`byID, boxes[n], boxes[n].messages
      ensures Sound() && Rehoused()
      ensures read == if m == null then [] else [m]
      ensures All() == queues[n := queues[n] + read] && byID == Entered(old(byID), read)
    {
      if m == null {
        assert queues[n] + [] == queues[n];
        return [];
      }
      EnteredNext(byID, [], m);
      assert [] + [m] == [m];
      AppendLocked(m, queues);
      return [m];
    }

    method ReadNext(n: string, id: ID, ghost queues: Queues) returns (ghost read: seq<Message>)
      requires Sound() && n in boxes && persist != null && queues == All()
      modifies this`byID, boxes[n], boxes[n].messages
      ensures Sound() && Rehoused() && fresh(read)
      ensures Values(read) == ReadEach(persist.files, n, [id])
      ensures All() == queues[n := queues[n] + read] && byID == Entered(old(byID), read)
    {
      var m := persist.ReadMessage(n, id);
      ReadOne(persist.files, n, id);
      QueuesKept();
      read := Enter(n, m, queues);
    }

    /** The messages of the first `i` IDs are in queue `n` and in the index. */
    ghost predicate HasRead(n: string, ids: seq<ID>, i: nat, queues: Queues, index: Index, read: seq<Message>)
      reads this`byID, boxes.Values, Arrays(), read
      reads if persist != null then {persist} else {}
    {
      && Sound() && n in boxes && persist != null && i <= |ids|
      && Values(read) == ReadEach(persist.files, n, ids[..i])
      && All() == queues[n := read] && byID == Entered(index, read)
    }

    /** Reads one more message behind those read so far. */
    method ReadOn(n: string, ids: seq<ID>, i: nat, ghost queues: Queues, ghost index: Index, ghost read: seq<Message>,
                  ghost made: set<Message>)
      returns (ghost now: seq<Message>, ghost more: set<Message>)
      requires HasRead(n, ids, i, queues, index, read) && i < |ids| && made == Members(read)
      modifies this`byID, boxes[n], boxes[n].messages
      ensures HasRead(n, ids, i + 1, queues, index, now) && Rehoused() && more == Members(now) && fresh(more - made)
    {
      ReadEachStep(persist.files, n, ids, i);
      ghost var next := ReadNext(n, ids[i], queues[n := read]);
      ValuesKept(read);
      ReadMore(queues, index, n, read, next);
      now := read + next;
      more := Members(now);
    }

    /** The loop over the IDs of one mailbox directory. */
    method ReadIDs(n: string, ids: seq<ID>, ghost queues: Queues, ghost index: Index) returns (ghost read: seq<Message>)
      requires HasRead(n, ids, 0, queues, index, [])
      modifies this`byID, boxes[n], boxes[n].messages
      ensures HasRead(n, ids, |ids|, queues, index, read) && Rehoused() && fresh(Members(read))
    {
      read := [];
      ghost var made: set<Message> := {};
      for i := 0 to |ids|
        invariant HasRead(n, ids, i, queues, index, read) && Rehoused() && made == Members(read) && fresh(made)
      {
        read, made := ReadOn(n, ids, i, queues, index, read, made);
      }
    }

    /** Every readable message of the directory, by rising ID. */
    method ReadInto(n: string, ghost queues: Queues, ghost index: Index) returns (ghost read: seq<Message>)
      requires Sound() && n in boxes && persist != null && queues == All() && queues[n] == [] && index == byID
      modifies this`byID, boxes[n], boxes[n].messages
      ensures Sound() && Rehoused() && fresh(Members(read))
      ensures Values(read) == Listing(persist.files, n)
      ensures All() == queues[n := read] && byID == Entered(index, read)
    {
      var ids := Sorted(JsonIds(persist.files, n));
      assert queues[n := []] == queues;
      read := ReadIDs(n, ids, queues, index);
      assert ids[..|ids|] == ids;
    }

    /** Trims what was read; the trimmed messages come back as values. */
    method TrimRead(n: string, ghost queues: Queues, ghost read: seq<Message>, ghost all: seq<Msg>) returns (gone: seq<Msg>)
      requires Sound() && n in boxes && n in queues && All() == queues[n := read] && Values(read) == all
      modifies this`byID, boxes[n]
      ensures Sound() && Rehoused() && Values(read) == all
      ensures var drop := Excess(|all|, limits.maxMessages);
              && gone == all[..drop] && All() == queues[n := read[drop..]]
              && byID == old(byID) - IdsOfRefs(read[..drop])
    {
      ValuesSlice(read, Excess(|all|, limits.maxMessages));
      LastWriteCounts(queues, n, read, read[Excess(|all|, limits.maxMessages)..]);
      var evicted := EvictLocked(n, queues[n := read]);
      ValuesKept(read);
      ValuesKept(read[..Excess(|all|, limits.maxMessages)]);
      gone := Values(evicted);
    }

    /** Reading one mailbox and trimming it. */
    method LoadQueue(n: string, ghost queues: Queues, ghost all: seq<Msg>) returns (gone: seq<Msg>, ghost read: seq<Message>)
      requires Sound() && n in boxes && persist != null && queues == All() && queues[n] == []
      requires all == Listing(persist.files, n)
      modifies this`byID, boxes[n], boxes[n].messages
      ensures Sound() && Rehoused() && fresh(Members(read))
      ensures Values(read) == all && OfMailbox(read, n)
      ensures var drop := Excess(|all|, limits.maxMessages);
              && gone == all[..drop] && All() == queues[n := read[drop..]]
              && byID == Entered(old(byID), read) - IdsOfRefs(read[..drop])
    {
      read := ReadInto(n, queues, byID);
      ListedOfMailbox(persist.files, n, read);
      gone := TrimRead(n, queues, read, all);
    }

    /** Memory after one mailbox is loaded, as a value. */
    method LoadInMemory(n: string, ghost fs: FS, ghost s: State) returns (gone: seq<Msg>)
      requires Sound() && n in boxes && All()[n] == [] && Tracked(All(), byID)
      requires persist != null && fs == persist.files && s == Abs()
      modifies this`byID, boxes[n], boxes[n].messages
      ensures Sound() && Rehoused() && Reindexed() && Tracked(All(), byID)
      ensures Abs() == LoadBox(fs, s, n, limits.maxMessages)
      ensures gone == Listing(fs, n)[..Excess(|Listing(fs, n)|, limits.maxMessages)]
    {
      ghost var queues, index, all := All(), byID, Listing(fs, n);
      ghost var read;
      gone, read := LoadQueue(n, queues, all);
      SameValues(queues);
      LoadedAbs(queues, index, n, read, all, limits.maxMessages);
      EnteredFrom(index, read, byID);
    }

    method LoadAndHold(n: string, ghost fs: FS, ghost s: State, ghost held: set<object>)
      returns (gone: seq<Msg>, ghost now: set<object>)
      requires Sound() && n in boxes && All()[n] == [] && Tracked(All(), byID) && held == Held()
      requires persist != null && fs == persist.files && s == Abs()
      modifies this`byID, boxes[n], boxes[n].messages
      ensures Sound() && Tracked(All(), byID) && now == Held() && fresh(now - held)
      ensures Abs() == LoadBox(fs, s, n, limits.maxMessages)
      ensures gone == Listing(fs, n)[..Excess(|Listing(fs, n)|, limits.maxMessages)]
    {
      gone := LoadInMemory(n, fs, s);
      HeldGrows();
      now := Held();
    }

    /** The trimmed messages leave the directory. */
    method Discard(gone: seq<Msg>, ghost s: State, ghost held: set<object>)
      requires Sound() && persist != null && persist.Valid() && Tracked(All(), byID) && s == Abs() && held == Held()
      modifies persist
      ensures Sound() && Tracked(All(), byID) && s == Abs() && held == Held()
      ensures persist.Took(RemoveAllSteps(gone))
    {
      ghost var queues := All();
      persist.RemoveEach(gone);
      QueuesKept();
      SameValues(queues);
      HeldKept();
    }

    /**
     Restores one mailbox: every readable message in ID order, in the queue and in the
     index; those over the cap leave both, and the directory as well.
     */
    method LoadMailbox(n: string, ghost fs: FS, ghost s: State, ghost held: set<object>) returns (ghost now: set<object>)
      requires Sound() && n in boxes && All()[n] == [] && Tracked(All(), byID) && held == Held()
      requires persist != null && persist.Valid() && fs == persist.files && s == Abs()
      modifies this`byID, boxes[n], boxes[n].messages, persist
      ensures Sound() && Tracked(All(), byID) && now == Held() && fresh(now - held)
      ensures Abs() == LoadBox(fs, s, n, limits.maxMessages)
      ensures persist.Took(LoadSteps(fs, n, limits.maxMessages))
    {
      var gone;
      gone, now := LoadAndHold(n, fs, s, held);
      Discard(gone, LoadBox(fs, s, n, limits.maxMessages), now);
    }

    /** The first `i` mailboxes are loaded, and the directory is what that leaves. */
    ghost predicate LoadedUpTo(order: seq<string>, i: nat, fs: FS, taken: seq<Step>)
      reads this`byID, boxes.Values, Arrays()
      reads if Sound() then Everything(All()) else {}
      reads if persist != null then {persist} else {}
    {
      && Sound() && Tracked(All(), byID) && i <= |order|
      && Abs() == Loaded(fs, Members(order), order[..i], limits.maxMessages)
      && persist != null && persist.Valid() && persist.files == LoadedFiles(fs, order[..i], limits.maxMessages)
      && persist.log == taken + LoadAllSteps(fs, order[..i], limits.maxMessages)
    }

    /** Loads the next mailbox of the configuration. */
    method LoadNext(order: seq<string>, i: nat, ghost fs: FS, ghost taken: seq<Step>, ghost held: set<object>)
      returns (ghost now: set<object>)
      requires LoadedUpTo(order, i, fs, taken) && held == Held()
      requires Distinct(order) && boxes.Keys == Members(order) && i < |order|
      modifies this`byID, boxes[order[i]], boxes[order[i]].messages
      modifies if persist != null then {persist} else {}
      ensures LoadedUpTo(order, i + 1, fs, taken) && now == Held() && fresh(now - held)
    {
      ghost var cap := limits.maxMessages;
      LoadedNext(fs, Members(order), order, i, cap);
      LoadedNextSteps(fs, order, i, cap, taken);
      assert Values(All()[order[i]]) == Abs().boxes[order[i]];
      now := LoadMailbox(order[i], LoadedFiles(fs, order[..i], cap), Loaded(fs, Members(order), order[..i], cap), held);
    }

    /** The loop over the mailboxes. */
    method LoadEach(order: seq<string>, ghost fs: FS, ghost taken: seq<Step>, ghost held: set<object>)
      returns (ghost now: set<object>)
      requires LoadedUpTo(order, 0, fs, taken) && Distinct(order) && boxes.Keys == Members(order) && held == Held()
      modifies this`byID, boxes.Values, held
      modifies if persist != null then {persist} else {}
      ensures LoadedUpTo(order, |order|, fs, taken) && now == Held() && fresh(now - held)
    {
      now := held;
      for i := 0 to |order|
        invariant LoadedUpTo(order, i, fs, taken) && now == Held() && fresh(now - held)
      {
        InUse(order[i]);
        now := LoadNext(order, i, fs, taken, now);
      }
    }

    method Load(order: seq<string>, ghost fs: FS, ghost held: set<object>) returns (ghost now: set<object>)
      requires Sound() && Distinct(order) && boxes.Keys == Members(order) && Tracked(All(), byID) && held == Held()
      requires Abs() == Empty(Members(order)) && persist != null && persist.Valid() && fs == persist.files
      modifies this`byID, boxes.Values, held, persist
      ensures Sound() && Tracked(All(), byID) && now == Held() && fresh(now - held)
      ensures Abs() == Loaded(fs, Members(order), order, limits.maxMessages)
      ensures persist.Took(LoadAllSteps(fs, order, limits.maxMessages))
    {
      ghost var taken := persist.log;
      assert taken + [] == taken;
      now := LoadEach(order, fs, taken, held);
      assert order[..|order|] == order;
    }

    ghost function Arrays(): set<object>
      reads boxes.Values
    {
      set b | b in boxes.Values :: b.messages
    }

    /** Every mailbox is well formed, and no two share an array. */
    ghost predicate Sound()
      reads boxes.Values, Arrays()
    {
      && (forall n | n in boxes :: boxes[n].name == n && boxes[n].Valid())
      && forall n, k | n in boxes && k in boxes && n != k :: boxes[n].messages != boxes[k].messages
    }

    ghost function All(): Queues
      requires Sound()
      reads boxes.Values, Arrays()
    {
      map n | n in boxes :: boxes[n].Live()
    }

    ghost predicate Valid()
      reads this`byID, boxes.Values, Arrays()
    {
      Sound() && Consistent(All(), byID)
    }

    /** The store as a value. */
    ghost function Abs(): State
      requires Sound()
      reads this`byID, boxes.Values, Arrays(), Everything(All())
    {
      AbsOf(All(), byID)
    }

    /** The array each mailbox uses now. */
    ghost function Places(): map<string, array<Message?>>
      reads boxes.Values
    {
      map n | n in boxes :: boxes[n].messages
    }

    /** Every mailbox has kept its array or moved to a new one. */
    twostate predicate Rehoused()
      reads boxes.Values
    {
      forall n | n in boxes :: Places()[n] == old(Places())[n] || fresh(Places()[n])
    }

    /** The arrays in use and the indexed messages. */
    ghost function Held(): set<object>
      reads this`byID, boxes.Values
    {
      Arrays() + byID.Values
    }

    lemma InUse(n: string)
      requires n in boxes
      ensures boxes[n] in boxes.Values && boxes[n].messages in Held()
    {
    }

    twostate lemma HeldGrows()
      requires Rehoused() && Reindexed()
      ensures fresh(Held() - old(Held()))
    {
      forall b | b in Arrays() ensures b in old(Arrays()) || fresh(b) {
        var box :| box in boxes.Values && box.messages == b;
        var n :| n in boxes && boxes[n] == box;
        assert Places()[n] == b;
      }
      forall m | m in byID.Values ensures m in old(byID.Values) || fresh(m) {
        var id :| id in byID && byID[id] == m;
      }
    }

    twostate lemma HeldKept()
      requires SameLayout()
      ensures Held() == old(Held()) && Arrays() == old(Arrays())
    {
      forall b ensures b in Arrays() <==> b in old(Arrays()) {
        if b in Arrays() {
          var box :| box in boxes.Values && box.messages == b;
          var n :| n in boxes && boxes[n] == box;
          assert Places()[n] == b;
        }
        if b in old(Arrays()) {
          var box :| box in boxes.Values && old(box.messages) == b;
          var n :| n in boxes && boxes[n] == box;
          assert old(Places())[n] == b;
        }
      }
    }

    /** The arrays in use and the index are as they were. */
    twostate predicate SameLayout()
      reads this`byID, boxes.Values
    {
      Places() == old(Places()) && byID == old(byID)
    }

    twostate predicate SameShape()
      reads this, boxes.Values
    {
      state == old(state) && SameLayout()
    }

    /** No ID leads to another message than before, except that `m` may have come in. */
    twostate predicate ReindexedWith(m: Message)
      reads this`byID
    {
      forall id | id in byID :: (id in old(byID) && byID[id] == old(byID)[id]) || byID[id] == m
    }

    twostate predicate Reindexed()
      reads this`byID
    {
      forall id | id in byID :: (id in old(byID) && byID[id] == old(byID)[id]) || fresh(byID[id])
    }

    /** Only mailbox `n` has changed since. */
    twostate predicate OnlyChanged(n: string)
      reads boxes.Values, Arrays()
    {
      forall k | k in boxes && k != n :: unchanged(boxes[k]) && unchanged(boxes[k].messages)
    }

    twostate lemma OneBoxChanged(n: string)
      requires old(Sound()) && n in boxes && OnlyChanged(n)
      requires boxes[n].Valid()
      requires boxes[n].messages == old(boxes[n].messages) || fresh(boxes[n].messages)
      ensures Sound() && All() == old(All())[n := boxes[n].Live()]
    {
      forall k | k in boxes ensures boxes[k].name == k && boxes[k].Valid() {
      }
      forall k | k in boxes && k != n ensures boxes[k].Live() == old(boxes[k].Live()) {
      }
    }

    /** No stored message has been altered since. */
    twostate predicate Untouched(queues: Queues)
      reads Everything(queues)
    {
      forall m | m in Everything(queues) :: unchanged(m)
    }

    twostate lemma SameValues(queues: Queues)
      requires Untouched(queues)
      ensures QueueValues(queues) == old(QueueValues(queues))
    {
    }

    method AppendToQueue(m: Message, ghost queues: Queues)
      requires Sound() && m.mailbox in boxes && queues == All()
      modifies boxes[m.mailbox], boxes[m.mailbox].messages
      ensures Sound() && Rehoused() && SameOutside()
      ensures All() == queues[m.mailbox := queues[m.mailbox] + [m]]
    {
      boxes[m.mailbox].Append(m);
      OneBoxChanged(m.mailbox);
    }

    method AppendLocked(m: Message, ghost queues: Queues)
      requires Sound() && m.mailbox in boxes && queues == All()
      modifies this`byID, boxes[m.mailbox], boxes[m.mailbox].messages
      ensures Sound() && state == old(state) && Rehoused() && SameOutside()
      ensures All() == queues[m.mailbox := queues[m.mailbox] + [m]]
      ensures byID == old(byID)[m.id := m]
    {
      AppendToQueue(m, queues);
      label appended:
      byID := byID[m.id := m];
      BoxesStay@appended();
    }

    /** The queues do not depend on the index. */
    twostate lemma BoxesStay()
      requires old(Sound()) && forall n | n in boxes :: unchanged(boxes[n]) && unchanged(boxes[n].messages)
      ensures Sound() && All() == old(All()) && Places() == old(Places())
    {
      forall n | n in boxes ensures boxes[n].Live() == old(boxes[n].Live()) {
      }
    }

    /** Trims a mailbox back to the cap. */
    method EvictLocked(n: string, ghost queues: Queues) returns (evicted: seq<Message>)
      requires Sound() && n in boxes && queues == All()
      modifies this`byID, boxes[n]
      ensures Sound() && state == old(state) && Rehoused() && SameOutside()
      ensures evicted == queues[n][..Excess(|queues[n]|, limits.maxMessages)]
      ensures All() == queues[n := queues[n][Excess(|queues[n]|, limits.maxMessages)..]]
      ensures byID == old(byID) - IdsOfRefs(evicted)
    {
      evicted := boxes[n].Evict(limits.maxMessages);
      byID := byID - IdsOfRefs(evicted);
      OneBoxChanged(n);
    }

    /** Appending, then trimming. */
    method Enqueue(m: Message, ghost queues: Queues) returns (evicted: seq<Message>)
      requires Sound() && m.mailbox in boxes && queues == All()
      modifies this`byID, boxes[m.mailbox], boxes[m.mailbox].messages
      ensures Sound() && state == old(state) && Rehoused() && SameOutside()
      ensures evicted == EvictedRefs(queues, m, limits.maxMessages)
      ensures All() == QueuesWith(queues, m, limits.maxMessages)
      ensures byID == IndexWith(queues, old(byID), m, limits.maxMessages)
    {
      ghost var grown := queues[m.mailbox] + [m];
      LastWriteCounts(queues, m.mailbox, grown, grown[Excess(|grown|, limits.maxMessages)..]);
      AppendLocked(m, queues);
      evicted := EvictLocked(m.mailbox, queues[m.mailbox := grown]);
    }

    /** The part of a delivery under the lock. */
    method DeliverLocked(m: Message) returns (evicted: seq<Message>)
      requires Valid() && m.mailbox in boxes && m.id !in byID
      modifies this`byID, boxes[m.mailbox], boxes[m.mailbox].messages
      ensures Valid() && state == old(state) && Rehoused() && ReindexedWith(m) && SameOutside()
      ensures Abs() == Delivered(old(Abs()), limits.maxMessages, m.Value())
      ensures Values(evicted) == Evicted(old(Abs()), limits.maxMessages, m.Value())
    {
      ghost var queues, index := All(), byID;
      evicted := Enqueue(m, queues);
      SameValues(queues);
      assert AbsOf(queues, index) == old(Abs());
      DeliveredRefs(queues, index, m, limits.maxMessages);
    }

    /** Out of the queue at the first position with that ID. */
    method RemoveOne(m: Message, ghost queues: Queues) returns (ghost at: nat)
      requires Sound() && m.mailbox in boxes && queues == All() && m in queues[m.mailbox]
      modifies boxes[m.mailbox], boxes[m.mailbox].messages
      ensures Sound() && boxes[m.mailbox].messages == old(boxes[m.mailbox].messages)
      ensures FoundAt(queues[m.mailbox], m.id, at) && at < |queues[m.mailbox]|
      ensures All() == QueuesWithout(queues, m.mailbox, at)
    {
      at := boxes[m.mailbox].RemoveID(m.id);
      OneBoxChanged(m.mailbox);
    }

    /** No other array comes into use, and nothing but the queue changes. */
    method Unqueue(m: Message, ghost queues: Queues, ghost places: map<string, array<Message?>>) returns (ghost at: nat)
      requires Sound() && m.mailbox in boxes && queues == All() && m in queues[m.mailbox] && places == Places()
      modifies boxes[m.mailbox], boxes[m.mailbox].messages
      ensures Sound() && Places() == places && SameOutside()
      ensures FoundAt(queues[m.mailbox], m.id, at) && at < |queues[m.mailbox]|
      ensures All() == QueuesWithout(queues, m.mailbox, at)
    {
      at := RemoveOne(m, queues);
      assert forall n | n in boxes :: boxes[n].messages == places[n];
    }

    /** Out of the index, then out of the queue. */
    method TakeOut(m: Message, ghost queues: Queues, ghost places: map<string, array<Message?>>) returns (ghost at: nat)
      requires Sound() && m.mailbox in boxes && queues == All() && m in queues[m.mailbox] && places == Places()
      modifies this`byID, boxes[m.mailbox], boxes[m.mailbox].messages
      ensures Sound() && state == old(state) && Places() == places && SameOutside()
      ensures FoundAt(queues[m.mailbox], m.id, at) && at < |queues[m.mailbox]|
      ensures All() == QueuesWithout(queues, m.mailbox, at)
      ensures byID == old(byID) - {m.id}
    {
      byID := byID - {m.id};
      BoxesStay();
      at := Unqueue(m, queues, places);
    }

    /** The messages are not touched by it, so what there was is still known. */
    method TakeOutFrom(m: Message, ghost queues: Queues, ghost index: Index, ghost s: State,
                       ghost places: map<string, array<Message?>>)
      returns (ghost at: nat)
      requires Sound() && m.mailbox in boxes && queues == All() && m in queues[m.mailbox] && places == Places()
      requires index == byID && s == AbsOf(queues, index)
      modifies this`byID, boxes[m.mailbox], boxes[m.mailbox].messages
      ensures Sound() && state == old(state) && Places() == places && SameOutside()
      ensures FoundAt(queues[m.mailbox], m.id, at) && AbsOf(queues, index) == s
      ensures at < |queues[m.mailbox]| && All() == QueuesWithout(queues, m.mailbox, at)
      ensures byID == index - {m.id}
    {
      at := TakeOut(m, queues, places);
      SameValues(queues);
    }

    /** The part of a deletion under the lock. */
    method DeleteLocked(m: Message)
      requires Valid() && m.id in byID && byID[m.id] == m
      modifies this`byID, boxes[m.mailbox], boxes[m.mailbox].messages
      ensures Valid() && state == old(state) && SameOutside()
      ensures Places() == old(Places()) && byID == old(byID) - {m.id}
      ensures Abs() == Apply(old(Abs()), limits, Delete(m.id))
    {
      ghost var queues, index, s := All(), byID, Abs();
      ghost var at := TakeOutFrom(m, queues, index, s, Places());
      DeletedBoth(queues, index, m.id, at, limits);
    }

    method EmptyQueue(n: string) returns (removed: seq<Message>)
      requires Sound() && n in boxes
      modifies this`byID, boxes[n]
      ensures Sound() && state == old(state) && Rehoused() && SameOutside()
      ensures removed == old(All())[n] && All() == old(All())[n := []]
      ensures byID == old(byID) - IdsOfRefs(removed)
    {
      removed := boxes[n].Reset();
      byID := byID - IdsOfRefs(removed);
      OneBoxChanged(n);
    }

    /** The part of clearing under the lock. */
    method ClearLocked(n: string) returns (removed: seq<Message>)
      requires Valid() && n in boxes
      modifies this`byID, boxes[n]
      ensures Valid() && Values(removed) == old(Abs()).boxes[n] && state == old(state) && Rehoused() && Reindexed() && SameOutside()
      ensures Abs() == Apply(old(Abs()), limits, Clear(n))
    {
      ghost var queues, index := All(), byID;
      removed := EmptyQueue(n);
      SameValues(queues);
      assert AbsOf(queues, index) == old(Abs());
      ClearedRefs(queues, index, n, limits);
    }

    /** Nothing but messages has changed. */
    twostate predicate SameQueues()
      reads this`byID, boxes.Values, Arrays()
    {
      byID == old(byID) && forall n | n in boxes :: unchanged(boxes[n]) && unchanged(boxes[n].messages)
    }

    /** The queues stay as they are while nobody writes to them. */
    twostate lemma QueuesKept()
      requires old(Sound()) && SameQueues()
      ensures Sound() && All() == old(All())
    {
      forall n | n in boxes ensures boxes[n].Live() == old(boxes[n].Live()) {
      }
    }

    twostate lemma Framed()
      requires old(Valid()) && SameQueues()
      ensures Valid() && All() == old(All())
    {
      forall n | n in boxes ensures boxes[n].Live() == old(boxes[n].Live()) {
      }
      assert Sound();
    }

    /** Writing one flag changes one message of one queue. */
    twostate lemma FlagWritten(m: Message)
      requires Valid() && m.id in byID && byID[m.id] == m
      requires old(Sound()) && old(All()) == All()
      requires forall x | x in old(Everything(All())) && x != m :: unchanged(x)
      ensures m.mailbox in All()
      ensures QueueValues(All())
              == old(QueueValues(All()))[m.mailbox := WithRead(old(QueueValues(All()))[m.mailbox], m.id, m.read)]
    {
      var queues := All();
      assert old(Everything(All())) == Everything(queues);
      forall k | k in queues
        ensures k != m.mailbox ==> Values(queues[k]) == old(Values(queues[k]))
        ensures k == m.mailbox ==> Values(queues[k]) == WithRead(old(Values(queues[k])), m.id, m.read)
      {
        var queue := queues[k];
        assert QueueFits(queue, k, byID);
        forall i | 0 <= i < |queue| ensures queue[i] == m || (queue[i].id != m.id && unchanged(queue[i])) {
          assert queue[i] in queue;
          assert queue[i] in Everything(queues);
        }
        QueueFlagged(Flagging(queue, m));
      }
      OneMap(QueueValues(queues), old(QueueValues(All())), m.mailbox,
             WithRead(old(QueueValues(All()))[m.mailbox], m.id, m.read));
    }

    method WriteOnly(m: Message, read: bool)
      requires Valid() && m.id in byID && byID[m.id] == m
      modifies m
      ensures Valid() && All() == old(All()) && m.read == read && state == old(state) && SameLayout() && SameOutside()
    {
      m.read := read;
      Framed();
    }

    method WriteFlag(m: Message, read: bool)
      requires Valid() && m.id in byID && byID[m.id] == m
      modifies m
      ensures Valid() && m.read == read && state == old(state) && SameLayout() && SameOutside()
      ensures m.mailbox in All() && byID == old(byID) && m.mailbox in old(QueueValues(All()))
      ensures QueueValues(All())
              == old(QueueValues(All()))[m.mailbox := WithRead(old(QueueValues(All()))[m.mailbox], m.id, read)]
    {
      WriteOnly(m, read);
      FlagWritten(m);
    }

    /** Sets the flag of one indexed message; the queue and the index share the object. */
    method SetRead(m: Message, read: bool) returns (changed: bool)
      requires Valid() && m.id in byID && byID[m.id] == m
      modifies m
      ensures Valid() && m.read == read && changed == (old(m.read) != read) && state == old(state)
      ensures SameLayout() && SameOutside()
      ensures Abs() == Apply(old(Abs()), limits, MarkRead(m.id, read))
    {
      changed := m.read != read;
      WriteFlag(m, read);
      MarkedState(old(Abs()), Abs(), limits, m.id, read);
    }

    /** No stored message of another queue has been altered since. */
    twostate predicate UntouchedBut(queues: Queues, queue: seq<Message>)
      reads Everything(queues)
    {
      forall m | m in Everything(queues) && m !in queue :: unchanged(m)
    }

    /** Setting all flags of a mailbox changes that queue only. */
    twostate lemma AllFlagsWritten(n: string)
      requires Valid() && n in boxes
      requires old(Sound()) && old(All()) == All() && UntouchedBut(All(), All()[n])
      requires Values(All()[n]) == AllRead(old(Values(All()[n])))
      ensures QueueValues(All()) == old(QueueValues(All()))[n := AllRead(old(QueueValues(All()))[n])]
    {
      var queues := All();
      forall k | k in queues && k != n ensures Values(queues[k]) == old(Values(queues[k])) {
        var queue := queues[k];
        assert QueueFits(queue, k, byID) && QueueFits(queues[n], n, byID);
        forall i | 0 <= i < |queue| ensures unchanged(queue[i]) {
          assert queue[i] in queue && queue[i] in Everything(queues);
        }
      }
      OneMap(QueueValues(queues), old(QueueValues(All())), n, AllRead(old(QueueValues(All()))[n]));
    }

    method FlagStored(n: string, ghost queue: seq<Message>, ghost vs: seq<Msg>) returns (changed: seq<Message>)
      requires Sound() && n in boxes && queue == boxes[n].Live() && Distinct(queue) && vs == NewlyRead(Values(queue))
      modifies boxes[n].Stored()
      ensures SameQueues() && SameOutside() && state == old(state)
      ensures Values(queue) == AllRead(old(Values(queue))) && Values(changed) == vs
    {
      changed := boxes[n].MarkAll();
    }

    method FlagQueue(n: string, ghost vs: seq<Msg>) returns (changed: seq<Message>)
      requires Sound() && n in boxes && Distinct(All()[n]) && vs == NewlyRead(Values(All()[n]))
      modifies boxes[n].Stored()
      ensures SameQueues() && SameOutside() && state == old(state)
      ensures Sound() && All() == old(All())
      ensures Values(All()[n]) == AllRead(old(Values(All()[n]))) && Values(changed) == vs
      ensures UntouchedBut(All(), All()[n])
    {
      changed := FlagStored(n, All()[n], vs);
      QueuesKept();
    }

    method FlagQueueOnly(n: string, ghost vs: seq<Msg>) returns (changed: seq<Message>)
      requires Valid() && n in boxes && vs == NewlyRead(Values(All()[n]))
      modifies boxes[n].Stored()
      ensures Valid() && All() == old(All()) && state == old(state) && SameLayout() && SameOutside()
      ensures Values(All()[n]) == AllRead(old(Values(All()[n]))) && Values(changed) == vs
      ensures UntouchedBut(All(), All()[n])
    {
      assert QueueFits(All()[n], n, byID);
      changed := FlagQueue(n, vs);
      Framed();
    }

    method FlagAll(n: string, ghost vs: seq<Msg>) returns (changed: seq<Message>)
      requires Valid() && n in boxes && vs == NewlyRead(Values(All()[n]))
      modifies boxes[n].Stored()
      ensures Valid() && state == old(state) && SameLayout() && SameOutside() && Values(changed) == vs
      ensures QueueValues(All()) == old(QueueValues(All()))[n := AllRead(old(QueueValues(All()))[n])]
    {
      changed := FlagQueueOnly(n, vs);
      AllFlagsWritten(n);
    }

    /** Sets every flag of a mailbox and returns the messages that were unread. */
    method SetAllRead(n: string, ghost vs: seq<Msg>) returns (changed: seq<Message>)
      requires Valid() && n in boxes && vs == NewlyRead(Abs().boxes[n])
      modifies boxes[n].Stored()
      ensures Valid() && state == old(state) && SameOutside() && SameLayout()
      ensures Abs() == Apply(old(Abs()), limits, MarkAllRead(n))
      ensures Values(changed) == vs
    {
      changed := FlagAll(n, vs);
      MarkedAllState(old(Abs()), Abs(), limits, n);
    }

    /** Ready for a whole operation. */
    ghost predicate Open()
      reads this, boxes.Values, Arrays(), hub
      reads if Sound() then Everything(All()) else {}
      reads if persist != null then {persist} else {}
    {
      Valid() && state == Abs() && hub.Valid() && (persist != null ==> persist.Valid())
    }

    /** Neither the queues, nor the index, nor any stored message has changed. */
    twostate lemma Undisturbed()
      requires old(Valid()) && SameQueues()
      requires forall m | m in old(Everything(All())) :: unchanged(m)
      ensures Valid() && Abs() == old(Abs())
    {
      Framed();
      SameValues(All());
    }

    /** Neither the directory nor the listeners have changed. */
    twostate predicate SameOutside()
      reads hub
      reads if persist != null then {persist} else {}
    {
      unchanged(hub) && (persist != null ==> unchanged(persist))
    }

    /** The rest of the store looks on while memory changes. */
    twostate lemma OutsideKept()
      requires old(Open()) && SameOutside()
      ensures hub.Valid() && (persist != null ==> persist.Valid())
    {
    }

    /** Allocating changes nothing. */
    twostate lemma StillOpen()
      requires old(Open()) && unchanged(this) && SameQueues() && SameOutside()
      requires forall m | m in old(Everything(All())) :: unchanged(m)
      ensures Open() && Places() == old(Places())
    {
      Undisturbed();
      OutsideKept();
    }

    method Announce(events: seq<Event>)
      requires Open()
      modifies hub
      ensures Open() && SameShape() && hub.Told(events)
    {
      hub.PublishEach(events);
      Undisturbed();
    }

    /** The persistence part of a delivery, if there is a data directory. */
    method Save(m: Message, gone: seq<Msg>, ghost v: Msg)
      requires Open() && m.Value() == v
      modifies if persist != null then {persist} else {}
      ensures Open() && SameShape()
      ensures persist != null ==> persist.Took(SaveSteps(old(persist.files), v) + RemoveAllSteps(gone))
    {
      if persist != null {
        persist.SaveDelivery(m, gone);
      }
      Undisturbed();
    }

    /** Memory has reached the new value, and the rest of the store is as an operation needs it. */
    ghost predicate Ready(t: State)
      reads this, boxes.Values, Arrays(), hub
      reads if Sound() then Everything(All()) else {}
      reads if persist != null then {persist} else {}
    {
      Valid() && t == Abs() && hub.Valid() && (persist != null ==> persist.Valid())
    }

    /** Records the new value once memory has reached it. */
    ghost method Commit(t: State)
      requires Ready(t)
      modifies this`state
      ensures Open() && state == t && SameLayout() && SameOutside()
    {
      state := t;
      Undisturbed();
    }

    method DeliverReady(m: Message, ghost op: Op, ghost t: State) returns (evicted: seq<Msg>)
      requires Open() && op.Deliver? && Accepts(state, limits, op) && t == Delivered(state, limits.maxMessages, Incoming(op))
      requires m.Value() == Incoming(op) && m.id !in byID
      modifies this`byID, boxes[m.mailbox], boxes[m.mailbox].messages
      ensures Ready(t) && m.Value() == Incoming(op) && Rehoused() && ReindexedWith(m)
      ensures evicted == Evicted(old(state), limits.maxMessages, Incoming(op)) && SameOutside()
    {
      var gone := DeliverLocked(m);
      evicted := Values(gone);
      OutsideKept();
    }

    /** Everything a delivery does to memory. */
    method DeliverInMemory(m: Message, ghost op: Op, ghost t: State) returns (evicted: seq<Msg>)
      requires Open() && op.Deliver? && Accepts(state, limits, op) && t == Delivered(state, limits.maxMessages, Incoming(op))
      requires m.Value() == Incoming(op) && m.id !in byID
      modifies this, boxes[m.mailbox], boxes[m.mailbox].messages
      ensures Open() && m.Value() == Incoming(op) && Rehoused() && ReindexedWith(m) && state == t
      ensures evicted == Evicted(old(state), limits.maxMessages, Incoming(op)) && SameOutside()
    {
      evicted := DeliverReady(m, op, t);
      Commit(t);
    }

    /** Writing the delivery out and telling the listeners. */
    method DeliverOutside(m: Message, evicted: seq<Msg>, ghost v: Msg)
      requires Open() && m.Value() == v
      modifies hub
      modifies if persist != null then {persist} else {}
      ensures Open() && SameShape()
      ensures hub.Told(Evictions(v.mailbox, evicted) + [New(v.mailbox, v.id, false)])
      ensures persist != null ==> persist.Took(SaveSteps(old(persist.files), v) + RemoveAllSteps(evicted))
    {
      Save(m, evicted, v);
      Announce(Evictions(m.mailbox, evicted) + [New(m.mailbox, m.id, false)]);
    }

    /** A delivery that is not refused. */
    method DeliverAccepted(m: Message, ghost op: Op)
      requires Open() && op.Deliver? && Accepts(state, limits, op)
      requires m.Value() == Incoming(op) && m.id !in byID
      modifies this, boxes[m.mailbox], boxes[m.mailbox].messages, hub
      modifies if persist != null then {persist} else {}
      ensures Open() && state == Apply(old(state), limits, op) && Rehoused() && ReindexedWith(m)
      ensures hub.Told(EventsOf(old(state), limits, op))
      ensures persist != null ==> persist.Took(OpSteps(old(persist.files), old(state), limits, op))
    {
      DeliveryEffects(state, limits, op);
      var evicted := DeliverInMemory(m, op, Delivered(state, limits.maxMessages, Incoming(op)));
      DeliverOutside(m, evicted, Incoming(op));
    }

    method DeliverNew(op: Op)
      requires Open() && op.Deliver? && Accepts(state, limits, op) && op.id !in byID
      modifies this, boxes[op.mailbox], boxes[op.mailbox].messages, hub
      modifies if persist != null then {persist} else {}
      ensures Open() && state == Apply(old(state), limits, op) && Rehoused() && Reindexed()
      ensures hub.Told(EventsOf(old(state), limits, op))
      ensures persist != null ==> persist.Took(OpSteps(old(persist.files), old(state), limits, op))
    {
      var m := new Message(op.id, op.mailbox, op.receivedAt, op.source, op.envelope, op.raw, false);
      StillOpen();
      DeliverAccepted(m, op);
    }

    /** Stores a message under a fresh ID. */
    method Deliver(op: Op) returns (r: Result<ID, StoreError>)
      requires Open() && op.Deliver? && op.id !in byID
      modifies this, boxes.Values, Arrays(), hub
      modifies if persist != null then {persist} else {}
      ensures Open() && state == Apply(old(state), limits, op) && Rehoused() && Reindexed()
      ensures hub.Told(EventsOf(old(state), limits, op))
      ensures persist != null ==> persist.Took(OpSteps(old(persist.files), old(state), limits, op))
      ensures r == if |op.raw| > limits.maxSize then Err(TooLarge)
                   else if op.mailbox !in boxes then Err(NoSuchMailbox) else Ok(op.id)
    {
      if |op.raw| > limits.maxSize {
        return Err(TooLarge);
      }
      if op.mailbox !in boxes {
        return Err(NoSuchMailbox);
      }
      DeliverNew(op);
      return Ok(op.id);
    }

    /** Removing files of messages that left memory. */
    method RemoveFiles(gone: seq<Msg>)
      requires Open()
      modifies if persist != null then {persist} else {}
      ensures Open() && SameShape()
      ensures persist != null ==> persist.Took(RemoveAllSteps(gone))
    {
      if persist != null {
        persist.RemoveEach(gone);
      }
      Undisturbed();
    }

    /** The files of removed messages go, and the listeners hear about it. */
    method Retire(gone: seq<Msg>, events: seq<Event>)
      requires Open()
      modifies hub
      modifies if persist != null then {persist} else {}
      ensures Open() && SameShape()
      ensures hub.Told(events)
      ensures persist != null ==> persist.Took(RemoveAllSteps(gone))
    {
      RemoveFiles(gone);
      Announce(events);
    }

    /** Writing messages again whose flags have changed. */
    method WriteAgain(ms: seq<Message>, ghost vs: seq<Msg>)
      requires Open() && Values(ms) == vs
      modifies if persist != null then {persist} else {}
      ensures Open() && SameShape()
      ensures persist != null ==> persist.Took(SaveAllSteps(old(persist.files), vs))
    {
      if persist != null {
        persist.WriteEach(ms);
      }
      Undisturbed();
    }

    method DeleteReady(m: Message, ghost t: State)
      requires Open() && m.id in byID && byID[m.id] == m && t == Apply(state, limits, Delete(m.id))
      modifies this`byID, boxes[m.mailbox], boxes[m.mailbox].messages
      ensures Ready(t) && Places() == old(Places()) && byID == old(byID) - {m.id} && SameOutside()
    {
      DeleteLocked(m);
      OutsideKept();
    }

    method DeleteInMemory(m: Message, ghost t: State)
      requires Open() && m.id in byID && byID[m.id] == m && t == Apply(state, limits, Delete(m.id))
      modifies this, boxes[m.mailbox], boxes[m.mailbox].messages
      ensures Open() && state == t && Places() == old(Places()) && byID == old(byID) - {m.id} && SameOutside()
    {
      DeleteReady(m, t);
      Commit(t);
    }

    /** What the index says about an ID, as a value. */
    lemma IndexedValue(id: ID)
      requires Open() && id in byID
      ensures id in state.byID && state.byID[id] == byID[id].mailbox && byID[id].mailbox in state.boxes
      ensures Lookup(state.boxes[byID[id].mailbox], id) == Some(byID[id].Value())
    {
      var n, queue := byID[id].mailbox, All()[byID[id].mailbox];
      assert QueueFits(queue, n, byID);
      var i :| 0 <= i < |queue| && queue[i] == byID[id];
      ConsistentAgrees(All(), byID);
      assert BoxAgrees(state, n);
      LookupAt(state.boxes[n], i);
    }

    method DeleteFound(m: Message)
      requires Open() && m.id in byID && byID[m.id] == m
      modifies this, boxes[m.mailbox], boxes[m.mailbox].messages, hub
      modifies if persist != null then {persist} else {}
      ensures Open() && state == Apply(old(state), limits, Delete(m.id))
      ensures Places() == old(Places()) && byID == old(byID) - {m.id}
      ensures hub.Told(EventsOf(old(state), limits, Delete(m.id)))
      ensures persist != null ==> persist.Took(OpSteps(old(persist.files), old(state), limits, Delete(m.id)))
    {
      IndexedValue(m.id);
      DeletionEffects(state, limits, m.id);
      var v := m.Value();
      OneRemoved(v);
      DeleteInMemory(m, Apply(state, limits, Delete(m.id)));
      Retire([v], [Deleted(m.mailbox, m.id)]);
    }

    /** Removes one message; false when it is not there. */
    method DeleteMessage(id: ID) returns (found: bool)
      requires Open()
      modifies this, boxes.Values, Arrays(), hub
      modifies if persist != null then {persist} else {}
      ensures Open() && state == Apply(old(state), limits, Delete(id)) && Places() == old(Places()) && byID == old(byID) - {id}
      ensures found <==> id in old(state).byID
      ensures hub.Told(EventsOf(old(state), limits, Delete(id)))
      ensures persist != null ==> persist.Took(OpSteps(old(persist.files), old(state), limits, Delete(id)))
    {
      found := id in byID;
      if found {
        DeleteFound(byID[id]);
      }
    }

    method ClearReady(n: string, ghost t: State) returns (gone: seq<Msg>)
      requires Open() && n in boxes && t == Apply(state, limits, Clear(n))
      modifies this`byID, boxes[n]
      ensures Ready(t) && Rehoused() && Reindexed()
      ensures n in old(state).boxes && gone == old(state).boxes[n] && SameOutside()
    {
      var removed := ClearLocked(n);
      gone := Values(removed);
      OutsideKept();
    }

    method ClearInMemory(n: string, ghost t: State) returns (gone: seq<Msg>)
      requires Open() && n in boxes && t == Apply(state, limits, Clear(n))
      modifies this, boxes[n]
      ensures Open() && state == t && Rehoused() && Reindexed()
      ensures n in old(state).boxes && gone == old(state).boxes[n] && SameOutside()
    {
      gone := ClearReady(n, t);
      Commit(t);
    }

    method ClearPresent(n: string) returns (count: nat)
      requires Open() && n in boxes
      modifies this, boxes[n], hub
      modifies if persist != null then {persist} else {}
      ensures Open() && state == Apply(old(state), limits, Clear(n)) && Rehoused() && Reindexed()
      ensures n in old(state).boxes && count == |old(state).boxes[n]|
      ensures hub.Told(EventsOf(old(state), limits, Clear(n)))
      ensures persist != null ==> persist.Took(OpSteps(old(persist.files), old(state), limits, Clear(n)))
    {
      ClearingEffects(state, limits, n);
      var gone := ClearInMemory(n, Apply(state, limits, Clear(n)));
      count := |gone|;
      Retire(gone, [Cleared(n)]);
    }

    /** Empties a mailbox and returns how many messages there were. */
    method ClearMailbox(n: string) returns (r: Result<nat, StoreError>)
      requires Open()
      modifies this, boxes.Values, hub
      modifies if persist != null then {persist} else {}
      ensures Open() && state == Apply(old(state), limits, Clear(n)) && Rehoused() && Reindexed()
      ensures r == if n in old(state).boxes then Ok(|old(state).boxes[n]|) else Err(NoSuchMailbox)
      ensures hub.Told(EventsOf(old(state), limits, Clear(n)))
      ensures persist != null ==> persist.Took(OpSteps(old(persist.files), old(state), limits, Clear(n)))
    {
      if n !in boxes {
        return Err(NoSuchMailbox);
      }
      var count := ClearPresent(n);
      return Ok(count);
    }

    method MarkReady(m: Message, read: bool, ghost t: State)
      requires Open() && m.id in byID && byID[m.id] == m && t == Apply(state, limits, MarkRead(m.id, read))
      modifies m
      ensures Ready(t) && SameLayout() && m.read == read && SameOutside()
    {
      var changed := SetRead(m, read);
      OutsideKept();
    }

    method MarkInMemory(m: Message, read: bool, ghost t: State)
      requires Open() && m.id in byID && byID[m.id] == m && t == Apply(state, limits, MarkRead(m.id, read))
      modifies this`state, m
      ensures Open() && state == t && SameLayout() && m.read == read && SameOutside()
    {
      MarkReady(m, read, t);
      Commit(t);
    }

    /** Changed messages are written again, and the listeners hear about it. */
    method Refresh(ms: seq<Message>, ghost vs: seq<Msg>, events: seq<Event>)
      requires Open() && Values(ms) == vs
      modifies hub
      modifies if persist != null then {persist} else {}
      ensures Open() && SameShape()
      ensures hub.Told(events)
      ensures persist != null ==> persist.Took(SaveAllSteps(old(persist.files), vs))
    {
      WriteAgain(ms, vs);
      Announce(events);
    }

    method MarkFound(m: Message, read: bool)
      requires Open() && m.id in byID && byID[m.id] == m && m.read != read
      modifies this`state, m, hub
      modifies if persist != null then {persist} else {}
      ensures Open() && state == Apply(old(state), limits, MarkRead(m.id, read)) && SameLayout()
      ensures hub.Told(EventsOf(old(state), limits, MarkRead(m.id, read)))
      ensures persist != null ==> persist.Took(OpSteps(old(persist.files), old(state), limits, MarkRead(m.id, read)))
    {
      IndexedValue(m.id);
      MarkEffects(state, limits, m.id, read);
      ghost var v := m.Value().(read := read);
      OneSaved(v);
      MarkInMemory(m, read, Apply(state, limits, MarkRead(m.id, read)));
      Refresh([m], [v], [Updated(m.mailbox, m.id, read)]);
    }

    /** Sets or clears a read flag; nothing is written or published if it was so already. */
    method MarkMessage(id: ID, read: bool) returns (found: bool)
      requires Open()
      modifies this`state, hub
      modifies if id in byID then {byID[id]} else {}
      modifies if persist != null then {persist} else {}
      ensures Open() && state == Apply(old(state), limits, MarkRead(id, read)) && SameLayout()
      ensures found <==> id in old(state).byID
      ensures hub.Told(EventsOf(old(state), limits, MarkRead(id, read)))
      ensures persist != null ==> persist.Took(OpSteps(old(persist.files), old(state), limits, MarkRead(id, read)))
    {
      found := id in byID;
      if found {
        var m := byID[id];
        if m.read != read {
          MarkFound(m, read);
        } else {
          AlreadyMarked(id, read);
        }
      }
    }

    lemma AlreadyMarked(id: ID, read: bool)
      requires Open() && id in byID && byID[id].read == read
      ensures id in state.byID && Apply(state, limits, MarkRead(id, read)) == state
      ensures EventsOf(state, limits, MarkRead(id, read)) == []
      ensures forall fs :: OpSteps(fs, state, limits, MarkRead(id, read)) == []
    {
      IndexedValue(id);
      AgreesNow();
      NothingToMark(state, limits, id, read);
    }

    lemma AgreesNow()
      requires Open()
      ensures Agrees(state)
    {
      ConsistentAgrees(All(), byID);
    }

    method MarkAllInMemory(n: string, ghost vs: seq<Msg>, ghost t: State) returns (changed: seq<Message>)
      requires Open() && n in boxes && vs == NewlyRead(state.boxes[n]) && t == Apply(state, limits, MarkAllRead(n))
      modifies this`state, boxes[n].Stored()
      ensures Open() && state == t && SameLayout() && SameOutside()
      ensures Values(changed) == vs && SameOutside()
    {
      changed := SetAllRead(n, vs);
      OutsideKept();
      assert Abs() == t;
      label written:
      Commit(t);
      ValuesKept@written(changed);
    }

    method MarkPresent(n: string) returns (count: nat)
      requires Open() && n in boxes
      modifies this`state, boxes[n].Stored(), hub
      modifies if persist != null then {persist} else {}
      ensures Open() && state == Apply(old(state), limits, MarkAllRead(n)) && SameLayout()
      ensures n in old(state).boxes && count == |NewlyRead(old(state).boxes[n])|
      ensures hub.Told(EventsOf(old(state), limits, MarkAllRead(n)))
      ensures persist != null ==> persist.Took(OpSteps(old(persist.files), old(state), limits, MarkAllRead(n)))
    {
      ghost var vs := NewlyRead(state.boxes[n]);
      MarkAllEffects(state, limits, n);
      var changed := MarkAllInMemory(n, vs, Apply(state, limits, MarkAllRead(n)));
      var events := UpdatesFor(n, Values(changed));
      count := |changed|;
      Refresh(changed, vs, events);
    }

    /** Marks every message of a mailbox as read and returns how many were not. */
    method MarkMailbox(n: string) returns (r: Result<nat, StoreError>)
      requires Open()
      modifies this`state, hub
      modifies if n in boxes then boxes[n].Stored() else {}
      modifies if persist != null then {persist} else {}
      ensures Open() && state == Apply(old(state), limits, MarkAllRead(n)) && SameLayout()
      ensures r == if n in old(state).boxes then Ok(|NewlyRead(old(state).boxes[n])|) else Err(NoSuchMailbox)
      ensures hub.Told(EventsOf(old(state), limits, MarkAllRead(n)))
      ensures persist != null ==> persist.Took(OpSteps(old(persist.files), old(state), limits, MarkAllRead(n)))
    {
      if n !in boxes {
        return Err(NoSuchMailbox);
      }
      var count := MarkPresent(n);
      return Ok(count);
    }

    /** The messages of a mailbox now, oldest first, in an array of their own. */
    method Snapshot(n: string) returns (r: Result<array<Message?>, StoreError>)
      requires Open()
      ensures Open() && SameShape()
      ensures r.Ok? <==> n in boxes
      ensures r.Ok? ==> fresh(r.value) && r.value[..] == All()[n]
      ensures r.Err? ==> r.error == NoSuchMailbox
    {
      if n !in boxes {
        return Err(NoSuchMailbox);
      }
      var frozen := boxes[n].Copy();
      StillOpen();
      return Ok(frozen);
    }

    /** The counters of every mailbox, in configuration order. */
    method Stats(order: seq<string>) returns (stats: seq<MailboxStats>)
      requires Open() && forall i | 0 <= i < |order| :: order[i] in boxes
      ensures stats == StatsOf(state, order)
    {
      stats := [];
      ghost var s := state;
      for i := 0 to |order|
        invariant stats == StatsOf(s, order[..i])
      {
        StillOpen();
        StatsNext(s, order, i);
        var st := Count(order[i]);
        stats := stats + [st];
      }
      assert order[..|order|] == order;
    }

    method Count(n: string) returns (st: MailboxStats)
      requires Open() && n in boxes
      ensures n in state.boxes && st == Counted(n, state.boxes[n])
    {
      var unread, bytes := boxes[n].Count();
      st := MailboxStats(n, boxes[n].count, unread, bytes);
    }
  }

  /** One update for each changed message. */
  function UpdatesFor(n: string, changed: seq<Msg>): seq<Event> {
    if changed == [] then [] else [Updated(n, changed[0].id, true)] + UpdatesFor(n, changed[1..])
  }

  lemma {:induction false} UpdatesForNewlyRead(n: string, box: seq<Msg>)
    ensures UpdatesFor(n, NewlyRead(box)) == Updates(n, box)
  {
    if box != [] {
      UpdatesForNewlyRead(n, box[1..]);
      var here := if box[0].read then [] else [box[0].(read := true)];
      assert here != [] ==> NewlyRead(box)[1..] == NewlyRead(box[1..]);
      assert here == [] ==> NewlyRead(box) == NewlyRead(box[1..]);
    }
  }

  lemma MarkAllEffects(s: State, limits: Limits, n: string)
    requires n in s.boxes
    ensures EventsOf(s, limits, MarkAllRead(n)) == UpdatesFor(n, NewlyRead(s.boxes[n]))
    ensures forall fs :: OpSteps(fs, s, limits, MarkAllRead(n)) == SaveAllSteps(fs, NewlyRead(s.boxes[n]))
  {
    UpdatesForNewlyRead(n, s.boxes[n]);
  }

  lemma MarkEffects(s: State, limits: Limits, id: ID, read: bool)
    requires id in s.byID && s.byID[id] in s.boxes
    requires Lookup(s.boxes[s.byID[id]], id).Some? && Lookup(s.boxes[s.byID[id]], id).value.read != read
    ensures EventsOf(s, limits, MarkRead(id, read)) == [Updated(s.byID[id], id, read)]
    ensures forall fs :: OpSteps(fs, s, limits, MarkRead(id, read))
              == SaveSteps(fs, Lookup(s.boxes[s.byID[id]], id).value.(read := read))
  {
  }

  lemma NothingToMark(s: State, limits: Limits, id: ID, read: bool)
    requires Agrees(s) && id in s.byID
    requires Lookup(s.boxes[s.byID[id]], id).Some? && Lookup(s.boxes[s.byID[id]], id).value.read == read
    ensures Apply(s, limits, MarkRead(id, read)) == s
    ensures EventsOf(s, limits, MarkRead(id, read)) == []
    ensures forall fs :: OpSteps(fs, s, limits, MarkRead(id, read)) == []
  {
    var box := s.boxes[s.byID[id]];
    assert BoxAgrees(s, s.byID[id]);
    assert WithRead(box, id, read) == box;
    assert s.boxes[s.byID[id] := box] == s.boxes;
  }

  lemma OneSaved(v: Msg)
    ensures forall fs :: SaveAllSteps(fs, [v]) == SaveSteps(fs, v)
  {
    forall fs ensures SaveAllSteps(fs, [v]) == SaveSteps(fs, v) {
      assert [v][1..] == [];
      assert SaveSteps(fs, v) + [] == SaveSteps(fs, v);
    }
  }

  lemma DeletionEffects(s: State, limits: Limits, id: ID)
    requires id in s.byID && s.byID[id] in s.boxes && Lookup(s.boxes[s.byID[id]], id).Some?
    ensures EventsOf(s, limits, Delete(id)) == [Deleted(s.byID[id], id)]
    ensures forall fs :: OpSteps(fs, s, limits, Delete(id)) == RemoveSteps(Lookup(s.boxes[s.byID[id]], id).value)
  {
  }

  lemma ClearingEffects(s: State, limits: Limits, n: string)
    requires n in s.boxes
    ensures EventsOf(s, limits, Clear(n)) == [Cleared(n)]
    ensures forall fs :: OpSteps(fs, s, limits, Clear(n)) == RemoveAllSteps(s.boxes[n])
  {
  }

  lemma OneRemoved(v: Msg)
    ensures RemoveAllSteps([v]) == RemoveSteps(v)
  {
    assert [v][1..] == [];
    assert RemoveSteps(v) + [] == RemoveSteps(v);
  }

  /** What an accepted delivery publishes and writes. */
  lemma DeliveryEffects(s: State, limits: Limits, op: Op)
    requires op.Deliver? && Accepts(s, limits, op)
    ensures EventsOf(s, limits, op)
            == Evictions(op.mailbox, Evicted(s, limits.maxMessages, Incoming(op))) + [New(op.mailbox, op.id, false)]
    ensures forall fs :: OpSteps(fs, s, limits, op)
              == SaveSteps(fs, Incoming(op)) + RemoveAllSteps(Evicted(s, limits.maxMessages, Incoming(op)))
  {
  }

  datatype StoreError = TooLarge | NoSuchMailbox

  datatype Flagging = Flagging(queue: seq<Message>, m: Message)

  twostate lemma QueueFlagged(f: Flagging)
    requires forall i | 0 <= i < |f.queue| :: f.queue[i] == f.m || (f.queue[i].id != f.m.id && unchanged(f.queue[i]))
    ensures f.m !in f.queue ==> Values(f.queue) == old(Values(f.queue))
    ensures Values(f.queue) == WithRead(old(Values(f.queue)), f.m.id, f.m.read)
  {
    var was := old(Values(f.queue));
    forall i | 0 <= i < |f.queue|
      ensures Values(f.queue)[i] == if was[i].id == f.m.id then was[i].(read := f.m.read) else was[i]
    {
      assert was[i] == old(f.queue[i].Value());
    }
  }

  /** A store over its data directory, if it has one: empty mailboxes, filled by loading. */
  method NewStore(order: seq<string>, limits: Limits, persist: Persistence?) returns (store: Store)
    requires Distinct(order) && (persist != null ==> persist.Valid())
    modifies if persist != null then {persist} else {}
    ensures store.limits == limits && store.persist == persist && store.boxes.Keys == Members(order)
    ensures store.hub.log == [] && store.hub.subs == {}
    ensures store.Sound() && store.state == store.Abs()
    ensures store.state == if persist == null then Empty(Members(order))
                           else Loaded(old(persist.files), Members(order), order, limits.maxMessages)
    ensures persist != null ==> persist.Took(LoadAllSteps(old(persist.files), order, limits.maxMessages))
    ensures Agrees(store.state) ==> store.Open()
    ensures fresh(store) && fresh(store.hub) && fresh(store.boxes.Values) && fresh(store.Held())
  {
    store := new Store(order, limits, persist);
    ghost var now := store.Restore(order, store.Initial(order), store.Held());
  }

  lemma LastWriteCounts(queues: Queues, n: string, first: seq<Message>, second: seq<Message>)
    ensures queues[n := first][n := second] == queues[n := second]
  {
  }

  lemma OneMap(now: map<string, seq<Msg>>, was: map<string, seq<Msg>>, n: string, box: seq<Msg>)
    requires now.Keys == was.Keys && n in was
    requires forall k | k in was && k != n :: now[k] == was[k]
    requires now[n] == box
    ensures now == was[n := box]
  {
  }

  lemma MarkedAllState(s: State, t: State, limits: Limits, n: string)
    requires n in s.boxes && t.byID == s.byID && t.boxes == s.boxes[n := AllRead(s.boxes[n])]
    ensures t == Apply(s, limits, MarkAllRead(n))
  {
  }

  lemma MarkedState(s: State, t: State, limits: Limits, id: ID, read: bool)
    requires id in s.byID && s.byID[id] in s.boxes && t.byID == s.byID
    requires t.boxes == s.boxes[s.byID[id] := WithRead(s.boxes[s.byID[id]], id, read)]
    ensures t == Apply(s, limits, MarkRead(id, read))
  {
  }
}

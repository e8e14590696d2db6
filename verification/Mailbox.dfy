/**
 The mailbox queue as it lies in memory: a growable slice of message references, with
 room behind its end, shifted in place when a message is removed.
 */
module Mailboxes {
  import opened Bytes
  import opened Sequences
  import opened StoreModel
  import opened StoreRuns

  /** A stored message; everything but the read flag is fixed when it is created. */
  class Message {
    const id: ID
    const mailbox: string
    const receivedAt: int
    const source: string
    const envelope: Envelope
    const raw: Bytes
    var read: bool

    constructor (id: ID, mailbox: string, receivedAt: int, source: string, envelope: Envelope, raw: Bytes, read: bool)
      ensures Value() == Msg(id, mailbox, receivedAt, source, envelope, raw, read)
    {
      this.id, this.mailbox, this.receivedAt := id, mailbox, receivedAt;
      this.source, this.envelope, this.raw, this.read := source, envelope, raw, read;
    }

    function Value(): (v: Msg)
      reads this
      ensures v.id == id && v.mailbox == mailbox && v.raw == raw && v.read == read
    {
      Msg(id, mailbox, receivedAt, source, envelope, raw, read)
    }
  }

  function Values(ms: seq<Message>): (r: seq<Msg>)
    reads ms
    ensures |r| == |ms|
    ensures forall i | 0 <= i < |ms| :: r[i] == ms[i].Value()
  {
    if ms == [] then [] else [ms[0].Value()] + Values(ms[1..])
  }

  lemma {:induction false} ValuesAppend(a: seq<Message>, m: Message)
    ensures Values(a + [m]) == Values(a) + [m.Value()]
  {
  }

  lemma {:induction false} ValuesSlice(ms: seq<Message>, at: nat)
    requires at <= |ms|
    ensures Values(ms[..at]) == Values(ms)[..at] && Values(ms[at..]) == Values(ms)[at..]
  {
  }

  lemma NewlyReadNext(box: seq<Msg>, i: nat)
    requires i < |box|
    ensures NewlyRead(box[..i + 1]) == NewlyRead(box[..i]) + (if box[i].read then [] else [box[i].(read := true)])
  {
    assert box[..i + 1] == box[..i] + [box[i]];
    NewlyReadAppend(box[..i], box[i]);
  }

  lemma {:induction false} NewlyReadAppend(box: seq<Msg>, m: Msg)
    ensures NewlyRead(box + [m]) == NewlyRead(box) + (if m.read then [] else [m.(read := true)])
  {
    if box == [] {
      assert [] + [m] == [m] && [m][1..] == [];
    } else {
      assert (box + [m])[1..] == box[1..] + [m] && (box + [m])[0] == box[0];
      NewlyReadAppend(box[1..], m);
    }
  }

  class Mailbox {
    const name: string
    var messages: array<Message?>
    var count: nat

    ghost predicate Valid()
      reads this, messages
    {
      && count <= messages.Length
      && forall i | 0 <= i < count :: messages[i] != null
    }

    /** The queue, oldest first. */
    ghost function Live(): (r: seq<Message>)
      requires Valid()
      reads this, messages
      ensures |r| == count
      ensures forall i | 0 <= i < count :: r[i] == messages[i]
    {
      messages[..count]
    }

    ghost function Stored(): set<Message>
      requires Valid()
      reads this, messages
    {
      set m | m in Live()
    }

    constructor (name: string)
      ensures Valid() && Live() == [] && this.name == name && fresh(messages)
    {
      this.name := name;
      messages := new Message?[0];
      count := 0;
    }

    /** Appending writes behind the end if there is room and moves to a larger array if not. */
    method Append(m: Message)
      requires Valid()
      modifies this, messages
      ensures Valid() && Live() == old(Live()) + [m]
      ensures messages == old(messages) || fresh(messages)
    {
      if count == messages.Length {
        var larger := new Message?[2 * count + 1];
        forall i | 0 <= i < count {
          larger[i] := messages[i];
        }
        messages := larger;
      }
      messages[count] := m;
      count := count + 1;
    }

    /** Removing one message shifts the later ones down, in the same array. */
    method RemoveAt(at: nat)
      requires Valid() && at < count
      modifies this, messages
      ensures Valid() && Live() == old(Live())[..at] + old(Live())[at + 1..]
      ensures messages == old(messages)
    {
      var i := at;
      while i < count - 1
        invariant at <= i < count && count == old(count) && messages == old(messages)
        invariant forall k | 0 <= k < at :: messages[k] == old(messages[k])
        invariant forall k | at <= k < i :: messages[k] == old(messages[k + 1])
        invariant forall k | i < k < count :: messages[k] == old(messages[k])
      {
        messages[i] := messages[i + 1];
        i := i + 1;
      }
      count := count - 1;
    }

    /** Trimming the front copies both halves, so the old array keeps no alias. */
    method TakeFront(drop: nat) returns (front: seq<Message>)
      requires Valid() && drop <= count
      modifies this
      ensures Valid() && fresh(messages)
      ensures front == old(Live())[..drop] && Live() == old(Live())[drop..]
    {
      front := messages[..drop];
      var rest := new Message?[count - drop];
      forall i | 0 <= i < count - drop {
        rest[i] := messages[drop + i];
      }
      messages, count := rest, count - drop;
    }

    /** Sets every read flag and returns the messages that were unread. */
    method MarkAll() returns (changed: seq<Message>)
      requires Valid() && Distinct(Live())
      modifies Stored()
      ensures Values(Live()) == AllRead(old(Values(Live())))
      ensures Values(changed) == NewlyRead(old(Values(Live())))
    {
      changed := FlagEach();
    }

    method FlagEach() returns (changed: seq<Message>)
      requires Valid() && Distinct(Live())
      modifies Live()
      ensures Values(Live()) == AllRead(old(Values(Live())))
      ensures Values(changed) == NewlyRead(old(Values(Live())))
    {
      ghost var queue := Live();
      ghost var was := Values(queue);
      ghost var marked: seq<Msg> := [];
      changed := [];
      assert NewlyRead(was[..0]) == [];
      for i := 0 to count
        invariant forall j | 0 <= j < i :: queue[j].read
        invariant forall j | i <= j < |queue| :: queue[j].read == was[j].read
        invariant marked == NewlyRead(was[..i])
        invariant |changed| == |marked|
        invariant forall c | 0 <= c < |changed| :: changed[c].Value() == marked[c] && changed[c] in queue[..i]
      {
        NewlyReadNext(was, i);
        assert queue[i].Value() == was[i];
        assert queue[i] !in queue[..i];
        if !messages[i].read {
          messages[i].read := true;
          changed := changed + [messages[i]];
          marked := marked + [was[i].(read := true)];
        }
      }
      assert was[..|queue|] == was;
    }

    /** Trims the queue back to the cap and returns what was trimmed. */
    method Evict(cap: int) returns (evicted: seq<Message>)
      requires Valid()
      modifies this
      ensures Valid() && (messages == old(messages) || fresh(messages))
      ensures evicted == old(Live())[..Excess(|old(Live())|, cap)]
      ensures Live() == old(Live())[Excess(|old(Live())|, cap)..]
    {
      if cap <= 0 || count <= cap {
        return [];
      }
      evicted := TakeFront(count - cap);
    }

    /** Finds the first message with this ID, which is there, and shifts the rest down. */
    method RemoveID(id: ID) returns (ghost at: nat)
      requires Valid() && exists m :: m in Live() && m.id == id
      modifies this, messages
      ensures Valid() && messages == old(messages)
      ensures FoundAt(old(Live()), id, at) && at < |old(Live())|
      ensures Live() == old(Live())[..at] + old(Live())[at + 1..]
    {
      var found := FindID(id);
      at := found;
      if found < count {
        RemoveAt(found);
      }
    }

    method Reset() returns (removed: seq<Message>)
      requires Valid()
      modifies this
      ensures Valid() && fresh(messages) && Live() == [] && removed == old(Live())
    {
      removed := messages[..count];
      messages := new Message?[0];
      count := 0;
    }

    /** The frozen copy: a new array, so later shifts cannot reach it. */
    method Copy() returns (frozen: array<Message?>)
      requires Valid()
      ensures fresh(frozen) && frozen[..] == Live()
    {
      frozen := new Message?[count];
      forall i | 0 <= i < count {
        frozen[i] := messages[i];
      }
    }

    /** Unread messages and bytes of the queue. */
    method Count() returns (unread: nat, bytes: nat)
      requires Valid()
      ensures Counted(name, Values(Live())) == MailboxStats(name, count, unread, bytes)
    {
      unread, bytes := 0, 0;
      ghost var vs := Values(Live());
      for i := 0 to count
        invariant unread == |Unread(vs[..i])| && bytes == Octets(vs[..i])
      {
        assert Live()[i].Value() == vs[i];
        CountedNext(name, vs, i);
        if !messages[i].read {
          unread := unread + 1;
        }
        bytes := bytes + |messages[i].raw|;
      }
      assert vs[..|vs|] == vs;
    }

    method FindID(id: ID) returns (at: nat)
      requires Valid()
      ensures FoundAt(Live(), id, at)
    {
      at := 0;
      while at < count && messages[at].id != id
        invariant at <= count
        invariant forall k | 0 <= k < at :: messages[k].id != id
      {
        at := at + 1;
      }
    }
  }

  /** The first message with this ID is at `at`, which is the end when there is none. */
  ghost predicate FoundAt(queue: seq<Message>, id: ID, at: nat) {
    && at <= |queue|
    && (forall k | 0 <= k < at :: queue[k].id != id)
    && (at < |queue| ==> queue[at].id == id)
  }

  lemma FirstIndex(box: seq<Msg>, at: nat, id: ID)
    requires at <= |box| && forall k | 0 <= k < at :: box[k].id != id
    requires at < |box| ==> box[at].id == id
    ensures IndexOfID(box, id) == at
  {
  }
}

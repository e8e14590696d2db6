/** The published changes, and why a listener that sees all of them can follow along. */
module Events {
  import opened Sequences
  import opened StoreModel

  /** `read` is the flag carried by the message summary. */
  datatype Event =
    | New(mailbox: string, id: ID, read: bool)
    | Updated(mailbox: string, id: ID, read: bool)
    | Deleted(mailbox: string, id: ID)
    | Cleared(mailbox: string)

  function Evictions(n: string, box: seq<Msg>): seq<Event> {
    if box == [] then [] else [Deleted(n, box[0].id)] + Evictions(n, box[1..])
  }

  /** One update for each message that was unread, oldest first. */
  function Updates(n: string, box: seq<Msg>): seq<Event> {
    if box == [] then []
    else (if box[0].read then [] else [Updated(n, box[0].id, true)]) + Updates(n, box[1..])
  }

  function EventsOf(s: State, limits: Limits, op: Op): seq<Event> {
    match op
    case Deliver(id, n, _, _, _, _) =>
      if Accepts(s, limits, op) then
        Evictions(n, Evicted(s, limits.maxMessages, Incoming(op))) + [New(n, id, false)]
      else []
    case Delete(id) => if id in s.byID && s.byID[id] in s.boxes then [Deleted(s.byID[id], id)] else []
    case Clear(n) => if n in s.boxes then [Cleared(n)] else []
    case MarkRead(id, read) =>
      if id in s.byID && s.byID[id] in s.boxes then
        var n := s.byID[id];
        var i := IndexOfID(s.boxes[n], id);
        if i < |s.boxes[n]| && s.boxes[n][i].read != read then [Updated(n, id, read)] else []
      else []
    case MarkAllRead(n) => if n in s.boxes then Updates(n, s.boxes[n]) else []
  }

  // ---------------------------------------------------------------------------
  // What is announced
  // ---------------------------------------------------------------------------

  lemma {:induction false} EvictionAt(n: string, box: seq<Msg>, i: nat)
    requires i < |box|
    ensures |Evictions(n, box)| == |box| && Evictions(n, box)[i] == Deleted(n, box[i].id)
  {
    if i > 0 {
      EvictionAt(n, box[1..], i - 1);
    } else if |box| > 1 {
      EvictionAt(n, box[1..], 0);
    }
  }

  /** A delivery announces each eviction, oldest first, and then the new message, as unread. */
  lemma DeliveryAnnounces(s: State, limits: Limits, op: Op, i: nat)
    requires op.Deliver? && Accepts(s, limits, op)
    requires i <= Excess(|s.boxes[op.mailbox]| + 1, limits.maxMessages)
    ensures var count, events := Excess(|s.boxes[op.mailbox]| + 1, limits.maxMessages), EventsOf(s, limits, op);
            && |events| == count + 1
            && events[i] == if i < count then Deleted(op.mailbox, Grown(s, Incoming(op))[i].id) else New(op.mailbox, op.id, false)
  {
    var gone := Evicted(s, limits.maxMessages, Incoming(op));
    if i < |gone| {
      EvictionAt(op.mailbox, gone, i);
    } else if gone != [] {
      EvictionAt(op.mailbox, gone, 0);
    }
  }

  /** A flag is announced exactly when it changes. */
  lemma MarkAnnounces(s: State, limits: Limits, id: ID, read: bool, m: Msg)
    requires Agrees(s) && id in s.byID && m in s.boxes[s.byID[id]] && m.id == id
    ensures EventsOf(s, limits, MarkRead(id, read)) == if m.read == read then [] else [Updated(s.byID[id], id, read)]
  {
    var n := s.byID[id];
    assert BoxAgrees(s, n);
    var i :| 0 <= i < |s.boxes[n]| && s.boxes[n][i] == m;
    assert s.boxes[n][IndexOfID(s.boxes[n], id)].id == id;
  }

  /** Marking all announces each message that was unread, oldest first. */
  lemma {:induction false} UpdatesAnnounce(n: string, box: seq<Msg>)
    ensures |Updates(n, box)| == |NewlyRead(box)|
    ensures forall i | 0 <= i < |Updates(n, box)| :: Updates(n, box)[i] == Updated(n, NewlyRead(box)[i].id, true)
  {
    if box != [] {
      UpdatesAnnounce(n, box[1..]);
    }
  }

  // ---------------------------------------------------------------------------
  // The listener
  // ---------------------------------------------------------------------------

  /** One row of a listing. */
  datatype Line = Line(id: ID, read: bool)

  type View = map<string, seq<Line>>

  function RemoveLine(lines: seq<Line>, id: ID): seq<Line> {
    if lines == [] then []
    else if lines[0].id == id then lines[1..]
    else [lines[0]] + RemoveLine(lines[1..], id)
  }

  function FlagLine(lines: seq<Line>, id: ID, read: bool): seq<Line> {
    if lines == [] then []
    else (if lines[0].id == id then [Line(id, read)] else [lines[0]]) + FlagLine(lines[1..], id, read)
  }

  function React(lines: seq<Line>, e: Event): seq<Line> {
    match e
    case New(_, id, read) => lines + [Line(id, read)]
    case Updated(_, id, read) => FlagLine(lines, id, read)
    case Deleted(_, id) => RemoveLine(lines, id)
    case Cleared(_) => []
  }

  function ReactAll(lines: seq<Line>, events: seq<Event>): seq<Line>
    decreases events
  {
    if events == [] then lines else ReactAll(React(lines, events[0]), events[1..])
  }

  function Replay(v: View, events: seq<Event>): View
    decreases events
  {
    if events == [] then v
    else
      var n := events[0].mailbox;
      Replay(if n in v then v[n := React(v[n], events[0])] else v, events[1..])
  }

  function Lines(box: seq<Msg>): (r: seq<Line>)
    ensures |r| == |box|
    ensures forall i | 0 <= i < |box| :: r[i] == Line(box[i].id, box[i].read)
  {
    seq(|box|, i requires 0 <= i < |box| => Line(box[i].id, box[i].read))
  }

  function ViewOf(s: State): View {
    map n | n in s.boxes :: Lines(s.boxes[n])
  }

  lemma {:induction false} ReplayAppend(v: View, a: seq<Event>, b: seq<Event>)
    ensures Replay(v, a + b) == Replay(Replay(v, a), b)
    decreases a
  {
    if a == [] {
      assert a + b == b;
    } else {
      var n := a[0].mailbox;
      assert (a + b)[1..] == a[1..] + b;
      ReplayAppend(if n in v then v[n := React(v[n], a[0])] else v, a[1..], b);
    }
  }

  lemma {:induction false} ReactAppend(lines: seq<Line>, a: seq<Event>, b: seq<Event>)
    ensures ReactAll(lines, a + b) == ReactAll(ReactAll(lines, a), b)
    decreases a
  {
    if a == [] {
      assert a + b == b;
    } else {
      assert (a + b)[1..] == a[1..] + b;
      ReactAppend(React(lines, a[0]), a[1..], b);
    }
  }

  /** Events about one mailbox change the rows of that mailbox only. */
  lemma {:induction false} ReplayOneMailbox(v: View, n: string, events: seq<Event>)
    requires n in v && forall i | 0 <= i < |events| :: events[i].mailbox == n
    ensures Replay(v, events) == v[n := ReactAll(v[n], events)]
    decreases events
  {
    if events == [] {
      assert v[n := v[n]] == v;
    } else {
      var v' := v[n := React(v[n], events[0])];
      ReplayOneMailbox(v', n, events[1..]);
      assert v'[n := ReactAll(v'[n], events[1..])] == v[n := ReactAll(v[n], events)];
    }
  }

  lemma {:induction false} EvictionsMailbox(n: string, box: seq<Msg>)
    ensures forall i | 0 <= i < |Evictions(n, box)| :: Evictions(n, box)[i].mailbox == n
  {
    if box != [] {
      EvictionsMailbox(n, box[1..]);
    }
  }

  lemma {:induction false} UpdatesMailbox(n: string, box: seq<Msg>)
    ensures forall i | 0 <= i < |Updates(n, box)| :: Updates(n, box)[i].mailbox == n
  {
    if box != [] {
      UpdatesMailbox(n, box[1..]);
    }
  }

  /** Evicting from the front, one event at a time. */
  lemma {:induction false} ReactEvictions(n: string, gone: seq<Msg>, rest: seq<Line>)
    ensures ReactAll(Lines(gone) + rest, Evictions(n, gone)) == rest
    decreases gone
  {
    if gone == [] {
      assert Lines(gone) + rest == rest;
    } else {
      var lines := Lines(gone) + rest;
      assert lines[0] == Line(gone[0].id, gone[0].read);
      assert lines[1..] == Lines(gone[1..]) + rest;
      ReactEvictions(n, gone[1..], rest);
      assert Evictions(n, gone)[1..] == Evictions(n, gone[1..]);
    }
  }

  lemma LinesCons(m: Msg, rest: seq<Msg>)
    ensures Lines([m] + rest) == [Line(m.id, m.read)] + Lines(rest)
  {
  }

  lemma RemoveLineCons(m: Msg, rest: seq<Msg>, id: ID)
    ensures RemoveLine(Lines([m] + rest), id)
            == if m.id == id then Lines(rest) else [Line(m.id, m.read)] + RemoveLine(Lines(rest), id)
  {
    LinesCons(m, rest);
    assert ([Line(m.id, m.read)] + Lines(rest))[1..] == Lines(rest);
  }

  lemma {:induction false} RemoveLineOf(box: seq<Msg>, id: ID)
    ensures RemoveLine(Lines(box), id) == Lines(Without(box, id))
  {
    if box != [] {
      var m, rest := box[0], box[1..];
      assert box == [m] + rest;
      RemoveLineOf(rest, id);
      RemoveLineCons(m, rest, id);
      WithoutCons(m, rest, id);
      LinesCons(m, Without(rest, id));
    }
  }

  lemma {:induction false} FlagLineOf(box: seq<Msg>, id: ID, read: bool)
    ensures FlagLine(Lines(box), id, read) == Lines(WithRead(box, id, read))
  {
    if box != [] {
      FlagLineOf(box[1..], id, read);
      assert Lines(box)[1..] == Lines(box[1..]);
      assert WithRead(box, id, read)[1..] == WithRead(box[1..], id, read);
    }
  }

  lemma {:induction false} FlagLineAt(a: seq<Line>, line: Line, b: seq<Line>, read: bool)
    requires forall i | 0 <= i < |a| :: a[i].id != line.id
    requires forall i | 0 <= i < |b| :: b[i].id != line.id
    ensures FlagLine(a + [line] + b, line.id, read) == a + [Line(line.id, read)] + b
  {
    var s := a + [line] + b;
    if a == [] {
      assert s[1..] == b;
      FlagNothing(b, line.id, read);
    } else {
      assert s[1..] == a[1..] + [line] + b;
      FlagLineAt(a[1..], line, b, read);
    }
  }

  lemma {:induction false} FlagNothing(b: seq<Line>, id: ID, read: bool)
    requires forall i | 0 <= i < |b| :: b[i].id != id
    ensures FlagLine(b, id, read) == b
  {
    if b != [] {
      FlagNothing(b[1..], id, read);
    }
  }

  lemma ReactFirstUpdate(n: string, done: seq<Line>, m: Msg, rest: seq<Msg>)
    requires forall i | 0 <= i < |done| :: done[i].id != m.id
    requires forall i | 0 <= i < |rest| :: rest[i].id != m.id
    ensures ReactAll(done + [Line(m.id, m.read)] + Lines(rest), Updates(n, [m] + rest))
            == ReactAll(done + [Line(m.id, true)] + Lines(rest), Updates(n, rest))
  {
    var box := [m] + rest;
    assert box[1..] == rest;
    if m.read {
      assert Updates(n, box) == [] + Updates(n, rest) == Updates(n, rest);
    } else {
      FlagLineAt(done, Line(m.id, false), Lines(rest), true);
      assert Updates(n, box)[0] == Updated(n, m.id, true) && Updates(n, box)[1..] == Updates(n, rest);
    }
  }

  lemma ReadLinesCons(m: Msg, rest: seq<Msg>)
    ensures Lines(AllRead([m] + rest)) == [Line(m.id, true)] + Lines(AllRead(rest))
  {
  }

  lemma {:induction false} ReactUpdates(n: string, done: seq<Line>, box: seq<Msg>)
    requires DistinctIds(box)
    requires forall i, j | 0 <= i < |done| && 0 <= j < |box| :: done[i].id != box[j].id
    ensures ReactAll(done + Lines(box), Updates(n, box)) == done + Lines(AllRead(box))
    decreases box
  {
    if box == [] {
      assert Lines(AllRead(box)) == Lines(box);
    } else {
      var m, rest := box[0], box[1..];
      assert box == [m] + rest;
      assert forall i | 0 <= i < |rest| :: rest[i] == box[i + 1] && rest[i].id != m.id;
      ReactUpdates(n, done + [Line(m.id, true)], rest);
      ReactUpdatesCons(n, done, m, rest);
    }
  }

  lemma ReactUpdatesCons(n: string, done: seq<Line>, m: Msg, rest: seq<Msg>)
    requires forall i | 0 <= i < |done| :: done[i].id != m.id
    requires forall i | 0 <= i < |rest| :: rest[i].id != m.id
    requires ReactAll(done + [Line(m.id, true)] + Lines(rest), Updates(n, rest))
             == done + [Line(m.id, true)] + Lines(AllRead(rest))
    ensures ReactAll(done + Lines([m] + rest), Updates(n, [m] + rest)) == done + Lines(AllRead([m] + rest))
  {
    LinesCons(m, rest);
    ReadLinesCons(m, rest);
    Assoc(done, [Line(m.id, m.read)], Lines(rest));
    Assoc(done, [Line(m.id, true)], Lines(AllRead(rest)));
    ReactFirstUpdate(n, done, m, rest);
  }

  // ---------------------------------------------------------------------------
  // Following along
  // ---------------------------------------------------------------------------

  /** The events of one operation touch one mailbox and carry it to its new rows. */
  lemma FollowMailbox(s: State, limits: Limits, op: Op, n: string, box: seq<Msg>)
    requires n in s.boxes
    requires forall i | 0 <= i < |EventsOf(s, limits, op)| :: EventsOf(s, limits, op)[i].mailbox == n
    requires ReactAll(Lines(s.boxes[n]), EventsOf(s, limits, op)) == Lines(box)
    requires Apply(s, limits, op).boxes == s.boxes[n := box]
    ensures Replay(ViewOf(s), EventsOf(s, limits, op)) == ViewOf(Apply(s, limits, op))
  {
    ReplayOneMailbox(ViewOf(s), n, EventsOf(s, limits, op));
    assert ViewOf(s)[n := Lines(box)] == ViewOf(Apply(s, limits, op));
  }

  lemma FollowDeliver(s: State, limits: Limits, op: Op)
    requires op.Deliver? && Accepts(s, limits, op)
    ensures Replay(ViewOf(s), EventsOf(s, limits, op)) == ViewOf(Apply(s, limits, op))
  {
    var n, m := op.mailbox, Incoming(op);
    var box, grown := s.boxes[n], Grown(s, m);
    var drop := Excess(|grown|, limits.maxMessages);
    var events := Evictions(n, grown[..drop]);
    EvictionsMailbox(n, grown[..drop]);
    assert box == box[..drop] + box[drop..];
    assert grown[..drop] == box[..drop] && grown[drop..] == box[drop..] + [m];
    assert Lines(box) == Lines(box[..drop]) + Lines(box[drop..]);
    ReactEvictions(n, box[..drop], Lines(box[drop..]));
    ReactAppend(Lines(box), events, [New(n, op.id, false)]);
    assert [New(n, op.id, false)][1..] == [];
    assert Lines(grown[drop..]) == Lines(box[drop..]) + [Line(op.id, false)];
    FollowMailbox(s, limits, op, n, grown[drop..]);
  }

  lemma OneEvent(lines: seq<Line>, e: Event)
    ensures ReactAll(lines, [e]) == React(lines, e)
  {
    assert [e][1..] == [];
  }

  lemma FollowMarkRead(s: State, limits: Limits, id: ID, read: bool)
    requires Agrees(s) && id in s.byID
    ensures Replay(ViewOf(s), EventsOf(s, limits, MarkRead(id, read))) == ViewOf(Apply(s, limits, MarkRead(id, read)))
  {
    var n := s.byID[id];
    var box := s.boxes[n];
    var i := IndexOfID(box, id);
    assert BoxAgrees(s, n) && HasID(box, id);
    if box[i].read != read {
      FlagLineOf(box, id, read);
      OneEvent(Lines(box), Updated(n, id, read));
    } else {
      assert WithRead(box, id, read) == box;
    }
    FollowMailbox(s, limits, MarkRead(id, read), n, WithRead(box, id, read));
  }

  /** Replaying the events of an operation on the old rows gives the new rows. */
  lemma Follow(s: State, limits: Limits, op: Op)
    requires Agrees(s)
    ensures Replay(ViewOf(s), EventsOf(s, limits, op)) == ViewOf(Apply(s, limits, op))
  {
    match op
    case Deliver(_, _, _, _, _, _) =>
      if Accepts(s, limits, op) {
        FollowDeliver(s, limits, op);
      }
    case Delete(id) =>
      if id in s.byID {
        var n := s.byID[id];
        RemoveLineOf(s.boxes[n], id);
        OneEvent(Lines(s.boxes[n]), Deleted(n, id));
        FollowMailbox(s, limits, op, n, Without(s.boxes[n], id));
      }
    case Clear(n) =>
      if n in s.boxes {
        OneEvent(Lines(s.boxes[n]), Cleared(n));
        FollowMailbox(s, limits, op, n, []);
      }
    case MarkRead(id, read) =>
      if id in s.byID {
        FollowMarkRead(s, limits, id, read);
      }
    case MarkAllRead(n) =>
      if n in s.boxes {
        assert BoxAgrees(s, n);
        UpdatesMailbox(n, s.boxes[n]);
        ReactUpdates(n, [], s.boxes[n]);
        assert [] + Lines(s.boxes[n]) == Lines(s.boxes[n]);
        assert [] + Lines(AllRead(s.boxes[n])) == Lines(AllRead(s.boxes[n]));
        FollowMailbox(s, limits, op, n, AllRead(s.boxes[n]));
      }
  }

  ghost function AllEvents(s: State, limits: Limits, ops: seq<Op>): seq<Event> {
    if ops == [] then []
    else
      var before := ops[..|ops| - 1];
      AllEvents(s, limits, before) + EventsOf(Run(s, limits, before), limits, ops[|ops| - 1])
  }

  /** Folding all published events, from any agreeing store on, rebuilds IDs, order and read flags. */
  lemma {:induction false} ReplayRebuilds(s: State, limits: Limits, ops: seq<Op>)
    requires Agrees(s) && Capped(s, limits.maxMessages) && UnusedThroughout(s, limits, ops)
    ensures Replay(ViewOf(s), AllEvents(s, limits, ops)) == ViewOf(Run(s, limits, ops))
  {
    if ops != [] {
      var before := ops[..|ops| - 1];
      UnusedInit(s, limits, ops);
      ReplayRebuilds(s, limits, before);
      RunAgrees(s, limits, before);
      Follow(Run(s, limits, before), limits, ops[|ops| - 1]);
      ReplayAppend(ViewOf(s), AllEvents(s, limits, before), EventsOf(Run(s, limits, before), limits, ops[|ops| - 1]));
    }
  }
}

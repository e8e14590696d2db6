/**
 The frozen view of one POP3 session: message numbers, deletion marks, and the figures
 that STAT, LIST and UIDL report (section 5 of RFC 1939).
 */
module Maildrop {
  import opened Bytes
  import opened Sequences
  import opened Text
  import opened Wire
  import opened StoreModel

  datatype Entry = Entry(id: ID, raw: Bytes, deleted: bool)

  /** The view of a mailbox at the moment a session opens it. */
  function Opened(box: seq<Msg>): (entries: seq<Entry>)
    ensures |entries| == |box|
    ensures forall i | 0 <= i < |box| :: entries[i] == Entry(box[i].id, box[i].raw, false)
  {
    seq(|box|, i requires 0 <= i < |box| => Entry(box[i].id, box[i].raw, false))
  }

  function Marked(entries: seq<Entry>, at: nat): seq<Entry>
    requires at < |entries|
  {
    entries[at := entries[at].(deleted := true)]
  }

  function Unmarked(entries: seq<Entry>): (r: seq<Entry>)
    ensures |r| == |entries|
    ensures forall i | 0 <= i < |r| :: r[i] == entries[i].(deleted := false)
  {
    seq(|entries|, i requires 0 <= i < |entries| => entries[i].(deleted := false))
  }

  /** Number for number the same messages, whatever is marked. */
  ghost predicate SameView(a: seq<Entry>, b: seq<Entry>) {
    |a| == |b| && forall i | 0 <= i < |a| :: a[i].id == b[i].id && a[i].raw == b[i].raw
  }

  function MarkedIds(entries: seq<Entry>): set<ID> {
    set e | e in entries && e.deleted :: e.id
  }

  // ---------------------------------------------------------------------------
  // Message numbers
  // ---------------------------------------------------------------------------

  datatype LookupError = InvalidNumber | NoSuchMessage(number: int) | MarkedForDeletion(number: int)

  /** The position a message number stands for. */
  function Resolve(entries: seq<Entry>, arg: string): (r: Result<nat, LookupError>)
    ensures r.Ok? ==> r.value < |entries| && !entries[r.value].deleted
  {
    match Atoi(TrimSpace(arg))
    case None => Err(InvalidNumber)
    case Some(number) =>
      if number < 1 || number > |entries| then Err(NoSuchMessage(number))
      else if entries[number - 1].deleted then Err(MarkedForDeletion(number))
      else Ok(number - 1)
  }

  // ---------------------------------------------------------------------------
  // Figures
  // ---------------------------------------------------------------------------

  /** The octets a client receives for the message, terminator excluded. */
  function Size(raw: Bytes): nat {
    |Stuff(SplitLines(raw))|
  }

  datatype Figures = Figures(count: nat, octets: nat)

  function Stats(entries: seq<Entry>): Figures {
    if entries == [] then Figures(0, 0)
    else
      var before, e := Stats(entries[..|entries| - 1]), entries[|entries| - 1];
      if e.deleted then before else Figures(before.count + 1, before.octets + Size(e.raw))
  }

  datatype ScanLine = ScanLine(number: nat, id: ID, octets: nat)

  function Scanned(entries: seq<Entry>): seq<ScanLine> {
    if entries == [] then []
    else
      var n, e := |entries|, entries[|entries| - 1];
      Scanned(entries[..n - 1]) + (if e.deleted then [] else [ScanLine(n, e.id, Size(e.raw))])
  }

  function SumOctets(lines: seq<ScanLine>): nat {
    if lines == [] then 0 else SumOctets(lines[..|lines| - 1]) + lines[|lines| - 1].octets
  }

  /** STAT reports the number of LIST lines and their sum, whatever is marked. */
  lemma {:induction false} StatMatchesList(entries: seq<Entry>)
    ensures Stats(entries) == Figures(|Scanned(entries)|, SumOctets(Scanned(entries)))
  {
    if entries != [] {
      var n, e := |entries|, entries[|entries| - 1];
      StatMatchesList(entries[..n - 1]);
      var before := Scanned(entries[..n - 1]);
      if e.deleted {
        assert Scanned(entries) == before + [] == before;
      } else {
        assert (before + [ScanLine(n, e.id, Size(e.raw))])[..|before|] == before;
      }
    }
  }

  /** The line of a listing for one entry. */
  predicate LineOf(e: Entry, number: nat, line: ScanLine) {
    !e.deleted && line == ScanLine(number, e.id, Size(e.raw))
  }

  ghost predicate LineFor(entries: seq<Entry>, line: ScanLine) {
    1 <= line.number <= |entries| && LineOf(entries[line.number - 1], line.number, line)
  }

  lemma EarlierLine(entries: seq<Entry>, line: ScanLine)
    requires 1 <= line.number < |entries|
    ensures LineFor(entries, line) <==> LineFor(entries[..|entries| - 1], line)
  {
    assert entries[..|entries| - 1][line.number - 1] == entries[line.number - 1];
  }

  lemma LineForInit(entries: seq<Entry>, line: ScanLine)
    requires entries != []
    ensures LineFor(entries, line)
            <==> LineFor(entries[..|entries| - 1], line) || LineOf(entries[|entries| - 1], |entries|, line)
  {
    NumberOf(entries[|entries| - 1], |entries|, line);
    if 1 <= line.number < |entries| {
      EarlierLine(entries, line);
    }
  }

  lemma NumberOf(e: Entry, number: nat, line: ScanLine)
    ensures LineOf(e, number, line) ==> line.number == number
  {
  }

  lemma ListingStep(entries: seq<Entry>, line: ScanLine)
    requires entries != []
    ensures line in Scanned(entries)
            <==> line in Scanned(entries[..|entries| - 1]) || LineOf(entries[|entries| - 1], |entries|, line)
  {
  }

  /** LIST shows exactly the unmarked messages. */
  lemma {:induction false} ListingIsTheView(entries: seq<Entry>)
    ensures forall line :: line in Scanned(entries) <==> LineFor(entries, line)
  {
    if entries != [] {
      ListingIsTheView(entries[..|entries| - 1]);
      forall line ensures line in Scanned(entries) <==> LineFor(entries, line) {
        LineForInit(entries, line);
        ListingStep(entries, line);
      }
    }
  }

  /** The lines of LIST come by rising original number. */
  lemma {:induction false} ListingRises(entries: seq<Entry>)
    ensures forall i | 0 <= i < |Scanned(entries)| :: 1 <= Scanned(entries)[i].number <= |entries|
    ensures forall i, j | 0 <= i < j < |Scanned(entries)| :: Scanned(entries)[i].number < Scanned(entries)[j].number
  {
    if entries != [] {
      ListingRises(entries[..|entries| - 1]);
    }
  }

  // ---------------------------------------------------------------------------
  // Marking and unmarking
  // ---------------------------------------------------------------------------

  datatype Edit = MarkNumber(arg: string) | UnmarkAll

  function Edited(entries: seq<Entry>, edits: seq<Edit>): seq<Entry> {
    if edits == [] then entries
    else
      var before := Edited(entries, edits[..|edits| - 1]);
      match edits[|edits| - 1]
      case UnmarkAll => Unmarked(before)
      case MarkNumber(arg) =>
        var r := Resolve(before, arg);
        if r.Ok? then Marked(before, r.value) else before
  }

  /** No sequence of DELE and RSET moves a number, and a final RSET leaves nothing marked. */
  lemma {:induction false} EditsKeepView(entries: seq<Entry>, edits: seq<Edit>)
    ensures SameView(entries, Edited(entries, edits))
    ensures Unmarked(Edited(entries, edits)) == Unmarked(entries)
  {
    if edits != [] {
      EditsKeepView(entries, edits[..|edits| - 1]);
      var before := Edited(entries, edits[..|edits| - 1]);
      assert forall i | 0 <= i < |entries| :: Unmarked(before)[i] == Unmarked(entries)[i];
    }
  }

  /** DELE marks the one message and takes its line, and nothing else, out of STAT. */
  lemma {:induction false} MarkingTakesOneOut(entries: seq<Entry>, at: nat)
    requires at < |entries| && !entries[at].deleted
    ensures Stats(entries).count == Stats(Marked(entries, at)).count + 1
    ensures Stats(entries).octets == Stats(Marked(entries, at)).octets + Size(entries[at].raw)
    ensures MarkedIds(Marked(entries, at)) == MarkedIds(entries) + {entries[at].id}
  {
    var n := |entries|;
    var marked := Marked(entries, at);
    if at == n - 1 {
      assert marked[..n - 1] == entries[..n - 1];
    } else {
      MarkingTakesOneOut(entries[..n - 1], at);
      assert marked[..n - 1] == Marked(entries[..n - 1], at);
    }
    forall e | e in entries && e.deleted ensures e.id in MarkedIds(marked) {
      var i :| 0 <= i < n && entries[i] == e;
      assert marked[i] == e;
    }
    assert marked[at].deleted && marked[at] in marked;
    forall e | e in marked && e.deleted ensures e.id in MarkedIds(entries) + {entries[at].id} {
      var i :| 0 <= i < n && marked[i] == e;
      assert i != at ==> entries[i] == e;
    }
  }

  // ---------------------------------------------------------------------------
  // The UPDATE loop
  // ---------------------------------------------------------------------------

  /** The messages of a queue other than `gone`, in order. */
  function Sparing(box: seq<Msg>, gone: set<ID>): seq<Msg> {
    Filter(box, (m: Msg) => m.id !in gone)
  }

  /** The store after going through the view and deleting every marked message. */
  function Swept(s: State, limits: Limits, entries: seq<Entry>): State {
    if entries == [] then s
    else
      AfterEntry(Swept(s, limits, entries[..|entries| - 1]), limits, entries[|entries| - 1])
  }

  /** How many of those deletions find their message. */
  function Found(s: State, limits: Limits, entries: seq<Entry>): nat {
    if entries == [] then 0
    else
      Found(s, limits, entries[..|entries| - 1])
      + Hits(Swept(s, limits, entries[..|entries| - 1]), entries[|entries| - 1])
  }

  lemma SweptNext(s: State, limits: Limits, entries: seq<Entry>, i: nat)
    requires i < |entries|
    ensures Swept(s, limits, entries[..i + 1])
            == AfterEntry(Swept(s, limits, entries[..i]), limits, entries[i])
    ensures Found(s, limits, entries[..i + 1])
            == Found(s, limits, entries[..i]) + Hits(Swept(s, limits, entries[..i]), entries[i])
  {
    assert entries[..i + 1][..i] == entries[..i];
  }

  /** One round of the loop, and whether it finds its message. */
  function AfterEntry(s: State, limits: Limits, e: Entry): State {
    if e.deleted then Apply(s, limits, Delete(e.id)) else s
  }

  function Hits(s: State, e: Entry): nat {
    if e.deleted && e.id in s.byID then 1 else 0
  }

  lemma {:induction false} SparingNothing(box: seq<Msg>, gone: set<ID>)
    requires forall i | 0 <= i < |box| :: box[i].id !in gone
    ensures Sparing(box, gone) == box
  {
    if box != [] {
      assert forall i | 0 <= i < |box[1..]| :: box[1..][i] == box[i + 1];
      SparingNothing(box[1..], gone);
    }
  }

  lemma SparingMembers(box: seq<Msg>, gone: set<ID>)
    ensures forall m :: m in Sparing(box, gone) <==> m in box && m.id !in gone
  {
    FilterMembers(box, (m: Msg) => m.id !in gone);
  }

  lemma DistinctTailIds(box: seq<Msg>)
    requires box != [] && DistinctIds(box)
    ensures DistinctIds(box[1..]) && forall m | m in box[1..] :: m.id != box[0].id
  {
    assert forall i | 0 <= i < |box[1..]| :: box[1..][i] == box[i + 1];
  }

  /** With distinct IDs, cutting out the first match is leaving out the ID. */
  lemma {:induction false} WithoutSpares(box: seq<Msg>, id: ID)
    requires DistinctIds(box)
    ensures Without(box, id) == Sparing(box, {id})
  {
    if box != [] {
      var m, rest := box[0], box[1..];
      DistinctTailIds(box);
      WithoutSpares(rest, id);
      OneSpared(m, rest, id);
      assert box == [m] + rest;
    }
  }

  lemma OneSpared(m: Msg, rest: seq<Msg>, id: ID)
    requires Without(rest, id) == Sparing(rest, {id}) && forall x | x in rest :: x.id != m.id
    ensures Without([m] + rest, id) == Sparing([m] + rest, {id})
  {
    WithoutCons(m, rest, id);
    assert ([m] + rest)[1..] == rest;
    if m.id == id {
      SparingNothing(rest, {id});
    }
  }

  lemma {:induction false} SparingTwice(box: seq<Msg>, gone: set<ID>, more: set<ID>)
    ensures Sparing(Sparing(box, gone), more) == Sparing(box, gone + more)
  {
    if box != [] {
      SparingTwice(box[1..], gone, more);
      var rest := Sparing(box[1..], gone);
      assert ([box[0]] + rest)[1..] == rest;
      assert [] + rest == rest;
    }
  }

  lemma {:induction false} SparingDistinct(box: seq<Msg>, gone: set<ID>)
    requires DistinctIds(box)
    ensures DistinctIds(Sparing(box, gone))
  {
    if box != [] {
      DistinctTailIds(box);
      SparingDistinct(box[1..], gone);
      SparingMembers(box[1..], gone);
      var rest := Sparing(box[1..], gone);
      assert forall i | 0 <= i < |rest| :: rest[i] in rest;
    }
  }

  /** Deleting one more ID from what was spared. */
  lemma SparingOneMore(box: seq<Msg>, gone: set<ID>, id: ID)
    requires DistinctIds(box)
    ensures Without(Sparing(box, gone), id) == Sparing(box, gone + {id})
  {
    SparingDistinct(box, gone);
    WithoutSpares(Sparing(box, gone), id);
    SparingTwice(box, gone, {id});
  }

  lemma DeletedBoxes(s: State, limits: Limits, id: ID)
    requires Agrees(s)
    ensures var t := Apply(s, limits, Delete(id));
            && Agrees(t) && t.byID == s.byID - {id} && t.boxes.Keys == s.boxes.Keys
            && forall n | n in s.boxes :: t.boxes[n] == Without(s.boxes[n], id)
  {
    DeleteAgrees(s, limits, id);
    forall n | n in s.boxes && !(id in s.byID && s.byID[id] == n) ensures Without(s.boxes[n], id) == s.boxes[n] {
      assert BoxAgrees(s, n);
    }
  }

  /** `t` is the store without the messages whose IDs are in `gone`. */
  ghost predicate Short(s: State, t: State, gone: set<ID>) {
    && t.byID == s.byID - gone && t.boxes.Keys == s.boxes.Keys
    && forall n | n in s.boxes :: t.boxes[n] == Sparing(s.boxes[n], gone)
  }

  ghost predicate EachDistinct(s: State) {
    forall n | n in s.boxes :: DistinctIds(s.boxes[n])
  }

  lemma AgreesDistinct(s: State)
    requires Agrees(s)
    ensures EachDistinct(s)
  {
    forall n | n in s.boxes ensures DistinctIds(s.boxes[n]) {
      assert BoxAgrees(s, n);
    }
  }

  lemma ShortOfNothing(s: State)
    ensures Short(s, s, {})
  {
    forall n | n in s.boxes ensures Sparing(s.boxes[n], {}) == s.boxes[n] {
      SparingNothing(s.boxes[n], {});
    }
  }

  /** The loop takes out exactly the marked messages that are there, and counts them. */
  lemma {:induction false} SweptExactly(s: State, limits: Limits, entries: seq<Entry>)
    requires Agrees(s)
    ensures Agrees(Swept(s, limits, entries)) && Short(s, Swept(s, limits, entries), MarkedIds(entries))
    ensures Found(s, limits, entries) == |MarkedIds(entries) * s.byID.Keys|
  {
    if entries == [] {
      ShortOfNothing(s);
      assert MarkedIds(entries) == {} && {} * s.byID.Keys == {};
    } else {
      var init, e := entries[..|entries| - 1], entries[|entries| - 1];
      SweptExactly(s, limits, init);
      MarkedInit(entries);
      OneMoreSwept(s, Swept(s, limits, init), limits, MarkedIds(init), e);
    }
  }

  lemma OneMoreSwept(s: State, t: State, limits: Limits, gone: set<ID>, e: Entry)
    requires Agrees(s) && Agrees(t) && Short(s, t, gone)
    ensures var more := gone + if e.deleted then {e.id} else {};
            && Agrees(AfterEntry(t, limits, e)) && Short(s, AfterEntry(t, limits, e), more)
            && |more * s.byID.Keys| == |gone * s.byID.Keys| + Hits(t, e)
  {
    if e.deleted {
      DeletedBoxes(t, limits, e.id);
      AgreesDistinct(s);
      SweepOne(s, t, Apply(t, limits, Delete(e.id)), gone, e.id);
      CountOne(s.byID.Keys, gone, e.id);
    } else {
      assert gone + {} == gone;
    }
  }

  lemma MarkedInit(entries: seq<Entry>)
    requires entries != []
    ensures MarkedIds(entries)
            == MarkedIds(entries[..|entries| - 1])
               + if entries[|entries| - 1].deleted then {entries[|entries| - 1].id} else {}
  {
    assert entries == entries[..|entries| - 1] + [entries[|entries| - 1]];
  }

  lemma SweepOne(s: State, t: State, u: State, gone: set<ID>, id: ID)
    requires EachDistinct(s) && Short(s, t, gone)
    requires u.byID == t.byID - {id} && u.boxes.Keys == t.boxes.Keys
    requires forall n | n in t.boxes :: u.boxes[n] == Without(t.boxes[n], id)
    ensures Short(s, u, gone + {id})
  {
    forall n | n in s.boxes ensures u.boxes[n] == Sparing(s.boxes[n], gone + {id}) {
      SparingOneMore(s.boxes[n], gone, id);
    }
    assert u.byID == s.byID - (gone + {id});
  }

  lemma CountOne(all: set<ID>, gone: set<ID>, id: ID)
    ensures |(gone + {id}) * all| == |gone * all| + if id in all - gone then 1 else 0
  {
    if id in all - gone {
      assert (gone + {id}) * all == gone * all + {id};
    } else {
      assert (gone + {id}) * all == gone * all;
    }
  }
}

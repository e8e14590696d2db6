/** From the end of DATA to the mailboxes, and from there to whoever fetches the message. */
module SmtpDelivery {
  import opened Bytes
  import opened Sequences
  import opened Text
  import opened Wire
  import opened Routing
  import opened StoreModel
  import opened Smtp

  /** The ID and the time that one delivery gets. */
  datatype Ticket = Ticket(id: ID, at: int)

  function Delivery(h: Handover, name: string, t: Ticket): Op {
    Deliver(t.id, name, t.at, "smtp", h.envelope, h.body)
  }

  /** One delivery after another; the first that fails ends it with its reply code. */
  function DeliverEach(s: State, limits: Limits, h: Handover, names: seq<string>, tickets: seq<Ticket>): (State, nat)
    requires |names| <= |tickets|
    decreases |names|
  {
    if names == [] then (s, 250)
    else
      var op := Delivery(h, names[0], tickets[0]);
      if |h.body| > limits.maxSize then (s, 552)
      else if names[0] !in s.boxes then (s, 451)
      else DeliverEach(Apply(s, limits, op), limits, h, names[1..], tickets[1..])
  }

  /** The outcome of the first delivery decides whether there is a second. */
  lemma FirstDecides(s: State, limits: Limits, h: Handover, names: seq<string>, tickets: seq<Ticket>)
    requires names != [] && |names| <= |tickets|
    ensures var u := Apply(s, limits, Delivery(h, names[0], tickets[0]));
            DeliverEach(s, limits, h, names, tickets)
            == if |h.body| > limits.maxSize then (u, 552)
               else if names[0] !in s.boxes then (u, 451)
               else DeliverEach(u, limits, h, names[1..], tickets[1..])
  {
  }

  /** The ID source has given none of these to a stored message, nor one of them twice. */
  ghost predicate FreshTickets(s: State, tickets: seq<Ticket>) {
    && (forall i | 0 <= i < |tickets| :: tickets[i].id !in s.byID)
    && forall i, j | 0 <= i < j < |tickets| :: tickets[i].id != tickets[j].id
  }

  /** The queue with one more copy at its end, trimmed to the cap. */
  function WithCopy(box: seq<Msg>, limits: Limits, m: Msg): seq<Msg> {
    (box + [m])[Excess(|box| + 1, limits.maxMessages)..]
  }

  lemma CopyIsLast(box: seq<Msg>, limits: Limits, m: Msg)
    ensures WithCopy(box, limits, m) != [] && WithCopy(box, limits, m)[|WithCopy(box, limits, m)| - 1] == m
  {
  }

  /** Each of `names` has one more copy, and nothing else has changed. */
  ghost predicate CopiesIn(s: State, t: State, limits: Limits, h: Handover, names: seq<string>, tickets: seq<Ticket>)
    requires |names| <= |tickets|
  {
    && t.boxes.Keys == s.boxes.Keys
    && (forall i | 0 <= i < |names| ::
          names[i] in s.boxes
          && t.boxes[names[i]] == WithCopy(s.boxes[names[i]], limits, Incoming(Delivery(h, names[i], tickets[i]))))
    && forall n | n in s.boxes && n !in names :: t.boxes[n] == s.boxes[n]
  }

  lemma OneCopy(s: State, limits: Limits, h: Handover, name: string, t: Ticket)
    requires Agrees(s) && name in s.boxes && t.id !in s.byID && |h.body| <= limits.maxSize
    ensures var u := Apply(s, limits, Delivery(h, name, t));
            && Agrees(u) && u.boxes == s.boxes[name := WithCopy(s.boxes[name], limits, Incoming(Delivery(h, name, t)))]
            && u.byID.Keys <= s.byID.Keys + {t.id}
  {
    DeliverAgrees(s, limits.maxMessages, Incoming(Delivery(h, name, t)));
  }

  lemma CopiesAddUp(s: State, u: State, t: State, limits: Limits, h: Handover, names: seq<string>, tickets: seq<Ticket>)
    requires names != [] && Distinct(names) && |names| <= |tickets| && names[0] in s.boxes
    requires u.boxes == s.boxes[names[0] := WithCopy(s.boxes[names[0]], limits, Incoming(Delivery(h, names[0], tickets[0])))]
    requires CopiesIn(u, t, limits, h, names[1..], tickets[1..])
    ensures CopiesIn(s, t, limits, h, names, tickets)
  {
    DistinctTail(names);
    var rest := names[1..];
    forall i | 0 <= i < |names|
      ensures names[i] in s.boxes
      ensures t.boxes[names[i]] == WithCopy(s.boxes[names[i]], limits, Incoming(Delivery(h, names[i], tickets[i])))
    {
      if i > 0 {
        assert rest[i - 1] == names[i] && tickets[1..][i - 1] == tickets[i];
      }
    }
    assert names == [names[0]] + rest;
  }

  /** Delivery to several existing mailboxes cannot stop half way. */
  lemma {:induction false} EachGetsACopy(s: State, limits: Limits, h: Handover, names: seq<string>, tickets: seq<Ticket>)
    requires Agrees(s) && Distinct(names) && (forall x | x in names :: x in s.boxes)
    requires |names| <= |tickets| && FreshTickets(s, tickets) && |h.body| <= limits.maxSize
    ensures DeliverEach(s, limits, h, names, tickets).1 == 250
    ensures CopiesIn(s, DeliverEach(s, limits, h, names, tickets).0, limits, h, names, tickets)
    decreases |names|
  {
    if names != [] {
      var u := Apply(s, limits, Delivery(h, names[0], tickets[0]));
      OneCopy(s, limits, h, names[0], tickets[0]);
      DistinctTail(names);
      assert forall x | x in names[1..] :: x in names;
      assert forall i | 0 <= i < |tickets[1..]| :: tickets[1..][i] == tickets[i + 1];
      EachGetsACopy(u, limits, h, names[1..], tickets[1..]);
      CopiesAddUp(s, u, DeliverEach(s, limits, h, names, tickets).0, limits, h, names, tickets);
    }
  }

  /**
   DATA that has been read to its end either puts one copy at the tail of every mailbox
   it resolves to and answers 250, or changes nothing and answers 552; the latter exactly
   when the message with its trace lines is over the limit.
   */
  lemma AllOrNothing(cfg: Config, s: Session, store: State, limits: Limits, stream: Bytes, stamp: string, tickets: seq<Ticket>)
    requires Agrees(store) && cfg.names == store.boxes.Keys && cfg.routing.defaultMailbox in cfg.names
    requires DataTurn(cfg, s, stream, stamp).handover.Some?
    requires |DataTurn(cfg, s, stream, stamp).handover.value.mailboxes| <= |tickets| && FreshTickets(store, tickets)
    ensures var h := DataTurn(cfg, s, stream, stamp).handover.value;
            var r := DeliverEach(store, limits, h, h.mailboxes, tickets);
            && h.mailboxes != []
            && (if |h.body| > limits.maxSize then r == (store, 552)
                else r.1 == 250 && CopiesIn(store, r.0, limits, h, h.mailboxes, tickets))
  {
    var h := DataTurn(cfg, s, stream, stamp).handover.value;
    AllOrNone(cfg, store, limits, h, s.username, ReadingOf(stream, cfg.maxSize).body, s.rcpts, tickets);
  }

  lemma AllOrNone(cfg: Config, store: State, limits: Limits, h: Handover, username: string, body: Bytes,
                  rcpts: seq<string>, tickets: seq<Ticket>)
    requires Agrees(store) && cfg.names == store.boxes.Keys && cfg.routing.defaultMailbox in cfg.names
    requires h.mailboxes == ResolveMailboxes(cfg.routing, username, body, rcpts, cfg.names)
    requires |h.mailboxes| <= |tickets| && FreshTickets(store, tickets)
    ensures var r := DeliverEach(store, limits, h, h.mailboxes, tickets);
            && h.mailboxes != []
            && (if |h.body| > limits.maxSize then r == (store, 552)
                else r.1 == 250 && CopiesIn(store, r.0, limits, h, h.mailboxes, tickets))
  {
    ResolvedIsUsable(cfg.routing, username, body, rcpts, cfg.names);
    if |h.body| <= limits.maxSize {
      EachGetsACopy(store, limits, h, h.mailboxes, tickets);
    }
  }

  // ---------------------------------------------------------------------------
  // The trace header
  // ---------------------------------------------------------------------------

  /** No character of the text stands for a line feed. */
  predicate NoLineFeed(text: string) {
    forall c | c in text :: c as int % 256 != 10
  }

  lemma OctetsHaveNoLF(text: string)
    requires NoLineFeed(text)
    ensures LF !in Octets(text)
  {
    forall i | 0 <= i < |text| ensures Octets(text)[i] != LF {
      assert text[i] in text;
    }
  }

  lemma {:induction false} ConcatHasNoLineFeed(parts: seq<string>)
    requires forall i | 0 <= i < |parts| :: NoLineFeed(parts[i])
    ensures NoLineFeed(Concat(parts))
  {
    if parts != [] {
      ConcatHasNoLineFeed(parts[1..]);
    }
  }

  ghost predicate OneLineNames(cfg: Config, s: Session, stamp: string) {
    NoLineFeed(cfg.hostname) && NoLineFeed(s.helo) && NoLineFeed(s.remote) && NoLineFeed(stamp)
  }

  lemma PlainTogether(a: string, b: string)
    requires NoLineFeed(a) && NoLineFeed(b)
    ensures NoLineFeed(a + b)
  {
  }

  lemma ReceivedIsPlain()
    ensures NoLineFeed("Received") && NoLineFeed(": from ")
  {
  }

  lemma FromTextIsPlain()
    ensures NoLineFeed("Received: from ")
  {
    ReceivedIsPlain();
    PlainTogether("Received", ": from ");
    assert "Received: from " == "Received" + ": from ";
  }

  lemma UnknownIsPlain()
    ensures NoLineFeed("unknown") && NoLineFeed(" (") && NoLineFeed(")")
  {
  }

  lemma NamePartsArePlain()
    ensures NoLineFeed(" (Mail") && NoLineFeed("schleuse)")
  {
  }

  lemma ProgramNameIsPlain()
    ensures NoLineFeed(" (Mailschleuse)")
  {
    NamePartsArePlain();
    PlainTogether(" (Mail", "schleuse)");
    assert " (Mailschleuse)" == " (Mail" + "schleuse)";
  }

  lemma ByTextIsPlain()
    ensures NoLineFeed("\tby ") && NoLineFeed(" with ") && NoLineFeed(";")
  {
  }

  lemma ProtocolIsPlain(s: Session)
    ensures NoLineFeed(Protocol(s))
  {
    assert NoLineFeed("ESMTP") && NoLineFeed("SMTP") && NoLineFeed("S") && NoLineFeed("A") && NoLineFeed("");
    ConcatHasNoLineFeed(
      [if s.helo != "" then "ESMTP" else "SMTP", if s.tls then "S" else "", if s.authenticated then "A" else ""]);
  }

  lemma TraceIsLines(cfg: Config, s: Session, stamp: string)
    requires OneLineNames(cfg, s, stamp)
    ensures NoLF(Trace(cfg, s, stamp))
  {
    FromTextIsPlain();
    UnknownIsPlain();
    ProgramNameIsPlain();
    ByTextIsPlain();
    ProtocolIsPlain(s);
    ConcatHasNoLineFeed(["Received: from ", OrDefault(s.helo, "unknown"), " (", s.remote, ")"]);
    ConcatHasNoLineFeed(["\tby ", cfg.hostname, " (Mailschleuse)", " with ", Protocol(s), ";"]);
    OctetsHaveNoLF(FromLine(s));
    OctetsHaveNoLF(ByLine(cfg, s));
    OctetsHaveNoLF("\t" + stamp);
  }

  lemma ConcatThree(a: string, b: string, c: string)
    ensures Concat([a, b, c]) == a + b + c
  {
    assert [a, b, c][1..] == [b, c] && [b, c][1..] == [c] && [c][1..] == [];
    assert Concat([c]) == c && Concat([b, c]) == b + c;
  }

  lemma ConcatFive(a: string, b: string, c: string, d: string, e: string)
    ensures Concat([a, b, c, d, e]) == a + b + c + d + e
  {
    assert [a, b, c, d, e][1..] == [b, c, d, e] && [b, c, d, e][1..] == [c, d, e];
    ConcatThree(c, d, e);
    assert Concat([b, c, d, e]) == b + (c + d + e);
  }

  /** The three lines: the greeting's name, if there was one, and the address; host and protocol; the time. */
  lemma TraceSays(cfg: Config, s: Session, stamp: string)
    ensures TraceLines(cfg, s, stamp)
            == [Octets("Received: from " + (if TrimSpace(s.helo) == "" then "unknown" else s.helo) + " (" + s.remote + ")"),
                Octets("\tby " + cfg.hostname + " (Mailschleuse)" + " with " + Protocol(s) + ";"), Octets("\t" + stamp)]
  {
    ConcatFive("Received: from ", OrDefault(s.helo, "unknown"), " (", s.remote, ")");
    ConcatSix("\tby ", cfg.hostname, " (Mailschleuse)", " with ", Protocol(s), ";");
  }

  lemma ConcatSix(a: string, b: string, c: string, d: string, e: string, f: string)
    ensures Concat([a, b, c, d, e, f]) == a + b + c + d + e + f
  {
    assert [a, b, c, d, e, f][1..] == [b, c, d, e, f];
    ConcatFive(b, c, d, e, f);
    assert Concat([a, b, c, d, e, f]) == a + (b + c + d + e + f);
  }

  /** The protocol: extended after a greeting, with S under TLS and A after a login (RFC 3848). */
  lemma ProtocolSays(s: Session)
    ensures s.helo == "" ==> "SMTP" <= Protocol(s) && |Protocol(s)| == 4 + (if s.tls then 1 else 0) + if s.authenticated then 1 else 0
    ensures s.helo != "" ==> "ESMTP" <= Protocol(s) && |Protocol(s)| == 5 + (if s.tls then 1 else 0) + if s.authenticated then 1 else 0
    ensures s.authenticated ==> Protocol(s)[|Protocol(s)| - 1] == 'A'
    ensures s.tls ==> Protocol(s)[if s.helo == "" then 4 else 5] == 'S'
  {
    var first, second, third := if s.helo != "" then "ESMTP" else "SMTP", if s.tls then "S" else "", if s.authenticated then "A" else "";
    ConcatThree(first, second, third);
  }

  // ---------------------------------------------------------------------------
  // End to end
  // ---------------------------------------------------------------------------

  /** What a session hands over for these lines. */
  function HandoverOf(cfg: Config, s: Session, lines: seq<Bytes>, stamp: string): Handover {
    Handover(ResolveMailboxes(cfg.routing, s.username, Crlf(lines), s.rcpts, cfg.names),
             EnvelopeOf(s), Crlf(Trace(cfg, s, stamp)) + Crlf(lines))
  }

  /** The client is told something or the store gets the message, and the transaction is over. */
  predicate Answered(s: Session, t: Turn) {
    (t.code.Some? || t.handover.Some?) && t.session == ResetTransaction(s)
  }

  /** The exact condition on the sent lines under which DATA is answered at all. */
  lemma DataAnsweredIff(cfg: Config, s: Session, lines: seq<Bytes>, rest: Bytes, stamp: string)
    requires s.inMail && s.rcpts != [] && NoLF(lines)
    ensures var t := DataTurn(cfg, s, Multiline(lines) + rest, stamp);
            && (Answered(s, t) <==> Fits(lines, MAX_LINE_BYTES))
            && (!Fits(lines, MAX_LINE_BYTES) ==> t == Turn(s, None, None))
            && (Fits(lines, MAX_LINE_BYTES) ==>
                  if |Crlf(lines)| > cfg.maxSize then t.code == Some(552)
                  else t.handover == Some(HandoverOf(cfg, s, lines, stamp)))
  {
    PayloadOfMultiline(lines, rest, MAX_LINE_BYTES);
    var stream := Multiline(lines) + rest;
    if !Fits(lines, MAX_LINE_BYTES) {
      NotTaken(cfg, s, stream, stamp);
    } else if |Crlf(lines)| > cfg.maxSize {
      TakenInVain(cfg, s, stream, stamp, lines, rest);
    } else {
      TakenWhole(cfg, s, stream, stamp, lines, rest);
    }
  }

  lemma NotTaken(cfg: Config, s: Session, stream: Bytes, stamp: string)
    requires s.inMail && s.rcpts != [] && Payload(stream, MAX_LINE_BYTES) == None
    ensures DataTurn(cfg, s, stream, stamp) == Turn(s, None, None)
  {
  }

  lemma TakenInVain(cfg: Config, s: Session, stream: Bytes, stamp: string, lines: seq<Bytes>, rest: Bytes)
    requires s.inMail && s.rcpts != [] && |Crlf(lines)| > cfg.maxSize
    requires Payload(stream, MAX_LINE_BYTES) == Some((lines, rest))
    ensures DataTurn(cfg, s, stream, stamp) == Turn(ResetTransaction(s), Some(552), None)
  {
  }

  /** One line over the limit leaves the client without an answer and the transaction open. */
  lemma OverlongUnanswered(cfg: Config, s: Session, line: Bytes, rest: Bytes, stamp: string)
    requires s.inMail && s.rcpts != []
    requires line == seq(MAX_LINE_BYTES + 1, _ => 65)
    ensures DataTurn(cfg, s, Multiline([line]) + rest, stamp) == Turn(s, None, None)
  {
    assert LF !in line;
    assert !Fits([line], MAX_LINE_BYTES) by {
      assert |Stuffed([line][0])| > MAX_LINE_BYTES;
    }
    DataAnsweredIff(cfg, s, [line], rest, stamp);
  }

  /**
   Lines sent in DATA are what a POP3 client gets back behind the trace lines: the stored
   octets, whichever mailbox they are in, come out of RETR as those lines again.
   */
  lemma SentIsFetched(cfg: Config, s: Session, lines: seq<Bytes>, rest: Bytes, stamp: string)
    requires s.inMail && s.rcpts != [] && OneLineNames(cfg, s, stamp)
    requires NoLF(lines) && Fits(lines, MAX_LINE_BYTES) && |Crlf(lines)| <= cfg.maxSize
    ensures DataTurn(cfg, s, Multiline(lines) + rest, stamp).handover == Some(HandoverOf(cfg, s, lines, stamp))
    ensures ClientLines(RetrWire(HandoverOf(cfg, s, lines, stamp).body))
            == Some((Settled(Trace(cfg, s, stamp) + lines), []))
  {
    TraceIsLines(cfg, s, stamp);
    EndToEnd(lines, Trace(cfg, s, stamp), rest);
    TakenWhole(cfg, s, Multiline(lines) + rest, stamp, lines, rest);
  }

  lemma TakenWhole(cfg: Config, s: Session, stream: Bytes, stamp: string, lines: seq<Bytes>, rest: Bytes)
    requires s.inMail && s.rcpts != [] && |Crlf(lines)| <= cfg.maxSize
    requires Payload(stream, MAX_LINE_BYTES) == Some((lines, rest))
    ensures DataTurn(cfg, s, stream, stamp)
            == Turn(ResetTransaction(s), None, Some(HandoverOf(cfg, s, lines, stamp)))
  {
  }

  /**
   The whole way: a submitted message that the store has room for answers 250, and the
   newest message of each mailbox it resolves to is that one and is fetched line by line.
   */
  lemma SubmittedIsFetched(cfg: Config, s: Session, store: State, limits: Limits, lines: seq<Bytes>, rest: Bytes,
                           stamp: string, tickets: seq<Ticket>)
    requires s.inMail && s.rcpts != [] && OneLineNames(cfg, s, stamp)
    requires NoLF(lines) && Fits(lines, MAX_LINE_BYTES) && |Crlf(lines)| <= cfg.maxSize
    requires |HandoverOf(cfg, s, lines, stamp).body| <= limits.maxSize
    requires Agrees(store) && cfg.names == store.boxes.Keys && cfg.routing.defaultMailbox in cfg.names
    requires |cfg.names| <= |tickets| && FreshTickets(store, tickets)
    ensures var h := HandoverOf(cfg, s, lines, stamp);
            && DataTurn(cfg, s, Multiline(lines) + rest, stamp).handover == Some(h)
            && h.mailboxes != [] && |h.mailboxes| <= |tickets|
            && DeliverEach(store, limits, h, h.mailboxes, tickets).1 == 250
            && forall i | 0 <= i < |h.mailboxes| ::
                 Newest(DeliverEach(store, limits, h, h.mailboxes, tickets).0, h.mailboxes[i], tickets[i], EnvelopeOf(s),
                        Settled(Trace(cfg, s, stamp) + lines))
  {
    var h := HandoverOf(cfg, s, lines, stamp);
    SentIsFetched(cfg, s, lines, rest, stamp);
    ResolvedFit(cfg, s.username, Crlf(lines), s.rcpts);
    AllOrNone(cfg, store, limits, h, s.username, Crlf(lines), s.rcpts, tickets);
    CopiesAreNewest(store, DeliverEach(store, limits, h, h.mailboxes, tickets).0, limits, h, h.mailboxes, tickets,
                    Settled(Trace(cfg, s, stamp) + lines));
  }

  /** The last message of the mailbox is this one, and these are the lines a client fetches. */
  ghost predicate Newest(t: State, name: string, ticket: Ticket, envelope: Envelope, lines: seq<Bytes>) {
    && name in t.boxes && t.boxes[name] != []
    && var m := t.boxes[name][|t.boxes[name]| - 1];
       && m.id == ticket.id && m.receivedAt == ticket.at && m.source == "smtp" && m.envelope == envelope && !m.read
       && ClientLines(RetrWire(m.raw)) == Some((lines, []))
  }

  lemma CopiesAreNewest(s: State, t: State, limits: Limits, h: Handover, names: seq<string>, tickets: seq<Ticket>,
                        lines: seq<Bytes>)
    requires |names| <= |tickets| && CopiesIn(s, t, limits, h, names, tickets)
    requires ClientLines(RetrWire(h.body)) == Some((lines, []))
    ensures forall i | 0 <= i < |names| :: Newest(t, names[i], tickets[i], h.envelope, lines)
  {
    forall i | 0 <= i < |names| ensures Newest(t, names[i], tickets[i], h.envelope, lines) {
      CopyIsLast(s.boxes[names[i]], limits, Incoming(Delivery(h, names[i], tickets[i])));
    }
  }

  lemma HandoverFits(cfg: Config, s: Session, stream: Bytes, stamp: string)
    requires cfg.routing.defaultMailbox in cfg.names
    ensures var h := DataTurn(cfg, s, stream, stamp).handover;
            h.Some? ==> |h.value.mailboxes| <= |cfg.names|
  {
    if DataTurn(cfg, s, stream, stamp).handover.Some? {
      ResolvedFit(cfg, s.username, ReadingOf(stream, cfg.maxSize).body, s.rcpts);
    }
  }

  /** There are never more resolved mailboxes than mailboxes. */
  lemma ResolvedFit(cfg: Config, username: string, body: Bytes, rcpts: seq<string>)
    requires cfg.routing.defaultMailbox in cfg.names
    ensures |ResolveMailboxes(cfg.routing, username, body, rcpts, cfg.names)| <= |cfg.names|
  {
    var r := ResolveMailboxes(cfg.routing, username, body, rcpts, cfg.names);
    ResolvedIsUsable(cfg.routing, username, body, rcpts, cfg.names);
    DistinctCount(r);
    assert cfg.names == Members(r) + (cfg.names - Members(r));
  }

  // ---------------------------------------------------------------------------
  // The store over a whole dialogue
  // ---------------------------------------------------------------------------

  lemma StepFits(cfg: Config, s: Session, c: Command)
    requires cfg.routing.defaultMailbox in cfg.names
    ensures Step(cfg, s, c).handover.Some? ==> |Step(cfg, s, c).handover.value.mailboxes| <= |cfg.names|
  {
    if c.Data? {
      HandoverFits(cfg, s, c.stream, c.stamp);
    }
  }

  /** The store and the reply after one command. */
  function Outcome(cfg: Config, s: Session, store: State, limits: Limits, c: Command, tickets: seq<Ticket>): (State, Option<nat>)
    requires cfg.routing.defaultMailbox in cfg.names && |cfg.names| <= |tickets|
  {
    StepFits(cfg, s, c);
    match Step(cfg, s, c).handover
    case None => (store, Step(cfg, s, c).code)
    case Some(h) =>
      var r := DeliverEach(store, limits, h, h.mailboxes, tickets);
      (r.0, Some(r.1))
  }

  lemma OutcomeOfData(cfg: Config, s: Session, store: State, limits: Limits, stream: Bytes, stamp: string, tickets: seq<Ticket>)
    requires cfg.routing.defaultMailbox in cfg.names && |cfg.names| <= |tickets|
    ensures var t, r := DataTurn(cfg, s, stream, stamp), Outcome(cfg, s, store, limits, Data(stream, stamp), tickets);
            if t.handover.None? then r == (store, t.code)
            else
              && |t.handover.value.mailboxes| <= |tickets|
              && var d := DeliverEach(store, limits, t.handover.value, t.handover.value.mailboxes, tickets);
                 r == (d.0, Some(d.1))
  {
    HandoverFits(cfg, s, stream, stamp);
  }

  /** Every command has tickets for all the mailboxes there are. */
  ghost predicate Enough(cfg: Config, cmds: seq<Command>, tickets: seq<seq<Ticket>>) {
    && cfg.routing.defaultMailbox in cfg.names
    && |tickets| == |cmds| && forall i | 0 <= i < |tickets| :: |cfg.names| <= |tickets[i]|
  }

  ghost function StoreAfter(cfg: Config, s: Session, store: State, limits: Limits, cmds: seq<Command>, tickets: seq<seq<Ticket>>): State
    requires Enough(cfg, cmds, tickets)
  {
    if cmds == [] then store
    else
      var last := |cmds| - 1;
      var mid := StoreAfter(cfg, s, store, limits, cmds[..last], tickets[..last]);
      if After(cfg, s, cmds[..last]).open
      then Outcome(cfg, After(cfg, s, cmds[..last]), mid, limits, cmds[last], tickets[last]).0 else mid
  }

  /** The reply codes of a whole dialogue; None is a command that gets no final reply. */
  ghost function Replies(cfg: Config, s: Session, store: State, limits: Limits, cmds: seq<Command>, tickets: seq<seq<Ticket>>): seq<Option<nat>>
    requires Enough(cfg, cmds, tickets)
  {
    if cmds == [] then []
    else
      var last := |cmds| - 1;
      var mid := StoreAfter(cfg, s, store, limits, cmds[..last], tickets[..last]);
      Replies(cfg, s, store, limits, cmds[..last], tickets[..last])
      + if After(cfg, s, cmds[..last]).open
        then [Outcome(cfg, After(cfg, s, cmds[..last]), mid, limits, cmds[last], tickets[last]).1] else []
  }

  ghost predicate FreshThroughout(cfg: Config, s: Session, store: State, limits: Limits, cmds: seq<Command>, tickets: seq<seq<Ticket>>)
    requires Enough(cfg, cmds, tickets)
  {
    forall i | 0 <= i < |cmds| ::
      FreshTickets(StoreAfter(cfg, s, store, limits, cmds[..i], tickets[..i]), tickets[i])
  }

  /** Nothing is read, answered or delivered once the session is over. */
  lemma {:induction false} NothingAfterTheEnd(cfg: Config, s: Session, store: State, limits: Limits, cmds: seq<Command>,
                                              tickets: seq<seq<Ticket>>, i: nat)
    requires Enough(cfg, cmds, tickets) && i <= |cmds| && !After(cfg, s, cmds[..i]).open
    ensures After(cfg, s, cmds) == After(cfg, s, cmds[..i])
    ensures StoreAfter(cfg, s, store, limits, cmds, tickets) == StoreAfter(cfg, s, store, limits, cmds[..i], tickets[..i])
    ensures Replies(cfg, s, store, limits, cmds, tickets) == Replies(cfg, s, store, limits, cmds[..i], tickets[..i])
  {
    if i == |cmds| {
      assert cmds[..i] == cmds && tickets[..i] == tickets;
    } else {
      var last := |cmds| - 1;
      assert cmds[..last][..i] == cmds[..i] && tickets[..last][..i] == tickets[..i];
      NothingAfterTheEnd(cfg, s, store, limits, cmds[..last], tickets[..last], i);
    }
  }

  lemma {:induction false} DeliverEachAgrees(s: State, limits: Limits, h: Handover, names: seq<string>, tickets: seq<Ticket>)
    requires Agrees(s) && Capped(s, limits.maxMessages) && |names| <= |tickets| && FreshTickets(s, tickets)
    ensures var t := DeliverEach(s, limits, h, names, tickets).0;
            Agrees(t) && Capped(t, limits.maxMessages) && t.boxes.Keys == s.boxes.Keys
    decreases |names|
  {
    if names != [] && |h.body| <= limits.maxSize && names[0] in s.boxes {
      var op := Delivery(h, names[0], tickets[0]);
      ApplyAgrees(s, limits, op);
      var rest := tickets[1..];
      assert forall i | 0 <= i < |rest| :: rest[i] == tickets[i + 1];
      assert Apply(s, limits, op).byID.Keys <= s.byID.Keys + {op.id};
      DeliverEachAgrees(Apply(s, limits, op), limits, h, names[1..], rest);
    }
  }

  lemma FreshInit(cfg: Config, s: Session, store: State, limits: Limits, cmds: seq<Command>, tickets: seq<seq<Ticket>>)
    requires cmds != [] && Enough(cfg, cmds, tickets) && FreshThroughout(cfg, s, store, limits, cmds, tickets)
    ensures var last := |cmds| - 1;
            && FreshThroughout(cfg, s, store, limits, cmds[..last], tickets[..last])
            && FreshTickets(StoreAfter(cfg, s, store, limits, cmds[..last], tickets[..last]), tickets[last])
  {
    var last := |cmds| - 1;
    forall i | 0 <= i < last
      ensures FreshTickets(StoreAfter(cfg, s, store, limits, cmds[..last][..i], tickets[..last][..i]), tickets[..last][i])
    {
      assert cmds[..last][..i] == cmds[..i] && tickets[..last][..i] == tickets[..i];
    }
  }

  /** Through every dialogue the store's index agrees with its queues and the cap holds. */
  lemma {:induction false} DialogueKeepsStore(cfg: Config, s: Session, store: State, limits: Limits, cmds: seq<Command>,
                                              tickets: seq<seq<Ticket>>)
    requires Enough(cfg, cmds, tickets) && FreshThroughout(cfg, s, store, limits, cmds, tickets)
    requires Agrees(store) && Capped(store, limits.maxMessages)
    ensures var t := StoreAfter(cfg, s, store, limits, cmds, tickets);
            Agrees(t) && Capped(t, limits.maxMessages) && t.boxes.Keys == store.boxes.Keys
  {
    if cmds != [] {
      var last := |cmds| - 1;
      FreshInit(cfg, s, store, limits, cmds, tickets);
      DialogueKeepsStore(cfg, s, store, limits, cmds[..last], tickets[..last]);
      var mid, before := StoreAfter(cfg, s, store, limits, cmds[..last], tickets[..last]), After(cfg, s, cmds[..last]);
      StepFits(cfg, before, cmds[last]);
      match Step(cfg, before, cmds[last]).handover
      case None =>
      case Some(h) => DeliverEachAgrees(mid, limits, h, h.mailboxes, tickets[last]);
    }
  }

  /**
   A 250 that answers DATA is not given before every resolved mailbox has its copy, and any
   other answer leaves the store as it was: at every point of every dialogue.
   */
  lemma AnsweredMeansStored(cfg: Config, s: Session, store: State, limits: Limits, cmds: seq<Command>,
                            tickets: seq<seq<Ticket>>, c: Command, more: seq<Ticket>)
    requires Enough(cfg, cmds, tickets) && FreshThroughout(cfg, s, store, limits, cmds, tickets)
    requires Agrees(store) && Capped(store, limits.maxMessages) && cfg.names == store.boxes.Keys
    requires After(cfg, s, cmds).open && c.Data? && |cfg.names| <= |more|
    requires FreshTickets(StoreAfter(cfg, s, store, limits, cmds, tickets), more)
    ensures var before, t := StoreAfter(cfg, s, store, limits, cmds, tickets), Step(cfg, After(cfg, s, cmds), c);
            var r := Outcome(cfg, After(cfg, s, cmds), before, limits, c, more);
            if r.1 == Some(250) then
              && t.handover.Some? && t.handover.value.mailboxes != [] && |t.handover.value.mailboxes| <= |more|
              && CopiesIn(before, r.0, limits, t.handover.value, t.handover.value.mailboxes, more)
            else r.0 == before
  {
    var before, at := StoreAfter(cfg, s, store, limits, cmds, tickets), After(cfg, s, cmds);
    DialogueKeepsStore(cfg, s, store, limits, cmds, tickets);
    StepFits(cfg, at, c);
    if DataTurn(cfg, at, c.stream, c.stamp).handover.Some? {
      AllOrNothing(cfg, at, before, limits, c.stream, c.stamp, more);
    }
  }
}

/**
 A connection as one stream of octets: which of them are commands, where a payload ends, and why the
 dialogue that the octets come to is one of the dialogues of the session.
 */
module SmtpStream {
  import opened Bytes
  import opened Sequences
  import opened Text
  import opened Wire
  import opened Chunks
  import opened Auth
  import opened StoreModel
  import opened Smtp
  import opened SmtpDelivery

  /** What the first word of a line asks for. */
  datatype Verb =
    | Greets
    | Secures
    | LogsIn
    | GivesSender
    | GivesRecipient
    | SendsMessage
    | Resets
    | Quits
    | Answered(code: nat)

  /** `word` is in lower case. */
  function VerbOf(word: string): Verb {
    if word == "ehlo" || word == "helo" then Greets
    else if word == "starttls" then Secures
    else if word == "auth" then LogsIn
    else if word == "mail" then GivesSender
    else if word == "rcpt" then GivesRecipient
    else if word == "data" then SendsMessage
    else if word == "rset" then Resets
    else if word == "noop" then Answered(250)
    else if word == "vrfy" || word == "expn" then Answered(252)
    else if word == "help" then Answered(214)
    else if word == "quit" then Quits
    else if word == "" then Answered(500)
    else Answered(502)
  }

  /** A line with its verb, and the octets behind it. */
  datatype Heard = Heard(verb: Verb, args: string, rest: Bytes)

  function HeardIn(line: Bytes, rest: Bytes): Heard {
    var words := SplitCommand(Chars(line));
    Heard(VerbOf(words.0), words.1, rest)
  }

  function NextCommand(input: Bytes): Option<Heard> {
    match LineOf(input)
    case None => None
    case Some(line) => Some(HeardIn(line, LeftAfter(0, input)))
  }

  function CommandOf(h: Heard, handshake: bool, stamp: string): Command {
    match h.verb
    case Greets => Hello(h.args)
    case Secures => StartTLS(handshake)
    case LogsIn => Command.Auth(AttemptOf(h.args, h.rest))
    case GivesSender => Mail(h.args)
    case GivesRecipient => Rcpt(h.args)
    case SendsMessage => Data(h.rest, stamp)
    case Resets => Rset
    case Quits => Quit
    case Answered(code) => Other(code)
  }

  /** A word and its arguments, or a word alone, with any white space around and between them. */
  ghost predicate Reads(text: string, word: string, args: string) {
    && AllVisible(word) && IsTrimmed(args)
    && (args == "" ==> TrimSpace(text) == word)
    && (args != "" ==> exists gap :: (forall c | c in gap :: IsAsciiSpace(c)) && TrimSpace(text) == word + [' '] + (gap + args))
  }

  lemma WordsRead(text: string, word: string, args: string)
    requires Reads(text, word, args)
    ensures SplitCommand(text) == (Lower(word), args)
  {
    assert ' ' !in word && word[0] in word && word[|word| - 1] in word;
    if args == "" {
      CutNowhere(word, ' ');
    } else {
      var gap :| (forall c | c in gap :: IsAsciiSpace(c)) && TrimSpace(text) == word + [' '] + (gap + args);
      CutAt(word, ' ', gap + args);
      TrimLeftBlanks(gap, args);
    }
  }

  lemma GreetingVerbs(word: string)
    ensures word in {"ehlo", "helo"} ==> VerbOf(word) == Greets
    ensures word == "starttls" ==> VerbOf(word) == Secures
    ensures word == "auth" ==> VerbOf(word) == LogsIn
    ensures word == "quit" ==> VerbOf(word) == Quits
  {
  }

  lemma MailVerbs(word: string)
    ensures word == "mail" ==> VerbOf(word) == GivesSender
    ensures word == "rcpt" ==> VerbOf(word) == GivesRecipient
    ensures word == "data" ==> VerbOf(word) == SendsMessage
    ensures word == "rset" ==> VerbOf(word) == Resets
  {
  }

  lemma IdleVerbs(word: string)
    ensures word == "noop" ==> VerbOf(word) == Answered(250)
    ensures word in {"vrfy", "expn"} ==> VerbOf(word) == Answered(252)
    ensures word == "help" ==> VerbOf(word) == Answered(214)
    ensures word !in VERBS && word != "" ==> VerbOf(word) == Answered(502)
  {
  }

  const VERBS: set<string> :=
    {"ehlo", "helo", "mail", "rcpt", "data", "rset", "quit", "starttls", "auth", "noop", "vrfy", "expn", "help"}

  /** What each line asks for: the first word in any case decides. */
  lemma LineMeans(line: Bytes, rest: Bytes, word: string, args: string, handshake: bool, stamp: string)
    requires Reads(Chars(line), word, args)
    ensures CommandOf(HeardIn(line, rest), handshake, stamp) == Asked(Lower(word), args, rest, handshake, stamp)
  {
    WordsRead(Chars(line), word, args);
    WordAsks(Lower(word), args, rest, handshake, stamp);
  }

  lemma WordAsks(word: string, args: string, rest: Bytes, handshake: bool, stamp: string)
    requires word != ""
    ensures CommandOf(Heard(VerbOf(word), args, rest), handshake, stamp) == Asked(word, args, rest, handshake, stamp)
  {
    GreetingVerbs(word);
    MailVerbs(word);
    IdleVerbs(word);
  }

  /** The commands by name; `word` is in lower case. */
  ghost function Asked(word: string, args: string, rest: Bytes, handshake: bool, stamp: string): Command {
    if word in {"ehlo", "helo"} then Hello(args)
    else if word == "mail" then Mail(args)
    else if word == "rcpt" then Rcpt(args)
    else if word == "data" then Data(rest, stamp)
    else if word == "rset" then Rset
    else if word == "quit" then Quit
    else if word == "starttls" then StartTLS(handshake)
    else if word == "auth" then Command.Auth(AttemptOf(args, rest))
    else if word == "noop" then Other(250)
    else if word in {"vrfy", "expn"} then Other(252)
    else if word == "help" then Other(214)
    else Other(502)
  }

  /** A blank line is a command as well, and gets 500. */
  lemma BlankLineMeans(line: Bytes, rest: Bytes, handshake: bool, stamp: string)
    requires TrimSpace(Chars(line)) == ""
    ensures CommandOf(HeardIn(line, rest), handshake, stamp) == Other(500)
  {
    CutNowhere("", ' ');
  }

  /** What the client sends in plain, and what it sends under TLS if the handshake succeeds. */
  datatype Feed = Feed(session: Session, input: Bytes, secure: Option<Bytes>)

  /** What a command leaves unread; under TLS there is a stream of its own. */
  function Unread(cfg: Config, f: Feed, h: Heard): Bytes {
    match h.verb
    case Secures => if cfg.tlsAvailable && !f.session.tls && f.secure.Some? then f.secure.value else h.rest
    case LogsIn => if cfg.auth.AuthDisabled? || f.session.authenticated then h.rest else AttemptLeft(h.args, h.rest)
    case SendsMessage => if !f.session.inMail || f.session.rcpts == [] then h.rest else PayloadLeft(h.rest)
    case _ => h.rest
  }

  /** One round of the loop over the commands; an error of the reader ends the session. */
  function FeedNext(cfg: Config, f: Feed, stamp: string): Feed {
    match NextCommand(f.input)
    case None => f.(session := f.session.(open := false), input := LeftAfter(0, f.input))
    case Some(h) => Feed(Step(cfg, f.session, CommandOf(h, f.secure.Some?, stamp)).session, Unread(cfg, f, h), f.secure)
  }

  /** What the clock and the ID source give a round. */
  datatype Slot = Slot(stamp: string, tickets: seq<Ticket>)

  /** The connection, the store, and what has been read and answered. */
  datatype Dialogue = Dialogue(feed: Feed, store: State, cmds: seq<Command>, replies: seq<Option<nat>>)

  ghost predicate Supplied(cfg: Config, slots: seq<Slot>) {
    cfg.routing.defaultMailbox in cfg.names && forall i | 0 <= i < |slots| :: |cfg.names| <= |slots[i].tickets|
  }

  function Round(cfg: Config, limits: Limits, d: Dialogue, slot: Slot): Dialogue
    requires cfg.routing.defaultMailbox in cfg.names && |cfg.names| <= |slot.tickets|
  {
    var next := FeedNext(cfg, d.feed, slot.stamp);
    match NextCommand(d.feed.input)
    case None => d.(feed := next)
    case Some(h) =>
      var c := CommandOf(h, d.feed.secure.Some?, slot.stamp);
      var r := Outcome(cfg, d.feed.session, d.store, limits, c, slot.tickets);
      Dialogue(next, r.0, d.cmds + [c], d.replies + [r.1])
  }

  /** Nothing more is read once the session is over. */
  ghost function Rounds(cfg: Config, limits: Limits, d: Dialogue, slots: seq<Slot>): Dialogue
    requires Supplied(cfg, slots)
  {
    if slots == [] then d
    else
      var before := Rounds(cfg, limits, d, slots[..|slots| - 1]);
      if before.feed.session.open then Round(cfg, limits, before, slots[|slots| - 1]) else before
  }

  /** A round leads from one dialogue to the next: one fact, taken apart only where that is needed. */
  ghost predicate Leads(cfg: Config, limits: Limits, d: Dialogue, slot: Slot, next: Dialogue) {
    forall x: int :: LeadsAt(cfg, limits, d, slot, next, x)
  }

  ghost predicate LeadsAt(cfg: Config, limits: Limits, d: Dialogue, slot: Slot, next: Dialogue, x: int) {
    && cfg.routing.defaultMailbox in cfg.names && |cfg.names| <= |slot.tickets|
    && next == if d.feed.session.open then Round(cfg, limits, d, slot) else d
  }

  /** Round by round. */
  ghost predicate Course(cfg: Config, limits: Limits, slots: seq<Slot>, ds: seq<Dialogue>) {
    |ds| == |slots| + 1 && forall i | 0 <= i < |slots| :: Leads(cfg, limits, ds[i], slots[i], ds[i + 1])
  }

  lemma CourseOf(cfg: Config, limits: Limits, d: Dialogue, slots: seq<Slot>) returns (ds: seq<Dialogue>)
    requires Supplied(cfg, slots)
    ensures Course(cfg, limits, slots, ds) && ds[0] == d && ds[|slots|] == Rounds(cfg, limits, d, slots)
    ensures forall i | 0 <= i < |slots| :: ds[i] == Rounds(cfg, limits, d, slots[..i])
  {
    ds := seq(|slots| + 1, i requires 0 <= i <= |slots| => Rounds(cfg, limits, d, slots[..i]));
    forall i | 0 <= i < |slots| ensures Leads(cfg, limits, ds[i], slots[i], ds[i + 1]) {
      assert slots[..i + 1][..i] == slots[..i];
    }
    assert slots[..|slots|] == slots;
  }

  lemma NextRound(cfg: Config, limits: Limits, d: Dialogue, slots: seq<Slot>, i: nat)
    requires Supplied(cfg, slots) && FreshSlots(cfg, limits, d, slots) && i < |slots|
    requires Rounds(cfg, limits, d, slots[..i]).feed.session.open
    ensures var before := Rounds(cfg, limits, d, slots[..i]);
            && |cfg.names| <= |slots[i].tickets| && FreshTickets(before.store, slots[i].tickets)
            && Rounds(cfg, limits, d, slots[..i + 1]) == Round(cfg, limits, before, slots[i])
  {
    assert slots[..i + 1][..i] == slots[..i];
  }

  lemma {:induction false} NothingAfterTheEnd(cfg: Config, limits: Limits, d: Dialogue, slots: seq<Slot>, i: nat)
    requires Supplied(cfg, slots) && i <= |slots| && !Rounds(cfg, limits, d, slots[..i]).feed.session.open
    ensures Rounds(cfg, limits, d, slots) == Rounds(cfg, limits, d, slots[..i])
  {
    if i == |slots| {
      assert slots[..i] == slots;
    } else {
      assert slots[..|slots| - 1][..i] == slots[..i];
      NothingAfterTheEnd(cfg, limits, d, slots[..|slots| - 1], i);
    }
  }

  // ---------------------------------------------------------------------------
  // The octets come to a dialogue
  // ---------------------------------------------------------------------------

  function TicketsOf(slots: seq<Slot>): seq<seq<Ticket>> {
    seq(|slots|, i requires 0 <= i < |slots| => slots[i].tickets)
  }

  /** The IDs are new when their round comes. */
  ghost predicate FreshSlots(cfg: Config, limits: Limits, d: Dialogue, slots: seq<Slot>)
    requires Supplied(cfg, slots)
  {
    forall i | 0 <= i < |slots| :: FreshTickets(Rounds(cfg, limits, d, slots[..i]).store, slots[i].tickets)
  }

  /** What was read from `d` on is the list of commands, with the replies and the store that they come to. */
  ghost predicate IsDialogue(cfg: Config, limits: Limits, d: Dialogue, e: Dialogue, tickets: seq<seq<Ticket>>) {
    && Enough(cfg, e.cmds, tickets)
    && FreshThroughout(cfg, d.feed.session, d.store, limits, e.cmds, tickets)
    && e.store == StoreAfter(cfg, d.feed.session, d.store, limits, e.cmds, tickets)
    && e.replies == Replies(cfg, d.feed.session, d.store, limits, e.cmds, tickets)
  }

  /** The session is where the commands lead, unless reading has failed, which ends it. */
  ghost predicate SessionOf(cfg: Config, d: Dialogue, e: Dialogue) {
    var s := After(cfg, d.feed.session, e.cmds);
    e.feed.session == s || e.feed.session == s.(open := false)
  }

  lemma StoreNext(cfg: Config, s: Session, store: State, limits: Limits, cmds: seq<Command>, tickets: seq<seq<Ticket>>,
                  c: Command, more: seq<Ticket>)
    requires Enough(cfg, cmds, tickets) && |cfg.names| <= |more| && After(cfg, s, cmds).open
    ensures var mid := StoreAfter(cfg, s, store, limits, cmds, tickets);
            var r := Outcome(cfg, After(cfg, s, cmds), mid, limits, c, more);
            && Enough(cfg, cmds + [c], tickets + [more])
            && After(cfg, s, cmds + [c]) == Step(cfg, After(cfg, s, cmds), c).session
            && StoreAfter(cfg, s, store, limits, cmds + [c], tickets + [more]) == r.0
            && Replies(cfg, s, store, limits, cmds + [c], tickets + [more])
               == Replies(cfg, s, store, limits, cmds, tickets) + [r.1]
  {
    var cmds', tickets' := cmds + [c], tickets + [more];
    assert cmds'[..|cmds|] == cmds && tickets'[..|cmds|] == tickets;
    assert forall i | 0 <= i < |tickets| :: tickets'[i] == tickets[i];
  }

  lemma FreshNext(cfg: Config, s: Session, store: State, limits: Limits, cmds: seq<Command>, tickets: seq<seq<Ticket>>,
                  c: Command, more: seq<Ticket>)
    requires Enough(cfg, cmds, tickets) && Enough(cfg, cmds + [c], tickets + [more])
    requires FreshThroughout(cfg, s, store, limits, cmds, tickets)
    requires FreshTickets(StoreAfter(cfg, s, store, limits, cmds, tickets), more)
    ensures FreshThroughout(cfg, s, store, limits, cmds + [c], tickets + [more])
  {
    var cmds', tickets' := cmds + [c], tickets + [more];
    forall i | 0 <= i < |cmds'| ensures FreshTickets(StoreAfter(cfg, s, store, limits, cmds'[..i], tickets'[..i]), tickets'[i]) {
      if i < |cmds| {
        assert cmds'[..i] == cmds[..i] && tickets'[..i] == tickets[..i] && tickets'[i] == tickets[i];
      } else {
        assert cmds'[..i] == cmds && tickets'[..i] == tickets;
      }
    }
  }

  lemma SuppliedInit(cfg: Config, limits: Limits, d: Dialogue, slots: seq<Slot>)
    requires slots != [] && Supplied(cfg, slots)
    ensures var last := |slots| - 1;
            && Supplied(cfg, slots[..last]) && |cfg.names| <= |slots[last].tickets|
            && (FreshSlots(cfg, limits, d, slots) ==>
                  && FreshSlots(cfg, limits, d, slots[..last])
                  && FreshTickets(Rounds(cfg, limits, d, slots[..last]).store, slots[last].tickets))
  {
    var before := slots[..|slots| - 1];
    forall i | 0 <= i <= |before| ensures before[..i] == slots[..i] {
    }
  }

  /** A round that reads a command adds it to the dialogue. */
  lemma RoundAdds(cfg: Config, limits: Limits, d: Dialogue, e: Dialogue, tickets: seq<seq<Ticket>>, slot: Slot)
    requires IsDialogue(cfg, limits, d, e, tickets) && e.feed.session == After(cfg, d.feed.session, e.cmds)
    requires e.feed.session.open && |cfg.names| <= |slot.tickets| && FreshTickets(e.store, slot.tickets)
    requires NextCommand(e.feed.input).Some?
    ensures var next := Round(cfg, limits, e, slot);
            && IsDialogue(cfg, limits, d, next, tickets + [slot.tickets])
            && next.feed.session == After(cfg, d.feed.session, next.cmds)
  {
    var c := CommandOf(NextCommand(e.feed.input).value, e.feed.secure.Some?, slot.stamp);
    StoreNext(cfg, d.feed.session, d.store, limits, e.cmds, tickets, c, slot.tickets);
    FreshNext(cfg, d.feed.session, d.store, limits, e.cmds, tickets, c, slot.tickets);
  }

  /** What has been read in these rounds is a dialogue of the session, with a command for each round while it is open. */
  ghost predicate Follows(cfg: Config, limits: Limits, d: Dialogue, e: Dialogue, slots: seq<Slot>) {
    && |e.cmds| <= |slots| && (e.feed.session.open ==> |e.cmds| == |slots|)
    && IsDialogue(cfg, limits, d, e, TicketsOf(slots[..|e.cmds|]))
    && SessionOf(cfg, d, e)
  }

  lemma TicketsLast(slots: seq<Slot>, slot: Slot)
    ensures TicketsOf(slots + [slot]) == TicketsOf(slots) + [slot.tickets]
  {
  }

  lemma FollowsOn(cfg: Config, limits: Limits, d: Dialogue, e: Dialogue, slots: seq<Slot>, slot: Slot)
    requires Follows(cfg, limits, d, e, slots) && e.feed.session.open
    requires cfg.routing.defaultMailbox in cfg.names && |cfg.names| <= |slot.tickets| && FreshTickets(e.store, slot.tickets)
    ensures Follows(cfg, limits, d, Round(cfg, limits, e, slot), slots + [slot])
  {
    assert slots[..|e.cmds|] == slots;
    if NextCommand(e.feed.input).Some? {
      RoundAdds(cfg, limits, d, e, TicketsOf(slots), slot);
      TicketsLast(slots, slot);
      assert (slots + [slot])[..|slots| + 1] == slots + [slot];
    } else {
      RoundFails(cfg, limits, d, e, slot);
      assert (slots + [slot])[..|slots|] == slots;
    }
  }

  lemma FollowsNext(cfg: Config, limits: Limits, d: Dialogue, e: Dialogue, slots: seq<Slot>, slot: Slot, next: Dialogue)
    requires Follows(cfg, limits, d, e, slots) && Leads(cfg, limits, e, slot, next) && FreshTickets(e.store, slot.tickets)
    ensures Follows(cfg, limits, d, next, slots + [slot])
  {
    assert LeadsAt(cfg, limits, e, slot, next, 0);
    if e.feed.session.open {
      FollowsOn(cfg, limits, d, e, slots, slot);
    } else {
      assert (slots + [slot])[..|e.cmds|] == slots[..|e.cmds|];
    }
  }

  lemma RoundFails(cfg: Config, limits: Limits, d: Dialogue, e: Dialogue, slot: Slot)
    requires cfg.routing.defaultMailbox in cfg.names && |cfg.names| <= |slot.tickets|
    requires SessionOf(cfg, d, e) && NextCommand(e.feed.input).None?
    ensures var next := Round(cfg, limits, e, slot);
            && SessionOf(cfg, d, next) && !next.feed.session.open
            && next.cmds == e.cmds && next.replies == e.replies && next.store == e.store
  {
  }

  lemma {:induction false} FollowsAlong(cfg: Config, limits: Limits, slots: seq<Slot>, ds: seq<Dialogue>, n: nat)
    requires Course(cfg, limits, slots, ds) && n <= |slots|
    requires forall i | 0 <= i < |slots| :: FreshTickets(ds[i].store, slots[i].tickets)
    requires Follows(cfg, limits, ds[0], ds[0], [])
    ensures Follows(cfg, limits, ds[0], ds[n], slots[..n])
  {
    if n == 0 {
      assert slots[..n] == [];
    } else {
      FollowsAlong(cfg, limits, slots, ds, n - 1);
      FollowsNext(cfg, limits, ds[0], ds[n - 1], slots[..n - 1], slots[n - 1], ds[n]);
      PrefixGrows(slots, n);
    }
  }

  lemma FollowsFromStart(cfg: Config, limits: Limits, d: Dialogue)
    requires cfg.routing.defaultMailbox in cfg.names && d.cmds == [] && d.replies == [] && d.feed.session.open
    ensures Follows(cfg, limits, d, d, [])
  {
    assert TicketsOf([]) == [];
  }

  /**
   Whatever the octets are, what is read of them is a dialogue of the session: its commands in the order
   in which they came, with the replies and the store that those commands lead to.
   */
  lemma StreamIsDialogue(cfg: Config, limits: Limits, d: Dialogue, slots: seq<Slot>)
    requires Supplied(cfg, slots) && FreshSlots(cfg, limits, d, slots)
    requires d.cmds == [] && d.replies == [] && d.feed.session.open
    ensures Follows(cfg, limits, d, Rounds(cfg, limits, d, slots), slots)
  {
    var ds := CourseOf(cfg, limits, d, slots);
    FollowsFromStart(cfg, limits, d);
    FollowsAlong(cfg, limits, slots, ds, |slots|);
    assert slots[..|slots|] == slots;
  }

  // ---------------------------------------------------------------------------
  // Pipelining
  // ---------------------------------------------------------------------------

  lemma LineIsCommand(line: Bytes, rest: Bytes)
    requires LF !in line && |line| <= MAX_LINE_BYTES
    ensures NextCommand(line + CRLF + rest) == Some(HeardIn(line, rest))
  {
    ReadLineOfLine(line, rest, MAX_LINE_BYTES);
    LeftOfLine(line + CRLF + rest);
  }

  /** A line that is a command by itself, and does not end the session. */
  predicate Alone(line: Bytes) {
    && LF !in line && |line| <= MAX_LINE_BYTES
    && var verb := HeardIn(line, []).verb;
       verb != Secures && verb != LogsIn && verb != SendsMessage && verb != Quits
  }

  /** The commands of lines that are commands by themselves. */
  function CommandsIn(lines: seq<Bytes>): seq<Command> {
    seq(|lines|, i requires 0 <= i < |lines| => CommandOf(HeardIn(lines[i], []), false, ""))
  }

  lemma CommandsLast(lines: seq<Bytes>, line: Bytes)
    ensures CommandsIn(lines + [line]) == CommandsIn(lines) + [CommandOf(HeardIn(line, []), false, "")]
  {
  }

  lemma CommandAlone(line: Bytes, rest: Bytes, handshake: bool, stamp: string)
    requires Alone(line)
    ensures var c := CommandOf(HeardIn(line, rest), handshake, stamp);
            c == CommandOf(HeardIn(line, []), false, "") && !c.StartTLS? && !c.Quit?
  {
  }

  lemma StaysOpen(cfg: Config, s: Session, c: Command)
    requires s.open && !c.StartTLS? && !c.Quit?
    ensures Step(cfg, s, c).session.open
  {
  }

  /** What a round makes of the command that it reads. */
  lemma RoundReads(cfg: Config, limits: Limits, d: Dialogue, slot: Slot, h: Heard, c: Command)
    requires cfg.routing.defaultMailbox in cfg.names && |cfg.names| <= |slot.tickets|
    requires NextCommand(d.feed.input) == Some(h) && c == CommandOf(h, d.feed.secure.Some?, slot.stamp)
    ensures var next := Round(cfg, limits, d, slot);
            && next.cmds == d.cmds + [c] && next.feed.session == Step(cfg, d.feed.session, c).session
            && next.feed.input == Unread(cfg, d.feed, h)
  {
  }

  lemma AloneNext(cfg: Config, limits: Limits, d: Dialogue, slot: Slot, line: Bytes, rest: Bytes)
    requires cfg.routing.defaultMailbox in cfg.names && |cfg.names| <= |slot.tickets|
    requires d.feed.session.open && Alone(line) && d.feed.input == line + CRLF + rest
    ensures var next := Round(cfg, limits, d, slot);
            && next.feed.session.open && next.feed.input == rest
            && next.cmds == d.cmds + [CommandOf(HeardIn(line, []), false, "")]
  {
    var c := CommandOf(HeardIn(line, rest), d.feed.secure.Some?, slot.stamp);
    LineIsCommand(line, rest);
    RoundReads(cfg, limits, d, slot, HeardIn(line, rest), c);
    CommandAlone(line, rest, d.feed.secure.Some?, slot.stamp);
    StaysOpen(cfg, d.feed.session, c);
  }

  lemma CrlfFirst(lines: seq<Bytes>, n: nat, rest: Bytes)
    requires n < |lines|
    ensures Crlf(lines[n..]) + rest == lines[n] + CRLF + (Crlf(lines[n + 1..]) + rest)
  {
    assert lines[n..][1..] == lines[n + 1..];
  }

  lemma PipelinedNext(cfg: Config, limits: Limits, d: Dialogue, e: Dialogue, slot: Slot, next: Dialogue, lines: seq<Bytes>,
                      line: Bytes, rest: Bytes)
    requires Leads(cfg, limits, e, slot, next)
    requires e.feed.session.open && Alone(line) && e.feed.input == line + CRLF + rest && e.cmds == d.cmds + CommandsIn(lines)
    ensures next.feed.session.open && next.feed.input == rest && next.cmds == d.cmds + CommandsIn(lines + [line])
  {
    assert LeadsAt(cfg, limits, e, slot, next, 0);
    AloneNext(cfg, limits, e, slot, line, rest);
    CommandsLast(lines, line);
    Assoc(d.cmds, CommandsIn(lines), [CommandOf(HeardIn(line, []), false, "")]);
  }

  lemma NothingPipelined(cmds: seq<Command>, lines: seq<Bytes>)
    ensures lines[0..] == lines && cmds + CommandsIn(lines[..0]) == cmds
  {
  }

  lemma {:induction false} PipelinedAlong(cfg: Config, limits: Limits, slots: seq<Slot>, ds: seq<Dialogue>, lines: seq<Bytes>,
                                          rest: Bytes, n: nat)
    requires Course(cfg, limits, slots, ds) && n <= |lines| == |slots|
    requires ds[0].feed.session.open && ds[0].feed.input == Crlf(lines) + rest && forall i | 0 <= i < |lines| :: Alone(lines[i])
    ensures ds[n].feed.session.open && ds[n].feed.input == Crlf(lines[n..]) + rest
    ensures ds[n].cmds == ds[0].cmds + CommandsIn(lines[..n])
  {
    if n == 0 {
      NothingPipelined(ds[0].cmds, lines);
    } else {
      PipelinedAlong(cfg, limits, slots, ds, lines, rest, n - 1);
      CrlfFirst(lines, n - 1, rest);
      PipelinedNext(cfg, limits, ds[0], ds[n - 1], slots[n - 1], ds[n], lines[..n - 1], lines[n - 1], Crlf(lines[n..]) + rest);
      PrefixGrows(lines, n);
    }
  }

  lemma PipelinedToEnd(cfg: Config, limits: Limits, slots: seq<Slot>, ds: seq<Dialogue>, lines: seq<Bytes>, rest: Bytes)
    requires Course(cfg, limits, slots, ds) && |lines| == |slots|
    requires ds[0].feed.session.open && ds[0].feed.input == Crlf(lines) + rest && forall i | 0 <= i < |lines| :: Alone(lines[i])
    ensures ds[|lines|].feed.session.open && ds[|lines|].feed.input == rest
    ensures ds[|lines|].cmds == ds[0].cmds + CommandsIn(lines)
  {
    PipelinedAlong(cfg, limits, slots, ds, lines, rest, |lines|);
    assert lines[..|lines|] == lines && lines[|lines|..] == [];
    assert Crlf([]) + rest == rest;
  }

  /** Commands sent in one go are read one by one, in order, and what is behind them stays unread. */
  lemma PipelinedInOrder(cfg: Config, limits: Limits, d: Dialogue, slots: seq<Slot>, lines: seq<Bytes>, rest: Bytes)
    requires Supplied(cfg, slots) && |slots| == |lines| && d.feed.session.open
    requires d.feed.input == Crlf(lines) + rest && forall i | 0 <= i < |lines| :: Alone(lines[i])
    ensures var e := Rounds(cfg, limits, d, slots);
            e.feed.session.open && e.feed.input == rest && e.cmds == d.cmds + CommandsIn(lines)
  {
    var ds := CourseOf(cfg, limits, d, slots);
    PipelinedToEnd(cfg, limits, slots, ds, lines, rest);
  }

  /** The octets of the line that asks for the payload. */
  function DataLine(): Bytes {
    Octets("DATA")
  }

  lemma DataVerb()
    ensures VerbOf("data") == SendsMessage
  {
  }

  lemma DataWords()
    ensures SplitCommand("DATA") == ("data", "")
  {
    TrimSpaceOfTrimmed("DATA");
    assert ' ' !in "DATA";
    CutNowhere("DATA", ' ');
    assert Lower("DATA") == "data";
  }

  lemma DataChars()
    ensures LF !in DataLine() && |DataLine()| == 4 && Chars(DataLine()) == "DATA"
  {
  }

  lemma DataIsAsked(rest: Bytes)
    ensures NextCommand(DataLine() + CRLF + rest) == Some(Heard(SendsMessage, "", rest))
  {
    DataChars();
    DataWords();
    DataVerb();
    LineIsCommand(DataLine(), rest);
  }

  lemma PayloadUnread(cfg: Config, f: Feed, stamp: string, h: Heard)
    requires f.session.inMail && f.session.rcpts != [] && h.verb == SendsMessage
    ensures Unread(cfg, f, h) == PayloadLeft(h.rest)
    ensures CommandOf(h, f.secure.Some?, stamp) == Data(h.rest, stamp)
    ensures NextCommand(f.input) == Some(h) ==> FeedNext(cfg, f, stamp).input == PayloadLeft(h.rest)
  {
  }

  /**
   Behind a payload the next command is what follows the lone dot exactly when every line of it, as it was
   sent, is within the limit. If one is not, the next command is read from inside the payload.
   */
  lemma PayloadIsNoCommandIff(cfg: Config, f: Feed, lines: seq<Bytes>, rest: Bytes, stamp: string)
    requires f.session.open && f.session.inMail && f.session.rcpts != [] && NoLF(lines)
    requires f.input == DataLine() + CRLF + (Multiline(lines) + rest)
    ensures var next := FeedNext(cfg, f, stamp);
            && (next.input == rest <==> Fits(lines, MAX_LINE_BYTES))
            && (!Fits(lines, MAX_LINE_BYTES) ==> |rest| < |next.input| && EndOf(next.input, Multiline(lines) + rest))
  {
    var h := Heard(SendsMessage, "", Multiline(lines) + rest);
    DataIsAsked(h.rest);
    PayloadUnread(cfg, f, stamp, h);
    PayloadLeftIff(lines, rest);
  }

  lemma ReadWhole(lines: seq<Bytes>, behind: Bytes)
    requires NoLF(lines) && Fits(lines, MAX_LINE_BYTES)
    ensures PayloadLeft(Multiline(lines) + behind) == behind
  {
    PayloadLeftIff(lines, behind);
  }

  lemma PayloadRound(cfg: Config, limits: Limits, d: Dialogue, slot: Slot, lines: seq<Bytes>, behind: Bytes)
    requires cfg.routing.defaultMailbox in cfg.names && |cfg.names| <= |slot.tickets|
    requires d.feed.session.open && d.feed.session.inMail && d.feed.session.rcpts != []
    requires d.feed.input == DataLine() + CRLF + (Multiline(lines) + behind)
    requires NoLF(lines) && Fits(lines, MAX_LINE_BYTES)
    ensures var next := Round(cfg, limits, d, slot);
            && next.feed.session.open && next.feed.input == behind
            && next.cmds == d.cmds + [Data(Multiline(lines) + behind, slot.stamp)]
  {
    var h := Heard(SendsMessage, "", Multiline(lines) + behind);
    var c := Data(h.rest, slot.stamp);
    DataIsAsked(h.rest);
    PayloadUnread(cfg, d.feed, slot.stamp, h);
    RoundReads(cfg, limits, d, slot, h, c);
    ReadWhole(lines, behind);
    StaysOpen(cfg, d.feed.session, c);
  }

  lemma PayloadLeads(cfg: Config, limits: Limits, d: Dialogue, slot: Slot, next: Dialogue, lines: seq<Bytes>, behind: Bytes)
    requires Leads(cfg, limits, d, slot, next)
    requires d.feed.session.open && d.feed.session.inMail && d.feed.session.rcpts != []
    requires d.feed.input == DataLine() + CRLF + (Multiline(lines) + behind)
    requires NoLF(lines) && Fits(lines, MAX_LINE_BYTES)
    ensures next.feed.session.open && next.feed.input == behind
    ensures next.cmds == d.cmds + [Data(Multiline(lines) + behind, slot.stamp)]
  {
    assert LeadsAt(cfg, limits, d, slot, next, 0);
    PayloadRound(cfg, limits, d, slot, lines, behind);
  }

  /** DATA, its payload and any commands behind it, all sent in one go. */
  lemma PipelinedBehindPayload(cfg: Config, limits: Limits, d: Dialogue, slots: seq<Slot>, lines: seq<Bytes>,
                               more: seq<Bytes>, rest: Bytes)
    requires Supplied(cfg, slots) && |slots| == 1 + |more|
    requires d.feed.session.open && d.feed.session.inMail && d.feed.session.rcpts != []
    requires d.feed.input == DataLine() + CRLF + (Multiline(lines) + (Crlf(more) + rest))
    requires NoLF(lines) && Fits(lines, MAX_LINE_BYTES) && forall i | 0 <= i < |more| :: Alone(more[i])
    ensures var e, payload := Rounds(cfg, limits, d, slots), Multiline(lines) + (Crlf(more) + rest);
            && e.feed.session.open && e.feed.input == rest
            && e.cmds == d.cmds + [Data(payload, slots[0].stamp)] + CommandsIn(more)
  {
    var ds := CourseOf(cfg, limits, d, slots);
    PayloadLeads(cfg, limits, d, slots[0], ds[1], lines, Crlf(more) + rest);
    PipelinedToEnd(cfg, limits, slots[1..], ds[1..], more, rest);
  }

  /** A line that is over the limit by one octet is given up just before the line behind it. */
  lemma {:induction false} LongLineLeaves(taken: nat, line: Bytes, after: Bytes)
    requires CR !in line && LF !in line && taken + |line| == MAX_LINE_BYTES + 1 && taken % BUFFER_BYTES == 0 && taken <= MAX_LINE_BYTES
    ensures LeftAfter(taken, line + CRLF + after) == after
    decreases |line|
  {
    var input := line + CRLF + after;
    assert input[..|line| + 1] == line + [CR];
    FindLFUnique(input, |line| + 1);
    assert input[|line| + 2..] == after;
    if |line| > 1 {
      assert input[..BUFFER_BYTES] == line[..BUFFER_BYTES];
      assert input[BUFFER_BYTES..] == line[BUFFER_BYTES..] + CRLF + after;
      LongLineLeaves(taken + BUFFER_BYTES, line[BUFFER_BYTES..], after);
    }
  }

  lemma LongLineFirst(line: Bytes, lines: seq<Bytes>, rest: Bytes)
    requires CR !in line && LF !in line && |line| == MAX_LINE_BYTES + 1 && line[0] != DOT
    ensures PayloadLeft(Multiline([line] + lines) + rest) == Multiline(lines) + rest
  {
    assert ([line] + lines)[1..] == lines;
    MultilineCons([line] + lines, rest);
    PayloadLeftOfLine(line, Multiline(lines) + rest);
    LongLineLeaves(0, line, Multiline(lines) + rest);
  }

  /** Behind an over-long line of a payload, a line of it that reads DATA is taken for the command. */
  lemma ReadInsidePayload(cfg: Config, f: Feed, line: Bytes, rest: Bytes, stamp: string)
    requires f.session.open && f.session.inMail && f.session.rcpts != []
    requires line == seq(MAX_LINE_BYTES + 1, _ => 65)
    requires f.input == DataLine() + CRLF + (Multiline([line] + [DataLine()]) + rest)
    ensures NextCommand(FeedNext(cfg, f, stamp).input) == Some(Heard(SendsMessage, "", Multiline([]) + rest))
  {
    var sent := Multiline([line] + [DataLine()]) + rest;
    DataIsAsked(sent);
    PayloadUnread(cfg, f, stamp, Heard(SendsMessage, "", sent));
    LongLineFirst(line, [DataLine()], rest);
    DataIsPlain();
    MultilineCons([DataLine()], rest);
    assert [DataLine()][1..] == [];
    DataIsAsked(Multiline([]) + rest);
  }

  lemma DataIsPlain()
    ensures Stuffed(DataLine()) == DataLine()
  {
  }

  /** What came in plain behind STARTTLS is never read. */
  lemma NothingSmuggledIntoTLS(cfg: Config, f: Feed, other: Bytes, stamp: string)
    requires cfg.tlsAvailable && !f.session.tls && f.secure.Some?
    requires NextCommand(f.input).Some? && NextCommand(f.input).value.verb == Secures
    requires NextCommand(other).Some? && NextCommand(other).value.verb == Secures
    ensures FeedNext(cfg, f, stamp) == FeedNext(cfg, f.(input := other), stamp)
    ensures FeedNext(cfg, f, stamp).input == f.secure.value
  {
  }

  // ---------------------------------------------------------------------------
  // The loop ends
  // ---------------------------------------------------------------------------

  /** The octets that can still be read. */
  function Ahead(f: Feed): nat {
    |f.input| + if !f.session.tls && f.secure.Some? then |f.secure.value| else 0
  }

  lemma AttemptLeftIsLess(args: string, input: Bytes)
    ensures |AttemptLeft(args, input)| <= |input|
  {
    LeftIsEnd(0, input, LeftAfter(0, input));
    LeftIsEnd(0, LeftAfter(0, input), LeftAfter(0, LeftAfter(0, input)));
  }

  lemma {:induction false} PayloadLeftIsLess(input: Bytes)
    ensures |PayloadLeft(input)| <= |input|
    decreases |input|
  {
    match ReadLine(input, MAX_LINE_BYTES)
    case Line(line, rest) =>
      if line != [DOT] {
        PayloadLeftIsLess(rest);
      }
    case TooLong => LeftIsEnd(0, input, LeftAfter(0, input));
    case Truncated => LeftIsEnd(0, input, LeftAfter(0, input));
  }

  /** TLS never ends, and it starts with STARTTLS only. */
  lemma TLSStays(cfg: Config, s: Session, c: Command)
    ensures s.tls ==> Step(cfg, s, c).session.tls
    ensures Step(cfg, s, c).session.open && c.StartTLS? && c.handshake && cfg.tlsAvailable ==> Step(cfg, s, c).session.tls
  {
  }

  lemma CommandIsStartTLS(h: Heard, handshake: bool, stamp: string)
    ensures h.verb == Secures ==> CommandOf(h, handshake, stamp) == StartTLS(handshake)
  {
  }

  lemma UnreadIsLess(cfg: Config, f: Feed, h: Heard)
    ensures |Unread(cfg, f, h)| <= |h.rest|
            || (h.verb == Secures && cfg.tlsAvailable && !f.session.tls && f.secure == Some(Unread(cfg, f, h)))
  {
    AttemptLeftIsLess(h.args, h.rest);
    PayloadLeftIsLess(h.rest);
  }

  lemma CommandIsRead(input: Bytes)
    ensures NextCommand(input).Some? ==> |NextCommand(input).value.rest| < |input|
  {
    LeftOfLine(input);
  }

  lemma EachRoundReads(cfg: Config, f: Feed, stamp: string)
    requires FeedNext(cfg, f, stamp).session.open
    ensures Ahead(FeedNext(cfg, f, stamp)) < Ahead(f)
  {
    var h := NextCommand(f.input).value;
    var c := CommandOf(h, f.secure.Some?, stamp);
    CommandIsRead(f.input);
    CommandIsStartTLS(h, f.secure.Some?, stamp);
    UnreadIsLess(cfg, f, h);
    TLSStays(cfg, f.session, c);
  }

  /** A session is over, at the latest, when there are no octets left. */
  lemma {:induction false} SessionEnds(cfg: Config, limits: Limits, d: Dialogue, slots: seq<Slot>)
    requires Supplied(cfg, slots)
    ensures var e := Rounds(cfg, limits, d, slots);
            e.feed.session.open ==> |slots| + Ahead(e.feed) <= Ahead(d.feed)
  {
    if slots != [] {
      var last := |slots| - 1;
      SuppliedInit(cfg, limits, d, slots);
      SessionEnds(cfg, limits, d, slots[..last]);
      var before := Rounds(cfg, limits, d, slots[..last]);
      if before.feed.session.open && FeedNext(cfg, before.feed, slots[last].stamp).session.open {
        EachRoundReads(cfg, before.feed, slots[last].stamp);
      }
    }
  }
}

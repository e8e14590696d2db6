/** The SMTP handlers as they run, tied to the turns of the value-level session. */
module SmtpServer {
  import opened Bytes
  import opened Text
  import opened Wire
  import opened Chunks
  import opened WireIO
  import opened Auth
  import opened Routing
  import opened StoreModel
  import opened Stores
  import opened Running
  import S = Smtp
  import D = SmtpDelivery
  import T = SmtpStream

  /** What the store and the reply are after one delivery. */
  ghost predicate Settles(s: State, limits: Limits, op: Op, t: State, code: nat)
    requires op.Deliver?
  {
    && t == Apply(s, limits, op)
    && code == if |op.raw| > limits.maxSize then 552 else if op.mailbox !in s.boxes then 451 else 250
  }

  /** Storing one copy, with everything the store then reaches. */
  method DeliverNext(store: Store, op: Op, ghost t: State, ghost c: nat, ghost start: set<object>)
    returns (code: nat, ghost reach: set<object>)
    requires store.Open() && start == Reach(store)
    requires op.Deliver? && op.id !in store.state.byID
    requires Settles(store.state, store.limits, op, t, c)
    modifies Reach(store)
    ensures store.Open() && store.state == t && code == c
    ensures reach == Reach(store) && fresh(reach - start)
  {
    var r := store.Deliver(op);
    ReachGrows(store);
    reach := Reach(store);
    code := if r.Ok? then 250 else if r.error == TooLarge then 552 else 451;
  }

  lemma TicketsStayFresh(s: State, limits: Limits, op: Op, tickets: seq<D.Ticket>)
    requires tickets != [] && D.FreshTickets(s, tickets) && op.Deliver? && op.id == tickets[0].id
    ensures D.FreshTickets(Apply(s, limits, op), tickets[1..])
  {
    var rest := tickets[1..];
    assert forall i | 0 <= i < |rest| :: rest[i] == tickets[i + 1];
    assert Apply(s, limits, op).byID.Keys <= s.byID.Keys + {op.id};
  }

  /** One mailbox after another, until all have their copy or one is refused. */
  method DeliverEach(store: Store, h: S.Handover, names: seq<string>, tickets: seq<D.Ticket>, ghost start: set<object>)
    returns (code: nat, ghost reach: set<object>)
    requires store.Open() && start == Reach(store)
    requires |names| <= |tickets| && D.FreshTickets(store.state, tickets)
    modifies Reach(store)
    ensures store.Open()
    ensures (store.state, code) == D.DeliverEach(old(store.state), store.limits, h, names, tickets)
    ensures reach == Reach(store) && fresh(reach - start)
    decreases |names|, 1
  {
    if names == [] {
      return 250, start;
    }
    var op := D.Delivery(h, names[0], tickets[0]);
    D.FirstDecides(store.state, store.limits, h, names, tickets);
    TicketsStayFresh(store.state, store.limits, op, tickets);
    ghost var t := Apply(store.state, store.limits, op);
    ghost var c := if |h.body| > store.limits.maxSize then 552 else if names[0] !in store.state.boxes then 451 else 250;
    ghost var result := D.DeliverEach(store.state, store.limits, h, names, tickets);
    code, reach := DeliverFirst(store, op, h, names[1..], tickets[1..], t, c, result, start);
  }

  method DeliverFirst(store: Store, op: Op, h: S.Handover, names: seq<string>, tickets: seq<D.Ticket>,
                      ghost t: State, ghost c: nat, ghost result: (State, nat), ghost start: set<object>)
    returns (code: nat, ghost reach: set<object>)
    requires store.Open() && start == Reach(store)
    requires op.Deliver? && op.id !in store.state.byID
    requires Settles(store.state, store.limits, op, t, c)
    requires |names| <= |tickets| && D.FreshTickets(t, tickets)
    requires result == if c == 250 then D.DeliverEach(t, store.limits, h, names, tickets) else (t, c)
    modifies Reach(store)
    ensures store.Open() && store.state == result.0 && code == result.1
    ensures reach == Reach(store) && fresh(reach - start)
    decreases |names|, 2
  {
    ghost var mid;
    var first, rest;
    first, mid := DeliverNext(store, op, t, c, start);
    rest, reach := DeliverEach(store, h, if first == 250 then names else [], tickets, mid);
    code := if first == 250 then rest else first;
    assert fresh(mid - start) && fresh(reach - mid);
  }

  class Conversation {
    const cfg: S.Config
    const store: Store
    const remote: string
    /** What the client sends, and what it sends under TLS if the handshake succeeds. */
    const source: LineSource
    const secure: Option<Bytes>
    var helo: string
    var tls: bool
    var authenticated: bool
    var username: string
    var from: string
    var rcpts: seq<string>
    var inMail: bool

    constructor (cfg: S.Config, store: Store, remote: string, tls: bool, source: LineSource, secure: Option<Bytes>)
      ensures this.cfg == cfg && this.store == store && this.source == source && this.secure == secure
      ensures Value() == S.NewSession(remote, tls)
    {
      this.cfg, this.store, this.remote, this.tls, this.source, this.secure := cfg, store, remote, tls, source, secure;
      helo, authenticated, username, from, rcpts, inMail := "", false, "", "", [], false;
    }

    function Value(): S.Session
      reads this
    {
      S.Session(remote, helo, tls, authenticated, username, from, rcpts, inMail, true)
    }

    method ResetTransaction()
      modifies this
      ensures Value() == S.ResetTransaction(old(Value()))
    {
      from, rcpts, inMail := "", [], false;
    }

    method HandleEhlo(args: string) returns (code: nat)
      modifies this
      ensures S.Reply(Value(), code) == S.HelloTurn(old(Value()), args)
    {
      helo := TrimSpace(args);
      if helo == "" {
        return 501;
      }
      ResetTransaction();
      return 250;
    }

    /** A good handshake is followed by a stream of its own; `open` is false when it fails. */
    method HandleStartTLS() returns (code: nat, open: bool)
      modifies this, source
      ensures S.Reply(Value().(open := open), code) == S.StartTLSTurn(cfg, old(Value()), secure.Some?)
      ensures source.input == if cfg.tlsAvailable && !old(tls) && secure.Some? then secure.value else old(source.input)
    {
      if !cfg.tlsAvailable {
        return 454, true;
      }
      if tls {
        return 503, true;
      }
      if secure.None? {
        return 220, false;
      }
      source.SwitchTo(secure.value);
      tls, helo, authenticated, username := true, "", false, "";
      ResetTransaction();
      return 220, true;
    }

    method FinishAuth(username: string, password: string) returns (code: nat)
      requires !cfg.auth.AuthDisabled? && !authenticated
      modifies this
      ensures S.Reply(Value(), code) == S.AuthTurn(cfg, old(Value()), Login(username, password))
    {
      if !CredentialsValid(cfg.username, cfg.password, username, password) {
        return 535;
      }
      authenticated, this.username := true, username;
      return 235;
    }

    /** The client's next line, trimmed; None is an error. */
    method ReadAnswer() returns (answer: Option<string>)
      modifies source
      ensures answer == Answer(old(source.input)) && source.input == LeftAfter(0, old(source.input))
    {
      var line := source.NextLine();
      answer := if line.None? then None else Some(TrimSpace(Chars(line.value)));
    }

    /** The mechanism, the prompts and the decoding. */
    method Negotiate(args: string) returns (attempt: Attempt)
      modifies source
      ensures attempt == AttemptOf(args, old(source.input)) && source.input == AttemptLeft(args, old(source.input))
    {
      var words := SplitCommand(args);
      if words.0 == "plain" {
        var token := Some(words.1);
        if words.1 == "" {
          token := ReadAnswer();
        }
        return if token.None? then NoAnswer else PlainAttempt(token.value);
      }
      if words.0 == "login" {
        var username := Some(words.1);
        if words.1 == "" {
          username := ReadAnswer();
        }
        if username.None? {
          return NoAnswer;
        }
        var password := ReadAnswer();
        return if password.None? then NoAnswer else LoginAttempt(username.value, password.value);
      }
      return Unusable(504);
    }

    method HandleAuth(args: string) returns (code: Option<nat>)
      modifies this, source
      ensures S.Turn(Value(), code, None) == S.AuthTurn(cfg, old(Value()), AttemptOf(args, old(source.input)))
      ensures source.input == if cfg.auth.AuthDisabled? || old(authenticated) then old(source.input)
                              else AttemptLeft(args, old(source.input))
    {
      if cfg.auth.AuthDisabled? {
        return Some(502);
      }
      if authenticated {
        return Some(503);
      }
      var attempt := Negotiate(args);
      match attempt
      case NoAnswer => return None;
      case Unusable(code) => return Some(code);
      case Login(username, password) =>
        var c := FinishAuth(username, password);
        return Some(c);
    }

    method HandleMail(args: string) returns (code: nat)
      modifies this
      ensures S.Reply(Value(), code) == S.MailTurn(cfg, old(Value()), args)
    {
      if helo == "" {
        return 503;
      }
      if cfg.auth.AuthRequired? && !authenticated {
        return 530;
      }
      if inMail {
        return 503;
      }
      var rest := S.CutPrefixFold(args, "FROM:");
      if rest.None? {
        return 501;
      }
      var path := S.ParsePath(rest.value);
      if path.None? {
        return 501;
      }
      var declared := S.DeclaredSize(path.value.1);
      if declared.Some? && declared.value > cfg.maxSize {
        return 552;
      }
      from, inMail := path.value.0, true;
      return 250;
    }

    method HandleRcpt(args: string) returns (code: nat)
      modifies this
      ensures S.Reply(Value(), code) == S.RcptTurn(cfg, old(Value()), args)
    {
      if !inMail {
        return 503;
      }
      var rest := S.CutPrefixFold(args, "TO:");
      if rest.None? {
        return 501;
      }
      var path := S.ParsePath(rest.value);
      if path.None? {
        return 501;
      }
      if path.value.0 == "" {
        return 501;
      }
      if |rcpts| >= cfg.RecipientLimit() {
        return 452;
      }
      rcpts := rcpts + [path.value.0];
      return 250;
    }

    /** Header, routes, user name, default. */
    method ResolveFor(body: Bytes) returns (mailboxes: seq<string>)
      ensures mailboxes == ResolveMailboxes(cfg.routing, username, body, rcpts, cfg.names)
    {
      var picked := ByHeader(cfg.routing, body, cfg.names);
      if picked.Some? {
        return [picked.value];
      }
      var matched := MatchRoutes(cfg.routing.routes, rcpts, cfg.names);
      if |matched| > 0 {
        return matched;
      }
      var own := ByUser(cfg.routing, username, cfg.names);
      if own.Some? {
        return [own.value];
      }
      return [cfg.routing.defaultMailbox];
    }

    /** The trace header goes on top, if it is on. */
    method Traced(body: Bytes, stamp: string) returns (traced: Bytes)
      ensures traced == Crlf(S.Trace(cfg, Value(), stamp)) + body
    {
      if cfg.addReceived {
        return Crlf(S.TraceLines(cfg, Value(), stamp)) + body;
      }
      assert Crlf([]) + body == body;
      return body;
    }

    /** DATA up to the moment the store gets the message. */
    method TakeMessage(stamp: string) returns (code: Option<nat>, handover: Option<S.Handover>)
      modifies this, source
      ensures S.Turn(Value(), code, handover) == S.DataTurn(cfg, old(Value()), old(source.input), stamp)
      ensures source.input == if !old(inMail) || old(rcpts) == [] then old(source.input) else PayloadLeft(old(source.input))
    {
      if !inMail {
        return Some(503), None;
      }
      if |rcpts| == 0 {
        return Some(503), None;
      }
      var body, tooLarge, ok := source.ReadData(cfg.maxSize);
      if !ok {
        return None, None;
      }
      if tooLarge {
        ResetTransaction();
        return Some(552), None;
      }
      var mailboxes := ResolveFor(body);
      var envelope := S.EnvelopeOf(Value());
      body := Traced(body, stamp);
      ResetTransaction();
      return None, Some(S.Handover(mailboxes, envelope, body));
    }

    /** The store does not reach a conversation: its objects are of other classes. */
    lemma NotReached()
      requires store.Sound()
      ensures this !in Reach(store) && source !in Reach(store)
    {
    }

    /** Taking the message leaves the store as it is. */
    method TakeBeside(stamp: string) returns (code: Option<nat>, handover: Option<S.Handover>)
      requires store.Open()
      modifies this, source
      ensures store.Open() && store.SameShape() && Reach(store) == old(Reach(store))
      ensures S.Turn(Value(), code, handover) == S.DataTurn(cfg, old(Value()), old(source.input), stamp)
      ensures source.input == if !old(inMail) || old(rcpts) == [] then old(source.input) else PayloadLeft(old(source.input))
    {
      code, handover := TakeMessage(stamp);
      store.StillOpen();
      ReachKept(store);
    }

    /** What has been taken goes to the store; without anything to hand over the reply stands. */
    method Settle(handover: Option<S.Handover>, reply: Option<nat>, tickets: seq<D.Ticket>, ghost start: set<object>,
                  ghost want: (State, Option<nat>))
      returns (code: Option<nat>, ghost reach: set<object>)
      requires store.Open() && start == Reach(store)
      requires handover.Some? ==>
                 && |handover.value.mailboxes| <= |tickets| && D.FreshTickets(store.state, tickets)
                 && var d := D.DeliverEach(store.state, store.limits, handover.value, handover.value.mailboxes, tickets);
                    want == (d.0, Some(d.1))
      requires handover.None? ==> want == (store.state, reply)
      modifies Reach(store)
      ensures store.Open() && reach == Reach(store) && fresh(reach - start)
      ensures (store.state, code) == want
    {
      if handover.None? {
        return reply, start;
      }
      var c;
      c, reach := DeliverEach(store, handover.value, handover.value.mailboxes, tickets, start);
      code := Some(c);
    }

    /** The whole of DATA: what the client is told and what the store then holds. */
    method HandleData(stamp: string, tickets: seq<D.Ticket>, ghost stream: Bytes, ghost s: S.Session, ghost want: (State, Option<nat>),
                      ghost start: set<object>)
      returns (code: Option<nat>, ghost reach: set<object>)
      requires store.Open() && start == Reach(store) && stream == source.input && s == Value()
      requires cfg.routing.defaultMailbox in cfg.names
      requires |cfg.names| <= |tickets| && D.FreshTickets(store.state, tickets)
      requires want == D.Outcome(cfg, s, store.state, store.limits, S.Data(stream, stamp), tickets)
      modifies this, source, Reach(store)
      ensures store.Open() && reach == Reach(store) && fresh(reach - start)
      ensures Value() == S.DataTurn(cfg, s, stream, stamp).session && (store.state, code) == want
      ensures source.input == if !s.inMail || s.rcpts == [] then stream else PayloadLeft(stream)
    {
      NotReached();
      ghost var t := S.DataTurn(cfg, s, stream, stamp);
      D.OutcomeOfData(cfg, s, store.state, store.limits, stream, stamp, tickets);
      var handover;
      code, handover := TakeBeside(stamp);
      assert Value() == t.session;
      code, reach := Settle(handover, code, tickets, start, want);
    }

    /** Every command but STARTTLS, AUTH and DATA; `open` is false when the loop over the commands ends. */
    method HandleOther(verb: T.Verb, args: string, ghost c: S.Command) returns (open: bool, code: Option<nat>)
      requires !verb.Secures? && !verb.LogsIn? && !verb.SendsMessage?
      requires c == T.CommandOf(T.Heard(verb, args, []), false, "")
      modifies this
      ensures S.Turn(Value().(open := open), code, None) == S.Step(cfg, old(Value()), c)
    {
      open := true;
      var reply;
      match verb {
        case Greets => reply := HandleEhlo(args);
        case GivesSender => reply := HandleMail(args);
        case GivesRecipient => reply := HandleRcpt(args);
        case Resets =>
          ResetTransaction();
          reply := 250;
        case Quits => reply, open := 221, false;
        case Answered(other) => reply := other;
      }
      code := Some(reply);
    }

    /** Every command but DATA. */
    method HandleVerb(verb: T.Verb, args: string, ghost f: T.Feed, ghost h: T.Heard, ghost c: S.Command)
      returns (open: bool, code: Option<nat>)
      requires !verb.SendsMessage? && h == T.Heard(verb, args, source.input) && c == T.CommandOf(h, secure.Some?, "")
      requires f.session == Value() && f.secure == secure
      modifies this, source
      ensures S.Turn(Value().(open := open), code, None) == S.Step(cfg, f.session, c)
      ensures source.input == T.Unread(cfg, f, h)
    {
      open := true;
      if verb.Secures? {
        var reply;
        reply, open := HandleStartTLS();
        code := Some(reply);
      } else if verb.LogsIn? {
        code := HandleAuth(args);
      } else {
        open, code := HandleOther(verb, args, c);
      }
    }

    method HandleBeside(verb: T.Verb, args: string, ghost f: T.Feed, ghost h: T.Heard, ghost c: S.Command)
      returns (open: bool, code: Option<nat>)
      requires store.Open()
      requires !verb.SendsMessage? && h == T.Heard(verb, args, source.input) && c == T.CommandOf(h, secure.Some?, "")
      requires f.session == Value() && f.secure == secure
      modifies this, source
      ensures store.Open() && store.SameShape() && Reach(store) == old(Reach(store))
      ensures S.Turn(Value().(open := open), code, None) == S.Step(cfg, f.session, c)
      ensures source.input == T.Unread(cfg, f, h)
    {
      open, code := HandleVerb(verb, args, f, h, c);
      store.StillOpen();
      ReachKept(store);
    }

    /** A command that has been read: the session, what is left unread, the store and the reply. */
    method Obey(verb: T.Verb, args: string, slot: T.Slot, ghost f: T.Feed, ghost h: T.Heard, ghost c: S.Command,
                ghost want: (State, Option<nat>), ghost start: set<object>)
      returns (open: bool, code: Option<nat>, ghost reach: set<object>)
      requires store.Open() && start == Reach(store)
      requires h == T.Heard(verb, args, source.input) && c == T.CommandOf(h, secure.Some?, slot.stamp)
      requires f.session == Value() && f.secure == secure
      requires cfg.routing.defaultMailbox in cfg.names
      requires |cfg.names| <= |slot.tickets| && D.FreshTickets(store.state, slot.tickets)
      requires want == D.Outcome(cfg, f.session, store.state, store.limits, c, slot.tickets)
      modifies this, source, Reach(store)
      ensures store.Open() && reach == Reach(store) && fresh(reach - start)
      ensures Value().(open := open) == S.Step(cfg, f.session, c).session && (store.state, code) == want
      ensures source.input == T.Unread(cfg, f, h)
    {
      reach, open := start, true;
      if verb.SendsMessage? {
        code, reach := HandleData(slot.stamp, slot.tickets, h.rest, f.session, want, start);
      } else {
        open, code := HandleBeside(verb, args, f, h, c);
      }
    }

    method ReadBeside() returns (line: Option<Bytes>)
      requires store.Open()
      modifies source
      ensures store.Open() && store.SameShape() && Reach(store) == old(Reach(store)) && store.state == old(store.state)
      ensures line == LineOf(old(source.input)) && source.input == LeftAfter(0, old(source.input))
    {
      line := source.NextLine();
      store.StillOpen();
      ReachKept(store);
    }

    /** The conversation is where the dialogue is. */
    ghost predicate Stands(open: bool, d: T.Dialogue)
      reads this, source, store
    {
      && Value().(open := open) == d.feed.session && source.input == d.feed.input && secure == d.feed.secure
      && store.state == d.store
    }

    /** What is left of a round when its line has been read. */
    method Respond(line: Bytes, slot: T.Slot, ghost d: T.Dialogue, ghost e: T.Dialogue, ghost start: set<object>)
      returns (open: bool, replies: seq<Option<nat>>, ghost reach: set<object>)
      requires store.Open() && start == Reach(store)
      requires Value() == d.feed.session && secure == d.feed.secure && store.state == d.store
      requires LineOf(d.feed.input) == Some(line) && source.input == LeftAfter(0, d.feed.input)
      requires cfg.routing.defaultMailbox in cfg.names
      requires |cfg.names| <= |slot.tickets| && D.FreshTickets(store.state, slot.tickets)
      requires e == T.Round(cfg, store.limits, d, slot)
      modifies this, source, Reach(store)
      ensures store.Open() && reach == Reach(store) && fresh(reach - start)
      ensures Stands(open, e) && e.replies == d.replies + replies
    {
      var words := SplitCommand(Chars(line));
      ghost var h := T.Heard(T.VerbOf(words.0), words.1, source.input);
      ghost var c := T.CommandOf(h, secure.Some?, slot.stamp);
      ghost var want := D.Outcome(cfg, d.feed.session, store.state, store.limits, c, slot.tickets);
      var code;
      open, code, reach := Obey(T.VerbOf(words.0), words.1, slot, d.feed, h, c, want, start);
      replies := [code];
    }

    /** One round of the loop; without a line the session is over and nothing is answered. */
    method Round(slot: T.Slot, ghost d: T.Dialogue, ghost e: T.Dialogue, ghost start: set<object>)
      returns (open: bool, replies: seq<Option<nat>>, ghost reach: set<object>)
      requires store.Open() && start == Reach(store) && Stands(true, d)
      requires cfg.routing.defaultMailbox in cfg.names
      requires |cfg.names| <= |slot.tickets| && D.FreshTickets(store.state, slot.tickets)
      requires e == T.Round(cfg, store.limits, d, slot)
      modifies this, source, Reach(store)
      ensures store.Open() && reach == Reach(store) && fresh(reach - start)
      ensures Stands(open, e) && e.replies == d.replies + replies
    {
      NotReached();
      var line := ReadBeside();
      if line.None? {
        return false, [], start;
      }
      open, replies, reach := Respond(line.value, slot, d, e, start);
    }

    /** After `i` rounds of those that begin with `d`. */
    ghost predicate Reached(slots: seq<T.Slot>, i: nat, d: T.Dialogue, open: bool, replies: seq<Option<nat>>)
      reads this, source, store
    {
      && T.Supplied(cfg, slots) && i <= |slots|
      && Stands(open, T.Rounds(cfg, store.limits, d, slots[..i]))
      && replies == T.Rounds(cfg, store.limits, d, slots[..i]).replies
    }

    method RoundAt(slots: seq<T.Slot>, i: nat, told: seq<Option<nat>>, ghost d: T.Dialogue, ghost start: set<object>)
      returns (open: bool, replies: seq<Option<nat>>, ghost reach: set<object>)
      requires store.Open() && start == Reach(store) && i < |slots| && Reached(slots, i, d, true, told)
      requires T.FreshSlots(cfg, store.limits, d, slots)
      modifies this, source, Reach(store)
      ensures store.Open() && reach == Reach(store) && fresh(reach - start)
      ensures Reached(slots, i + 1, d, open, replies)
    {
      T.NextRound(cfg, store.limits, d, slots, i);
      ghost var e, next := T.Rounds(cfg, store.limits, d, slots[..i]), T.Rounds(cfg, store.limits, d, slots[..i + 1]);
      open, replies, reach := Round(slots[i], e, next, start);
      replies := told + replies;
    }

    /** The loop over the commands of a stream, as far as there are slots: until a command or an error ends it. */
    method Converse(slots: seq<T.Slot>, ghost d: T.Dialogue, ghost start: set<object>)
      returns (open: bool, replies: seq<Option<nat>>, ghost reach: set<object>)
      requires store.Open() && start == Reach(store) && Stands(true, d) && d.replies == []
      requires T.Supplied(cfg, slots) && T.FreshSlots(cfg, store.limits, d, slots)
      modifies this, source, Reach(store)
      ensures store.Open() && reach == Reach(store) && fresh(reach - start)
      ensures Stands(open, T.Rounds(cfg, store.limits, d, slots))
      ensures replies == T.Rounds(cfg, store.limits, d, slots).replies
    {
      open, replies, reach := true, [], start;
      var i := 0;
      while i < |slots| && open
        invariant Reached(slots, i, d, open, replies)
        invariant store.Open() && reach == Reach(store) && fresh(reach - start)
      {
        open, replies, reach := RoundAt(slots, i, replies, d, reach);
        i := i + 1;
      }
      AllReached(slots, i, d, open, replies);
    }

    lemma AllReached(slots: seq<T.Slot>, i: nat, d: T.Dialogue, open: bool, replies: seq<Option<nat>>)
      requires Reached(slots, i, d, open, replies) && (i == |slots| || !open)
      ensures Stands(open, T.Rounds(cfg, store.limits, d, slots))
      ensures replies == T.Rounds(cfg, store.limits, d, slots).replies
    {
      if open {
        assert slots[..i] == slots;
      } else {
        T.NothingAfterTheEnd(cfg, store.limits, d, slots, i);
      }
    }
  }
}

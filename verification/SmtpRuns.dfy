/**
 What a message carries, read off the dialogue alone: commands and reply codes, without
 looking into the session.
 */
module SmtpRuns {
  import opened Bytes
  import opened Text
  import opened Wire
  import opened Auth
  import opened Routing
  import opened StoreModel
  import opened Smtp

  // ---------------------------------------------------------------------------
  // Reading a dialogue
  // ---------------------------------------------------------------------------

  predicate AcceptedMail(x: Exchange) {
    x.command.Mail? && x.code == Some(250)
  }

  predicate AcceptedRcpt(x: Exchange) {
    x.command.Rcpt? && x.code == Some(250)
  }

  function AddressIn(args: string, keyword: string): string {
    match CutPrefixFold(args, keyword)
    case None => ""
    case Some(rest) => if ParsePath(rest).Some? then ParsePath(rest).value.0 else ""
  }

  /** The recipients accepted in a stretch of dialogue, in order. */
  function Recipients(xs: seq<Exchange>): seq<string> {
    if xs == [] then []
    else
      var x := xs[|xs| - 1];
      Recipients(xs[..|xs| - 1]) + if AcceptedRcpt(x) then [AddressIn(x.command.args, "TO:")] else []
  }

  predicate StartedTLS(x: Exchange) {
    x.command.StartTLS? && x.command.handshake && x.code == Some(220)
  }

  predicate LoggedIn(x: Exchange) {
    x.command.Auth? && x.command.attempt.Login? && x.code == Some(235)
  }

  /** RSET, an accepted HELO or EHLO, a TLS start, or a payload read to its end. */
  predicate Ends(x: Exchange) {
    || x.command.Rset?
    || (x.command.Hello? && x.code == Some(250))
    || StartedTLS(x)
    || (x.command.Data? && (x.code == Some(552) || x.handover.Some?))
  }

  /** The last accepted MAIL is exchange `i`, nothing has ended it, and these were accepted since. */
  ghost predicate OpenSince(xs: seq<Exchange>, i: nat, from: string, rcpts: seq<string>) {
    && i < |xs|
    && AcceptedMail(xs[i]) && from == AddressIn(xs[i].command.args, "FROM:")
    && (forall j | i < j < |xs| :: !Ends(xs[j]) && !AcceptedMail(xs[j]))
    && rcpts == Recipients(xs[i + 1..])
  }

  ghost predicate NothingOpen(xs: seq<Exchange>) {
    forall i | 0 <= i < |xs| && AcceptedMail(xs[i]) :: exists j :: i < j < |xs| && Ends(xs[j])
  }

  /** Exchange `a` is a successful login as `username`, and TLS has not started since. */
  ghost predicate LoggedInSince(xs: seq<Exchange>, a: nat, username: string) {
    && a < |xs| && LoggedIn(xs[a]) && username == xs[a].command.attempt.username
    && forall j | a < j < |xs| :: !StartedTLS(xs[j])
  }

  ghost predicate NobodyLoggedIn(xs: seq<Exchange>) {
    forall a | 0 <= a < |xs| && LoggedIn(xs[a]) :: exists j :: a < j < |xs| && StartedTLS(xs[j])
  }

  ghost predicate TLSIn(xs: seq<Exchange>) {
    exists j :: 0 <= j < |xs| && StartedTLS(xs[j])
  }

  // ---------------------------------------------------------------------------
  // The session is what the dialogue says
  // ---------------------------------------------------------------------------

  ghost predicate TransactionShown(cfg: Config, xs: seq<Exchange>, s: Session) {
    && (if s.inMail then exists i :: OpenSince(xs, i, s.from, s.rcpts)
        else NothingOpen(xs) && s.from == "" && s.rcpts == [])
    && |s.rcpts| <= cfg.RecipientLimit()
    && (s.inMail && cfg.auth.AuthRequired? ==> s.authenticated)
  }

  ghost predicate LoginShown(tls: bool, xs: seq<Exchange>, s: Session) {
    && (if s.authenticated then exists a :: LoggedInSince(xs, a, s.username)
        else NobodyLoggedIn(xs) && s.username == "")
    && (s.tls <==> tls || TLSIn(xs))
  }

  /** Exchange `g` is an accepted greeting, and there was no other and no TLS start since. */
  ghost predicate GreetedSince(xs: seq<Exchange>, g: nat) {
    && g < |xs| && xs[g].command.Hello? && xs[g].code == Some(250)
    && forall j | g < j < |xs| :: !xs[j].command.Hello? && !StartedTLS(xs[j])
  }

  ghost predicate Greeted(xs: seq<Exchange>) {
    exists g :: GreetedSince(xs, g)
  }

  ghost predicate Shown(cfg: Config, tls: bool, xs: seq<Exchange>, s: Session) {
    TransactionShown(cfg, xs, s) && LoginShown(tls, xs, s) && (s.helo != "" <==> Greeted(xs))
  }

  lemma RecipientsNext(xs: seq<Exchange>, x: Exchange, i: nat)
    requires i < |xs|
    ensures Recipients((xs + [x])[i + 1..])
            == Recipients(xs[i + 1..]) + if AcceptedRcpt(x) then [AddressIn(x.command.args, "TO:")] else []
  {
    assert (xs + [x])[i + 1..] == xs[i + 1..] + [x];
    assert (xs[i + 1..] + [x])[..|xs[i + 1..]|] == xs[i + 1..];
  }

  /** An exchange that neither opens nor ends a transaction. */
  lemma StaysOpen(xs: seq<Exchange>, x: Exchange, i: nat, from: string, rcpts: seq<string>)
    requires OpenSince(xs, i, from, rcpts) && !Ends(x) && !AcceptedMail(x)
    ensures OpenSince(xs + [x], i, from,
                      rcpts + if AcceptedRcpt(x) then [AddressIn(x.command.args, "TO:")] else [])
  {
    RecipientsNext(xs, x, i);
  }

  lemma StaysClosed(xs: seq<Exchange>, x: Exchange)
    requires NothingOpen(xs) && !AcceptedMail(x)
    ensures NothingOpen(xs + [x])
  {
    var ys := xs + [x];
    forall i | 0 <= i < |ys| && AcceptedMail(ys[i]) ensures exists j :: i < j < |ys| && Ends(ys[j]) {
      assert AcceptedMail(xs[i]);
      var j :| i < j < |xs| && Ends(xs[j]);
      assert ys[j] == xs[j];
    }
  }

  lemma EndCloses(xs: seq<Exchange>, x: Exchange)
    requires Ends(x)
    ensures NothingOpen(xs + [x])
  {
    var ys := xs + [x];
    assert Ends(ys[|xs|]);
  }

  lemma MailOpens(xs: seq<Exchange>, x: Exchange)
    requires AcceptedMail(x)
    ensures OpenSince(xs + [x], |xs|, AddressIn(x.command.args, "FROM:"), [])
  {
    assert (xs + [x])[|xs| + 1..] == [];
  }

  lemma LoginStays(xs: seq<Exchange>, x: Exchange, a: nat, username: string)
    requires LoggedInSince(xs, a, username) && !StartedTLS(x)
    ensures LoggedInSince(xs + [x], a, username)
  {
  }

  lemma NobodyStays(xs: seq<Exchange>, x: Exchange)
    requires NobodyLoggedIn(xs) && !LoggedIn(x)
    ensures NobodyLoggedIn(xs + [x])
  {
    var ys := xs + [x];
    forall a | 0 <= a < |ys| && LoggedIn(ys[a]) ensures exists j :: a < j < |ys| && StartedTLS(ys[j]) {
      assert LoggedIn(xs[a]);
      var j :| a < j < |xs| && StartedTLS(xs[j]);
      assert ys[j] == xs[j];
    }
  }

  lemma TLSNext(xs: seq<Exchange>, x: Exchange)
    ensures TLSIn(xs + [x]) <==> TLSIn(xs) || StartedTLS(x)
  {
    var ys := xs + [x];
    assert ys[|xs|] == x;
    if TLSIn(xs) {
      var j :| 0 <= j < |xs| && StartedTLS(xs[j]);
      assert ys[j] == xs[j];
    }
  }

  /** How an exchange takes login and TLS from one session to the next. */
  ghost predicate Identifies(s: Session, x: Exchange, t: Session) {
    && (t.tls <==> s.tls || StartedTLS(x))
    && (StartedTLS(x) ==> !LoggedIn(x) && !t.authenticated && t.username == "")
    && (LoggedIn(x) ==> t.authenticated && t.username == x.command.attempt.username)
    && (!StartedTLS(x) && !LoggedIn(x) ==> t.authenticated == s.authenticated && t.username == s.username)
  }

  lemma AuthIdentifies(cfg: Config, s: Session, attempt: Attempt)
    ensures var t := AuthTurn(cfg, s, attempt);
            Identifies(s, Exchange(Command.Auth(attempt), t.code, t.handover), t.session)
  {
  }

  lemma TLSIdentifies(cfg: Config, s: Session, handshake: bool)
    ensures var t := StartTLSTurn(cfg, s, handshake);
            Identifies(s, Exchange(StartTLS(handshake), t.code, t.handover), t.session)
  {
  }

  lemma LoginEffect(cfg: Config, s: Session, c: Command)
    ensures var t := Step(cfg, s, c);
            Identifies(s, Exchange(c, t.code, t.handover), t.session)
  {
    match c
    case Auth(attempt) => AuthIdentifies(cfg, s, attempt);
    case StartTLS(handshake) => TLSIdentifies(cfg, s, handshake);
    case _ =>
  }

  lemma LoginGrows(tls: bool, xs: seq<Exchange>, x: Exchange, s: Session, t: Session)
    requires LoginShown(tls, xs, s) && Identifies(s, x, t)
    ensures LoginShown(tls, xs + [x], t)
  {
    TLSNext(xs, x);
    var ys := xs + [x];
    assert ys[|xs|] == x;
    if StartedTLS(x) {
      assert NobodyLoggedIn(ys);
    } else if LoggedIn(x) {
      assert LoggedInSince(ys, |xs|, t.username);
    } else if s.authenticated {
      var a :| LoggedInSince(xs, a, s.username);
      LoginStays(xs, x, a, s.username);
    } else {
      NobodyStays(xs, x);
    }
  }

  lemma LoginStep(cfg: Config, tls: bool, xs: seq<Exchange>, s: Session, c: Command)
    requires LoginShown(tls, xs, s)
    ensures var t := Step(cfg, s, c);
            LoginShown(tls, xs + [Exchange(c, t.code, t.handover)], t.session)
  {
    var t := Step(cfg, s, c);
    LoginEffect(cfg, s, c);
    LoginGrows(tls, xs, Exchange(c, t.code, t.handover), s, t.session);
  }

  lemma GreetingNext(xs: seq<Exchange>, x: Exchange)
    ensures Greeted(xs + [x])
            <==> if x.command.Hello? then x.code == Some(250) else Greeted(xs) && !StartedTLS(x)
  {
    var ys := xs + [x];
    assert ys[|xs|] == x;
    if x.command.Hello? && x.code == Some(250) {
      assert GreetedSince(ys, |xs|);
    }
    if !x.command.Hello? && !StartedTLS(x) && Greeted(xs) {
      var g :| GreetedSince(xs, g);
      assert GreetedSince(ys, g);
    }
    if Greeted(ys) && !x.command.Hello? {
      var g :| GreetedSince(ys, g);
      assert GreetedSince(xs, g) by {
        assert forall j | 0 <= j < |xs| :: ys[j] == xs[j];
      }
    }
  }

  lemma GreetingEffect(cfg: Config, s: Session, c: Command)
    ensures var t := Step(cfg, s, c);
            var x := Exchange(c, t.code, t.handover);
            t.session.helo != "" <==> if c.Hello? then t.code == Some(250) else s.helo != "" && !StartedTLS(x)
  {
  }

  lemma GreetingStep(cfg: Config, xs: seq<Exchange>, s: Session, c: Command)
    requires s.helo != "" <==> Greeted(xs)
    ensures var t := Step(cfg, s, c);
            t.session.helo != "" <==> Greeted(xs + [Exchange(c, t.code, t.handover)])
  {
    var t := Step(cfg, s, c);
    GreetingEffect(cfg, s, c);
    GreetingNext(xs, Exchange(c, t.code, t.handover));
  }

  /** How an exchange takes the transaction from one session to the next. */
  ghost predicate Carries(cfg: Config, s: Session, x: Exchange, t: Session) {
    && (Ends(x) ==> !AcceptedMail(x) && !t.inMail && t.from == "" && t.rcpts == [])
    && (AcceptedMail(x) ==>
          && !s.inMail && t == s.(inMail := true, from := AddressIn(x.command.args, "FROM:"))
          && (cfg.auth.AuthRequired? ==> s.authenticated))
    && (!Ends(x) && !AcceptedMail(x) ==>
          && t.inMail == s.inMail && t.from == s.from
          && t.rcpts == (if AcceptedRcpt(x) then s.rcpts + [AddressIn(x.command.args, "TO:")] else s.rcpts)
          && (AcceptedRcpt(x) ==> s.inMail && |s.rcpts| < cfg.RecipientLimit())
          && (s.authenticated ==> t.authenticated))
  }

  /** MAIL is accepted with its address, or changes nothing. */
  lemma MailFacts(cfg: Config, s: Session, args: string)
    ensures var t := MailTurn(cfg, s, args);
            if t.code == Some(250) then
              && !s.inMail && t.session == s.(inMail := true, from := AddressIn(args, "FROM:"))
              && (cfg.auth.AuthRequired? ==> s.authenticated)
            else t.session == s
  {
  }

  lemma MailCarries(cfg: Config, s: Session, args: string)
    ensures var t := MailTurn(cfg, s, args);
            Carries(cfg, s, Exchange(Mail(args), t.code, t.handover), t.session)
  {
    MailFacts(cfg, s, args);
  }

  lemma RcptCarries(cfg: Config, s: Session, args: string)
    ensures var t := RcptTurn(cfg, s, args);
            Carries(cfg, s, Exchange(Rcpt(args), t.code, t.handover), t.session)
  {
  }

  lemma DataCarries(cfg: Config, s: Session, stream: Bytes, stamp: string)
    ensures var t := DataTurn(cfg, s, stream, stamp);
            Carries(cfg, s, Exchange(Data(stream, stamp), t.code, t.handover), t.session)
  {
  }

  lemma TransactionEffect(cfg: Config, s: Session, c: Command)
    ensures var t := Step(cfg, s, c);
            Carries(cfg, s, Exchange(c, t.code, t.handover), t.session)
  {
    match c
    case Mail(args) => MailCarries(cfg, s, args);
    case Rcpt(args) => RcptCarries(cfg, s, args);
    case Data(stream, stamp) => DataCarries(cfg, s, stream, stamp);
    case _ =>
  }

  lemma TransactionStep(cfg: Config, xs: seq<Exchange>, s: Session, c: Command)
    requires TransactionShown(cfg, xs, s)
    ensures var t := Step(cfg, s, c);
            TransactionShown(cfg, xs + [Exchange(c, t.code, t.handover)], t.session)
  {
    var t := Step(cfg, s, c);
    TransactionEffect(cfg, s, c);
    TransactionGrows(cfg, xs, Exchange(c, t.code, t.handover), s, t.session);
  }

  lemma TransactionGrows(cfg: Config, xs: seq<Exchange>, x: Exchange, s: Session, t: Session)
    requires TransactionShown(cfg, xs, s)
    requires Carries(cfg, s, x, t)
    ensures TransactionShown(cfg, xs + [x], t)
  {
    if Ends(x) {
      EndCloses(xs, x);
    } else if AcceptedMail(x) {
      MailOpens(xs, x);
    } else if s.inMail {
      var i :| OpenSince(xs, i, s.from, s.rcpts);
      StaysOpen(xs, x, i, s.from, s.rcpts);
      assert s.rcpts + [] == s.rcpts;
    } else {
      StaysClosed(xs, x);
    }
  }

  /** After every command sequence the session is exactly what the dialogue shows. */
  lemma {:induction false} SessionIsShown(cfg: Config, remote: string, tls: bool, cmds: seq<Command>)
    ensures Shown(cfg, tls, Transcript(cfg, NewSession(remote, tls), cmds), After(cfg, NewSession(remote, tls), cmds))
  {
    if cmds != [] {
      var init := cmds[..|cmds| - 1];
      SessionIsShown(cfg, remote, tls, init);
      var s, xs := After(cfg, NewSession(remote, tls), init), Transcript(cfg, NewSession(remote, tls), init);
      if s.open {
        LoginStep(cfg, tls, xs, s, cmds[|cmds| - 1]);
        TransactionStep(cfg, xs, s, cmds[|cmds| - 1]);
        GreetingStep(cfg, xs, s, cmds[|cmds| - 1]);
      } else {
        assert xs + [] == xs;
      }
    }
  }

  /** What a dialogue entitles the next message to carry. */
  ghost predicate Entitled(cfg: Config, tls: bool, xs: seq<Exchange>, e: Envelope) {
    && (exists i :: OpenSince(xs, i, e.from, e.to))
    && 1 <= |e.to| <= cfg.RecipientLimit()
    && (e.tls <==> tls || TLSIn(xs))
    && (e.username != "" || cfg.auth.AuthRequired? ==> exists a :: LoggedInSince(xs, a, e.username))
  }

  /** What a turn leaves of the connection. */
  ghost predicate Stays(s: Session, t: Session) {
    t.remote == s.remote && t.open == s.open
  }

  lemma HelloStays(s: Session, args: string)
    ensures Stays(s, HelloTurn(s, args).session)
  {
  }

  lemma AuthStays(cfg: Config, s: Session, attempt: Attempt)
    ensures Stays(s, AuthTurn(cfg, s, attempt).session)
  {
  }

  lemma MailStays(cfg: Config, s: Session, args: string)
    ensures Stays(s, MailTurn(cfg, s, args).session)
  {
  }

  lemma RcptStays(cfg: Config, s: Session, args: string)
    ensures Stays(s, RcptTurn(cfg, s, args).session)
  {
  }

  lemma DataStays(cfg: Config, s: Session, stream: Bytes, stamp: string)
    ensures Stays(s, DataTurn(cfg, s, stream, stamp).session)
  {
  }

  lemma StepStays(cfg: Config, s: Session, c: Command)
    ensures c.StartTLS? || c.Quit? || Stays(s, Step(cfg, s, c).session)
    ensures Step(cfg, s, c).session.remote == s.remote
  {
    match c {
      case Hello(args) => HelloStays(s, args);
      case Auth(attempt) => AuthStays(cfg, s, attempt);
      case Mail(args) => MailStays(cfg, s, args);
      case Rcpt(args) => RcptStays(cfg, s, args);
      case Data(stream, stamp) => DataStays(cfg, s, stream, stamp);
      case _ =>
    }
  }

  lemma {:induction false} RemoteKept(cfg: Config, s: Session, cmds: seq<Command>)
    ensures After(cfg, s, cmds).remote == s.remote
  {
    if cmds != [] {
      var init := cmds[..|cmds| - 1];
      RemoteKept(cfg, s, init);
      StepStays(cfg, After(cfg, s, init), cmds[|cmds| - 1]);
    }
  }

  /** What is handed over, from the session alone. */
  lemma HandoverIs(cfg: Config, s: Session, stream: Bytes, stamp: string)
    requires DataTurn(cfg, s, stream, stamp).handover.Some?
    ensures var h := DataTurn(cfg, s, stream, stamp).handover.value;
            && s.inMail && s.rcpts != [] && h.envelope == Envelope(s.from, s.rcpts, s.remote, s.username, s.tls)
            && ReadingOf(stream, cfg.maxSize) == Complete(h.body[|Crlf(Trace(cfg, s, stamp))|..])
            && h.mailboxes == ResolveMailboxes(cfg.routing, h.envelope.username, ReadingOf(stream, cfg.maxSize).body,
                                               h.envelope.to, cfg.names)
  {
  }

  /**
   For every command sequence, a message handed to the store carries the sender of the
   last accepted MAIL and exactly the recipients accepted since.
   */
  lemma HandedOverAsShown(cfg: Config, remote: string, tls: bool, cmds: seq<Command>, stream: Bytes, stamp: string)
    requires var s := After(cfg, NewSession(remote, tls), cmds);
             s.open && DataTurn(cfg, s, stream, stamp).handover.Some?
    ensures var s := After(cfg, NewSession(remote, tls), cmds);
            var h := DataTurn(cfg, s, stream, stamp).handover.value;
            && Entitled(cfg, tls, Transcript(cfg, NewSession(remote, tls), cmds), h.envelope)
            && h.envelope.remoteAddr == remote
            && ReadingOf(stream, cfg.maxSize) == Complete(h.body[|Crlf(Trace(cfg, s, stamp))|..])
            && h.mailboxes == ResolveMailboxes(cfg.routing, h.envelope.username, ReadingOf(stream, cfg.maxSize).body,
                                               h.envelope.to, cfg.names)
  {
    HandoverIs(cfg, After(cfg, NewSession(remote, tls), cmds), stream, stamp);
    SessionIsShown(cfg, remote, tls, cmds);
    RemoteKept(cfg, NewSession(remote, tls), cmds);
  }

  /** Every message handed over in a dialogue carries what the dialogue before it shows. */
  ghost predicate EachEntitled(cfg: Config, tls: bool, xs: seq<Exchange>) {
    forall i | 0 <= i < |xs| && xs[i].handover.Some? :: Entitled(cfg, tls, xs[..i], xs[i].handover.value.envelope)
  }

  lemma EntitledOn(cfg: Config, tls: bool, xs: seq<Exchange>, x: Exchange)
    requires EachEntitled(cfg, tls, xs)
    requires x.handover.Some? ==> Entitled(cfg, tls, xs, x.handover.value.envelope)
    ensures EachEntitled(cfg, tls, xs + [x])
  {
    var all := xs + [x];
    forall i | 0 <= i < |all| && all[i].handover.Some?
      ensures Entitled(cfg, tls, all[..i], all[i].handover.value.envelope)
    {
      if i < |xs| {
        assert all[i] == xs[i] && all[..i] == xs[..i];
      } else {
        assert all[i] == x && all[..i] == xs;
      }
    }
  }

  lemma OnlyDataHandsOver(cfg: Config, s: Session, c: Command)
    requires Step(cfg, s, c).handover.Some?
    ensures c.Data?
  {
  }

  lemma {:induction false} TranscriptEntitled(cfg: Config, remote: string, tls: bool, cmds: seq<Command>)
    ensures EachEntitled(cfg, tls, Transcript(cfg, NewSession(remote, tls), cmds))
  {
    if cmds != [] {
      var init, c := cmds[..|cmds| - 1], cmds[|cmds| - 1];
      TranscriptEntitled(cfg, remote, tls, init);
      var s, xs := After(cfg, NewSession(remote, tls), init), Transcript(cfg, NewSession(remote, tls), init);
      if s.open {
        if Step(cfg, s, c).handover.Some? {
          OnlyDataHandsOver(cfg, s, c);
          HandedOverAsShown(cfg, remote, tls, init, c.stream, c.stamp);
        }
        EntitledOn(cfg, tls, xs, Exchange(c, Step(cfg, s, c).code, Step(cfg, s, c).handover));
      } else {
        assert xs + [] == xs;
      }
    }
  }

  /** AUTH PLAIN with encoded credentials logs in exactly when they are the configured ones. */
  lemma PlainLogsInIff(cfg: Config, s: Session, identity: Bytes, username: Bytes, password: Bytes, input: Bytes)
    requires !cfg.auth.AuthDisabled? && !s.authenticated
    requires NUL !in identity && NUL !in username && NUL !in password
    ensures var t := AuthTurn(cfg, s, AttemptOf("PLAIN " + Token(Credentials(identity, username, password)), input));
            && (t.session.authenticated <==> CredentialsValid(cfg.username, cfg.password, Chars(username), Chars(password)))
            && (t.session.authenticated ==> t.session.username == Chars(username))
  {
    PlainIff(identity, username, password, input);
  }

  /** MAIL is accepted only after a greeting, when nothing is open, and after a login where one is required. */
  lemma MailNeedsGreeting(cfg: Config, remote: string, tls: bool, cmds: seq<Command>, args: string)
    requires MailTurn(cfg, After(cfg, NewSession(remote, tls), cmds), args).code == Some(250)
    ensures var xs := Transcript(cfg, NewSession(remote, tls), cmds);
            && Greeted(xs) && NothingOpen(xs)
            && (cfg.auth.AuthRequired? ==> exists a, username :: LoggedInSince(xs, a, username))
  {
    SessionIsShown(cfg, remote, tls, cmds);
  }

  lemma OneTransaction(xs: seq<Exchange>, i: nat, k: nat, from: string, rcpts: seq<string>, from': string, rcpts': seq<string>)
    requires OpenSince(xs, i, from, rcpts) && OpenSince(xs, k, from', rcpts')
    ensures i == k && rcpts == rcpts'
  {
  }

  ghost predicate Deliverable(xs: seq<Exchange>) {
    exists i, from, rcpts :: OpenSince(xs, i, from, rcpts) && rcpts != []
  }

  lemma DeliverableIff(cfg: Config, xs: seq<Exchange>, s: Session)
    requires TransactionShown(cfg, xs, s)
    ensures Deliverable(xs) <==> s.inMail && s.rcpts != []
  {
    if s.inMail {
      var i :| OpenSince(xs, i, s.from, s.rcpts);
      if Deliverable(xs) {
        var k, from, rcpts :| OpenSince(xs, k, from, rcpts) && rcpts != [];
        OneTransaction(xs, i, k, s.from, s.rcpts, from, rcpts);
      }
    } else {
      assert forall k: nat | k < |xs| && AcceptedMail(xs[k]) :: exists j :: k < j < |xs| && Ends(xs[j]);
    }
  }

  /** DATA is turned away exactly when the dialogue shows no recipient to deliver to. */
  lemma DataRefusedIff(cfg: Config, remote: string, tls: bool, cmds: seq<Command>, stream: Bytes, stamp: string)
    ensures DataTurn(cfg, After(cfg, NewSession(remote, tls), cmds), stream, stamp).code == Some(503)
            <==> !Deliverable(Transcript(cfg, NewSession(remote, tls), cmds))
  {
    SessionIsShown(cfg, remote, tls, cmds);
    DeliverableIff(cfg, Transcript(cfg, NewSession(remote, tls), cmds), After(cfg, NewSession(remote, tls), cmds));
  }

  // ---------------------------------------------------------------------------
  // TLS, and the end of the session
  // ---------------------------------------------------------------------------

  /** STARTTLS begins a session anew under TLS, or says why not; a failed handshake ends the session. */
  lemma StartTLSIff(cfg: Config, s: Session, handshake: bool)
    ensures var t := StartTLSTurn(cfg, s, handshake);
            && t.handover.None?
            && (StartedTLS(Exchange(StartTLS(handshake), t.code, None)) <==> handshake && cfg.tlsAvailable && !s.tls)
            && (if !cfg.tlsAvailable then t.session == s && t.code == Some(454)
                else if s.tls then t.session == s && t.code == Some(503)
                else if handshake then t.session == NewSession(s.remote, true).(open := s.open)
                else !t.session.open)
  {
  }

  /** TLS starts only once, only where it is available, and not where it was there from the start. */
  ghost predicate StartsOnce(cfg: Config, tls: bool, xs: seq<Exchange>) {
    forall i | 0 <= i < |xs| && StartedTLS(xs[i]) :: cfg.tlsAvailable && !tls && !TLSIn(xs[..i])
  }

  lemma StartsOnceOn(cfg: Config, tls: bool, xs: seq<Exchange>, x: Exchange)
    requires StartsOnce(cfg, tls, xs) && (StartedTLS(x) ==> cfg.tlsAvailable && !tls && !TLSIn(xs))
    ensures StartsOnce(cfg, tls, xs + [x])
  {
    var all := xs + [x];
    forall i | 0 <= i < |all| && StartedTLS(all[i]) ensures cfg.tlsAvailable && !tls && !TLSIn(all[..i]) {
      if i < |xs| {
        assert all[i] == xs[i] && all[..i] == xs[..i];
      } else {
        assert all[i] == x && all[..i] == xs;
      }
    }
  }

  /** In every dialogue. */
  lemma {:induction false} TLSStartsOnce(cfg: Config, remote: string, tls: bool, cmds: seq<Command>)
    ensures StartsOnce(cfg, tls, Transcript(cfg, NewSession(remote, tls), cmds))
  {
    if cmds != [] {
      var init, c := cmds[..|cmds| - 1], cmds[|cmds| - 1];
      var s, xs := After(cfg, NewSession(remote, tls), init), Transcript(cfg, NewSession(remote, tls), init);
      TLSStartsOnce(cfg, remote, tls, init);
      SessionIsShown(cfg, remote, tls, init);
      if s.open {
        var x := Exchange(c, Step(cfg, s, c).code, Step(cfg, s, c).handover);
        if c.StartTLS? {
          StartTLSIff(cfg, s, c.handshake);
        }
        StartsOnceOn(cfg, tls, xs, x);
      } else {
        assert xs + [] == xs;
      }
    }
  }

  /** QUIT, or a handshake that fails. */
  predicate Closes(x: Exchange) {
    x.command.Quit? || (x.command.StartTLS? && !x.command.handshake && x.code == Some(220))
  }

  lemma ClosesIff(cfg: Config, s: Session, c: Command)
    requires s.open
    ensures Step(cfg, s, c).session.open <==> !Closes(Exchange(c, Step(cfg, s, c).code, Step(cfg, s, c).handover))
  {
    StepStays(cfg, s, c);
    if c.StartTLS? {
      StartTLSIff(cfg, s, c.handshake);
    }
  }

  ghost predicate NoneCloses(xs: seq<Exchange>) {
    forall i | 0 <= i < |xs| :: !Closes(xs[i])
  }

  lemma NoneClosesOn(xs: seq<Exchange>, x: Exchange)
    ensures NoneCloses(xs + [x]) <==> NoneCloses(xs) && !Closes(x)
  {
    var all := xs + [x];
    assert all[|xs|] == x;
    forall i | 0 <= i < |xs| ensures all[i] == xs[i] {
    }
  }

  /** A session is open as long as nothing in the dialogue has closed it, and nothing follows what did. */
  lemma {:induction false} OpenIff(cfg: Config, remote: string, tls: bool, cmds: seq<Command>)
    ensures var xs := Transcript(cfg, NewSession(remote, tls), cmds);
            && (After(cfg, NewSession(remote, tls), cmds).open <==> NoneCloses(xs))
            && (xs == [] || NoneCloses(xs[..|xs| - 1]))
  {
    if cmds != [] {
      var init, c := cmds[..|cmds| - 1], cmds[|cmds| - 1];
      var s, xs := After(cfg, NewSession(remote, tls), init), Transcript(cfg, NewSession(remote, tls), init);
      OpenIff(cfg, remote, tls, init);
      if s.open {
        var x := Exchange(c, Step(cfg, s, c).code, Step(cfg, s, c).handover);
        ClosesIff(cfg, s, c);
        NoneClosesOn(xs, x);
        assert (xs + [x])[..|xs|] == xs;
      } else {
        assert xs + [] == xs;
      }
    }
  }
}

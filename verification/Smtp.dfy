/** The SMTP transaction machine: what each command does to a session (section 4.1.4 of RFC 5321). */
module Smtp {
  import opened Bytes
  import opened Sequences
  import opened Text
  import opened Wire
  import opened Auth
  import opened Routing
  import opened StoreModel

  datatype AuthMode = AuthDisabled | AuthOptional | AuthRequired

  datatype Config = Config(
    hostname: string, auth: AuthMode, username: string, password: string, routing: RoutingOptions,
    names: set<string>, addReceived: bool, maxSize: nat, maxRecipients: int, tlsAvailable: bool)
  {
    function RecipientLimit(): nat {
      if maxRecipients <= 0 then 100 else maxRecipients
    }
  }

  datatype Session = Session(
    remote: string, helo: string, tls: bool, authenticated: bool, username: string,
    from: string, rcpts: seq<string>, inMail: bool, open: bool)

  function NewSession(remote: string, tls: bool): Session {
    Session(remote, "", tls, false, "", "", [], false, true)
  }

  /** A command line and what the client sends along with it. */
  datatype Command =
    | Hello(args: string)
    | StartTLS(handshake: bool)
    | Auth(attempt: Attempt)
    | Mail(args: string)
    | Rcpt(args: string)
    | Data(stream: Bytes, stamp: string)
    | Rset
    | Quit
    | Other(code: nat)

  /** A message on its way to the store. */
  datatype Handover = Handover(mailboxes: seq<string>, envelope: Envelope, body: Bytes)

  /** The reply code is open while the store has the message. */
  datatype Turn = Turn(session: Session, code: Option<nat>, handover: Option<Handover>)

  function Reply(s: Session, code: nat): Turn {
    Turn(s, Some(code), None)
  }

  // ---------------------------------------------------------------------------
  // Addresses
  // ---------------------------------------------------------------------------

  /** What follows a keyword such as `FROM:`, in any case. */
  function CutPrefixFold(s: string, prefix: string): Option<string> {
    if |s| < |prefix| || Lower(s[..|prefix|]) != Lower(prefix) then None
    else Some(TrimSpace(s[|prefix|..]))
  }

  /** The address and the text of its parameters; brackets may be left out but not left open. */
  function ParsePath(raw: string): Option<(string, string)> {
    var text := TrimSpace(raw);
    if !HasPrefix(text, "<") then
      match Cut(text, ' ')
      case None => Some((TrimSpace(text), ""))
      case Some(p) => Some((TrimSpace(p.0), p.1))
    else
      match Cut(text, '>')
      case None => None
      case Some(p) => Some((TrimSpace(p.0[1..]), p.1))
  }

  /** The value of the last `SIZE=` parameter. */
  function SizeParam(fields: seq<string>): Option<string> {
    if fields == [] then None
    else
      var last := fields[|fields| - 1];
      var key := if Cut(last, '=').Some? then Cut(last, '=').value.0 else last;
      var value := if Cut(last, '=').Some? then Cut(last, '=').value.1 else "";
      if Lower(key) == "size" then Some(value) else SizeParam(fields[..|fields| - 1])
  }

  /** The message size a MAIL command declares, if it declares a readable one. */
  function DeclaredSize(params: string): Option<int> {
    match SizeParam(Fields(params))
    case None => None
    case Some(value) => ScanInt(value)
  }

  // ---------------------------------------------------------------------------
  // Commands
  // ---------------------------------------------------------------------------

  function ResetTransaction(s: Session): Session {
    s.(from := "", rcpts := [], inMail := false)
  }

  /** HELO and EHLO; an empty name is remembered before it is refused. */
  function HelloTurn(s: Session, args: string): Turn {
    var t := s.(helo := TrimSpace(args));
    if t.helo == "" then Reply(t, 501) else Reply(ResetTransaction(t), 250)
  }

  /** A failed handshake ends the session; a good one discards everything negotiated before. */
  function StartTLSTurn(cfg: Config, s: Session, handshake: bool): Turn {
    if !cfg.tlsAvailable then Reply(s, 454)
    else if s.tls then Reply(s, 503)
    else if !handshake then Reply(s.(open := false), 220)
    else Reply(ResetTransaction(s.(tls := true, helo := "", authenticated := false, username := "")), 220)
  }

  function AuthTurn(cfg: Config, s: Session, attempt: Attempt): Turn {
    if cfg.auth.AuthDisabled? then Reply(s, 502)
    else if s.authenticated then Reply(s, 503)
    else
      match attempt
      case NoAnswer => Turn(s, None, None)
      case Unusable(code) => Reply(s, code)
      case Login(username, password) =>
        if CredentialsValid(cfg.username, cfg.password, username, password)
        then Reply(s.(authenticated := true, username := username), 235)
        else Reply(s, 535)
  }

  function MailTurn(cfg: Config, s: Session, args: string): Turn {
    if s.helo == "" then Reply(s, 503)
    else if cfg.auth.AuthRequired? && !s.authenticated then Reply(s, 530)
    else if s.inMail then Reply(s, 503)
    else
      match CutPrefixFold(args, "FROM:")
      case None => Reply(s, 501)
      case Some(rest) =>
        match ParsePath(rest)
        case None => Reply(s, 501)
        case Some(p) =>
          if DeclaredSize(p.1).Some? && DeclaredSize(p.1).value > cfg.maxSize then Reply(s, 552)
          else Reply(s.(from := p.0, inMail := true), 250)
  }

  function RcptTurn(cfg: Config, s: Session, args: string): Turn {
    if !s.inMail then Reply(s, 503)
    else
      match CutPrefixFold(args, "TO:")
      case None => Reply(s, 501)
      case Some(rest) =>
        match ParsePath(rest)
        case None => Reply(s, 501)
        case Some(p) =>
          if p.0 == "" then Reply(s, 501)
          else if |s.rcpts| >= cfg.RecipientLimit() then Reply(s, 452)
          else Reply(s.(rcpts := s.rcpts + [p.0]), 250)
  }

  // ---------------------------------------------------------------------------
  // DATA
  // ---------------------------------------------------------------------------

  /** What reading the payload comes to. */
  datatype Reading = Unreadable | TooMuch | Complete(body: Bytes)

  function ReadingOf(stream: Bytes, maxSize: nat): Reading {
    match Payload(stream, MAX_LINE_BYTES)
    case None => Unreadable
    case Some(p) => if |Crlf(p.0)| > maxSize then TooMuch else Complete(Crlf(p.0))
  }

  function OrDefault(value: string, fallback: string): string {
    if TrimSpace(value) == "" then fallback else value
  }

  function Concat(parts: seq<string>): string {
    if parts == [] then "" else parts[0] + Concat(parts[1..])
  }

  function Protocol(s: Session): string {
    Concat([if s.helo != "" then "ESMTP" else "SMTP", if s.tls then "S" else "", if s.authenticated then "A" else ""])
  }

  function FromLine(s: Session): string {
    Concat(["Received: from ", OrDefault(s.helo, "unknown"), " (", s.remote, ")"])
  }

  function ByLine(cfg: Config, s: Session): string {
    Concat(["\tby ", cfg.hostname, " (Mailschleuse)", " with ", Protocol(s), ";"])
  }

  /** The three lines of the trace header. */
  function TraceLines(cfg: Config, s: Session, stamp: string): seq<Bytes> {
    [Octets(FromLine(s)), Octets(ByLine(cfg, s)), Octets("\t" + stamp)]
  }

  function Trace(cfg: Config, s: Session, stamp: string): seq<Bytes> {
    if cfg.addReceived then TraceLines(cfg, s, stamp) else []
  }

  function EnvelopeOf(s: Session): Envelope {
    Envelope(s.from, s.rcpts, s.remote, s.username, s.tls)
  }

  /** Mailboxes are chosen by the payload alone, before the trace header goes on top. */
  function DataTurn(cfg: Config, s: Session, stream: Bytes, stamp: string): Turn {
    if !s.inMail || s.rcpts == [] then Reply(s, 503)
    else
      match ReadingOf(stream, cfg.maxSize)
      case Unreadable => Turn(s, None, None)
      case TooMuch => Reply(ResetTransaction(s), 552)
      case Complete(body) =>
        var mailboxes := ResolveMailboxes(cfg.routing, s.username, body, s.rcpts, cfg.names);
        Turn(ResetTransaction(s), None,
             Some(Handover(mailboxes, EnvelopeOf(s), Crlf(Trace(cfg, s, stamp)) + body)))
  }

  function Step(cfg: Config, s: Session, c: Command): Turn {
    match c
    case Hello(args) => HelloTurn(s, args)
    case StartTLS(handshake) => StartTLSTurn(cfg, s, handshake)
    case Auth(attempt) => AuthTurn(cfg, s, attempt)
    case Mail(args) => MailTurn(cfg, s, args)
    case Rcpt(args) => RcptTurn(cfg, s, args)
    case Data(stream, stamp) => DataTurn(cfg, s, stream, stamp)
    case Rset => Reply(ResetTransaction(s), 250)
    case Quit => Reply(s.(open := false), 221)
    case Other(code) => Reply(s, code)
  }

  // ---------------------------------------------------------------------------
  // Whole sessions
  // ---------------------------------------------------------------------------

  /** One command with its outcome. */
  datatype Exchange = Exchange(command: Command, code: Option<nat>, handover: Option<Handover>)

  /** Commands after the end of the session are not read. */
  function After(cfg: Config, s: Session, cmds: seq<Command>): Session {
    if cmds == [] then s
    else
      var before := After(cfg, s, cmds[..|cmds| - 1]);
      if before.open then Step(cfg, before, cmds[|cmds| - 1]).session else before
  }

  function Transcript(cfg: Config, s: Session, cmds: seq<Command>): seq<Exchange> {
    if cmds == [] then []
    else
      var before, c := After(cfg, s, cmds[..|cmds| - 1]), cmds[|cmds| - 1];
      Transcript(cfg, s, cmds[..|cmds| - 1])
      + (if before.open then [Exchange(c, Step(cfg, before, c).code, Step(cfg, before, c).handover)] else [])
  }
}

/**
 POP3 sessions side by side: any number of connections take turns with each other and
 with everybody else who changes the store (sections 4, 5 and 6 of RFC 1939).
 */
module Pop3 {
  import opened Bytes
  import opened Text
  import opened StoreModel
  import opened Maildrop

  datatype Config = Config(
    username: string, password: string, defaultMailbox: string, userRouting: bool,
    exclusiveLock: bool, tlsAvailable: bool, limits: Limits)

  /** `Opening` holds the lock but has no view yet; `Updating` is the loop that QUIT runs. */
  datatype Phase =
    | Ready
    | Opening
    | Updating(next: nat, removed: nat)
    | Closed(deleted: Option<nat>)

  datatype Session = Session(
    tls: bool, username: string, mailbox: string, locked: bool, transaction: bool,
    entries: seq<Entry>, phase: Phase)

  datatype Reason =
    | AlreadyAuthenticated
    | NameRequired
    | UserFirst
    | BadCredentials
    | InUse
    | CannotOpen
    | NoTLS
    | TLSActive
    | AuthenticateFirst
    | BadLookup(error: LookupError)

  /** `+OK` with its figures, `-ERR`, or no reply yet. */
  datatype Reply = Positive(figures: seq<int>) | Negative(reason: Reason) | Silence

  datatype Turn = Turn(session: Session, reply: Reply)

  function NewSession(tls: bool): Session {
    Session(tls, "", "", false, false, [], Ready)
  }

  // ---------------------------------------------------------------------------
  // The lock table
  // ---------------------------------------------------------------------------

  predicate Lockable(cfg: Config, locks: set<string>, mailbox: string) {
    cfg.exclusiveLock ==> mailbox !in locks
  }

  function Taken(cfg: Config, locks: set<string>, mailbox: string): set<string> {
    if cfg.exclusiveLock then locks + {mailbox} else locks
  }

  function Freed(cfg: Config, locks: set<string>, mailbox: string): set<string> {
    if cfg.exclusiveLock then locks - {mailbox} else locks
  }

  /** The table once a session has let go of whatever it holds. */
  function Released(cfg: Config, locks: set<string>, s: Session): set<string> {
    if s.locked then Freed(cfg, locks, s.mailbox) else locks
  }

  // ---------------------------------------------------------------------------
  // Commands
  // ---------------------------------------------------------------------------

  function UserTurn(s: Session, arg: string): Turn {
    if s.transaction then Turn(s, Negative(AlreadyAuthenticated))
    else if TrimSpace(arg) == "" then Turn(s, Negative(NameRequired))
    else Turn(s.(username := TrimSpace(arg)), Positive([]))
  }

  function MailboxFor(cfg: Config, names: set<string>, username: string): string {
    var candidate := Lower(TrimSpace(username));
    if cfg.userRouting && candidate in names then candidate else cfg.defaultMailbox
  }

  /** PASS up to and including the attempt to lock. */
  function PassTurn(cfg: Config, names: set<string>, locks: set<string>, s: Session, password: string): Turn {
    if s.transaction then Turn(s, Negative(AlreadyAuthenticated))
    else if s.username == "" then Turn(s, Negative(UserFirst))
    else if !CredentialsValid(cfg.username, cfg.password, s.username, password) then Turn(s.(username := ""), Negative(BadCredentials))
    else
      var m := MailboxFor(cfg, names, s.username);
      if !Lockable(cfg, locks, m) then Turn(s.(mailbox := m, username := ""), Negative(InUse))
      else Turn(s.(mailbox := m, locked := true, phase := Opening), Silence)
  }

  function FiguresOf(entries: seq<Entry>): seq<int> {
    [Stats(entries).count, Stats(entries).octets]
  }

  /** The rest of PASS: freezing the view. */
  function OpenTurn(store: State, s: Session): Turn {
    if s.mailbox in store.boxes then
      var entries := Opened(store.boxes[s.mailbox]);
      Turn(s.(entries := entries, transaction := true, phase := Ready), Positive(FiguresOf(entries)))
    else Turn(s.(locked := false, phase := Ready), Negative(CannotOpen))
  }

  /** A failed handshake ends the connection. */
  function StlsTurn(cfg: Config, s: Session, handshake: bool): Turn {
    if !cfg.tlsAvailable then Turn(s, Negative(NoTLS))
    else if s.tls then Turn(s, Negative(TLSActive))
    else if handshake then Turn(s.(tls := true, username := ""), Positive([]))
    else Turn(s.(locked := false, phase := Closed(None)), Positive([]))
  }

  function DeleTurn(s: Session, arg: string): Turn {
    if !s.transaction then Turn(s, Negative(AuthenticateFirst))
    else
      match Resolve(s.entries, arg)
      case Err(e) => Turn(s, Negative(BadLookup(e)))
      case Ok(at) => Turn(s.(entries := Marked(s.entries, at)), Positive([at + 1]))
  }

  function RsetTurn(s: Session): Turn {
    if !s.transaction then Turn(s, Negative(AuthenticateFirst))
    else Turn(s.(entries := Unmarked(s.entries)), Positive(FiguresOf(Unmarked(s.entries))))
  }

  /** Without a transaction there is nothing to go through. */
  function Quitting(s: Session): Session {
    s.(phase := Updating(if s.transaction then 0 else |s.entries|, 0))
  }

  /** One round of the UPDATE loop; only marked messages are handed to the store. */
  function Removed(store: State, s: Session): Session
    requires s.phase.Updating? && s.phase.next < |s.entries|
  {
    var e := s.entries[s.phase.next];
    s.(phase := Updating(s.phase.next + 1, s.phase.removed + if e.deleted && e.id in store.byID then 1 else 0))
  }

  function SignOffTurn(s: Session): Turn
    requires s.phase.Updating?
  {
    Turn(s.(locked := false, phase := Closed(Some(s.phase.removed))), Positive([s.phase.removed]))
  }

  function Dropped(s: Session): Session {
    s.(locked := false, phase := Closed(None))
  }

  // ---------------------------------------------------------------------------
  // All sessions at once
  // ---------------------------------------------------------------------------

  /** `born` is history: every message that was ever stored, as it was delivered. */
  datatype World = World(
    locks: set<string>, sessions: map<nat, Session>, store: State, born: map<ID, Msg>)

  datatype Action =
    | Connect(k: nat, tls: bool)
    | User(k: nat, arg: string)
    | Pass(k: nat, password: string)
    | Open(k: nat)
    | Stls(k: nat, handshake: bool)
    | Dele(k: nat, arg: string)
    | Rset(k: nat)
    | Quit(k: nat)
    | Remove(k: nat)
    | SignOff(k: nat)
    | Drop(k: nat)
    | Outside(op: Op)

  predicate InPhase(w: World, a: Action, p: Phase -> bool)
    requires !a.Outside?
  {
    a.k in w.sessions && p(w.sessions[a.k].phase)
  }

  /** Whether the action can happen now; IDs are never given out twice. */
  predicate Enabled(w: World, a: Action) {
    match a
    case Connect(k, _) => k !in w.sessions
    case Open(_) => InPhase(w, a, (p: Phase) => p.Opening?)
    case Remove(k) =>
      InPhase(w, a, (p: Phase) => p.Updating?) && w.sessions[k].phase.next < |w.sessions[k].entries|
    case SignOff(k) =>
      InPhase(w, a, (p: Phase) => p.Updating?) && w.sessions[k].phase.next >= |w.sessions[k].entries|
    case Outside(op) => op.Deliver? ==> op.id !in w.born
    case _ => InPhase(w, a, (p: Phase) => p.Ready?)
  }

  function Put(w: World, k: nat, s: Session): World {
    w.(sessions := w.sessions[k := s])
  }

  function Stored(w: World, cfg: Config, op: Op): World {
    w.(store := Apply(w.store, cfg.limits, op),
       born := if op.Deliver? && Accepts(w.store, cfg.limits, op) then w.born[op.id := Incoming(op)] else w.born)
  }

  function Next(cfg: Config, w: World, a: Action): World {
    if !Enabled(w, a) then w
    else
      match a
      case Connect(k, tls) => Put(w, k, NewSession(tls))
      case User(k, arg) => Put(w, k, UserTurn(w.sessions[k], arg).session)
      case Pass(k, password) =>
        var s := PassTurn(cfg, w.store.boxes.Keys, w.locks, w.sessions[k], password).session;
        Put(w, k, s).(locks := if s.phase.Opening? then Taken(cfg, w.locks, s.mailbox) else w.locks)
      case Open(k) =>
        var s := OpenTurn(w.store, w.sessions[k]).session;
        Put(w, k, s).(locks := if s.transaction then w.locks else Released(cfg, w.locks, w.sessions[k]))
      case Stls(k, handshake) =>
        var s := StlsTurn(cfg, w.sessions[k], handshake).session;
        Put(w, k, s).(locks := if s.phase.Closed? then Released(cfg, w.locks, w.sessions[k]) else w.locks)
      case Dele(k, arg) => Put(w, k, DeleTurn(w.sessions[k], arg).session)
      case Rset(k) => Put(w, k, RsetTurn(w.sessions[k]).session)
      case Quit(k) => Put(w, k, Quitting(w.sessions[k]))
      case Remove(k) =>
        var s := w.sessions[k];
        var e := s.entries[s.phase.next];
        var w' := Put(w, k, Removed(w.store, s));
        if e.deleted then Stored(w', cfg, Delete(e.id)) else w'
      case SignOff(k) =>
        Put(w, k, SignOffTurn(w.sessions[k]).session).(locks := Released(cfg, w.locks, w.sessions[k]))
      case Drop(k) => Put(w, k, Dropped(w.sessions[k])).(locks := Released(cfg, w.locks, w.sessions[k]))
      case Outside(op) => Stored(w, cfg, op)
  }

  /** The stored messages, by ID. */
  function BornIn(store: State): map<ID, Msg> {
    map id | id in store.byID && store.byID[id] in store.boxes && IndexOfID(store.boxes[store.byID[id]], id) < |store.boxes[store.byID[id]]|
      :: store.boxes[store.byID[id]][IndexOfID(store.boxes[store.byID[id]], id)]
  }

  /** A server that begins with this store. */
  function Start(store: State): World {
    World({}, map[], store, BornIn(store))
  }

  /** What the client is told when an action is carried out. */
  function ReplyTo(cfg: Config, w: World, a: Action): Reply {
    if !Enabled(w, a) then Silence
    else
      match a
      case User(k, arg) => UserTurn(w.sessions[k], arg).reply
      case Pass(k, password) => PassTurn(cfg, w.store.boxes.Keys, w.locks, w.sessions[k], password).reply
      case Open(k) => OpenTurn(w.store, w.sessions[k]).reply
      case Stls(k, handshake) => StlsTurn(cfg, w.sessions[k], handshake).reply
      case Dele(k, arg) => DeleTurn(w.sessions[k], arg).reply
      case Rset(k) => RsetTurn(w.sessions[k]).reply
      case SignOff(k) => SignOffTurn(w.sessions[k]).reply
      case _ => Silence
  }

  /** A whole run; what cannot happen when its turn comes does not happen. */
  function After(cfg: Config, w: World, acts: seq<Action>): World {
    if acts == [] then w else Next(cfg, After(cfg, w, acts[..|acts| - 1]), acts[|acts| - 1])
  }

  /** The replies of a whole run, one for each action. */
  function Replies(cfg: Config, w: World, acts: seq<Action>): seq<Reply> {
    if acts == [] then []
    else Replies(cfg, w, acts[..|acts| - 1]) + [ReplyTo(cfg, After(cfg, w, acts[..|acts| - 1]), acts[|acts| - 1])]
  }

  // ---------------------------------------------------------------------------
  // The invariant
  // ---------------------------------------------------------------------------

  /** The table is exactly the mailboxes of the locked sessions. */
  ghost predicate LockTable(cfg: Config, w: World) {
    if cfg.exclusiveLock then
      && (forall k | k in w.sessions && w.sessions[k].locked :: w.sessions[k].mailbox in w.locks)
      && (forall m | m in w.locks :: exists k :: k in w.sessions && w.sessions[k].locked && w.sessions[k].mailbox == m)
    else w.locks == {}
  }

  ghost predicate OneHolder(cfg: Config, w: World) {
    cfg.exclusiveLock ==>
      forall k, j | k in w.sessions && j in w.sessions && w.sessions[k].locked && w.sessions[j].locked && k != j ::
        w.sessions[k].mailbox != w.sessions[j].mailbox
  }

  ghost predicate PhaseOk(s: Session) {
    && (match s.phase
        case Ready => s.locked == s.transaction
        case Opening => s.locked && !s.transaction
        case Updating(next, removed) => s.locked == s.transaction && next <= |s.entries|
        case Closed(_) => !s.locked)
    && (!s.transaction ==> s.entries == [])
  }

  /** The view shows messages that were once delivered to this mailbox, each once. */
  ghost predicate ViewOk(w: World, s: Session) {
    && (forall i | 0 <= i < |s.entries| ::
          var e := s.entries[i];
          e.id in w.born && w.born[e.id].raw == e.raw && w.born[e.id].mailbox == s.mailbox)
    && (forall i, j | 0 <= i < j < |s.entries| :: s.entries[i].id != s.entries[j].id)
  }

  /** What the UPDATE loop has passed is gone, and gone for good. */
  ghost predicate GoneOk(w: World, s: Session) {
    var done := match s.phase
      case Updating(next, _) => next
      case Closed(Some(_)) => |s.entries|
      case _ => 0;
    forall i | 0 <= i < done && i < |s.entries| && s.entries[i].deleted :: s.entries[i].id !in w.store.byID
  }

  ghost predicate SessionOk(w: World, s: Session) {
    PhaseOk(s) && ViewOk(w, s) && GoneOk(w, s)
  }

  /** A stored message is the one that was delivered under its ID, up to the read flag. */
  ghost predicate BirthsOk(w: World) {
    && w.store.byID.Keys <= w.born.Keys
    && (forall id | id in w.born :: w.born[id].id == id)
    && forall n, i | n in w.store.boxes && 0 <= i < |w.store.boxes[n]| ::
         var m := w.store.boxes[n][i];
         m.id in w.born && w.born[m.id].(read := m.read) == m
  }

  ghost predicate Inv(cfg: Config, w: World) {
    && LockTable(cfg, w) && OneHolder(cfg, w)
    && Agrees(w.store) && Capped(w.store, cfg.limits.maxMessages) && BirthsOk(w)
    && forall k | k in w.sessions :: SessionOk(w, w.sessions[k])
  }

  lemma BornInHas(store: State, n: string, i: nat)
    requires Agrees(store) && n in store.boxes && i < |store.boxes[n]|
    ensures store.boxes[n][i].id in BornIn(store) && BornIn(store)[store.boxes[n][i].id] == store.boxes[n][i]
  {
    assert BoxAgrees(store, n);
  }

  lemma StartIsFine(cfg: Config, store: State)
    requires Agrees(store) && Capped(store, cfg.limits.maxMessages)
    ensures Inv(cfg, Start(store))
  {
    forall n, i | n in store.boxes && 0 <= i < |store.boxes[n]|
      ensures store.boxes[n][i].id in BornIn(store) && BornIn(store)[store.boxes[n][i].id] == store.boxes[n][i]
    {
      BornInHas(store, n, i);
    }
    forall id | id in store.byID ensures id in BornIn(store) {
      assert HasID(store.boxes[store.byID[id]], id);
    }
  }

  /** Where the messages of a queue come from after an operation. */
  lemma ApplyMembers(s: State, limits: Limits, op: Op, n: string, i: nat)
    requires n in Apply(s, limits, op).boxes && i < |Apply(s, limits, op).boxes[n]|
    ensures var m := Apply(s, limits, op).boxes[n][i];
            || (op.Deliver? && Accepts(s, limits, op) && m == Incoming(op))
            || (n in s.boxes && exists j :: 0 <= j < |s.boxes[n]| && s.boxes[n][j].(read := m.read) == m)
  {
    var t := Apply(s, limits, op);
    var m := t.boxes[n][i];
    assert n in s.boxes;
    var box := s.boxes[n];
    if op.Deliver? && Accepts(s, limits, op) && n == op.mailbox {
      var grown := Grown(s, Incoming(op));
      var drop := Excess(|grown|, limits.maxMessages);
      assert m == grown[drop + i];
      if drop + i < |box| {
        assert box[drop + i].(read := m.read) == m;
      }
    } else if op.Delete? && op.id in s.byID && n == s.byID[op.id] {
      var at := IndexOfID(box, op.id);
      if at < |box| && i >= at {
        assert box[i + 1].(read := m.read) == m;
      } else {
        assert box[i].(read := m.read) == m;
      }
    } else {
      assert box[i].(read := m.read) == m;
    }
  }

  lemma BirthsKept(cfg: Config, w: World, op: Op)
    requires Agrees(w.store) && BirthsOk(w) && (op.Deliver? ==> op.id !in w.born)
    ensures BirthsOk(Stored(w, cfg, op))
  {
    var w' := Stored(w, cfg, op);
    forall n, i | n in w'.store.boxes && 0 <= i < |w'.store.boxes[n]|
      ensures w'.store.boxes[n][i].id in w'.born
      ensures w'.born[w'.store.boxes[n][i].id].(read := w'.store.boxes[n][i].read) == w'.store.boxes[n][i]
    {
      ApplyMembers(w.store, cfg.limits, op, n, i);
    }
  }

  /** A change of the store leaves every session as sound as it was. */
  lemma StoredKeeps(cfg: Config, w: World, op: Op)
    requires Inv(cfg, w) && (op.Deliver? ==> op.id !in w.born)
    ensures Inv(cfg, Stored(w, cfg, op))
  {
    ApplyAgrees(w.store, cfg.limits, op);
    BirthsKept(cfg, w, op);
    var w' := Stored(w, cfg, op);
    assert w'.store.byID.Keys <= w.store.byID.Keys + (w'.born.Keys - w.born.Keys);
    forall k | k in w'.sessions ensures SessionOk(w', w'.sessions[k]) {
      assert SessionOk(w, w.sessions[k]);
    }
  }

  /** Replacing one session and the lock table with it. */
  lemma PutKeeps(cfg: Config, w: World, k: nat, s: Session, locks: set<string>)
    requires Inv(cfg, w) && SessionOk(w, s)
    requires cfg.exclusiveLock && s.locked ==>
               forall j | j in w.sessions && j != k && w.sessions[j].locked :: w.sessions[j].mailbox != s.mailbox
    requires LockTable(cfg, Put(w, k, s).(locks := locks))
    ensures Inv(cfg, Put(w, k, s).(locks := locks))
  {
    var w' := Put(w, k, s).(locks := locks);
    forall j | j in w'.sessions ensures SessionOk(w', w'.sessions[j]) {
      assert j != k ==> SessionOk(w, w.sessions[j]);
    }
  }

  /** The session is new or holds what it held. */
  lemma KeepsHold(cfg: Config, w: World, k: nat, s: Session)
    requires Inv(cfg, w) && SessionOk(w, s)
    requires if k in w.sessions then s.locked == w.sessions[k].locked && (s.locked ==> s.mailbox == w.sessions[k].mailbox)
             else !s.locked
    ensures Inv(cfg, Put(w, k, s))
  {
    var w' := Put(w, k, s);
    if cfg.exclusiveLock {
      forall m | m in w'.locks ensures exists j :: j in w'.sessions && w'.sessions[j].locked && w'.sessions[j].mailbox == m {
        var j :| j in w.sessions && w.sessions[j].locked && w.sessions[j].mailbox == m;
        assert j in w'.sessions && w'.sessions[j].locked && w'.sessions[j].mailbox == m;
      }
    }
    PutKeeps(cfg, w, k, s, w.locks);
    assert w'.(locks := w.locks) == w';
  }

  lemma TakesHold(cfg: Config, w: World, k: nat, s: Session)
    requires Inv(cfg, w) && SessionOk(w, s) && k in w.sessions
    requires !w.sessions[k].locked && s.locked && Lockable(cfg, w.locks, s.mailbox)
    ensures Inv(cfg, Put(w, k, s).(locks := Taken(cfg, w.locks, s.mailbox)))
  {
    var w' := Put(w, k, s).(locks := Taken(cfg, w.locks, s.mailbox));
    if cfg.exclusiveLock {
      forall m | m in w'.locks ensures exists j :: j in w'.sessions && w'.sessions[j].locked && w'.sessions[j].mailbox == m {
        if m == s.mailbox {
          assert k in w'.sessions && w'.sessions[k].locked && w'.sessions[k].mailbox == m;
        } else {
          var j :| j in w.sessions && w.sessions[j].locked && w.sessions[j].mailbox == m;
          assert j in w'.sessions && w'.sessions[j].locked && w'.sessions[j].mailbox == m;
        }
      }
    }
    PutKeeps(cfg, w, k, s, Taken(cfg, w.locks, s.mailbox));
  }

  lemma LetsGo(cfg: Config, w: World, k: nat, s: Session)
    requires Inv(cfg, w) && SessionOk(w, s) && k in w.sessions && !s.locked
    ensures Inv(cfg, Put(w, k, s).(locks := Released(cfg, w.locks, w.sessions[k])))
  {
    var locks := Released(cfg, w.locks, w.sessions[k]);
    var w' := Put(w, k, s).(locks := locks);
    if cfg.exclusiveLock {
      forall m | m in locks ensures exists j :: j in w'.sessions && w'.sessions[j].locked && w'.sessions[j].mailbox == m {
        var j :| j in w.sessions && w.sessions[j].locked && w.sessions[j].mailbox == m;
        assert j != k;
        assert j in w'.sessions && w'.sessions[j].locked && w'.sessions[j].mailbox == m;
      }
    }
    PutKeeps(cfg, w, k, s, locks);
  }

  lemma OpenedIsFine(cfg: Config, w: World, s: Session)
    requires Inv(cfg, w) && SessionOk(w, s) && s.phase.Opening?
    ensures SessionOk(w, OpenTurn(w.store, s).session)
  {
    if s.mailbox in w.store.boxes {
      assert BoxAgrees(w.store, s.mailbox);
    }
  }

  lemma PassedEntry(w: World, s: Session)
    requires SessionOk(w, s) && s.phase.Updating? && s.phase.next < |s.entries|
    requires s.entries[s.phase.next].deleted ==> s.entries[s.phase.next].id !in w.store.byID
    ensures forall present :: SessionOk(w, Removed(present, s))
  {
  }

  lemma DeletedIsGone(s: State, limits: Limits, id: ID)
    requires Agrees(s)
    ensures id !in Apply(s, limits, Delete(id)).byID
  {
  }

  lemma RemoveKeeps(cfg: Config, w: World, k: nat)
    requires Inv(cfg, w) && Enabled(w, Action.Remove(k))
    ensures Inv(cfg, Next(cfg, w, Action.Remove(k)))
  {
    var s := w.sessions[k];
    var e := s.entries[s.phase.next];
    var v := if e.deleted then Stored(w, cfg, Delete(e.id)) else w;
    if e.deleted {
      StoredKeeps(cfg, w, Delete(e.id));
      DeletedIsGone(w.store, cfg.limits, e.id);
    }
    assert SessionOk(v, v.sessions[k]);
    PassedEntry(v, s);
    KeepsHold(cfg, v, k, Removed(w.store, s));
  }

  /** Steps that leave the lock table alone. */
  lemma TurnKeeps(cfg: Config, w: World, a: Action)
    requires Inv(cfg, w) && Enabled(w, a)
    requires a.User? || a.Dele? || a.Rset? || a.Quit?
    ensures Inv(cfg, Next(cfg, w, a))
  {
    assert SessionOk(w, w.sessions[a.k]);
    match a
    case User(k, arg) => KeepsHold(cfg, w, k, UserTurn(w.sessions[k], arg).session);
    case Dele(k, arg) => KeepsHold(cfg, w, k, DeleTurn(w.sessions[k], arg).session);
    case Rset(k) => KeepsHold(cfg, w, k, RsetTurn(w.sessions[k]).session);
    case Quit(k) => KeepsHold(cfg, w, k, Quitting(w.sessions[k]));
  }

  lemma PassKeeps(cfg: Config, w: World, k: nat, password: string)
    requires Inv(cfg, w) && Enabled(w, Action.Pass(k, password))
    ensures Inv(cfg, Next(cfg, w, Action.Pass(k, password)))
  {
    assert SessionOk(w, w.sessions[k]);
    var s := PassTurn(cfg, w.store.boxes.Keys, w.locks, w.sessions[k], password).session;
    if s.phase.Opening? {
      TakesHold(cfg, w, k, s);
    } else {
      KeepsHold(cfg, w, k, s);
    }
  }

  /** Steps that may give a lock back. */
  lemma ReleaseKeeps(cfg: Config, w: World, a: Action)
    requires Inv(cfg, w) && Enabled(w, a)
    requires a.Open? || a.Stls? || a.SignOff? || a.Drop?
    ensures Inv(cfg, Next(cfg, w, a))
  {
    assert SessionOk(w, w.sessions[a.k]);
    match a
    case Open(k) =>
      OpenedIsFine(cfg, w, w.sessions[k]);
      var s := OpenTurn(w.store, w.sessions[k]).session;
      if s.transaction {
        KeepsHold(cfg, w, k, s);
      } else {
        LetsGo(cfg, w, k, s);
      }
    case Stls(k, handshake) =>
      var s := StlsTurn(cfg, w.sessions[k], handshake).session;
      if s.phase.Closed? {
        LetsGo(cfg, w, k, s);
      } else {
        KeepsHold(cfg, w, k, s);
      }
    case SignOff(k) => LetsGo(cfg, w, k, SignOffTurn(w.sessions[k]).session);
    case Drop(k) => LetsGo(cfg, w, k, Dropped(w.sessions[k]));
  }

  /** Every single step of any session, and every step outside, keeps the invariant. */
  lemma NextKeeps(cfg: Config, w: World, a: Action)
    requires Inv(cfg, w)
    ensures Inv(cfg, Next(cfg, w, a))
  {
    if Enabled(w, a) {
      match a
      case Connect(k, tls) => KeepsHold(cfg, w, k, NewSession(tls));
      case Pass(k, password) => PassKeeps(cfg, w, k, password);
      case Remove(k) => RemoveKeeps(cfg, w, k);
      case Outside(op) => StoredKeeps(cfg, w, op);
      case User(_, _) => TurnKeeps(cfg, w, a);
      case Dele(_, _) => TurnKeeps(cfg, w, a);
      case Rset(_) => TurnKeeps(cfg, w, a);
      case Quit(_) => TurnKeeps(cfg, w, a);
      case Open(_) => ReleaseKeeps(cfg, w, a);
      case Stls(_, _) => ReleaseKeeps(cfg, w, a);
      case SignOff(_) => ReleaseKeeps(cfg, w, a);
      case Drop(_) => ReleaseKeeps(cfg, w, a);
    }
  }

  /** Over every run: the lock table is the set of mailboxes held, and each has one holder. */
  lemma {:induction false} RunKeeps(cfg: Config, w: World, acts: seq<Action>)
    requires Inv(cfg, w)
    ensures Inv(cfg, After(cfg, w, acts))
  {
    if acts != [] {
      RunKeeps(cfg, w, acts[..|acts| - 1]);
      NextKeeps(cfg, After(cfg, w, acts[..|acts| - 1]), acts[|acts| - 1]);
    }
  }
}

/** The POP3 handlers as they run, tied to the turns of the value-level sessions. */
module Pop3Server {
  import opened Bytes
  import opened Sequences
  import opened Text
  import opened Wire
  import opened WireIO
  import opened StoreModel
  import opened Maildrop
  import opened Mailboxes
  import opened Stores
  import opened Running
  import P = Pop3

  class Server {
    const cfg: P.Config
    const store: Store
    var locks: set<string>

    constructor (cfg: P.Config, store: Store)
      ensures this.cfg == cfg && this.store == store && locks == {}
    {
      this.cfg, this.store, locks := cfg, store, {};
    }

    method Lock(mailbox: string) returns (ok: bool)
      modifies this
      ensures ok == P.Lockable(cfg, old(locks), mailbox)
      ensures locks == if ok then P.Taken(cfg, old(locks), mailbox) else old(locks)
    {
      if !cfg.exclusiveLock {
        return true;
      }
      if mailbox in locks {
        return false;
      }
      locks := locks + {mailbox};
      return true;
    }

    method Unlock(mailbox: string)
      modifies this
      ensures locks == P.Freed(cfg, old(locks), mailbox)
    {
      if !cfg.exclusiveLock {
        return;
      }
      locks := locks - {mailbox};
    }
  }

  /** One message of a frozen view; the stored message itself is shared. */
  class ViewEntry {
    const msg: Message
    var deleted: bool

    constructor (msg: Message)
      ensures this.msg == msg && !deleted
    {
      this.msg, deleted := msg, false;
    }

    function Value(): Entry
      reads this
    {
      Entry(msg.id, msg.raw, deleted)
    }
  }

  /** A row of LIST or of UIDL. */
  datatype Row = Octets(number: nat, octets: nat) | UniqueID(number: nat, id: ID)

  function RowOf(line: ScanLine, uidl: bool): Row {
    if uidl then UniqueID(line.number, line.id) else Octets(line.number, line.octets)
  }

  function Rows(lines: seq<ScanLine>, uidl: bool): (r: seq<Row>)
    ensures |r| == |lines| && forall i | 0 <= i < |lines| :: r[i] == RowOf(lines[i], uidl)
  {
    seq(|lines|, i requires 0 <= i < |lines| => RowOf(lines[i], uidl))
  }

  datatype ListReply = Refused(reason: P.Reason) | One(row: Row) | All(rows: seq<Row>)

  function Listed(s: P.Session, arg: string, uidl: bool): ListReply {
    if !s.transaction then Refused(P.AuthenticateFirst)
    else if TrimSpace(arg) == "" then All(Rows(Scanned(s.entries), uidl))
    else ListedOne(s.entries, arg, uidl)
  }

  function ListedOne(entries: seq<Entry>, arg: string, uidl: bool): ListReply {
    match Resolve(entries, arg)
    case Err(e) => Refused(P.BadLookup(e))
    case Ok(at) => One(RowOf(ScanLine(at + 1, entries[at].id, Size(entries[at].raw)), uidl))
  }

  class Connection {
    const srv: Server
    var tls: bool
    var username: string
    var mailbox: string
    var locked: bool
    var transaction: bool
    var entries: seq<ViewEntry>

    constructor (srv: Server, tls: bool)
      ensures this.srv == srv && entries == [] && Value() == P.NewSession(tls)
    {
      this.srv, this.tls, username, mailbox, locked, transaction, entries := srv, tls, "", "", false, false, [];
    }

    ghost function View(): (v: seq<Entry>)
      reads this, entries
      ensures |v| == |entries|
      ensures forall i | 0 <= i < |entries| :: v[i] == Entry(entries[i].msg.id, entries[i].msg.raw, entries[i].deleted)
    {
      seq(|entries|, i requires 0 <= i < |entries| reads this, entries =>
        Entry(entries[i].msg.id, entries[i].msg.raw, entries[i].deleted))
    }

    /** The session between two commands. */
    ghost function Value(): P.Session
      reads this, entries
    {
      P.Session(tls, username, mailbox, locked, transaction, View(), P.Ready)
    }

    /** Nobody has touched the session or its entries. */
    twostate lemma Untouched()
      requires unchanged(this) && forall e | e in entries :: unchanged(e)
      ensures Value() == old(Value())
    {
      forall i | 0 <= i < |entries| ensures View()[i] == old(View())[i] {
        assert entries[i] in entries;
      }
      assert View() == old(View());
    }

    method HandleUser(arg: string) returns (reply: P.Reply)
      modifies this
      ensures P.Turn(Value(), reply) == P.UserTurn(old(Value()), arg) && entries == old(entries)
    {
      if transaction {
        return P.Negative(P.AlreadyAuthenticated);
      }
      if TrimSpace(arg) == "" {
        return P.Negative(P.NameRequired);
      }
      username := TrimSpace(arg);
      return P.Positive([]);
    }

    method Release()
      modifies this, srv
      ensures srv.locks == P.Released(srv.cfg, old(srv.locks), old(Value()))
      ensures Value() == old(Value()).(locked := false) && entries == old(entries)
    {
      if locked {
        srv.Unlock(mailbox);
        locked := false;
      }
    }

    method Figures() returns (count: nat, octets: nat)
      ensures Stats(View()) == Maildrop.Figures(count, octets)
    {
      count, octets := 0, 0;
      ghost var view := View();
      for i := 0 to |entries|
        invariant Stats(view[..i]) == Maildrop.Figures(count, octets)
      {
        assert view[..i + 1][..i] == view[..i];
        if !entries[i].deleted {
          var size := CrlfSize(entries[i].msg.raw);
          count := count + 1;
          octets := octets + size;
        }
      }
      assert view[..|entries|] == view;
    }

    method HandleStat() returns (reply: P.Reply)
      ensures reply == if !transaction then P.Negative(P.AuthenticateFirst) else P.Positive(P.FiguresOf(View()))
    {
      if !transaction {
        return P.Negative(P.AuthenticateFirst);
      }
      var count, octets := Figures();
      return P.Positive([count, octets]);
    }

    method HandleList(arg: string, uidl: bool) returns (reply: ListReply)
      ensures reply == Listed(Value(), arg, uidl)
    {
      if !transaction {
        return Refused(P.AuthenticateFirst);
      }
      if TrimSpace(arg) != "" {
        reply := ListOne(arg, uidl);
        return;
      }
      var rows := ListRows(uidl);
      return All(rows);
    }

    method ListOne(arg: string, uidl: bool) returns (reply: ListReply)
      ensures reply == ListedOne(View(), arg, uidl)
    {
      var r := Find(arg);
      if r.Err? {
        return Refused(P.BadLookup(r.error));
      }
      var size := CrlfSize(entries[r.value].msg.raw);
      return One(if uidl then UniqueID(r.value + 1, entries[r.value].msg.id) else Octets(r.value + 1, size));
    }

    method ListRows(uidl: bool) returns (rows: seq<Row>)
      ensures rows == Rows(Scanned(View()), uidl)
    {
      rows := [];
      ghost var view := View();
      for i := 0 to |entries|
        invariant rows == Rows(Scanned(view[..i]), uidl)
      {
        ghost var before := Scanned(view[..i]);
        assert view[..i + 1][..i] == view[..i];
        if entries[i].deleted {
          assert Scanned(view[..i + 1]) == before + [];
        } else {
          var size := CrlfSize(entries[i].msg.raw);
          rows := rows + [if uidl then UniqueID(i + 1, entries[i].msg.id) else Octets(i + 1, size)];
          assert Scanned(view[..i + 1]) == before + [ScanLine(i + 1, view[i].id, size)];
        }
      }
      assert view[..|entries|] == view;
    }

    /** Resolves a message number in the frozen view. */
    method Find(arg: string) returns (r: Result<nat, LookupError>)
      ensures r == Resolve(View(), arg)
    {
      var number := Atoi(TrimSpace(arg));
      if number.None? {
        return Err(InvalidNumber);
      }
      if number.value < 1 || number.value > |entries| {
        return Err(NoSuchMessage(number.value));
      }
      if entries[number.value - 1].deleted {
        return Err(MarkedForDeletion(number.value));
      }
      return Ok(number.value - 1);
    }

    /** RETR announces the octets it then sends, terminator aside. */
    method HandleRetr(arg: string, sink: LineSink) returns (reply: P.Reply)
      modifies sink
      ensures !transaction ==> reply == P.Negative(P.AuthenticateFirst) && sink.out == old(sink.out)
      ensures transaction ==>
                match Resolve(View(), arg)
                case Err(e) => reply == P.Negative(P.BadLookup(e)) && sink.out == old(sink.out)
                case Ok(at) =>
                  && reply == P.Positive([Size(View()[at].raw)])
                  && sink.out == old(sink.out) + RetrWire(View()[at].raw)
    {
      if !transaction {
        return P.Negative(P.AuthenticateFirst);
      }
      var r := Find(arg);
      if r.Err? {
        return P.Negative(P.BadLookup(r.error));
      }
      var raw := entries[r.value].msg.raw;
      var size := CrlfSize(raw);
      sink.WriteDotStuffed(raw, -1);
      return P.Positive([size]);
    }

    method HandleDele(arg: string) returns (reply: P.Reply)
      requires Distinct(entries)
      modifies entries
      ensures P.Turn(Value(), reply) == P.DeleTurn(old(Value()), arg)
    {
      if !transaction {
        return P.Negative(P.AuthenticateFirst);
      }
      var r := Find(arg);
      if r.Err? {
        return P.Negative(P.BadLookup(r.error));
      }
      entries[r.value].deleted := true;
      assert View() == Marked(old(View()), r.value);
      return P.Positive([r.value + 1]);
    }

    method HandleRset() returns (reply: P.Reply)
      requires Distinct(entries)
      modifies entries
      ensures P.Turn(Value(), reply) == P.RsetTurn(old(Value()))
    {
      if !transaction {
        return P.Negative(P.AuthenticateFirst);
      }
      for i := 0 to |entries|
        invariant forall j | 0 <= j < i :: !entries[j].deleted
      {
        entries[i].deleted := false;
      }
      assert View() == Unmarked(old(View()));
      var count, octets := Figures();
      return P.Positive([count, octets]);
    }

    /** The argument names a message and says how many lines of its body to send. */
    method HandleTop(args: string, sink: LineSink) returns (reply: TopReply)
      modifies sink
      ensures reply == TopTurn(Value(), args)
      ensures sink.out == match reply
              case Top(at, lines) =>
                old(sink.out) + Multiline(TopLines(SplitLines(View()[at].raw), lines))
              case _ => old(sink.out)
    {
      if !transaction {
        return TopRefused(P.AuthenticateFirst);
      }
      var fields := Fields(args);
      if |fields| != 2 {
        return BadTopArguments;
      }
      var r := Find(fields[0]);
      if r.Err? {
        return TopRefused(P.BadLookup(r.error));
      }
      var lines := Atoi(fields[1]);
      if lines.None? || lines.value < 0 {
        return BadTopArguments;
      }
      sink.WriteDotStuffed(entries[r.value].msg.raw, lines.value);
      return Top(r.value, lines.value);
    }

    /** A handshake that fails ends the connection; the lock then goes back as on any hang-up. */
    method HandleStls(handshake: bool) returns (reply: P.Reply, open: bool)
      modifies this
      ensures entries == old(entries) && reply == P.StlsTurn(srv.cfg, old(Value()), handshake).reply
      ensures open ==> P.Turn(Value(), reply) == P.StlsTurn(srv.cfg, old(Value()), handshake)
      ensures !open ==> Value() == old(Value()) && P.StlsTurn(srv.cfg, old(Value()), handshake).session == P.Dropped(Value())
    {
      if !srv.cfg.tlsAvailable {
        return P.Negative(P.NoTLS), true;
      }
      if tls {
        return P.Negative(P.TLSActive), true;
      }
      if !handshake {
        return P.Positive([]), false;
      }
      tls, username := true, "";
      return P.Positive([]), true;
    }

    /** Fills the view from a snapshot. */
    method FillView(messages: array<Message?>, ghost queue: seq<Message>)
      requires messages[..] == queue
      modifies this`entries
      ensures Distinct(entries) && (forall e | e in entries :: fresh(e))
      ensures View() == Opened(Values(queue))
    {
      entries := [];
      for i := 0 to messages.Length
        invariant |entries| == i && Distinct(entries) && forall e | e in entries :: fresh(e)
        invariant forall j | 0 <= j < i :: entries[j].msg == queue[j] && !entries[j].deleted
      {
        assert messages[i] == queue[i];
        var e := new ViewEntry(messages[i]);
        entries := entries + [e];
      }
    }

    /** Filling the view leaves the store as it is. */
    method FillBeside(messages: array<Message?>, ghost queue: seq<Message>)
      requires srv.store.Open() && messages[..] == queue
      modifies this`entries
      ensures srv.store.Open() && srv.store.state == old(srv.store.state)
      ensures Distinct(entries) && (forall e | e in entries :: fresh(e))
      ensures View() == Opened(old(Values(queue)))
    {
      FillView(messages, queue);
      srv.store.StillOpen();
    }

    method OpenPresent()
      requires srv.store.Open() && mailbox in srv.store.boxes
      modifies this`entries
      ensures srv.store.Open() && srv.store.state == old(srv.store.state) && mailbox in srv.store.state.boxes
      ensures Distinct(entries) && (forall e | e in entries :: fresh(e))
      ensures View() == Opened(srv.store.state.boxes[mailbox])
    {
      ghost var queue;
      var frozen;
      frozen, queue := SnapshotOf(srv.store, mailbox, {});
      FillBeside(frozen, queue);
    }

    /** The second half of PASS. */
    method OpenView() returns (ok: bool)
      requires srv.store.Open()
      modifies this`entries
      ensures srv.store.Open() && srv.store.state == old(srv.store.state)
      ensures ok <==> mailbox in srv.store.state.boxes
      ensures ok ==> Distinct(entries) && (forall e | e in entries :: fresh(e))
      ensures ok ==> View() == Opened(srv.store.state.boxes[mailbox])
      ensures !ok ==> View() == old(View()) && entries == old(entries)
    {
      if mailbox !in srv.store.boxes {
        return false;
      }
      OpenPresent();
      return true;
    }

    /** The session while PASS holds the lock and has no view yet. */
    ghost function Entering(): P.Session
      reads this, entries
    {
      Value().(phase := P.Opening)
    }

    /** The first half of PASS; no reply yet means that the mailbox is locked. */
    method TryLock(password: string) returns (reply: P.Reply)
      modifies this, srv
      ensures View() == old(View()) && entries == old(entries)
      ensures var t := P.PassTurn(srv.cfg, srv.store.boxes.Keys, old(srv.locks), old(Value()), password);
              && reply == t.reply
              && (if t.session.phase.Opening? then Entering() else Value()) == t.session
              && srv.locks == if t.session.phase.Opening? then P.Taken(srv.cfg, old(srv.locks), t.session.mailbox)
                              else old(srv.locks)
    {
      if transaction {
        return P.Negative(P.AlreadyAuthenticated);
      }
      if username == "" {
        return P.Negative(P.UserFirst);
      }
      if !CredentialsValid(srv.cfg.username, srv.cfg.password, username, password) {
        username := "";
        return P.Negative(P.BadCredentials);
      }
      mailbox := P.MailboxFor(srv.cfg, srv.store.boxes.Keys, username);
      var ok := srv.Lock(mailbox);
      if !ok {
        username := "";
        return P.Negative(P.InUse);
      }
      locked := true;
      return P.Silence;
    }

    /** The second half of PASS: the view is frozen, or the lock goes back. */
    method Enter() returns (reply: P.Reply)
      requires srv.store.Open() && locked && !transaction
      modifies this, srv
      ensures srv.store.Open() && srv.store.state == old(srv.store.state)
      ensures P.Turn(Value(), reply) == P.OpenTurn(srv.store.state, old(Entering()))
      ensures srv.locks == if transaction then old(srv.locks) else P.Released(srv.cfg, old(srv.locks), old(Value()))
      ensures entries == old(entries) || (Distinct(entries) && forall e | e in entries :: fresh(e))
    {
      ghost var s := Entering();
      var ok := OpenView();
      ghost var v := Value();
      assert v == s.(phase := P.Ready, entries := View());
      reply := SettleBeside(ok);
      assert View() == v.entries;
    }

    method SettleBeside(ok: bool) returns (reply: P.Reply)
      requires srv.store.Open() && locked && !transaction
      modifies this, srv
      ensures srv.store.Open() && srv.store.state == old(srv.store.state)
      ensures entries == old(entries) && View() == old(View())
      ensures ok ==> Value() == old(Value()).(transaction := true) && srv.locks == old(srv.locks)
      ensures ok ==> reply == P.Positive(P.FiguresOf(View()))
      ensures !ok ==> Value() == old(Value()).(locked := false) && reply == P.Negative(P.CannotOpen)
      ensures !ok ==> srv.locks == P.Released(srv.cfg, old(srv.locks), old(Value()))
    {
      reply := Settle(ok);
      srv.store.StillOpen();
    }

    method Settle(ok: bool) returns (reply: P.Reply)
      requires locked && !transaction
      modifies this, srv
      ensures entries == old(entries) && View() == old(View())
      ensures ok ==> Value() == old(Value()).(transaction := true) && srv.locks == old(srv.locks)
      ensures ok ==> reply == P.Positive(P.FiguresOf(View()))
      ensures !ok ==> Value() == old(Value()).(locked := false) && reply == P.Negative(P.CannotOpen)
      ensures !ok ==> srv.locks == P.Released(srv.cfg, old(srv.locks), old(Value()))
    {
      if !ok {
        Release();
        return P.Negative(P.CannotOpen);
      }
      transaction := true;
      var count, octets := Figures();
      return P.Positive([count, octets]);
    }

    /** The session shares no object with the store but the messages it shows. */
    ghost predicate Apart()
      requires srv.store.Sound()
      reads this, srv.store, srv.store.boxes.Values, srv.store.Arrays()
    {
      this !in Reach(srv.store) && srv !in Reach(srv.store) && forall e | e in entries :: e !in Reach(srv.store)
    }

    /** The store never reaches a session, a server or an entry: they are objects of other classes. */
    lemma AlwaysApart()
      requires srv.store.Sound()
      ensures Apart()
    {
    }

    /** Deleting from the store leaves the view alone. */
    method RemoveStored(id: ID, ghost start: set<object>) returns (found: bool)
      requires srv.store.Open() && Apart() && Reach(srv.store) <= start
      modifies Reach(srv.store)
      ensures srv.store.Open() && srv.store.state == Apply(old(srv.store.state), srv.store.limits, Delete(id))
      ensures found <==> id in old(srv.store.state).byID
      ensures Apart() && Reach(srv.store) <= start && unchanged(this)
      ensures View() == old(View()) && entries == old(entries)
    {
      ghost var reach := Reach(srv.store);
      assert this !in reach && srv !in reach && forall e | e in entries :: e !in reach;
      found := DeleteNext(srv.store, id);
      assert entries == old(entries) && Reach(srv.store) <= reach;
    }

    /** One round of the loop. */
    method SweepEntry(e: ViewEntry, ghost v: Entry, ghost s: State, ghost start: set<object>) returns (found: bool)
      requires srv.store.Open() && Apart() && Reach(srv.store) <= start
      requires v == e.Value() && s == srv.store.state
      modifies Reach(srv.store)
      ensures srv.store.Open() && Apart() && Reach(srv.store) <= start && unchanged(this)
      ensures View() == old(View()) && entries == old(entries)
      ensures srv.store.state == AfterEntry(s, srv.store.limits, v)
      ensures Hits(s, v) == if found then 1 else 0
    {
      found := false;
      if e.deleted {
        found := RemoveStored(e.msg.id, start);
      }
    }

    /** Deletes what is marked, entry by entry, and counts what was still there. */
    method Sweep() returns (removed: nat)
      requires srv.store.Open() && Apart()
      modifies Reach(srv.store)
      ensures srv.store.Open()
      ensures srv.store.state == Swept(old(srv.store.state), srv.store.limits, View())
      ensures removed == Found(old(srv.store.state), srv.store.limits, View())
      ensures View() == old(View())
    {
      removed := 0;
      ghost var start, view, s := Reach(srv.store), View(), srv.store.state;
      for i := 0 to |entries|
        invariant srv.store.Open() && Apart() && Reach(srv.store) <= start
        invariant View() == view && entries == old(entries)
        invariant srv.store.state == Swept(s, srv.store.limits, view[..i])
        invariant removed == Found(s, srv.store.limits, view[..i])
      {
        SweptNext(s, srv.store.limits, view, i);
        assert view[i] == entries[i].Value();
        var found := SweepEntry(entries[i], view[i], srv.store.state, start);
        if found {
          removed := removed + 1;
        }
      }
      assert view[..|entries|] == view;
    }

    /** QUIT enters UPDATE, gives the lock back and reports how many messages it removed. */
    method HandleQuit() returns (reply: P.Reply)
      requires srv.store.Open()
      modifies this, srv, Reach(srv.store)
      ensures !locked && srv.locks == P.Released(srv.cfg, old(srv.locks), old(Value()))
      ensures srv.store.state
              == if old(transaction) then Swept(old(srv.store.state), srv.store.limits, old(View())) else old(srv.store.state)
      ensures reply == P.Positive([if old(transaction) then Found(old(srv.store.state), srv.store.limits, old(View())) else 0])
    {
      AlwaysApart();
      var removed := 0;
      if transaction {
        removed := Sweep();
      }
      Release();
      return P.Positive([removed]);
    }
  }

  datatype TopReply = Top(at: nat, lines: nat) | TopRefused(reason: P.Reason) | BadTopArguments

  function TopTurn(s: P.Session, args: string): (r: TopReply)
    ensures r.Top? ==> r.at < |s.entries|
  {
    var fields := Fields(args);
    if !s.transaction then TopRefused(P.AuthenticateFirst)
    else if |fields| != 2 then BadTopArguments
    else
      match Resolve(s.entries, fields[0])
      case Err(e) => TopRefused(P.BadLookup(e))
      case Ok(at) =>
        match Atoi(fields[1])
        case None => BadTopArguments
        case Some(lines) => if lines < 0 then BadTopArguments else Top(at, lines)
  }
}

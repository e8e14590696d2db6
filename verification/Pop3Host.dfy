/**
 A POP3 server with all its connections: every step of every handler, in whatever order
 they come, does what the value-level sessions do.
 */
module Pop3Host {
  import opened Bytes
  import opened Sequences
  import opened StoreModel
  import opened Maildrop
  import opened Stores
  import opened Running
  import opened Pop3Server
  import P = Pop3

  /** PASS gives no reply exactly when it goes on with the mailbox locked. */
  lemma PassShape(cfg: P.Config, names: set<string>, locks: set<string>, s: P.Session, password: string)
    requires s.phase.Ready?
    ensures var t := P.PassTurn(cfg, names, locks, s, password);
            t.session.phase == if t.reply.Silence? then P.Opening else P.Ready
  {
  }

  /** The store is open: one fact, taken apart only where that is needed. */
  ghost predicate Alive(store: Store)
    reads store, store.boxes.Values, store.Arrays(), store.hub
    reads if store.Sound() then Everything(store.All()) else {}
    reads if store.persist != null then {store.persist} else {}
  {
    forall x: int :: AliveAt(store, x)
  }

  ghost predicate AliveAt(store: Store, x: int)
    reads store, store.boxes.Values, store.Arrays(), store.hub
    reads if store.Sound() then Everything(store.All()) else {}
    reads if store.persist != null then {store.persist} else {}
  {
    store.Open()
  }

  lemma IsOpen(store: Store)
    requires Alive(store)
    ensures store.Open()
  {
    assert AliveAt(store, 0);
  }

  lemma IsAlive(store: Store)
    requires store.Open()
    ensures Alive(store)
  {
  }

  /** What the store reaches. */
  ghost function Area(store: Store): set<object>
    reads store, store.boxes.Values, store.Arrays()
  {
    if store.Sound() then Reach(store) else {}
  }

  twostate lemma QueuesUntouched(store: Store)
    requires old(store.Open()) && unchanged(old(Area(store)))
    ensures unchanged(store) && store.SameQueues() && store.SameOutside()
  {
    assert store in old(Area(store));
    forall n | n in store.boxes ensures unchanged(store.boxes[n]) && unchanged(store.boxes[n].messages) {
      assert store.boxes[n] in store.boxes.Values;
      assert store.boxes[n] in old(Area(store));
      assert old(store.boxes[n].messages) in old(store.Arrays());
    }
  }

  twostate lemma MessagesUntouched(store: Store)
    requires old(store.Open()) && unchanged(old(Area(store)))
    ensures forall m | m in old(Everything(store.All())) :: unchanged(m)
  {
    forall m | m in old(Everything(store.All())) ensures unchanged(m) {
      var n :| n in store.boxes && m in old(store.All())[n];
      assert old(QueueFits(store.All()[n], n, store.byID));
      assert m in old(store.byID).Values;
    }
  }

  /** Nobody has touched anything the store reaches. */
  twostate lemma Stays(store: Store)
    requires old(Alive(store)) && unchanged(old(Area(store)))
    ensures Alive(store) && Area(store) == old(Area(store)) && store.state == old(store.state)
  {
    assert old(AliveAt(store, 0));
    QueuesUntouched(store);
    MessagesUntouched(store);
    store.StillOpen();
    ReachKept(store);
    IsAlive(store);
  }

  /** One connection and where its handler stands. */
  class Handler {
    const conn: Connection
    var phase: P.Phase

    constructor (conn: Connection)
      requires conn.entries == []
      ensures this.conn == conn && phase == P.Ready && Tidy()
    {
      this.conn, phase := conn, P.Ready;
    }

    ghost function Session(): P.Session
      reads this, conn, conn.entries
    {
      conn.Value().(phase := phase)
    }

    ghost predicate Tidy()
      reads conn
    {
      Distinct(conn.entries)
    }

    /** None of these objects is touched by a step of the session. */
    ghost predicate Clear(area: set<object>)
      reads conn
    {
      this !in area && conn !in area && conn.srv !in area && forall e | e in conn.entries :: e !in area
    }

    /** The entries are the ones there were, or new ones. */
    twostate predicate Renewed()
      reads conn
    {
      conn.entries == old(conn.entries) || forall e | e in conn.entries :: fresh(e)
    }

    method User(arg: string, ghost t: P.Turn, ghost area: set<object>) returns (reply: P.Reply)
      requires Tidy() && Clear(area) && phase.Ready? && t == P.UserTurn(Session(), arg)
      modifies conn
      ensures unchanged(area) && Tidy() && Renewed() && P.Turn(Session(), reply) == t
    {
      reply := conn.HandleUser(arg);
    }

    /** PASS up to the attempt to lock; without a reply it goes on. */
    method Pass(password: string, ghost t: P.Turn, ghost area: set<object>) returns (reply: P.Reply)
      requires Tidy() && Clear(area) && phase.Ready? && t == P.PassTurn(conn.srv.cfg, conn.srv.store.boxes.Keys, conn.srv.locks, Session(), password)
      modifies this, conn, conn.srv
      ensures unchanged(area) && Tidy() && Renewed() && P.Turn(Session(), reply) == t
      ensures conn.srv.locks == if t.session.phase.Opening? then P.Taken(conn.srv.cfg, old(conn.srv.locks), t.session.mailbox)
                                else old(conn.srv.locks)
    {
      PassShape(conn.srv.cfg, conn.srv.store.boxes.Keys, conn.srv.locks, Session(), password);
      reply := conn.TryLock(password);
      phase := if reply.Silence? then P.Opening else P.Ready;
    }

    /** The rest of PASS. */
    method Enter(ghost t: P.Turn, ghost area: set<object>) returns (reply: P.Reply)
      requires Alive(conn.srv.store) && Tidy() && Clear(area) && phase.Opening? && conn.locked && !conn.transaction
      requires t == P.OpenTurn(conn.srv.store.state, Session())
      modifies this, conn, conn.srv
      ensures unchanged(area) && Tidy() && Renewed() && P.Turn(Session(), reply) == t
      ensures conn.srv.locks == if t.session.transaction then old(conn.srv.locks)
                                else P.Released(conn.srv.cfg, old(conn.srv.locks), old(Session()))
    {
      assert Session() == conn.Entering();
      reply := EnterConn(area);
      label entered:
      phase := P.Ready;
      conn.Untouched@entered();
    }

    method EnterConn(ghost area: set<object>) returns (reply: P.Reply)
      requires Alive(conn.srv.store) && Tidy() && Clear(area) && conn.locked && !conn.transaction
      modifies conn, conn.srv
      ensures unchanged(area) && Tidy() && Renewed()
      ensures P.Turn(conn.Value(), reply) == P.OpenTurn(old(conn.srv.store.state), old(conn.Entering()))
      ensures conn.srv.locks == if conn.transaction then old(conn.srv.locks)
                                else P.Released(conn.srv.cfg, old(conn.srv.locks), old(conn.Value()))
    {
      IsOpen(conn.srv.store);
      reply := conn.Enter();
    }

    method Stls(handshake: bool, ghost t: P.Turn, ghost area: set<object>) returns (reply: P.Reply)
      requires Tidy() && Clear(area) && phase.Ready? && t == P.StlsTurn(conn.srv.cfg, Session(), handshake)
      modifies this, conn, conn.srv
      ensures unchanged(area) && Tidy() && Renewed() && P.Turn(Session(), reply) == t
      ensures conn.srv.locks == if t.session.phase.Closed? then P.Released(conn.srv.cfg, old(conn.srv.locks), old(Session()))
                                else old(conn.srv.locks)
    {
      var open;
      reply, open := conn.HandleStls(handshake);
      if !open {
        conn.Release();
        phase := P.Closed(None);
      }
    }

    method Dele(arg: string, ghost t: P.Turn, ghost area: set<object>) returns (reply: P.Reply)
      requires Tidy() && Clear(area) && phase.Ready? && t == P.DeleTurn(Session(), arg)
      modifies conn.entries
      ensures unchanged(area) && Tidy() && Renewed() && P.Turn(Session(), reply) == t
    {
      reply := conn.HandleDele(arg);
    }

    method Rset(ghost t: P.Turn, ghost area: set<object>) returns (reply: P.Reply)
      requires Tidy() && Clear(area) && phase.Ready? && t == P.RsetTurn(Session())
      modifies conn.entries
      ensures unchanged(area) && Tidy() && Renewed() && P.Turn(Session(), reply) == t
    {
      reply := conn.HandleRset();
    }

    /** QUIT enters the loop over the entries, which without a transaction is behind them at once. */
    method Quit(ghost t: P.Session, ghost area: set<object>)
      requires Tidy() && Clear(area) && phase.Ready? && t == P.Quitting(Session())
      modifies this
      ensures unchanged(area) && Tidy() && Renewed() && Session() == t
    {
      phase := P.Updating(if conn.transaction then 0 else |conn.entries|, 0);
    }

    /** The end of QUIT: the lock goes back and the figure is reported. */
    method SignOff(ghost t: P.Turn, ghost area: set<object>) returns (reply: P.Reply)
      requires Tidy() && Clear(area) && phase.Updating? && t == P.SignOffTurn(Session())
      modifies this, conn, conn.srv
      ensures unchanged(area) && Tidy() && Renewed() && P.Turn(Session(), reply) == t
      ensures conn.srv.locks == P.Released(conn.srv.cfg, old(conn.srv.locks), old(Session()))
    {
      conn.Release();
      reply := P.Positive([phase.removed]);
      phase := P.Closed(Some(phase.removed));
    }

    /** The connection breaks. */
    method Drop(ghost t: P.Session, ghost area: set<object>)
      requires Tidy() && Clear(area) && phase.Ready? && t == P.Dropped(Session())
      modifies this, conn, conn.srv
      ensures unchanged(area) && Tidy() && Renewed() && Session() == t
      ensures conn.srv.locks == P.Released(conn.srv.cfg, old(conn.srv.locks), old(Session()))
    {
      conn.Release();
      phase := P.Closed(None);
    }

    /** The entry at hand goes from the store if it is marked. */
    method SweepNext(ghost v: Entry, ghost s: State, ghost start: set<object>) returns (found: bool)
      requires Alive(conn.srv.store) && phase.Updating? && phase.next < |conn.entries| && v == conn.entries[phase.next].Value()
      requires s == conn.srv.store.state && start == Area(conn.srv.store) && Clear(start)
      modifies start
      ensures Alive(conn.srv.store) && Area(conn.srv.store) <= start && unchanged(this) && unchanged(conn)
      ensures conn.View() == old(conn.View())
      ensures conn.srv.store.state == AfterEntry(s, conn.srv.store.limits, v) && Hits(s, v) == if found then 1 else 0
    {
      IsOpen(conn.srv.store);
      conn.AlwaysApart();
      found := conn.SweepEntry(conn.entries[phase.next], v, s, start);
      IsAlive(conn.srv.store);
    }

    method Advance(found: bool, ghost area: set<object>)
      requires Alive(conn.srv.store) && phase.Updating? && area == Area(conn.srv.store) && Clear(area)
      modifies this
      ensures Alive(conn.srv.store) && Area(conn.srv.store) == area && conn.srv.store.state == old(conn.srv.store.state)
      ensures unchanged(conn) && conn.View() == old(conn.View())
      ensures phase == P.Updating(old(phase).next + 1, old(phase).removed + if found then 1 else 0)
    {
      phase := P.Updating(phase.next + 1, phase.removed + if found then 1 else 0);
      Stays(conn.srv.store);
    }

    twostate lemma MovedOn()
      requires unchanged(conn) && conn.View() == old(conn.View())
      ensures Session() == old(Session()).(phase := phase)
    {
    }

    /** One round of QUIT's loop. */
    method Round(ghost v: Entry, ghost s: State, ghost was: P.Session, ghost start: set<object>)
      requires Alive(conn.srv.store) && phase.Updating? && phase.next < |conn.entries| && v == conn.entries[phase.next].Value()
      requires s == conn.srv.store.state && was == Session() && start == Area(conn.srv.store) && Clear(start)
      modifies this, start
      ensures Alive(conn.srv.store) && Area(conn.srv.store) <= start && unchanged(conn)
      ensures conn.srv.store.state == AfterEntry(s, conn.srv.store.limits, v)
      ensures Session() == was.(phase := P.Updating(was.phase.next + 1, was.phase.removed + Hits(s, v)))
    {
      Remove(v, s, start);
      MovedOn();
    }

    method Remove(ghost v: Entry, ghost s: State, ghost start: set<object>)
      requires Alive(conn.srv.store) && phase.Updating? && phase.next < |conn.entries| && v == conn.entries[phase.next].Value()
      requires s == conn.srv.store.state && start == Area(conn.srv.store) && Clear(start)
      modifies this, start
      ensures Alive(conn.srv.store) && Area(conn.srv.store) <= start && unchanged(conn) && conn.View() == old(conn.View())
      ensures phase == P.Updating(old(phase).next + 1, old(phase).removed + Hits(s, v))
      ensures conn.srv.store.state == AfterEntry(s, conn.srv.store.limits, v)
    {
      var found := SweepNext(v, s, start);
      Advance(found, Area(conn.srv.store));
    }
  }

  class Host {
    const srv: Server
    var handlers: map<nat, Handler>

    ghost function Conns(): set<Connection>
      reads this
    {
      set k | k in handlers :: handlers[k].conn
    }

    ghost function Entries(): set<ViewEntry>
      reads this, Conns()
    {
      assert forall k | k in handlers :: handlers[k].conn in Conns();
      set k, e | k in handlers && e in handlers[k].conn.entries :: e
    }

    /** Handlers of this server that share neither a connection nor an entry. */
    ghost predicate Tidy()
      reads this, Conns()
    {
      assert forall k | k in handlers :: handlers[k].conn in Conns();
      && (forall k | k in handlers :: handlers[k].conn.srv == srv && handlers[k].Tidy())
      && forall j, k | j in handlers && k in handlers && j != k ::
           && handlers[j] != handlers[k] && handlers[j].conn != handlers[k].conn
           && forall e | e in handlers[j].conn.entries :: e !in handlers[k].conn.entries
    }

    /** Every session as a value. */
    ghost function Sessions(): map<nat, P.Session>
      reads this, handlers.Values, Conns(), Entries()
    {
      assert forall k | k in handlers :: handlers[k].conn in Conns();
      assert forall k, e | k in handlers && e in handlers[k].conn.entries :: e in Entries();
      map k | k in handlers :: handlers[k].Session()
    }

    lemma SessionOf(k: nat)
      requires Tidy() && k in handlers
      ensures k in Sessions() && Sessions()[k] == handlers[k].Session()
      ensures handlers[k].conn.srv == srv && handlers[k].Tidy()
    {
    }

    constructor (srv: Server)
      ensures this.srv == srv && handlers == map[] && Tidy() && Sessions() == map[]
    {
      this.srv, handlers := srv, map[];
    }

    /** One handler has taken a step, and nothing has happened to any other. */
    twostate predicate Stepped(k: nat)
      reads this, handlers.Values, Conns(), Entries()
    {
      && handlers == old(handlers) && k in handlers
      && handlers[k].Tidy() && handlers[k].Renewed()
      && forall j | j in handlers && j != k ::
           unchanged(handlers[j]) && unchanged(handlers[j].conn) && forall e | e in handlers[j].conn.entries :: unchanged(e)
    }

    /** The same handlers, with new entries at most, and a store that reaches what it did. */
    twostate predicate Kept()
      reads this, handlers.Values, Conns(), srv.store, srv.store.boxes.Values, srv.store.Arrays()
    {
      handlers == old(handlers) && fresh(Entries() - old(Entries())) && Area(srv.store) == old(Area(srv.store))
    }

    twostate lemma StillTidy(k: nat)
      requires old(Tidy()) && Stepped(k)
      ensures Tidy()
    {
    }

    twostate lemma SessionMoved(k: nat)
      requires Stepped(k)
      ensures Sessions() == old(Sessions())[k := handlers[k].Session()]
    {
      forall j | j in handlers && j != k ensures handlers[j].Session() == old(handlers[j].Session()) {
        handlers[j].conn.Untouched();
      }
    }

    twostate lemma Arrived(k: nat)
      requires old(Tidy()) && Stepped(k)
      ensures Tidy() && Sessions() == old(Sessions())[k := handlers[k].Session()]
      ensures handlers == old(handlers) && fresh(Entries() - old(Entries()))
    {
      StillTidy(k);
      SessionMoved(k);
    }

    /** The running server is where the value-level one is. */
    ghost predicate Shows(w: P.World)
      reads this, srv, srv.store, handlers.Values, Conns(), Entries()
    {
      srv.locks == w.locks && srv.store.state == w.store && Sessions() == w.sessions
    }

    /** Ready for the next step, and where the value-level server is. */
    ghost predicate InOrder(w: P.World)
      reads this, srv, srv.store, srv.store.boxes.Values, srv.store.Arrays(), srv.store.hub
      reads handlers.Values, Conns(), Entries()
      reads if srv.store.Sound() then Everything(srv.store.All()) else {}
      reads if srv.store.persist != null then {srv.store.persist} else {}
    {
      Alive(srv.store) && Tidy() && Shows(w) && srv.store.limits == srv.cfg.limits
    }

    /** The store reaches no handler, no connection and no entry: they are objects of other classes. */
    lemma HostBeyondStore()
      ensures this !in Area(srv.store) && srv !in Area(srv.store) && handlers.Values !! Area(srv.store)
    {
    }

    lemma ConnsBeyondStore()
      ensures Conns() !! Area(srv.store) && Entries() !! Area(srv.store)
    {
    }

    lemma BeyondStore()
      ensures this !in Area(srv.store) && srv !in Area(srv.store)
      ensures handlers.Values !! Area(srv.store) && Conns() !! Area(srv.store) && Entries() !! Area(srv.store)
    {
      HostBeyondStore();
      ConnsBeyondStore();
    }

    lemma BeyondHandler(k: nat)
      requires Tidy() && k in handlers
      ensures handlers[k].Clear(Area(srv.store))
    {
      BeyondStore();
      assert handlers[k].conn in Conns() && handlers[k] in handlers.Values;
      forall e | e in handlers[k].conn.entries ensures e in Entries() {
      }
    }

    /** The store is as it was, and nothing it reaches has been touched. */
    twostate predicate StoreKept()
      reads srv.store, srv.store.boxes.Values, srv.store.Arrays(), srv.store.hub
      reads if srv.store.Sound() then Everything(srv.store.All()) else {}
      reads if srv.store.persist != null then {srv.store.persist} else {}
    {
      Alive(srv.store) && Area(srv.store) == old(Area(srv.store)) && srv.store.state == old(srv.store.state)
    }

    method UserAs(k: nat, arg: string, ghost t: P.Turn) returns (reply: P.Reply)
      requires Alive(srv.store) && Tidy() && k in handlers && handlers[k].phase.Ready?
      requires t == P.UserTurn(handlers[k].Session(), arg)
      modifies handlers[k].conn
      ensures StoreKept() && Stepped(k) && unchanged(srv) && P.Turn(handlers[k].Session(), reply) == t
    {
      SessionOf(k);
      BeyondHandler(k);
      reply := handlers[k].User(arg, t, Area(srv.store));
      Stays(srv.store);
    }

    method User(a: P.Action, ghost w: P.World) returns (reply: P.Reply)
      requires a.User? && InOrder(w) && P.Enabled(w, a) && a.k in handlers
      modifies handlers[a.k].conn
      ensures InOrder(P.Next(srv.cfg, w, a)) && Kept() && reply == P.ReplyTo(srv.cfg, w, a)
    {
      SessionOf(a.k);
      reply := UserAs(a.k, a.arg, P.UserTurn(w.sessions[a.k], a.arg));
      Arrived(a.k);
    }

    method PassAs(k: nat, password: string, ghost t: P.Turn) returns (reply: P.Reply)
      requires Alive(srv.store) && Tidy() && k in handlers && handlers[k].phase.Ready?
      requires t == P.PassTurn(srv.cfg, srv.store.boxes.Keys, srv.locks, handlers[k].Session(), password)
      modifies handlers[k], handlers[k].conn, srv
      ensures StoreKept() && Stepped(k) && P.Turn(handlers[k].Session(), reply) == t
      ensures srv.locks == if t.session.phase.Opening? then P.Taken(srv.cfg, old(srv.locks), t.session.mailbox) else old(srv.locks)
    {
      SessionOf(k);
      BeyondHandler(k);
      reply := handlers[k].Pass(password, t, Area(srv.store));
      Stays(srv.store);
    }

    method Pass(a: P.Action, ghost w: P.World) returns (reply: P.Reply)
      requires a.Pass? && InOrder(w) && P.Enabled(w, a) && a.k in handlers
      modifies handlers[a.k], handlers[a.k].conn, srv
      ensures InOrder(P.Next(srv.cfg, w, a)) && Kept() && reply == P.ReplyTo(srv.cfg, w, a)
    {
      SessionOf(a.k);
      BoxNames();
      reply := PassAs(a.k, a.password, P.PassTurn(srv.cfg, w.store.boxes.Keys, w.locks, w.sessions[a.k], a.password));
      Arrived(a.k);
    }

    method OpenAs(k: nat, ghost t: P.Turn) returns (reply: P.Reply)
      requires Alive(srv.store) && Tidy() && k in handlers && handlers[k].phase.Opening? && handlers[k].conn.locked && !handlers[k].conn.transaction
      requires t == P.OpenTurn(srv.store.state, handlers[k].Session())
      modifies handlers[k], handlers[k].conn, srv
      ensures StoreKept() && Stepped(k) && P.Turn(handlers[k].Session(), reply) == t
      ensures srv.locks == if t.session.transaction then old(srv.locks) else P.Released(srv.cfg, old(srv.locks), old(handlers[k].Session()))
    {
      SessionOf(k);
      BeyondHandler(k);
      reply := handlers[k].Enter(t, Area(srv.store));
      Stays(srv.store);
    }

    method Open(a: P.Action, ghost w: P.World) returns (reply: P.Reply)
      requires a.Open? && InOrder(w) && P.Enabled(w, a) && a.k in handlers
      requires w.sessions[a.k].locked && !w.sessions[a.k].transaction
      modifies handlers[a.k], handlers[a.k].conn, srv
      ensures InOrder(P.Next(srv.cfg, w, a)) && Kept() && reply == P.ReplyTo(srv.cfg, w, a)
    {
      SessionOf(a.k);
      reply := OpenAs(a.k, P.OpenTurn(w.store, w.sessions[a.k]));
      Arrived(a.k);
    }

    method StlsAs(k: nat, handshake: bool, ghost t: P.Turn) returns (reply: P.Reply)
      requires Alive(srv.store) && Tidy() && k in handlers && handlers[k].phase.Ready?
      requires t == P.StlsTurn(srv.cfg, handlers[k].Session(), handshake)
      modifies handlers[k], handlers[k].conn, srv
      ensures StoreKept() && Stepped(k) && P.Turn(handlers[k].Session(), reply) == t
      ensures srv.locks == if t.session.phase.Closed? then P.Released(srv.cfg, old(srv.locks), old(handlers[k].Session())) else old(srv.locks)
    {
      SessionOf(k);
      BeyondHandler(k);
      reply := handlers[k].Stls(handshake, t, Area(srv.store));
      Stays(srv.store);
    }

    method Stls(a: P.Action, ghost w: P.World) returns (reply: P.Reply)
      requires a.Stls? && InOrder(w) && P.Enabled(w, a) && a.k in handlers
      modifies handlers[a.k], handlers[a.k].conn, srv
      ensures InOrder(P.Next(srv.cfg, w, a)) && Kept() && reply == P.ReplyTo(srv.cfg, w, a)
    {
      SessionOf(a.k);
      reply := StlsAs(a.k, a.handshake, P.StlsTurn(srv.cfg, w.sessions[a.k], a.handshake));
      Arrived(a.k);
    }

    method DeleAs(k: nat, arg: string, ghost t: P.Turn) returns (reply: P.Reply)
      requires Alive(srv.store) && Tidy() && k in handlers && handlers[k].phase.Ready?
      requires t == P.DeleTurn(handlers[k].Session(), arg)
      modifies handlers[k].conn.entries
      ensures StoreKept() && Stepped(k) && unchanged(srv) && P.Turn(handlers[k].Session(), reply) == t
    {
      SessionOf(k);
      BeyondHandler(k);
      reply := handlers[k].Dele(arg, t, Area(srv.store));
      Stays(srv.store);
    }

    method Dele(a: P.Action, ghost w: P.World) returns (reply: P.Reply)
      requires a.Dele? && InOrder(w) && P.Enabled(w, a) && a.k in handlers
      modifies handlers[a.k].conn.entries
      ensures InOrder(P.Next(srv.cfg, w, a)) && Kept() && reply == P.ReplyTo(srv.cfg, w, a)
    {
      SessionOf(a.k);
      reply := DeleAs(a.k, a.arg, P.DeleTurn(w.sessions[a.k], a.arg));
      Arrived(a.k);
    }

    method RsetAs(k: nat, ghost t: P.Turn) returns (reply: P.Reply)
      requires Alive(srv.store) && Tidy() && k in handlers && handlers[k].phase.Ready?
      requires t == P.RsetTurn(handlers[k].Session())
      modifies handlers[k].conn.entries
      ensures StoreKept() && Stepped(k) && unchanged(srv) && P.Turn(handlers[k].Session(), reply) == t
    {
      SessionOf(k);
      BeyondHandler(k);
      reply := handlers[k].Rset(t, Area(srv.store));
      Stays(srv.store);
    }

    method Rset(a: P.Action, ghost w: P.World) returns (reply: P.Reply)
      requires a.Rset? && InOrder(w) && P.Enabled(w, a) && a.k in handlers
      modifies handlers[a.k].conn.entries
      ensures InOrder(P.Next(srv.cfg, w, a)) && Kept() && reply == P.ReplyTo(srv.cfg, w, a)
    {
      SessionOf(a.k);
      reply := RsetAs(a.k, P.RsetTurn(w.sessions[a.k]));
      Arrived(a.k);
    }

    method QuitAs(k: nat, ghost t: P.Session)
      requires Alive(srv.store) && Tidy() && k in handlers && handlers[k].phase.Ready?
      requires t == P.Quitting(handlers[k].Session())
      modifies handlers[k]
      ensures StoreKept() && Stepped(k) && unchanged(srv) && handlers[k].Session() == t
    {
      SessionOf(k);
      BeyondHandler(k);
      handlers[k].Quit(t, Area(srv.store));
      Stays(srv.store);
    }

    method Quit(a: P.Action, ghost w: P.World)
      requires a.Quit? && InOrder(w) && P.Enabled(w, a) && a.k in handlers
      modifies handlers[a.k]
      ensures InOrder(P.Next(srv.cfg, w, a)) && Kept()
    {
      SessionOf(a.k);
      QuitAs(a.k, P.Quitting(w.sessions[a.k]));
      Arrived(a.k);
    }

    method SignOffAs(k: nat, ghost t: P.Turn) returns (reply: P.Reply)
      requires Alive(srv.store) && Tidy() && k in handlers && handlers[k].phase.Updating?
      requires t == P.SignOffTurn(handlers[k].Session())
      modifies handlers[k], handlers[k].conn, srv
      ensures StoreKept() && Stepped(k) && P.Turn(handlers[k].Session(), reply) == t
      ensures srv.locks == P.Released(srv.cfg, old(srv.locks), old(handlers[k].Session()))
    {
      SessionOf(k);
      BeyondHandler(k);
      reply := handlers[k].SignOff(t, Area(srv.store));
      Stays(srv.store);
    }

    method SignOff(a: P.Action, ghost w: P.World) returns (reply: P.Reply)
      requires a.SignOff? && InOrder(w) && P.Enabled(w, a) && a.k in handlers
      modifies handlers[a.k], handlers[a.k].conn, srv
      ensures InOrder(P.Next(srv.cfg, w, a)) && Kept() && reply == P.ReplyTo(srv.cfg, w, a)
    {
      SessionOf(a.k);
      reply := SignOffAs(a.k, P.SignOffTurn(w.sessions[a.k]));
      Arrived(a.k);
    }

    method DropAs(k: nat, ghost t: P.Session)
      requires Alive(srv.store) && Tidy() && k in handlers && handlers[k].phase.Ready?
      requires t == P.Dropped(handlers[k].Session())
      modifies handlers[k], handlers[k].conn, srv
      ensures StoreKept() && Stepped(k) && handlers[k].Session() == t
      ensures srv.locks == P.Released(srv.cfg, old(srv.locks), old(handlers[k].Session()))
    {
      SessionOf(k);
      BeyondHandler(k);
      handlers[k].Drop(t, Area(srv.store));
      Stays(srv.store);
    }

    method Drop(a: P.Action, ghost w: P.World)
      requires a.Drop? && InOrder(w) && P.Enabled(w, a) && a.k in handlers
      modifies handlers[a.k], handlers[a.k].conn, srv
      ensures InOrder(P.Next(srv.cfg, w, a)) && Kept()
    {
      SessionOf(a.k);
      DropAs(a.k, P.Dropped(w.sessions[a.k]));
      Arrived(a.k);
    }

    /** A new connection. */
    method Connect(a: P.Action, ghost w: P.World)
      requires a.Connect? && InOrder(w) && P.Enabled(w, a) && a.k !in handlers
      modifies this
      ensures InOrder(P.Next(srv.cfg, w, a)) && Area(srv.store) == old(Area(srv.store))
      ensures fresh(handlers.Values - old(handlers.Values)) && fresh(Conns() - old(Conns())) && Entries() == old(Entries())
    {
      BeyondStore();
      var conn := new Connection(srv, a.tls);
      var handler := new Handler(conn);
      handlers := handlers[a.k := handler];
      Stays(srv.store);
      Joined(a.k);
    }

    /** A handler has been added to those there are. */
    twostate predicate Added(k: nat)
      reads this, handlers.Values, Conns(), Entries()
    {
      && k !in old(handlers) && k in handlers && handlers == old(handlers)[k := handlers[k]]
      && fresh(handlers[k]) && fresh(handlers[k].conn) && handlers[k].conn.entries == [] && handlers[k].conn.srv == srv
      && forall j | j in old(handlers) ::
           unchanged(handlers[j]) && unchanged(handlers[j].conn) && forall e | e in handlers[j].conn.entries :: unchanged(e)
    }

    twostate lemma JoinedTidily(k: nat)
      requires old(Tidy()) && Added(k)
      ensures Tidy()
    {
    }

    twostate lemma JoinedSessions(k: nat)
      requires Added(k)
      ensures Sessions() == old(Sessions())[k := handlers[k].Session()]
    {
      forall j | j in old(handlers) ensures handlers[j].Session() == old(handlers[j].Session()) {
        SessionStays(handlers[j]);
      }
    }

    twostate lemma SessionStays(handler: Handler)
      requires unchanged(handler) && unchanged(handler.conn) && forall e | e in handler.conn.entries :: unchanged(e)
      ensures handler.Session() == old(handler.Session())
    {
      handler.conn.Untouched();
    }

    twostate lemma JoinedObjects(k: nat)
      requires Added(k)
      ensures fresh(handlers.Values - old(handlers.Values)) && fresh(Conns() - old(Conns())) && Entries() == old(Entries())
    {
      forall e | e in old(Entries()) ensures e in Entries() {
        var j :| j in old(handlers) && e in old(handlers[j].conn.entries);
        assert j in handlers && e in handlers[j].conn.entries;
      }
    }

    twostate lemma Joined(k: nat)
      requires old(Tidy()) && Added(k)
      ensures Tidy() && Sessions() == old(Sessions())[k := handlers[k].Session()]
      ensures fresh(handlers.Values - old(handlers.Values)) && fresh(Conns() - old(Conns())) && Entries() == old(Entries())
    {
      JoinedTidily(k);
      JoinedSessions(k);
      JoinedObjects(k);
    }

    lemma BoxNames()
      requires Alive(srv.store)
      ensures srv.store.boxes.Keys == srv.store.state.boxes.Keys
    {
      IsOpen(srv.store);
    }

    /** The entry at hand of a view, as the session shows it. */
    lemma EntryAt(k: nat, i: nat)
      requires Tidy() && k in handlers && i < |handlers[k].conn.entries|
      ensures k in Sessions() && |Sessions()[k].entries| == |handlers[k].conn.entries|
      ensures Sessions()[k].entries[i] == handlers[k].conn.entries[i].Value()
    {
    }

    method RoundOf(k: nat, ghost v: Entry, ghost s: State, ghost all: map<nat, P.Session>, ghost was: P.Session, ghost t: P.Session,
                   ghost start: set<object>)
      requires Alive(srv.store) && Tidy() && k in handlers && handlers[k].phase.Updating?
      requires handlers[k].phase.next < |handlers[k].conn.entries| && start == Area(srv.store)
      requires s == srv.store.state && v == handlers[k].conn.entries[handlers[k].phase.next].Value()
      requires all == Sessions() && was == handlers[k].Session()
      requires t == was.(phase := P.Updating(was.phase.next + 1, was.phase.removed + Hits(s, v)))
      modifies handlers[k], start
      ensures Alive(srv.store) && Area(srv.store) <= start && unchanged(srv)
      ensures Tidy() && handlers == old(handlers) && fresh(Entries() - old(Entries()))
      ensures srv.store.state == AfterEntry(s, srv.store.limits, v) && Sessions() == all[k := t]
    {
      BeyondHandler(k);
      BeyondStore();
      handlers[k].Round(v, s, was, start);
      Arrived(k);
    }

    /** One round of the loop of QUIT. */
    method Remove(a: P.Action, ghost w: P.World, ghost start: set<object>)
      requires a.Remove? && InOrder(w) && P.Enabled(w, a) && a.k in handlers && start == Area(srv.store)
      modifies handlers[a.k], start
      ensures InOrder(P.Next(srv.cfg, w, a)) && Area(srv.store) <= start
      ensures handlers == old(handlers) && fresh(Entries() - old(Entries()))
    {
      var k := a.k;
      SessionOf(k);
      EntryAt(k, handlers[k].phase.next);
      ghost var v := w.sessions[k].entries[w.sessions[k].phase.next];
      OneRound(w.store, w.sessions[k], v);
      RoundOf(k, v, w.store, w.sessions, w.sessions[k], P.Removed(w.store, w.sessions[k]), start);
    }

    /** No session yet. */
    lemma AtStart(w: P.World)
      requires handlers == map[] && srv.locks == {} && w == P.Start(srv.store.state)
      ensures Tidy() && Shows(w) && Conns() == {} && Entries() == {}
    {
    }

    /** Everybody stays as they are. */
    twostate lemma AllStill()
      requires old(Tidy()) && handlers == old(handlers)
      requires forall j | j in handlers ::
                 unchanged(handlers[j]) && unchanged(handlers[j].conn) && forall e | e in handlers[j].conn.entries :: unchanged(e)
      ensures Tidy() && Sessions() == old(Sessions()) && Entries() == old(Entries())
    {
      forall j | j in handlers ensures handlers[j].Session() == old(handlers[j].Session()) {
        handlers[j].conn.Untouched();
      }
    }

    /** Somebody else changes the store. */
    method Outside(a: P.Action, ghost w: P.World, ghost start: set<object>) returns (ghost now: set<object>)
      requires a.Outside? && InOrder(w) && P.Enabled(w, a) && Unused(w.store, a.op) && start == Area(srv.store)
      modifies Area(srv.store)
      ensures InOrder(P.Next(srv.cfg, w, a)) && handlers == old(handlers) && Entries() == old(Entries())
      ensures now == Area(srv.store) && fresh(now - start)
    {
      BeyondStore();
      IsOpen(srv.store);
      now := ExecuteNext(srv.store, a.op);
      IsAlive(srv.store);
      AllStill();
    }

    // -------------------------------------------------------------------------
    // Any step
    // -------------------------------------------------------------------------

    /** What the host may write. */
    ghost function Footprint(): set<object>
      reads this, Conns(), srv.store, srv.store.boxes.Values, srv.store.Arrays()
    {
      {this, srv} + handlers.Values + Conns() + Entries() + Area(srv.store)
    }

    lemma Within(k: nat)
      requires k in handlers
      ensures handlers[k] in Footprint() && handlers[k].conn in Footprint()
      ensures forall e | e in handlers[k].conn.entries :: e in Footprint()
    {
      assert handlers[k].conn in Conns();
      forall e | e in handlers[k].conn.entries ensures e in Entries() {
      }
    }

    /** Whether an action can be carried out now. */
    predicate CanTake(a: P.Action)
      requires !a.Outside?
      reads this, handlers.Values, Conns()
    {
      assert a.k in handlers ==> handlers[a.k].conn in Conns();
      if a.Connect? then a.k !in handlers
      else a.k in handlers && Fits(a, handlers[a.k].phase, |handlers[a.k].conn.entries|)
    }

    lemma CanTakeIff(a: P.Action, w: P.World)
      requires InOrder(w) && !a.Outside?
      ensures CanTake(a) <==> P.Enabled(w, a)
    {
      EnabledIff(w, a);
      if a.k in handlers {
        SessionOf(a.k);
      }
    }

    /** A step of one session towards the transaction. */
    method Authorize(a: P.Action, ghost w: P.World) returns (reply: P.Reply)
      requires a.User? || a.Pass? || a.Open? || a.Stls?
      requires InOrder(w) && P.Enabled(w, a) && a.k in handlers
      requires a.Open? ==> w.sessions[a.k].locked && !w.sessions[a.k].transaction
      modifies Footprint()
      ensures InOrder(P.Next(srv.cfg, w, a)) && Kept() && reply == P.ReplyTo(srv.cfg, w, a)
    {
      Within(a.k);
      match a {
        case User(_, _) => reply := User(a, w);
        case Pass(_, _) => reply := Pass(a, w);
        case Open(_) => reply := Open(a, w);
        case Stls(_, _) => reply := Stls(a, w);
      }
    }

    /** Any other step of one session that leaves the store alone. */
    method Take(a: P.Action, ghost w: P.World) returns (reply: P.Reply)
      requires a.Dele? || a.Rset? || a.Quit? || a.SignOff? || a.Drop?
      requires InOrder(w) && P.Enabled(w, a) && a.k in handlers
      modifies Footprint()
      ensures InOrder(P.Next(srv.cfg, w, a)) && Kept() && reply == P.ReplyTo(srv.cfg, w, a)
    {
      reply := P.Silence;
      Within(a.k);
      match a {
        case Dele(_, _) => reply := Dele(a, w);
        case Rset(_) => reply := Rset(a, w);
        case Quit(_) => Quit(a, w);
        case SignOff(_) => reply := SignOff(a, w);
        case Drop(_) => Drop(a, w);
      }
    }

    /** A step that changes the store or the connections there are. */
    method Shift(a: P.Action, ghost w: P.World, ghost start: set<object>) returns (ghost now: set<object>)
      requires a.Outside? || a.Connect? || a.Remove?
      requires InOrder(w) && P.Enabled(w, a) && Sure(w, a) && start == Footprint()
      modifies Footprint()
      ensures InOrder(P.Next(srv.cfg, w, a)) && now == Footprint() && fresh(now - start)
    {
      if a.Outside? {
        ghost var area := Outside(a, w, Area(srv.store));
      } else if a.Connect? {
        Connect(a, w);
      } else {
        Within(a.k);
        Remove(a, w, Area(srv.store));
      }
      now := Footprint();
    }

    /** A step of one session that leaves the store alone. */
    method Answer(a: P.Action, ghost w: P.World, ghost start: set<object>) returns (reply: P.Reply, ghost now: set<object>)
      requires !a.Outside? && !a.Connect? && !a.Remove?
      requires InOrder(w) && P.Enabled(w, a) && Sure(w, a) && start == Footprint()
      modifies Footprint()
      ensures InOrder(P.Next(srv.cfg, w, a)) && now == Footprint() && fresh(now - start)
      ensures reply == P.ReplyTo(srv.cfg, w, a)
    {
      if a.User? || a.Pass? || a.Open? || a.Stls? {
        reply := Authorize(a, w);
      } else {
        reply := Take(a, w);
      }
      now := Footprint();
    }

    /** Any action that can be carried out. */
    method Carry(a: P.Action, ghost w: P.World, ghost start: set<object>) returns (reply: P.Reply, ghost now: set<object>)
      requires InOrder(w) && P.Enabled(w, a) && Sure(w, a) && start == Footprint()
      modifies Footprint()
      ensures InOrder(P.Next(srv.cfg, w, a)) && now == Footprint() && fresh(now - start)
      ensures reply == P.ReplyTo(srv.cfg, w, a)
    {
      if a.Outside? || a.Connect? || a.Remove? {
        reply := P.Silence;
        now := Shift(a, w, start);
      } else {
        reply, now := Answer(a, w, start);
      }
    }

    /** What cannot happen when its turn comes does not happen, and nobody is told anything. */
    method Step(a: P.Action, ghost w: P.World, ghost start: set<object>) returns (reply: P.Reply, ghost now: set<object>)
      requires InOrder(w) && start == Footprint() && (P.Enabled(w, a) ==> Sure(w, a)) && (a.Outside? ==> P.Enabled(w, a))
      modifies Footprint()
      ensures InOrder(P.Next(srv.cfg, w, a)) && now == Footprint() && fresh(now - start)
      ensures reply == P.ReplyTo(srv.cfg, w, a)
    {
      if !a.Outside? {
        CanTakeIff(a, w);
      }
      reply, now := P.Silence, start;
      if a.Outside? || CanTake(a) {
        reply, now := Carry(a, w, start);
      }
    }

    /** Any actions in any order: the running server ends where the value-level one does, with the same replies. */
    method Run(acts: seq<P.Action>, ghost w: P.World, ghost start: set<object>)
      returns (replies: seq<P.Reply>, ghost now: set<object>)
      requires InOrder(w) && P.Inv(srv.cfg, w) && start == Footprint() && FreshOutside(srv.cfg, w, acts)
      modifies start
      ensures InOrder(P.After(srv.cfg, w, acts)) && P.Inv(srv.cfg, P.After(srv.cfg, w, acts))
      ensures replies == P.Replies(srv.cfg, w, acts)
      ensures now == Footprint() && fresh(now - start)
      ensures OneHolderEach()
    {
      InvMakesSure(srv.cfg, w, acts);
      replies, now := RunEach(acts, w, start);
      P.RunKeeps(srv.cfg, w, acts);
      HeldOnce(P.After(srv.cfg, w, acts));
    }

    method RunEach(acts: seq<P.Action>, ghost w: P.World, ghost start: set<object>)
      returns (replies: seq<P.Reply>, ghost now: set<object>)
      requires InOrder(w) && AllSure(srv.cfg, w, acts) && start == Footprint()
      modifies start
      ensures InOrder(P.After(srv.cfg, w, acts)) && replies == P.Replies(srv.cfg, w, acts)
      ensures now == Footprint() && fresh(now - start)
    {
      replies, now := [], start;
      for i := 0 to |acts|
        invariant InOrder(P.After(srv.cfg, w, acts[..i])) && replies == P.Replies(srv.cfg, w, acts[..i])
        invariant now == Footprint() && fresh(now - start)
      {
        var reply;
        NextAction(srv.cfg, w, acts, i);
        reply, now := Step(acts[i], P.After(srv.cfg, w, acts[..i]), now);
        replies := replies + [reply];
      }
      assert acts[..|acts|] == acts;
    }

    /** The table holds the mailboxes of the locked connections, and no two of these are the same. */
    ghost predicate OneHolderEach()
      reads this, srv, handlers.Values, Conns()
    {
      assert forall i | i in handlers :: handlers[i].conn in Conns();
      if srv.cfg.exclusiveLock then
        && (forall k | k in handlers && handlers[k].conn.locked :: handlers[k].conn.mailbox in srv.locks)
        && (forall m | m in srv.locks :: exists k :: k in handlers && handlers[k].conn.locked && handlers[k].conn.mailbox == m)
        && (forall j, k | j in handlers && k in handlers && j != k && handlers[j].conn.locked && handlers[k].conn.locked ::
              handlers[j].conn.mailbox != handlers[k].conn.mailbox)
      else srv.locks == {}
    }

    lemma HeldOnce(w: P.World)
      requires Tidy() && Shows(w) && P.Inv(srv.cfg, w)
      ensures OneHolderEach()
    {
      forall k | k in handlers
        ensures k in w.sessions && w.sessions[k].locked == handlers[k].conn.locked
        ensures w.sessions[k].mailbox == handlers[k].conn.mailbox
      {
        SessionOf(k);
      }
      assert w.sessions.Keys == handlers.Keys;
    }
  }

  /** The ID source gives nobody an ID that was ever given out. */
  ghost predicate FreshOutside(cfg: P.Config, w: P.World, acts: seq<P.Action>) {
    forall i | 0 <= i < |acts| && acts[i].Outside? :: P.Enabled(P.After(cfg, w, acts[..i]), acts[i])
  }

  /** What the handlers rely on when it is their turn. */
  ghost predicate Sure(w: P.World, a: P.Action) {
    && (a.Outside? ==> Unused(w.store, a.op))
    && (a.Open? ==> a.k in w.sessions && w.sessions[a.k].locked && !w.sessions[a.k].transaction)
  }

  ghost predicate SureAt(v: P.World, a: P.Action) {
    (P.Enabled(v, a) ==> Sure(v, a)) && (a.Outside? ==> P.Enabled(v, a))
  }

  ghost predicate AllSure(cfg: P.Config, w: P.World, acts: seq<P.Action>) {
    forall i | 0 <= i < |acts| :: SureAt(P.After(cfg, w, acts[..i]), acts[i])
  }

  lemma NextAction(cfg: P.Config, w: P.World, acts: seq<P.Action>, i: nat)
    requires AllSure(cfg, w, acts) && i < |acts|
    ensures var v := P.After(cfg, w, acts[..i]);
            && SureAt(v, acts[i])
            && P.After(cfg, w, acts[..i + 1]) == P.Next(cfg, v, acts[i])
            && P.Replies(cfg, w, acts[..i + 1]) == P.Replies(cfg, w, acts[..i]) + [P.ReplyTo(cfg, v, acts[i])]
  {
    assert acts[..i + 1][..i] == acts[..i];
  }

  /** The invariant makes sure of it. */
  lemma InvMakesSure(cfg: P.Config, w: P.World, acts: seq<P.Action>)
    requires P.Inv(cfg, w) && FreshOutside(cfg, w, acts)
    ensures AllSure(cfg, w, acts)
  {
    forall i | 0 <= i < |acts| ensures SureAt(P.After(cfg, w, acts[..i]), acts[i]) {
      var v := P.After(cfg, w, acts[..i]);
      P.RunKeeps(cfg, w, acts[..i]);
      if P.Enabled(v, acts[i]) && acts[i].Open? {
        assert P.SessionOk(v, v.sessions[acts[i].k]);
      }
    }
  }

  /** Where a handler must stand for an action of its session. */
  predicate Fits(a: P.Action, phase: P.Phase, count: nat) {
    match a
    case Open(_) => phase.Opening?
    case Remove(_) => phase.Updating? && phase.next < count
    case SignOff(_) => phase.Updating? && phase.next >= count
    case _ => phase.Ready?
  }

  lemma EnabledIff(w: P.World, a: P.Action)
    requires !a.Outside?
    ensures P.Enabled(w, a)
            <==> if a.Connect? then a.k !in w.sessions
                 else a.k in w.sessions && Fits(a, w.sessions[a.k].phase, |w.sessions[a.k].entries|)
  {
  }

  lemma OneRound(store: State, s: P.Session, v: Entry)
    requires s.phase.Updating? && s.phase.next < |s.entries| && v == s.entries[s.phase.next]
    ensures P.Removed(store, s) == s.(phase := P.Updating(s.phase.next + 1, s.phase.removed + Hits(store, v)))
  {
  }

  /** A server over any open store within its cap, and anything its clients and others do with it. */
  method Serve(cfg: P.Config, store: Store, acts: seq<P.Action>, ghost w: P.World, ghost area: set<object>)
    returns (host: Host, replies: seq<P.Reply>)
    requires Alive(store) && store.limits == cfg.limits && Capped(store.state, cfg.limits.maxMessages)
    requires w == P.Start(store.state) && area == Area(store) && FreshOutside(cfg, w, acts)
    modifies area
    ensures host.srv.cfg == cfg && host.srv.store == store
    ensures host.InOrder(P.After(cfg, w, acts)) && P.Inv(cfg, P.After(cfg, w, acts)) && replies == P.Replies(cfg, w, acts)
    ensures host.OneHolderEach()
  {
    OpenAgrees(store);
    P.StartIsFine(cfg, store.state);
    ghost var start, now;
    host, start := Begin(cfg, store, w, area);
    replies, now := host.Run(acts, w, start);
  }

  lemma OpenAgrees(store: Store)
    requires Alive(store)
    ensures Agrees(store.state)
  {
    IsOpen(store);
    ConsistentAgrees(store.All(), store.byID);
  }

  method Begin(cfg: P.Config, store: Store, ghost w: P.World, ghost area: set<object>) returns (host: Host, ghost start: set<object>)
    requires Alive(store) && store.limits == cfg.limits && w == P.Start(store.state) && area == Area(store)
    ensures fresh(host) && fresh(host.srv) && host.srv.cfg == cfg && host.srv.store == store
    ensures host.InOrder(w) && start == host.Footprint() && fresh(start - area)
  {
    host := NewHost(cfg, store, area);
    host.AtStart(w);
    start := {host, host.srv} + area;
  }

  method NewHost(cfg: P.Config, store: Store, ghost area: set<object>) returns (host: Host)
    requires Alive(store) && area == Area(store)
    ensures fresh(host) && fresh(host.srv) && host.srv.cfg == cfg && host.srv.store == store
    ensures host.handlers == map[] && host.srv.locks == {}
    ensures Alive(store) && store.state == old(store.state) && Area(store) == area
  {
    var srv := new Server(cfg, store);
    host := new Host(srv);
    Stays(store);
  }
}

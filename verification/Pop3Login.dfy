/** Who is let in by PASS, and to which mailbox (section 7 of RFC 1939). */
module Pop3Login {
  import opened Text
  import opened StoreModel
  import opened Pop3

  /** The configured login, or any if none is configured. */
  ghost predicate RightLogin(cfg: Config, username: string, password: string) {
    cfg.username == "" || (username == cfg.username && password == cfg.password)
  }

  /** The mailbox of a login: its own one with user routing, if that exists, and else the default. */
  ghost predicate Leads(cfg: Config, names: set<string>, username: string, mailbox: string) {
    && (cfg.userRouting && Lower(TrimSpace(username)) in names ==> mailbox == Lower(TrimSpace(username)))
    && (!cfg.userRouting || Lower(TrimSpace(username)) !in names ==> mailbox == cfg.defaultMailbox)
  }

  ghost predicate Free(cfg: Config, locks: set<string>, mailbox: string) {
    cfg.exclusiveLock ==> mailbox !in locks
  }

  /** Everything that PASS asks for. */
  ghost predicate MayEnter(cfg: Config, w: World, s: Session, password: string, mailbox: string) {
    && !s.transaction && s.username != "" && RightLogin(cfg, s.username, password)
    && Leads(cfg, w.store.boxes.Keys, s.username, mailbox) && Free(cfg, w.locks, mailbox)
  }

  /** PASS goes on with this mailbox locked if and only if everything it asks for is given. */
  lemma PassGoesOnIff(cfg: Config, w: World, k: nat, password: string, mailbox: string)
    requires Enabled(w, Action.Pass(k, password))
    ensures var s, w' := w.sessions[k], Next(cfg, w, Action.Pass(k, password));
            && k in w'.sessions
            && (w'.sessions[k].phase.Opening? && w'.sessions[k].mailbox == mailbox <==> MayEnter(cfg, w, s, password, mailbox))
            && (w'.sessions[k].phase.Opening? ==>
                  && w'.sessions[k] == s.(mailbox := w'.sessions[k].mailbox, locked := true, phase := Opening)
                  && ReplyTo(cfg, w, Action.Pass(k, password)) == Silence
                  && w'.locks == if cfg.exclusiveLock then w.locks + {w'.sessions[k].mailbox} else w.locks)
  {
  }

  /** Why PASS is refused, in this order, and what the session then remembers. */
  lemma PassRefused(cfg: Config, w: World, k: nat, password: string, mailbox: string)
    requires Enabled(w, Action.Pass(k, password)) && Leads(cfg, w.store.boxes.Keys, w.sessions[k].username, mailbox)
    requires !MayEnter(cfg, w, w.sessions[k], password, mailbox)
    ensures var s, w', reply := w.sessions[k], Next(cfg, w, Action.Pass(k, password)), ReplyTo(cfg, w, Action.Pass(k, password));
            && w'.locks == w.locks && k in w'.sessions
            && if s.transaction then reply == Negative(AlreadyAuthenticated) && w'.sessions[k] == s
               else if s.username == "" then reply == Negative(UserFirst) && w'.sessions[k] == s
               else if !RightLogin(cfg, s.username, password) then
                 reply == Negative(BadCredentials) && w'.sessions[k] == s.(username := "")
               else reply == Negative(InUse) && w'.sessions[k] == s.(username := "", mailbox := mailbox)
  {
  }

  /** USER gives the name PASS will use, white space around it aside; a later one replaces it, until a view is open. */
  lemma UserGivesName(cfg: Config, w: World, k: nat, before: string, name: string, behind: string)
    requires Enabled(w, User(k, before + name + behind)) && AllVisible(name)
    requires (forall c | c in before :: IsAsciiSpace(c)) && forall c | c in behind :: IsAsciiSpace(c)
    ensures var a, s := User(k, before + name + behind), w.sessions[k];
            && Next(cfg, w, a).sessions[k] == (if s.transaction then s else s.(username := name))
            && ReplyTo(cfg, w, a) == if s.transaction then Negative(AlreadyAuthenticated) else Positive([])
  {
    assert name[0] in name && name[|name| - 1] in name;
    TrimSpaceAround(before, name, behind);
  }

  /** The rest of PASS opens the mailbox that was locked, if it exists, and gives the lock back if not. */
  lemma OpensIff(cfg: Config, w: World, k: nat)
    requires Enabled(w, Action.Open(k)) && w.sessions[k].locked && !w.sessions[k].transaction
    ensures var s, w' := w.sessions[k], Next(cfg, w, Action.Open(k));
            && (w'.sessions[k].transaction <==> s.mailbox in w.store.boxes)
            && w'.sessions[k].username == s.username && w'.sessions[k].mailbox == s.mailbox && w'.sessions[k].phase == Ready
            && (w'.sessions[k].locked <==> w'.sessions[k].transaction)
            && w'.locks == if w'.sessions[k].transaction || !cfg.exclusiveLock then w.locks else w.locks - {s.mailbox}
  {
  }

  // ---------------------------------------------------------------------------
  // Over whole runs
  // ---------------------------------------------------------------------------

  /** A session that starts TLS forgets its name. */
  lemma TLSForgets(cfg: Config, w: World, k: nat, handshake: bool)
    requires Enabled(w, Action.Stls(k, handshake))
    ensures var s, t, reply := w.sessions[k], Next(cfg, w, Action.Stls(k, handshake)).sessions[k], ReplyTo(cfg, w, Action.Stls(k, handshake));
            if !cfg.tlsAvailable then reply == Negative(NoTLS) && t == s
            else if s.tls then reply == Negative(TLSActive) && t == s
            else if handshake then reply == Positive([]) && t == s.(tls := true, username := "")
            else t.phase.Closed? && !t.locked
  {
  }

  /** TLS starts on the session with action `i`. */
  ghost predicate StartsTLS(cfg: Config, w: World, acts: seq<Action>, k: nat, i: nat)
    requires i < |acts|
  {
    var now := After(cfg, w, acts[..i]);
    acts[i] == Action.Stls(k, true) && Enabled(now, acts[i]) && cfg.tlsAvailable && !now.sessions[k].tls
  }

  /** Action `j` is a USER command of the session that gave this name, and TLS has not started since. */
  ghost predicate Named(cfg: Config, w: World, acts: seq<Action>, k: nat, name: string, j: nat) {
    && j < |acts| && acts[j].User? && acts[j].k == k && Enabled(After(cfg, w, acts[..j]), acts[j])
    && name == TrimSpace(acts[j].arg) && name != ""
    && forall i | j < i < |acts| :: !StartsTLS(cfg, w, acts, k, i)
  }

  ghost predicate NamedBefore(cfg: Config, w: World, acts: seq<Action>, k: nat, name: string) {
    exists j: nat :: Named(cfg, w, acts, k, name, j)
  }

  /** Action `i` is a PASS command of the session that was given everything it asks for, the name by USER. */
  ghost predicate Admitted(cfg: Config, w: World, acts: seq<Action>, k: nat, mailbox: string, i: nat) {
    && i < |acts| && acts[i].Pass? && acts[i].k == k
    && var now := After(cfg, w, acts[..i]);
       && Enabled(now, acts[i]) && MayEnter(cfg, now, now.sessions[k], acts[i].password, mailbox)
       && NamedBefore(cfg, w, acts[..i], k, now.sessions[k].username)
  }

  ghost predicate AdmittedBefore(cfg: Config, w: World, acts: seq<Action>, k: nat, mailbox: string) {
    exists i: nat :: Admitted(cfg, w, acts, k, mailbox, i)
  }

  /** A name comes from USER, and a view from a PASS that was let in. */
  ghost predicate LoginOk(cfg: Config, w: World, acts: seq<Action>, k: nat, s: Session) {
    && (s.username != "" ==> NamedBefore(cfg, w, acts, k, s.username))
    && (s.phase.Opening? || s.transaction ==> AdmittedBefore(cfg, w, acts, k, s.mailbox))
  }

  lemma StillNamed(cfg: Config, w: World, acts: seq<Action>, k: nat, name: string)
    requires acts != [] && NamedBefore(cfg, w, acts[..|acts| - 1], k, name) && !StartsTLS(cfg, w, acts, k, |acts| - 1)
    ensures NamedBefore(cfg, w, acts, k, name)
  {
    var init := acts[..|acts| - 1];
    var j: nat :| Named(cfg, w, init, k, name, j);
    assert init[..j] == acts[..j];
    forall i | j < i < |acts| ensures !StartsTLS(cfg, w, acts, k, i) {
      if i < |init| {
        assert init[..i] == acts[..i] && !StartsTLS(cfg, w, init, k, i);
      }
    }
    assert Named(cfg, w, acts, k, name, j);
  }

  lemma StillAdmitted(cfg: Config, w: World, acts: seq<Action>, n: nat, k: nat, mailbox: string)
    requires n <= |acts| && AdmittedBefore(cfg, w, acts[..n], k, mailbox)
    ensures AdmittedBefore(cfg, w, acts, k, mailbox)
  {
    var i: nat :| Admitted(cfg, w, acts[..n], k, mailbox, i);
    assert acts[..n][..i] == acts[..i];
    assert Admitted(cfg, w, acts, k, mailbox, i);
  }

  /** What one action of the session does to name, mailbox and view. */
  lemma LoginStep(cfg: Config, w: World, a: Action, k: nat)
    requires k in w.sessions
    ensures var s, w' := w.sessions[k], Next(cfg, w, a);
            && k in w'.sessions
            && (w'.sessions[k].username in {s.username, ""} || (a.User? && a.k == k && Enabled(w, a) && w'.sessions[k].username == TrimSpace(a.arg)))
            && (w'.sessions[k].phase.Opening? || w'.sessions[k].transaction ==>
                  || ((s.phase.Opening? || s.transaction) && w'.sessions[k].mailbox == s.mailbox)
                  || (a.Pass? && a.k == k && Enabled(w, a) && w'.sessions[k].phase.Opening?))
  {
  }

  lemma Connected(cfg: Config, w: World, a: Action, k: nat)
    requires k !in w.sessions && k in Next(cfg, w, a).sessions
    ensures var s := Next(cfg, w, a).sessions[k];
            s.username == "" && s.phase == Ready && !s.transaction
  {
  }

  /** The last action keeps it so. */
  lemma LoginNext(cfg: Config, w: World, acts: seq<Action>, k: nat)
    requires acts != [] && k in After(cfg, w, acts).sessions
    requires var before := After(cfg, w, acts[..|acts| - 1]);
             k in before.sessions ==> LoginOk(cfg, w, acts[..|acts| - 1], k, before.sessions[k])
    ensures LoginOk(cfg, w, acts, k, After(cfg, w, acts).sessions[k])
  {
    var n, a := |acts| - 1, acts[|acts| - 1];
    var before, now := After(cfg, w, acts[..n]), After(cfg, w, acts);
    if k !in before.sessions {
      Connected(cfg, before, a, k);
    } else {
      var s, t := before.sessions[k], now.sessions[k];
      LoginStep(cfg, before, a, k);
      if t.username != "" {
        if t.username == s.username {
          if StartsTLS(cfg, w, acts, k, n) {
            TLSForgets(cfg, before, k, true);
          }
          StillNamed(cfg, w, acts, k, t.username);
        } else {
          assert Named(cfg, w, acts, k, t.username, n);
        }
      }
      if t.phase.Opening? || t.transaction {
        if (s.phase.Opening? || s.transaction) && t.mailbox == s.mailbox {
          StillAdmitted(cfg, w, acts, n, k, t.mailbox);
        } else {
          PassGoesOnIff(cfg, before, k, a.password, t.mailbox);
          assert Admitted(cfg, w, acts, k, t.mailbox, n);
        }
      }
    }
  }

  lemma {:induction false} LoginsAreOk(cfg: Config, w: World, acts: seq<Action>, k: nat)
    requires w.sessions == map[] && k in After(cfg, w, acts).sessions
    ensures LoginOk(cfg, w, acts, k, After(cfg, w, acts).sessions[k])
  {
    if acts != [] {
      var init := acts[..|acts| - 1];
      if k in After(cfg, w, init).sessions {
        LoginsAreOk(cfg, w, init, k);
      }
      LoginNext(cfg, w, acts, k);
    }
  }

  /**
   Over every run of any sessions: one that has a view was let in by a PASS with the right login, to the
   mailbox that this login leads to, when that was free, under the name that its USER command had given.
   */
  lemma InTransactionWasAdmitted(cfg: Config, store: State, acts: seq<Action>, k: nat)
    requires k in After(cfg, Start(store), acts).sessions && After(cfg, Start(store), acts).sessions[k].transaction
    ensures AdmittedBefore(cfg, Start(store), acts, k, After(cfg, Start(store), acts).sessions[k].mailbox)
  {
    LoginsAreOk(cfg, Start(store), acts, k);
  }
}

/** What POP3 sessions can and cannot do to each other and to the store, over whole runs. */
module Pop3Runs {
  import opened Bytes
  import opened Sequences
  import opened StoreModel
  import opened Maildrop
  import opened Pop3

  // ---------------------------------------------------------------------------
  // Exclusive access
  // ---------------------------------------------------------------------------

  /** Over every run, two sessions never hold one mailbox and the table says who holds what. */
  lemma LockSafety(cfg: Config, store: State, acts: seq<Action>)
    requires Agrees(store) && Capped(store, cfg.limits.maxMessages)
    ensures var w := After(cfg, Start(store), acts);
            && LockTable(cfg, w)
            && OneHolder(cfg, w)
            && forall k | k in w.sessions && w.sessions[k].transaction && !w.sessions[k].phase.Closed? :: w.sessions[k].locked
  {
    StartIsFine(cfg, store);
    RunKeeps(cfg, Start(store), acts);
    var w := After(cfg, Start(store), acts);
    forall k | k in w.sessions && w.sessions[k].transaction && !w.sessions[k].phase.Closed? ensures w.sessions[k].locked {
      assert SessionOk(w, w.sessions[k]);
    }
  }

  ghost predicate Holds(w: World, k: nat, m: string) {
    k in w.sessions && w.sessions[k].locked && w.sessions[k].mailbox == m
  }

  /** A lock disappears only when the session that holds it lets go. */
  lemma OnlyTheHolderFrees(cfg: Config, w: World, a: Action, m: string)
    requires Inv(cfg, w) && m in w.locks && m !in Next(cfg, w, a).locks
    ensures (a.Open? || a.Stls? || a.SignOff? || a.Drop?) && Holds(w, a.k, m)
    ensures forall j | Holds(w, j, m) :: j == a.k
  {
  }

  ghost predicate Refused(cfg: Config, w: World, k: nat, password: string) {
    && Enabled(w, Action.Pass(k, password))
    && PassTurn(cfg, w.store.boxes.Keys, w.locks, w.sessions[k], password).reply == Negative(InUse)
  }

  /**
   A session is refused with IN-USE exactly when another one holds its mailbox, and
   nothing the refused session goes on to do, short of a new login, touches the table.
   */
  lemma RefusedFreesNothing(cfg: Config, w: World, k: nat, password: string)
    requires Inv(cfg, w) && Refused(cfg, w, k, password)
    ensures var w' := Next(cfg, w, Action.Pass(k, password));
            var m := w'.sessions[k].mailbox;
            && (exists j :: j != k && Holds(w, j, m) && Holds(w', j, m))
            && w'.locks == w.locks && !w'.sessions[k].locked
            && Next(cfg, w', Action.Drop(k)).locks == w.locks
            && After(cfg, w', [Action.Quit(k), Action.SignOff(k)]).locks == w.locks
            && (forall handshake :: Next(cfg, w', Action.Stls(k, handshake)).locks == w.locks)
  {
    assert SessionOk(w, w.sessions[k]);
    var w' := Next(cfg, w, Action.Pass(k, password));
    var m := w'.sessions[k].mailbox;
    var j :| j in w.sessions && w.sessions[j].locked && w.sessions[j].mailbox == m;
    assert j != k && Holds(w, j, m) && Holds(w', j, m);
    UnlockedTouchesNothing(cfg, w', k);
  }

  lemma UnlockedTouchesNothing(cfg: Config, w: World, k: nat)
    requires k in w.sessions && w.sessions[k].phase == Ready && !w.sessions[k].locked
    requires !w.sessions[k].transaction
    ensures Next(cfg, w, Action.Drop(k)).locks == w.locks
    ensures After(cfg, w, [Action.Quit(k), Action.SignOff(k)]).locks == w.locks
    ensures forall handshake :: Next(cfg, w, Action.Stls(k, handshake)).locks == w.locks
  {
    AfterTwo(cfg, w, Action.Quit(k), Action.SignOff(k));
  }

  lemma AfterTwo(cfg: Config, w: World, a: Action, b: Action)
    ensures After(cfg, w, [a, b]) == Next(cfg, Next(cfg, w, a), b)
  {
    assert [a, b][..1] == [a] && [a][..0] == [];
    assert After(cfg, w, [a]) == Next(cfg, w, a);
  }

  // ---------------------------------------------------------------------------
  // The frozen view
  // ---------------------------------------------------------------------------

  /** What somebody else does leaves a session as it is. */
  lemma OthersLeaveIt(cfg: Config, w: World, a: Action, k: nat)
    requires k in w.sessions && (a.Outside? || a.k != k)
    ensures k in Next(cfg, w, a).sessions && Next(cfg, w, a).sessions[k] == w.sessions[k]
  {
  }

  ghost predicate StillShows(s: Session, t: Session) {
    t.transaction && t.mailbox == s.mailbox && SameView(s.entries, t.entries)
  }

  lemma OwnStepFrozen(cfg: Config, w: World, a: Action)
    requires !a.Outside? && a.k in w.sessions && w.sessions[a.k].transaction && PhaseOk(w.sessions[a.k])
    ensures a.k in Next(cfg, w, a).sessions && StillShows(w.sessions[a.k], Next(cfg, w, a).sessions[a.k])
  {
  }

  lemma ViewFrozenStep(cfg: Config, w: World, a: Action, k: nat)
    requires Inv(cfg, w) && k in w.sessions && w.sessions[k].transaction
    ensures k in Next(cfg, w, a).sessions && StillShows(w.sessions[k], Next(cfg, w, a).sessions[k])
  {
    assert SessionOk(w, w.sessions[k]);
    if a.Outside? || a.k != k {
      OthersLeaveIt(cfg, w, a, k);
    } else {
      OwnStepFrozen(cfg, w, a);
    }
  }

  /** In TRANSACTION a message number keeps its ID and octets, whatever anybody does. */
  lemma {:induction false} ViewKept(cfg: Config, w: World, acts: seq<Action>, k: nat)
    requires Inv(cfg, w) && k in w.sessions && w.sessions[k].transaction
    ensures k in After(cfg, w, acts).sessions && StillShows(w.sessions[k], After(cfg, w, acts).sessions[k])
  {
    if acts != [] {
      var before := acts[..|acts| - 1];
      ViewKept(cfg, w, before, k);
      RunKeeps(cfg, w, before);
      ViewFrozenStep(cfg, After(cfg, w, before), acts[|acts| - 1], k);
    }
  }

  /** Number for number the messages of a queue, oldest first. */
  ghost predicate Numbers(entries: seq<Entry>, box: seq<Msg>) {
    |entries| == |box| && forall i | 0 <= i < |box| :: entries[i].id == box[i].id && entries[i].raw == box[i].raw
  }

  /**
   From the moment PASS takes its snapshot, and through any run of anybody, the numbers stand for the
   messages that the mailbox held at that moment.
   */
  lemma ViewFrozen(cfg: Config, w: World, acts: seq<Action>, k: nat)
    requires Inv(cfg, w) && Enabled(w, Action.Open(k)) && w.sessions[k].mailbox in w.store.boxes
    ensures var frozen := Next(cfg, w, Action.Open(k));
            var later := After(cfg, frozen, acts);
            && frozen.sessions[k].transaction && MarkedIds(frozen.sessions[k].entries) == {}
            && k in later.sessions && later.sessions[k].transaction
            && later.sessions[k].mailbox == w.sessions[k].mailbox
            && Numbers(later.sessions[k].entries, w.store.boxes[w.sessions[k].mailbox])
  {
    var frozen := Next(cfg, w, Action.Open(k));
    assert forall e | e in frozen.sessions[k].entries :: !e.deleted;
    NextKeeps(cfg, w, Action.Open(k));
    ViewKept(cfg, frozen, acts, k);
  }

  // ---------------------------------------------------------------------------
  // Who changes the store
  // ---------------------------------------------------------------------------

  /** The message the next round of an UPDATE loop takes out of the store, if any. */
  ghost function Target(w: World, a: Action): Option<ID> {
    if a.Remove? && Enabled(w, a) then
      var s := w.sessions[a.k];
      var e := s.entries[s.phase.next];
      if e.deleted && e.id in w.store.byID then Some(e.id) else None
    else None
  }

  lemma StoredUnderItsMailbox(cfg: Config, w: World, s: Session, i: nat)
    requires Inv(cfg, w) && SessionOk(w, s) && i < |s.entries| && s.entries[i].id in w.store.byID
    ensures w.store.byID[s.entries[i].id] == s.mailbox && s.mailbox in w.store.boxes
  {
    var id := s.entries[i].id;
    var n := w.store.byID[id];
    assert HasID(w.store.boxes[n], id);
    var j :| 0 <= j < |w.store.boxes[n]| && w.store.boxes[n][j].id == id;
    assert BoxAgrees(w.store, n);
  }

  /**
   A session changes the store only from its UPDATE loop, only by deleting a message it
   has marked, and only in its own mailbox.
   */
  lemma SessionsOnlyDeleteMarked(cfg: Config, w: World, a: Action)
    requires Inv(cfg, w) && !a.Outside? && Next(cfg, w, a).store != w.store
    ensures Target(w, a).Some? && w.sessions[a.k].phase.Updating?
    ensures Target(w, a).value in MarkedIds(w.sessions[a.k].entries)
    ensures Next(cfg, w, a).store == Apply(w.store, cfg.limits, Delete(Target(w, a).value))
    ensures forall n | n in w.store.boxes && n != w.sessions[a.k].mailbox ::
              n in Next(cfg, w, a).store.boxes && Next(cfg, w, a).store.boxes[n] == w.store.boxes[n]
  {
    assert a.Remove? && Enabled(w, a);
    var s := w.sessions[a.k];
    assert SessionOk(w, s);
    assert s.entries[s.phase.next] in s.entries;
    StoredUnderItsMailbox(cfg, w, s, s.phase.next);
  }

  /** The messages session `k` takes out of the store during a run, in order. */
  ghost function RemovedBy(cfg: Config, w: World, acts: seq<Action>, k: nat): seq<ID> {
    if acts == [] then []
    else
      var before, a := After(cfg, w, acts[..|acts| - 1]), acts[|acts| - 1];
      RemovedBy(cfg, w, acts[..|acts| - 1], k)
      + (if a.Remove? && a.k == k && Target(before, a).Some? then [Target(before, a).value] else [])
  }

  lemma NoQuitStep(cfg: Config, w: World, a: Action, k: nat)
    requires a != Action.Quit(k) && (k in w.sessions ==> !w.sessions[k].phase.Updating?)
    ensures a.Remove? && a.k == k ==> Target(w, a).None?
    ensures k in Next(cfg, w, a).sessions ==> !Next(cfg, w, a).sessions[k].phase.Updating?
  {
  }

  /** Without QUIT, and a dropped connection is without it, a session removes nothing. */
  lemma {:induction false} NoQuitNoRemoval(cfg: Config, w: World, acts: seq<Action>, k: nat)
    requires k in w.sessions ==> !w.sessions[k].phase.Updating?
    requires Action.Quit(k) !in acts
    ensures RemovedBy(cfg, w, acts, k) == []
    ensures k in After(cfg, w, acts).sessions ==> !After(cfg, w, acts).sessions[k].phase.Updating?
  {
    if acts != [] {
      var before, a := acts[..|acts| - 1], acts[|acts| - 1];
      assert forall b | b in before :: b in acts;
      assert a in acts;
      NoQuitNoRemoval(cfg, w, before, k);
      NoQuitStep(cfg, After(cfg, w, before), a, k);
    }
  }

  // ---------------------------------------------------------------------------
  // UPDATE among other sessions
  // ---------------------------------------------------------------------------

  /** The session has been told to quit and has taken `gone` out so far. */
  ghost predicate Quitted(w: World, k: nat, entries: seq<Entry>, gone: seq<ID>) {
    && k in w.sessions && Counts(w.sessions[k], entries, |gone|)
    && Distinct(gone)
    && forall i | 0 <= i < |gone| :: gone[i] in MarkedIds(entries) && gone[i] in w.born && gone[i] !in w.store.byID
  }

  /** An ID that has gone from the store never comes back to it. */
  lemma GoneForGood(cfg: Config, w: World, a: Action, id: ID)
    requires Inv(cfg, w) && id in w.born && id !in w.store.byID
    ensures id in Next(cfg, w, a).born && id !in Next(cfg, w, a).store.byID
  {
  }

  /** The phase and the entries of a session that goes on with its QUIT. */
  ghost predicate Counts(s: Session, entries: seq<Entry>, removed: nat) {
    && s.entries == entries
    && match s.phase
       case Updating(_, n) => n == removed
       case Closed(Some(n)) => n == removed
       case _ => false
  }

  lemma StillCounting(cfg: Config, w: World, a: Action, k: nat, entries: seq<Entry>, removed: nat)
    requires k in w.sessions && Counts(w.sessions[k], entries, removed) && !(a.Remove? && a.k == k && Target(w, a).Some?)
    ensures k in Next(cfg, w, a).sessions && Counts(Next(cfg, w, a).sessions[k], entries, removed)
  {
    if a.Outside? || a.k != k {
      OthersLeaveIt(cfg, w, a, k);
    }
  }

  lemma StillQuitted(cfg: Config, w: World, a: Action, k: nat, entries: seq<Entry>, gone: seq<ID>)
    requires Inv(cfg, w) && Quitted(w, k, entries, gone) && !(a.Remove? && a.k == k && Target(w, a).Some?)
    ensures Quitted(Next(cfg, w, a), k, entries, gone)
  {
    StillCounting(cfg, w, a, k, entries, |gone|);
    forall i | 0 <= i < |gone| ensures gone[i] in Next(cfg, w, a).born && gone[i] !in Next(cfg, w, a).store.byID {
      GoneForGood(cfg, w, a, gone[i]);
    }
  }

  lemma OneMoreGone(cfg: Config, w: World, a: Action, k: nat, entries: seq<Entry>, gone: seq<ID>)
    requires Inv(cfg, w) && Quitted(w, k, entries, gone) && a == Action.Remove(k) && Target(w, a).Some?
    ensures Quitted(Next(cfg, w, a), k, entries, gone + [Target(w, a).value])
  {
    var s, id := w.sessions[k], Target(w, a).value;
    assert SessionOk(w, s) && s.entries[s.phase.next] in s.entries;
    DeletedIsGone(w.store, cfg.limits, id);
    forall i | 0 <= i < |gone| ensures gone[i] in Next(cfg, w, a).born && gone[i] !in Next(cfg, w, a).store.byID {
      GoneForGood(cfg, w, a, gone[i]);
    }
  }

  lemma QuittedStep(cfg: Config, w: World, a: Action, k: nat, entries: seq<Entry>, gone: seq<ID>)
    requires Inv(cfg, w) && Quitted(w, k, entries, gone)
    ensures Quitted(Next(cfg, w, a), k, entries,
                    gone + if a.Remove? && a.k == k && Target(w, a).Some? then [Target(w, a).value] else [])
  {
    if a.Remove? && a.k == k && Target(w, a).Some? {
      OneMoreGone(cfg, w, a, k, entries, gone);
    } else {
      StillQuitted(cfg, w, a, k, entries, gone);
      assert gone + [] == gone;
    }
  }

  lemma {:induction false} QuittedRun(cfg: Config, w: World, acts: seq<Action>, k: nat, entries: seq<Entry>)
    requires Inv(cfg, w) && Quitted(w, k, entries, [])
    ensures Quitted(After(cfg, w, acts), k, entries, RemovedBy(cfg, w, acts, k))
  {
    if acts != [] {
      var before := acts[..|acts| - 1];
      QuittedRun(cfg, w, before, k, entries);
      RunKeeps(cfg, w, before);
      QuittedStep(cfg, After(cfg, w, before), acts[|acts| - 1], k, entries, RemovedBy(cfg, w, before, k));
    }
  }

  /**
   QUIT among any other activity: when the session is done, no message it had marked is
   in the store, everything it took out had been marked, and it replies with that number.
   */
  lemma QuitRemovesTheMarked(cfg: Config, w: World, acts: seq<Action>, k: nat)
    requires Inv(cfg, w) && Enabled(w, Action.Quit(k)) && w.sessions[k].transaction
    requires var w' := After(cfg, Next(cfg, w, Action.Quit(k)), acts);
             k in w'.sessions && w'.sessions[k].phase.Closed?
    ensures var quit := Next(cfg, w, Action.Quit(k));
            var w', gone, marked := After(cfg, quit, acts), RemovedBy(cfg, quit, acts, k), MarkedIds(w.sessions[k].entries);
            && w'.sessions[k].phase == Closed(Some(|gone|))
            && (forall id | id in marked :: id !in w'.store.byID)
            && Distinct(gone) && (forall i | 0 <= i < |gone| :: gone[i] in marked)
  {
    var quit := Next(cfg, w, Action.Quit(k));
    NextKeeps(cfg, w, Action.Quit(k));
    QuittedRun(cfg, quit, acts, k, w.sessions[k].entries);
    RunKeeps(cfg, quit, acts);
    var w' := After(cfg, quit, acts);
    NothingMarkedIsLeft(w', w'.sessions[k]);
  }

  lemma NothingMarkedIsLeft(w: World, s: Session)
    requires SessionOk(w, s) && s.phase.Closed? && s.phase.deleted.Some?
    ensures forall id | id in MarkedIds(s.entries) :: id !in w.store.byID
  {
    forall id | id in MarkedIds(s.entries) ensures id !in w.store.byID {
      var e :| e in s.entries && e.deleted && e.id == id;
      var i :| 0 <= i < |s.entries| && s.entries[i] == e;
    }
  }

  // ---------------------------------------------------------------------------
  // UPDATE when nobody interferes
  // ---------------------------------------------------------------------------

  function Rounds(k: nat, n: nat): (r: seq<Action>)
    ensures |r| == n && forall i | 0 <= i < n :: r[i] == Action.Remove(k)
  {
    seq(n, _ => Action.Remove(k))
  }

  /** The world when `n` rounds of the loop are over. */
  ghost function MidUpdate(cfg: Config, w: World, k: nat, n: nat): World
    requires k in w.sessions && n <= |w.sessions[k].entries|
  {
    var seen := w.sessions[k].entries[..n];
    World(w.locks, w.sessions[k := w.sessions[k].(phase := Updating(n, Found(w.store, cfg.limits, seen)))],
          Swept(w.store, cfg.limits, seen), w.born)
  }

  lemma OneRound(cfg: Config, w: World, k: nat, n: nat)
    requires k in w.sessions && n < |w.sessions[k].entries|
    ensures Next(cfg, MidUpdate(cfg, w, k, n), Action.Remove(k)) == MidUpdate(cfg, w, k, n + 1)
  {
    var s, mid := w.sessions[k], MidUpdate(cfg, w, k, n);
    assert s.entries[..n + 1][..n] == s.entries[..n];
    var t := Removed(mid.store, mid.sessions[k]);
    assert mid.sessions[k := t] == w.sessions[k := t];
  }

  lemma {:induction false} UpdateRounds(cfg: Config, w: World, k: nat, n: nat)
    requires k in w.sessions && w.sessions[k].phase == Updating(0, 0) && n <= |w.sessions[k].entries|
    ensures After(cfg, w, Rounds(k, n)) == MidUpdate(cfg, w, k, n)
  {
    if n == 0 {
      assert w.sessions[k := w.sessions[k]] == w.sessions;
    } else {
      UpdateRounds(cfg, w, k, n - 1);
      assert Rounds(k, n)[..n - 1] == Rounds(k, n - 1);
      OneRound(cfg, w, k, n - 1);
    }
  }

  /**
   A QUIT that runs undisturbed removes exactly the marked messages that are still there,
   replies with their number, touches no other mailbox and gives the lock back.
   */
  lemma QuitAlone(cfg: Config, w: World, k: nat)
    requires Inv(cfg, w) && Enabled(w, Action.Quit(k)) && w.sessions[k].transaction
    ensures var s := w.sessions[k];
            var marked := MarkedIds(s.entries);
            var w' := Next(cfg, After(cfg, Next(cfg, w, Action.Quit(k)), Rounds(k, |s.entries|)), Action.SignOff(k));
            && w'.sessions == w.sessions[k := s.(locked := false, phase := Closed(Some(|marked * w.store.byID.Keys|)))]
            && Short(w.store, w'.store, marked)
            && (forall n | n in w.store.boxes && n != s.mailbox :: w'.store.boxes[n] == w.store.boxes[n])
            && w'.locks == Released(cfg, w.locks, s)
  {
    var s, quit := w.sessions[k], Next(cfg, w, Action.Quit(k));
    SweptStore(cfg, w, k);
    AllRounds(cfg, w, k);
    SignedOff(cfg, w, After(cfg, quit, Rounds(k, |s.entries|)), k);
  }

  lemma AllRounds(cfg: Config, w: World, k: nat)
    requires Enabled(w, Action.Quit(k)) && w.sessions[k].transaction
    ensures var s := w.sessions[k];
            After(cfg, Next(cfg, w, Action.Quit(k)), Rounds(k, |s.entries|))
            == World(w.locks, w.sessions[k := s.(phase := Updating(|s.entries|, Found(w.store, cfg.limits, s.entries)))],
                     Swept(w.store, cfg.limits, s.entries), w.born)
  {
    var s, quit := w.sessions[k], Put(w, k, Quitting(w.sessions[k]));
    UpdateRounds(cfg, quit, k, |s.entries|);
    assert s.entries[..|s.entries|] == s.entries;
    var t := MidUpdate(cfg, quit, k, |s.entries|).sessions[k];
    assert quit.sessions[k := t] == w.sessions[k := t];
  }

  lemma SweptStore(cfg: Config, w: World, k: nat)
    requires Inv(cfg, w) && k in w.sessions
    ensures var s := w.sessions[k];
            var t := Swept(w.store, cfg.limits, s.entries);
            && Short(w.store, t, MarkedIds(s.entries))
            && (forall n | n in w.store.boxes && n != s.mailbox :: t.boxes[n] == w.store.boxes[n])
            && Found(w.store, cfg.limits, s.entries) == |MarkedIds(s.entries) * w.store.byID.Keys|
  {
    var s := w.sessions[k];
    assert SessionOk(w, s);
    SweptExactly(w.store, cfg.limits, s.entries);
    forall n | n in w.store.boxes && n != s.mailbox ensures Sparing(w.store.boxes[n], MarkedIds(s.entries)) == w.store.boxes[n] {
      OtherMailboxSpared(cfg, w, s, n);
    }
  }

  lemma SignedOff(cfg: Config, w: World, mid: World, k: nat)
    requires k in w.sessions && k in mid.sessions && mid.sessions[k].phase.Updating?
    requires mid.sessions[k].phase.next == |mid.sessions[k].entries|
    requires mid.sessions == w.sessions[k := w.sessions[k].(phase := mid.sessions[k].phase)]
    ensures Next(cfg, mid, Action.SignOff(k)).sessions
            == w.sessions[k := w.sessions[k].(locked := false, phase := Closed(Some(mid.sessions[k].phase.removed)))]
    ensures Next(cfg, mid, Action.SignOff(k)).store == mid.store
    ensures Next(cfg, mid, Action.SignOff(k)).locks == Released(cfg, mid.locks, w.sessions[k])
  {
  }

  lemma OtherMailboxSpared(cfg: Config, w: World, s: Session, n: string)
    requires Inv(cfg, w) && SessionOk(w, s) && n in w.store.boxes && n != s.mailbox
    ensures Sparing(w.store.boxes[n], MarkedIds(s.entries)) == w.store.boxes[n]
  {
    var box := w.store.boxes[n];
    assert BoxAgrees(w.store, n);
    forall j | 0 <= j < |s.entries| ensures s.entries[j].id in w.store.byID ==> w.store.byID[s.entries[j].id] == s.mailbox {
      if s.entries[j].id in w.store.byID {
        StoredUnderItsMailbox(cfg, w, s, j);
      }
    }
    SparingNothing(box, MarkedIds(s.entries));
  }
}

/** All interleavings of acquirers, releases, session cleanups and shutdown. */
module PoolRuns {
  import opened PoolSections

  type ThreadId = nat

  datatype Thread =
    | None
    | Opening(e: EntryId)                     // inside OpenRuntime
    | Waiting(e: EntryId)                     // for another thread's open
    | Holding(e: EntryId)
    | Cleaning(remaining: set<EntryId>)       // a session's detached entries
    | Recording(remaining: set<EntryId>)      // a close failed; its count is not yet taken
    | Shutting(remaining: set<EntryId>)       // the pool's own entries
    | Draining                                // waits for the session cleanups

  /** `ended` are the frontends whose session cleanup has run. `closes` counts the
      closes of each entry's runtime; `failedCloses` counts the failed ones made by
      session cleanups. `returned` says that Close has returned. `evicted` are the
      entries that another entry's failed open removed from the table. */
  datatype System = System(
    p: State,
    threads: map<ThreadId, Thread>,
    nextEntry: EntryId,
    ended: set<Frontend>,
    closes: multiset<EntryId>,
    failedCloses: nat,
    returned: bool,
    evicted: set<EntryId>)

  datatype Action =
    | DoAcquire(t: ThreadId, key: Key)
    | DoOpenReturn(t: ThreadId, ok: bool)
    | DoWake(t: ThreadId)
    | DoAbandon(t: ThreadId)
    | DoRelease(t: ThreadId)
    | DoEndSession(t: ThreadId, frontend: Frontend)
    | DoCloseOne(t: ThreadId, e: EntryId, failed: bool)
    | DoRecord(t: ThreadId)
    | DoCleanupDone(t: ThreadId)
    | DoShutdown(t: ThreadId)
    | DoDrain(t: ThreadId)
    | DoReturn(t: ThreadId)

  const START := System(INITIAL, map[], 0, {}, multiset{}, 0, false, {})

  function At(s: System, t: ThreadId): Thread {
    if t in s.threads then s.threads[t] else None
  }

  function Put(s: System, t: ThreadId, thread: Thread): map<ThreadId, Thread> {
    s.threads[t := thread]
  }

  predicate Enabled(s: System, a: Action) {
    var thread := At(s, a.t);
    match a
    case DoAcquire(_, _) => thread.None?
    case DoOpenReturn(_, _) => thread.Opening? && thread.e in s.p.heap
    case DoWake(_) => thread.Waiting? && thread.e in s.p.heap && s.p.heap[thread.e].Ready()
    case DoAbandon(_) => thread.Waiting?
    case DoRelease(_) => thread.Holding?
    case DoEndSession(_, frontend) => thread.None? && frontend in s.p.watched
    case DoCloseOne(_, e, failed) =>
      && (thread.Cleaning? || thread.Shutting?) && e in thread.remaining
      && e in s.p.heap && s.p.heap[e].Ready() && (failed ==> s.p.heap[e].status.Opened?)
    case DoRecord(_) => thread.Recording?
    case DoCleanupDone(_) => thread.Cleaning? && thread.remaining == {}
    case DoShutdown(_) => thread.None?
    case DoDrain(_) => thread.Shutting? && thread.remaining == {}
    case DoReturn(_) => thread.Draining? && s.p.cleanups == 0
  }

  /** The entry under the key of `e`, if it is another one. */
  function OtherUnderKey(p: State, e: EntryId): set<EntryId>
    requires e in p.heap
  {
    var key := p.heap[e].key;
    if key in p.entries && p.entries[key] != e then {p.entries[key]} else {}
  }

  function Next(s: System, a: Action): System
    requires Enabled(s, a)
  {
    var thread := At(s, a.t);
    match a
    case DoAcquire(t, key) =>
      var (p, acquired) := Acquire(s.p, key, s.nextEntry);
      (match acquired
       case Refused => s
       case MustWait(e) => s.(p := p, threads := Put(s, t, Waiting(e)))
       case MustOpen(e) => s.(p := p, threads := Put(s, t, Opening(e)), nextEntry := s.nextEntry + 1))
    case DoOpenReturn(t, ok) =>
      s.(p := Publish(s.p, thread.e, ok),
         threads := Put(s, t, if ok then Holding(thread.e) else None),
         evicted := if ok then s.evicted else s.evicted + OtherUnderKey(s.p, thread.e))
    case DoWake(t) =>
      if s.p.heap[thread.e].status.Failed?
      then s.(p := Release(s.p, thread.e), threads := Put(s, t, None))
      else s.(threads := Put(s, t, Holding(thread.e)))
    case DoAbandon(t) => s.(p := Release(s.p, thread.e), threads := Put(s, t, None))
    case DoRelease(t) => s.(p := Release(s.p, thread.e), threads := Put(s, t, None))
    case DoEndSession(t, frontend) =>
      var (p, detached) := CloseSession(s.p, frontend);
      s.(p := p, ended := s.ended + {frontend}, threads := Put(s, t, if s.p.closed then None else Cleaning(detached)))
    case DoCloseOne(t, e, failed) =>
      var rest := thread.remaining - {e};
      s.(closes := if s.p.heap[e].status.Opened? then s.closes + multiset{e} else s.closes,
         failedCloses := if failed && thread.Cleaning? then s.failedCloses + 1 else s.failedCloses,
         threads := Put(s, t,
           if thread.Shutting? then Shutting(rest) else if failed then Recording(rest) else Cleaning(rest)))
    case DoRecord(t) => s.(p := RecordFailure(s.p), threads := Put(s, t, Cleaning(thread.remaining)))
    case DoCleanupDone(t) => s.(p := CleanupDone(s.p), threads := Put(s, t, None))
    case DoShutdown(t) =>
      var (p, detached) := Close(s.p);
      s.(p := p, threads := Put(s, t, if s.p.closed then None else Shutting(detached)))
    case DoDrain(t) => s.(threads := Put(s, t, Draining))
    case DoReturn(t) => s.(threads := Put(s, t, None), returned := true)
  }

  /** A frontend is not used again once its session cleanup has run. */
  predicate Disciplined(s: System, a: Action) {
    a.DoAcquire? ==> a.key.frontend !in s.ended
  }

  function Run(actions: seq<Action>): System {
    if |actions| == 0 then START
    else
      var s := Run(actions[..|actions| - 1]);
      var a := actions[|actions| - 1];
      if Enabled(s, a) then Next(s, a) else s
  }

  predicate DisciplinedRun(actions: seq<Action>) {
    |actions| == 0 ||
      (DisciplinedRun(actions[..|actions| - 1]) && Disciplined(Run(actions[..|actions| - 1]), actions[|actions| - 1]))
  }

  // ---- Invariants ----

  predicate Uses(thread: Thread, e: EntryId) {
    thread == Opening(e) || thread == Waiting(e) || thread == Holding(e)
  }

  function Users(threads: map<ThreadId, Thread>, e: EntryId): set<ThreadId> {
    set t | t in threads && Uses(threads[t], e)
  }

  function Cleaners(threads: map<ThreadId, Thread>): set<ThreadId> {
    set t | t in threads && (threads[t].Cleaning? || threads[t].Recording?)
  }

  function Recorders(threads: map<ThreadId, Thread>): set<ThreadId> {
    set t | t in threads && threads[t].Recording?
  }

  /** The detached entries that a thread must still close. */
  function Duty(thread: Thread): set<EntryId> {
    if thread.Cleaning? || thread.Recording? || thread.Shutting? then thread.remaining else {}
  }

  ghost predicate TableInv(s: System) {
    && (forall k :: k in s.p.entries ==> s.p.entries[k] in s.p.heap && s.p.heap[s.p.entries[k]].key == k)
    && (forall k :: k in s.p.entries ==>
      k.frontend in s.p.watched && !s.p.closed && !s.p.heap[s.p.entries[k]].status.Failed?)
    && (forall e :: e in s.p.heap ==> e < s.nextEntry)
  }

  ghost predicate OpenerInv(s: System) {
    && (forall t :: At(s, t).Opening? ==> At(s, t).e in s.p.heap && s.p.heap[At(s, t).e].status.Pending?)
    && (forall t, u :: At(s, t).Opening? && At(s, t) == At(s, u) ==> t == u)
  }

  ghost predicate OpenInFlight(s: System, e: EntryId) {
    exists t :: At(s, t) == Opening(e)
  }

  ghost predicate PendingInv(s: System) {
    forall e :: e in s.p.heap && s.p.heap[e].status.Pending? ==> OpenInFlight(s, e)
  }

  ghost predicate UserInv(s: System) {
    forall t, e :: Uses(At(s, t), e) ==> e in s.p.heap
  }

  ghost predicate RefInv(s: System) {
    forall k :: k in s.p.entries && s.p.entries[k] in s.p.heap ==>
      s.p.heap[s.p.entries[k]].refs == |Users(s.threads, s.p.entries[k])|
  }

  ghost predicate CountInv(s: System) {
    && s.p.cleanups == |Cleaners(s.threads)|
    && s.p.cleanupFailures + |Recorders(s.threads)| == s.failedCloses
  }

  predicate IsShutter(thread: Thread) {
    thread.Shutting? || thread.Draining?
  }

  ghost predicate ShutInv(s: System) {
    && (forall t :: IsShutter(At(s, t)) ==> s.p.closed && !s.returned)
    && (forall t, u :: IsShutter(At(s, t)) && IsShutter(At(s, u)) ==> t == u)
    && (s.returned ==> s.p.closed && s.p.cleanups == 0)
  }

  ghost predicate DutyInv(s: System) {
    && (forall t, u :: t != u ==> Duty(At(s, t)) !! Duty(At(s, u)))
    && (forall t, e :: e in Duty(At(s, t)) ==> e in s.p.heap && !Current(s.p, e) && s.closes[e] == 0)
    && (forall k :: k in s.p.entries ==> s.closes[s.p.entries[k]] == 0)
    && (forall e: EntryId :: s.closes[e] <= 1)
    && (forall e: EntryId :: s.closes[e] > 0 ==> e in s.p.heap && s.p.heap[e].status.Opened?)
  }

  /** An evicted entry is out of everybody's reach. */
  ghost predicate StrayInv(s: System) {
    && (forall e :: e in s.evicted ==> e in s.p.heap && !Current(s.p, e) && s.closes[e] == 0)
    && (forall t, e :: e in Duty(At(s, t)) ==> e !in s.evicted)
  }

  ghost predicate HasDuty(s: System, e: EntryId) {
    exists t :: e in Duty(At(s, t))
  }

  predicate Settled(s: System, e: EntryId)
    requires e in s.p.heap
  {
    s.p.heap[e].status.Failed? || (s.p.heap[e].status.Opened? && s.closes[e] == 1)
  }

  ghost predicate NoneLost(s: System) {
    forall e :: e in s.p.heap ==> Current(s.p, e) || HasDuty(s, e) || Settled(s, e) || e in s.evicted
  }

  ghost predicate Inv(s: System) {
    && TableInv(s) && OpenerInv(s) && PendingInv(s) && UserInv(s) && RefInv(s) && CountInv(s)
    && ShutInv(s) && DutyInv(s) && StrayInv(s) && NoneLost(s)
  }

  ghost predicate OthersStay(s: System, s': System, t: ThreadId) {
    forall u :: u != t ==> At(s', u) == At(s, u)
  }

  lemma OnlyActorMoves(s: System, a: Action)
    requires Enabled(s, a)
    ensures OthersStay(s, Next(s, a), a.t)
  {
  }

  lemma TableKept(s: System, a: Action)
    requires TableInv(s) && OpenerInv(s) && Enabled(s, a)
    ensures TableInv(Next(s, a))
  {
    hide Publish, Acquire;
    match a
    case DoAcquire(_, key) => AcquireTable(s, a);
    case DoOpenReturn(_, _) => OpenTable(s, a);
    case _ =>
  }

  lemma AcquireTable(s: System, a: Action)
    requires TableInv(s) && Enabled(s, a) && a.DoAcquire?
    ensures TableInv(Next(s, a))
  {
  }

  lemma OpenTable(s: System, a: Action)
    requires TableInv(s) && OpenerInv(s) && Enabled(s, a) && a.DoOpenReturn?
    ensures TableInv(Next(s, a))
  {
  }

  lemma OpenerKept(s: System, a: Action)
    requires TableInv(s) && OpenerInv(s) && UserInv(s) && Enabled(s, a)
    ensures OpenerInv(Next(s, a))
  {
    OnlyActorMoves(s, a);
    var s' := Next(s, a);
    assert At(s', a.t).Opening? ==> At(s', a.t).e == s.nextEntry;
    forall t | t != a.t && At(s, t).Opening?
      ensures At(s, t).e in s'.p.heap && s'.p.heap[At(s, t).e].status.Pending?
    {
      assert a.DoOpenReturn? ==> At(s, a.t).e != At(s, t).e;
    }
  }

  lemma PendingKept(s: System, a: Action)
    requires PendingInv(s) && OpenerInv(s) && TableInv(s) && Enabled(s, a)
    ensures PendingInv(Next(s, a))
  {
    var s' := Next(s, a);
    OnlyActorMoves(s, a);
    forall e | e in s'.p.heap && s'.p.heap[e].status.Pending? ensures OpenInFlight(s', e) {
      if e in s.p.heap {
        var t :| At(s, t) == Opening(e);
        assert At(s', t) == Opening(e);
      } else {
        assert At(s', a.t) == Opening(e);
      }
    }
  }

  lemma UserKept(s: System, a: Action)
    requires UserInv(s) && TableInv(s) && Enabled(s, a)
    ensures UserInv(Next(s, a))
  {
    OnlyActorMoves(s, a);
  }

  lemma ShutKept(s: System, a: Action)
    requires ShutInv(s) && CountInv(s) && Enabled(s, a)
    ensures ShutInv(Next(s, a))
  {
    OnlyActorMoves(s, a);
    if At(s, a.t).Cleaning? {
      assert a.t in Cleaners(s.threads);
    }
  }

  // ---- Where the entries are ----

  /** Nothing is detached and nothing is closed; an open may succeed, or fail and take
      another entry out of the table. */
  ghost predicate Quiet(s: System, s': System, t: ThreadId) {
    && Duty(At(s', t)) == Duty(At(s, t)) && s'.closes == s.closes
    && s.evicted <= s'.evicted
    && (forall e :: e in s'.evicted && e !in s.evicted ==> Current(s.p, e) && !Current(s'.p, e))
    && (forall e :: e in s.p.heap ==> e in s'.p.heap && Evolves(s, s', e))
    && (forall e :: e in s'.p.heap && e !in s.p.heap ==> Current(s'.p, e))
    && (forall k :: k in s'.p.entries ==>
      s'.p.entries[k] !in s.p.heap || (k in s.p.entries && s'.p.entries[k] == s.p.entries[k]))
  }

  predicate Evolves(s: System, s': System, e: EntryId)
    requires e in s.p.heap && e in s'.p.heap
  {
    && (s.p.heap[e].status.Pending? || s'.p.heap[e].status == s.p.heap[e].status)
    && (Current(s'.p, e) ==> Current(s.p, e))
    && (Current(s.p, e) && !Current(s'.p, e) ==> s'.p.heap[e].status.Failed? || e in s'.evicted)
  }

  /** The actor takes over exactly the entries that leave the table. */
  ghost predicate Detaches(s: System, s': System, t: ThreadId) {
    && s'.closes == s.closes && s'.p.heap == s.p.heap && Duty(At(s, t)) == {} && s'.evicted == s.evicted
    && (forall e :: e in Duty(At(s', t)) <==> e in s.p.heap && Current(s.p, e) && !Current(s'.p, e))
    && (forall e :: e in s.p.heap && Current(s'.p, e) ==> Current(s.p, e))
    && (forall k :: k in s'.p.entries ==> k in s.p.entries && s'.p.entries[k] == s.p.entries[k])
  }

  /** The actor closes one of its detached entries. */
  ghost predicate ClosesOne(s: System, s': System, t: ThreadId) {
    && s'.p == s.p && s'.evicted == s.evicted
    && exists e ::
         && e in Duty(At(s, t)) && e in s.p.heap && s.p.heap[e].Ready()
         && Duty(At(s', t)) == Duty(At(s, t)) - {e}
         && s'.closes == if s.p.heap[e].status.Opened? then s.closes + multiset{e} else s.closes
  }

  ghost predicate Moves(s: System, s': System, t: ThreadId) {
    Quiet(s, s', t) || Detaches(s, s', t) || ClosesOne(s, s', t)
  }

  lemma ActionMoves(s: System, a: Action)
    requires TableInv(s) && OpenerInv(s) && Enabled(s, a)
    ensures Moves(s, Next(s, a), a.t)
  {
    var s' := Next(s, a);
    match a
    case DoCloseOne(t, e, failed) =>
      assert e in Duty(At(s, t)) && Duty(At(s', t)) == Duty(At(s, t)) - {e};
      assert ClosesOne(s, s', t);
    case DoEndSession(t, frontend) =>
      assert Detaches(s, s', t) || Quiet(s, s', t);
    case DoShutdown(t) =>
      assert Detaches(s, s', t) || Quiet(s, s', t);
    case DoOpenReturn(t, ok) =>
      PublishQuiet(s, t, ok);
    case DoAcquire(t, key) =>
      AcquireQuiet(s, t, key);
    case _ =>
      OtherwiseQuiet(s, a);
  }

  lemma OtherwiseQuiet(s: System, a: Action)
    requires Enabled(s, a)
    requires !a.DoCloseOne? && !a.DoEndSession? && !a.DoShutdown? && !a.DoOpenReturn? && !a.DoAcquire?
    ensures Quiet(s, Next(s, a), a.t)
  {
    var s' := Next(s, a);
    assert s'.p.heap.Keys == s.p.heap.Keys;
    assert s'.p.entries == s.p.entries;
  }

  lemma AcquireQuiet(s: System, t: ThreadId, key: Key)
    requires TableInv(s) && Enabled(s, DoAcquire(t, key))
    ensures Quiet(s, Next(s, DoAcquire(t, key)), t)
  {
  }

  /** A failed open removes the entry under its key, its own or not. */
  lemma PublishQuiet(s: System, t: ThreadId, ok: bool)
    requires TableInv(s) && OpenerInv(s) && Enabled(s, DoOpenReturn(t, ok))
    ensures Quiet(s, Next(s, DoOpenReturn(t, ok)), t)
  {
    var s' := Next(s, DoOpenReturn(t, ok));
    var e := At(s, t).e;
    assert forall f :: f in s.p.heap && f != e ==> s'.p.heap[f] == s.p.heap[f];
    assert !ok ==> forall f :: f in OtherUnderKey(s.p, e) ==> Current(s.p, f) && !Current(s'.p, f);
  }

  lemma DutyKept(s: System, s': System, t: ThreadId)
    requires DutyInv(s) && TableInv(s) && TableInv(s') && OthersStay(s, s', t) && Moves(s, s', t)
    ensures DutyInv(s')
  {
    if Quiet(s, s', t) {
      DutyQuiet(s, s', t);
    } else if Detaches(s, s', t) {
      DutyDetached(s, s', t);
    } else {
      DutyDone(s, s', t);
    }
  }

  lemma DutyQuiet(s: System, s': System, t: ThreadId)
    requires DutyInv(s) && TableInv(s) && TableInv(s') && OthersStay(s, s', t) && Quiet(s, s', t)
    ensures DutyInv(s')
  {
    forall u ensures Duty(At(s', u)) == Duty(At(s, u)) {
      assert u != t ==> At(s', u) == At(s, u);
    }
    forall k | k in s'.p.entries ensures s'.closes[s'.p.entries[k]] == 0 {
      assert s'.p.entries[k] !in s.p.heap ==> s.closes[s'.p.entries[k]] == 0;
    }
  }

  lemma DutyDetached(s: System, s': System, t: ThreadId)
    requires DutyInv(s) && TableInv(s) && OthersStay(s, s', t) && Detaches(s, s', t)
    ensures DutyInv(s')
  {
    forall u, e | e in Duty(At(s', u)) ensures e in s'.p.heap && !Current(s'.p, e) && s'.closes[e] == 0 {
      if u == t {
        assert s.p.entries[s.p.heap[e].key] == e;
      } else {
        assert At(s', u) == At(s, u);
      }
    }
    forall u, v | u != v ensures Duty(At(s', u)) !! Duty(At(s', v)) {
      assert u != t ==> At(s', u) == At(s, u);
      assert v != t ==> At(s', v) == At(s, v);
    }
  }

  lemma DutyDone(s: System, s': System, t: ThreadId)
    requires DutyInv(s) && TableInv(s) && OthersStay(s, s', t) && ClosesOne(s, s', t)
    ensures DutyInv(s')
  {
    forall u ensures Duty(At(s', u)) <= Duty(At(s, u)) {
      assert u != t ==> At(s', u) == At(s, u);
    }
    var e :| && e in Duty(At(s, t)) && e in s.p.heap && Duty(At(s', t)) == Duty(At(s, t)) - {e}
             && s'.closes == if s.p.heap[e].status.Opened? then s.closes + multiset{e} else s.closes;
    forall u, f | f in Duty(At(s', u)) ensures s'.closes[f] == 0 {
      assert f in Duty(At(s, u));
      assert u != t ==> Duty(At(s, u)) !! Duty(At(s, t));
    }
    forall k | k in s.p.entries ensures s'.closes[s.p.entries[k]] == 0 {
      assert s.p.entries[k] != e;
    }
  }

  lemma StrayKept(s: System, s': System, t: ThreadId)
    requires StrayInv(s) && DutyInv(s) && TableInv(s) && OthersStay(s, s', t) && Moves(s, s', t)
    ensures StrayInv(s')
  {
    forall u, e | e in Duty(At(s', u)) ensures e !in s'.evicted {
      assert u != t ==> At(s', u) == At(s, u);
      assert e in Duty(At(s, u)) || Current(s.p, e);
    }
    forall e | e in s'.evicted ensures e in s'.p.heap && !Current(s'.p, e) && s'.closes[e] == 0 {
      if e in s.evicted {
        assert e !in Duty(At(s, t));
      } else {
        assert s.p.entries[s.p.heap[e].key] == e;
      }
    }
  }

  lemma NoneLostKept(s: System, s': System, t: ThreadId)
    requires NoneLost(s) && DutyInv(s) && OthersStay(s, s', t) && Moves(s, s', t)
    ensures NoneLost(s')
  {
    assert forall u :: u != t ==> Duty(At(s', u)) == Duty(At(s, u));
    forall e | e in s'.p.heap && !Current(s'.p, e) && !Settled(s', e) && e !in s'.evicted ensures HasDuty(s', e) {
      if e in s.p.heap && HasDuty(s, e) {
        var u :| e in Duty(At(s, u));
        assert e in Duty(At(s', u));
      } else {
        assert e in Duty(At(s', t));
      }
    }
  }

  // ---- Counts ----

  lemma CountMoves(before: set<ThreadId>, after: set<ThreadId>, t: ThreadId)
    requires forall u :: u != t ==> (u in before <==> u in after)
    ensures |after| - (if t in after then 1 else 0) == |before| - (if t in before then 1 else 0)
  {
    var others := before - {t};
    assert others == after - {t};
    assert t in before ==> before == others + {t};
    assert t !in before ==> before == others;
    assert t in after ==> after == others + {t};
    assert t !in after ==> after == others;
  }

  lemma CountKept(s: System, a: Action)
    requires CountInv(s) && Enabled(s, a)
    ensures CountInv(Next(s, a))
  {
    var s' := Next(s, a);
    OnlyActorMoves(s, a);
    forall u | u != a.t
      ensures u in Cleaners(s.threads) <==> u in Cleaners(s'.threads)
      ensures u in Recorders(s.threads) <==> u in Recorders(s'.threads)
    {
      assert At(s', u) == At(s, u);
    }
    CountMoves(Cleaners(s.threads), Cleaners(s'.threads), a.t);
    CountMoves(Recorders(s.threads), Recorders(s'.threads), a.t);
  }

  lemma NobodyUses(s: System, e: EntryId)
    requires UserInv(s) && e !in s.p.heap
    ensures Users(s.threads, e) == {}
  {
    forall t | t in s.threads ensures !Uses(s.threads[t], e) {
      assert At(s, t) == s.threads[t];
    }
  }

  /** The reference count of an installed entry moves with its users. */
  predicate RefMoves(s: System, s': System, t: ThreadId, e: EntryId)
    requires e in s.p.heap && e in s'.p.heap
  {
    s'.p.heap[e].refs == s.p.heap[e].refs - (if Uses(At(s, t), e) then 1 else 0) + (if Uses(At(s', t), e) then 1 else 0)
  }

  lemma ActionRefMoves(s: System, a: Action, e: EntryId)
    requires TableInv(s) && OpenerInv(s) && Enabled(s, a) && e in s.p.heap
    requires Uses(At(s, a.t), e) ==> s.p.heap[e].refs > 0
    requires Current(s.p, e) && Current(Next(s, a).p, e)
    ensures e in Next(s, a).p.heap && RefMoves(s, Next(s, a), a.t, e)
  {
  }

  lemma RefKept(s: System, a: Action)
    requires RefInv(s) && TableInv(s) && OpenerInv(s) && UserInv(s)
    requires Enabled(s, a) && TableInv(Next(s, a))
    ensures RefInv(Next(s, a))
  {
    var s' := Next(s, a);
    OnlyActorMoves(s, a);
    forall k | k in s'.p.entries ensures s'.p.heap[s'.p.entries[k]].refs == |Users(s'.threads, s'.p.entries[k])| {
      var e := s'.p.entries[k];
      UsersMove(s, s', a.t, e);
      if e in s.p.heap {
        InstalledStays(s, a, k);
        ActionRefMoves(s, a, e);
      } else {
        NobodyUses(s, e);
        NewEntryCounted(s, a, k);
      }
    }
  }

  lemma UsersMove(s: System, s': System, t: ThreadId, e: EntryId)
    requires OthersStay(s, s', t)
    ensures |Users(s'.threads, e)| - (if Uses(At(s', t), e) then 1 else 0) ==
      |Users(s.threads, e)| - (if Uses(At(s, t), e) then 1 else 0)
    ensures Uses(At(s, t), e) ==> |Users(s.threads, e)| > 0
  {
    forall u | u != t ensures u in Users(s.threads, e) <==> u in Users(s'.threads, e) {
      assert At(s', u) == At(s, u);
    }
    CountMoves(Users(s.threads, e), Users(s'.threads, e), t);
    assert Uses(At(s, t), e) ==> t in Users(s.threads, e);
  }

  lemma InstalledStays(s: System, a: Action, k: Key)
    requires TableInv(s) && OpenerInv(s) && Enabled(s, a) && TableInv(Next(s, a))
    requires k in Next(s, a).p.entries && Next(s, a).p.entries[k] in s.p.heap
    ensures var e := Next(s, a).p.entries[k];
      Current(s.p, e) && Current(Next(s, a).p, e) && k in s.p.entries && s.p.entries[k] == e
  {
    ActionMoves(s, a);
  }

  lemma NewEntryCounted(s: System, a: Action, k: Key)
    requires TableInv(s) && Enabled(s, a)
    requires k in Next(s, a).p.entries && Next(s, a).p.entries[k] !in s.p.heap
    ensures var s' := Next(s, a); var e := s'.p.entries[k];
      e in s'.p.heap && s'.p.heap[e].refs == 1 && Uses(At(s', a.t), e) && At(s, a.t).None?
  {
  }

  lemma {:induction false} RunInv(actions: seq<Action>)
    ensures Inv(Run(actions))
  {
    if |actions| > 0 {
      var s, a := Run(actions[..|actions| - 1]), actions[|actions| - 1];
      RunInv(actions[..|actions| - 1]);
      if Enabled(s, a) {
        OnlyActorMoves(s, a);
        ActionMoves(s, a);
        TableKept(s, a);
        OpenerKept(s, a);
        PendingKept(s, a);
        UserKept(s, a);
        RefKept(s, a);
        CountKept(s, a);
        ShutKept(s, a);
        DutyKept(s, Next(s, a), a.t);
        NoneLostKept(s, Next(s, a), a.t);
        StrayKept(s, Next(s, a), a.t);
      }
    }
  }

  // ---- Disciplined runs ----

  /** An ended session stays ended, and an open in flight belongs to the installed
      entry, unless it was detached. */
  ghost predicate PlacedInv(s: System) {
    && (forall f :: f in s.ended ==> f !in s.p.watched)
    && (forall t :: At(s, t).Opening? ==> Placed(s, At(s, t).e))
    && s.evicted == {}
  }

  predicate Placed(s: System, e: EntryId) {
    e in s.p.heap && (Current(s.p, e) || s.p.closed || s.p.heap[e].key.frontend in s.ended)
  }

  lemma PlacedKept(s: System, a: Action)
    requires TableInv(s) && OpenerInv(s) && PlacedInv(s) && Enabled(s, a) && Disciplined(s, a)
    ensures PlacedInv(Next(s, a))
  {
    var s' := Next(s, a);
    OnlyActorMoves(s, a);
    forall t | At(s', t).Opening? ensures Placed(s', At(s', t).e) {
      if t != a.t {
        assert At(s', t) == At(s, t) && Placed(s, At(s, t).e);
        assert a.DoOpenReturn? ==> At(s, a.t).e != At(s, t).e;
      }
    }
    if a.DoOpenReturn? { assert Placed(s, At(s, a.t).e); }
  }

  /** As long as nobody acquires for a session after its cleanup, no failed open hits
      an entry that is not its own. */
  lemma {:induction false} DisciplineEvictsNothing(actions: seq<Action>)
    requires DisciplinedRun(actions)
    ensures PlacedInv(Run(actions))
  {
    if |actions| > 0 {
      var s, a := Run(actions[..|actions| - 1]), actions[|actions| - 1];
      DisciplineEvictsNothing(actions[..|actions| - 1]);
      RunInv(actions[..|actions| - 1]);
      if Enabled(s, a) { PlacedKept(s, a); }
    }
  }

  // ---- Main results ----

  /** One shared runtime: a live entry is the only one under its key, its session is
      watched, and its count is the number of its holders, waiters and opener. */
  lemma SharedExactly(actions: seq<Action>, key: Key)
    requires key in Run(actions).p.entries
    ensures var s := Run(actions); var e := s.p.entries[key];
      && e in s.p.heap && s.p.heap[e].key == key
      && s.p.heap[e].refs == |Users(s.threads, e)|
      && s.closes[e] == 0 && !s.p.heap[e].status.Failed?
      && key.frontend in s.p.watched && e !in s.evicted
      && (DisciplinedRun(actions) ==> key.frontend !in s.ended)
  {
    RunInv(actions);
    if DisciplinedRun(actions) { DisciplineEvictsNothing(actions); }
  }

  /** In every run, no runtime is ever closed twice. When Close has returned, every
      runtime that was ever opened, for the pool or for a detached session, has been
      closed exactly once, exactly if no other entry's failed open evicted its entry;
      every failed session close has been counted. */
  lemma ShutdownComplete(actions: seq<Action>, e: EntryId)
    ensures Run(actions).closes[e] <= 1
    ensures var s := Run(actions);
      s.returned ==>
        && s.p.closed && s.p.entries == map[]
        && s.p.cleanupFailures == s.failedCloses
        && (e in s.p.heap && s.p.heap[e].status.Opened? ==> s.closes[e] == if e in s.evicted then 0 else 1)
        && (e in s.p.heap && s.p.heap[e].status.Pending? ==> e in s.evicted)
  {
    RunInv(actions);
    var s := Run(actions);
    if s.returned {
      assert Cleaners(s.threads) == {};
      assert Recorders(s.threads) <= Cleaners(s.threads);
      forall t ensures Duty(At(s, t)) == {} {
        assert t !in Cleaners(s.threads);
      }
      if e in s.p.heap {
        assert !Current(s.p, e) && !HasDuty(s, e);
      }
    }
  }

  /** In a disciplined run nothing is evicted, and so nothing leaks. */
  lemma DisciplinedShutdown(actions: seq<Action>, e: EntryId)
    requires DisciplinedRun(actions)
    ensures Run(actions).evicted == {}
    ensures var s := Run(actions);
      s.returned && e in s.p.heap ==> s.p.heap[e].Ready() && (s.p.heap[e].status.Opened? ==> s.closes[e] == 1)
  {
    DisciplineEvictsNothing(actions);
    ShutdownComplete(actions, e);
  }

  /** When Close has returned, nothing leaks exactly if no entry whose runtime opened
      was ever evicted by another entry's failed open. */
  lemma LeaksExactly(actions: seq<Action>)
    requires Run(actions).returned
    ensures var s := Run(actions);
      (forall e :: e in s.p.heap && s.p.heap[e].status.Opened? ==> s.closes[e] == 1) <==>
        forall e :: e in s.evicted && e in s.p.heap ==> !s.p.heap[e].status.Opened?
  {
    RunInv(actions);
    forall e ensures var s := Run(actions);
      e in s.p.heap && s.p.heap[e].status.Opened? ==> s.closes[e] == if e in s.evicted then 0 else 1
    {
      ShutdownComplete(actions, e);
    }
  }

  // ---- What each section does ----

  /** Main result. In every run, the table changes exactly so: an acquire that finds
      nothing adds an entry; a failed open removes what has its key; a session that ends
      takes all of its entries along, and shutdown takes every entry. */
  lemma TableExactly(actions: seq<Action>, a: Action, k: Key)
    requires Enabled(Run(actions), a)
    ensures var s := Run(actions); var p' := Next(s, a).p;
      && (k in p'.entries <==>
            match a
            case DoAcquire(_, key) => k in s.p.entries || (k == key && !s.p.closed)
            case DoOpenReturn(t, ok) => k in s.p.entries && (ok || k != s.p.heap[At(s, t).e].key)
            case DoEndSession(_, frontend) => k in s.p.entries && k.frontend != frontend
            case DoShutdown(_) => false
            case _ => k in s.p.entries)
      && (k in p'.entries ==> p'.entries[k] == if k in s.p.entries then s.p.entries[k] else s.nextEntry)
      && (p'.closed <==> s.p.closed || a.DoShutdown?)
      && (forall f :: f in p'.watched <==>
            (f in s.p.watched || (a.DoAcquire? && !s.p.closed && f == a.key.frontend))
            && !(a.DoEndSession? && f == a.frontend))
  {
    RunInv(actions);
    hide Run, OpenerInv, PendingInv, UserInv, RefInv, CountInv, ShutInv, DutyInv, StrayInv, NoneLost, OtherUnderKey;
  }

  /** Main result. What an acquire comes to: it is refused exactly by a closed pool, waits
      for the entry under its key if there is one, and opens a new one otherwise; it ends
      up with the runtime exactly if the entry it opened or waited for did open. */
  lemma AcquireExactly(actions: seq<Action>, a: Action)
    requires Enabled(Run(actions), a)
    ensures var s := Run(actions); var s' := Next(s, a); var thread := At(s', a.t);
      match a
      case DoAcquire(_, key) =>
        thread == (if s.p.closed then None
                   else if key in s.p.entries then Waiting(s.p.entries[key])
                   else Opening(s.nextEntry))
      case DoOpenReturn(t, ok) =>
        && thread == (if ok then Holding(At(s, t).e) else None)
        && At(s, t).e in s'.p.heap && s'.p.heap[At(s, t).e].status == if ok then Opened else Failed
      case DoWake(t) => thread == if s.p.heap[At(s, t).e].status.Opened? then Holding(At(s, t).e) else None
      case DoRelease(_) => thread == None
      case DoAbandon(_) => thread == None
      case _ => true
  {
    RunInv(actions);
    hide Run, OpenerInv, PendingInv, RefInv, CountInv, ShutInv, DutyInv, StrayInv, NoneLost, OtherUnderKey;
  }

  /** Main result. Whoever ends a session or shuts down takes on exactly the entries that
      this removes from the table, and then closes them one by one. */
  lemma DetachedExactly(actions: seq<Action>, a: Action)
    requires Enabled(Run(actions), a) && (a.DoEndSession? || a.DoShutdown?)
    ensures var s := Run(actions); var thread := At(Next(s, a), a.t);
      if s.p.closed then thread == None
      else
        && (if a.DoEndSession? then thread.Cleaning? else thread.Shutting?)
        && forall e :: e in thread.remaining <==>
             exists k :: k in s.p.entries && s.p.entries[k] == e && (a.DoEndSession? ==> k.frontend == a.frontend)
  {
    hide Run;
  }

  /** A failed open leaves every other live entry in the table exactly when the entry
      under its key, if there is one, is its own. */
  lemma FailedOpenSparesOthers(p: State, e: EntryId)
    requires e in p.heap
    requires forall key :: key in p.entries ==> p.entries[key] in p.heap && p.heap[p.entries[key]].key == key
    ensures (forall f :: Current(p, f) && f != e ==> Current(Publish(p, e, false), f)) <==>
      (p.heap[e].key in p.entries ==> p.entries[p.heap[e].key] == e)
  {
    var key := p.heap[e].key;
    if key in p.entries && p.entries[key] != e {
      assert Current(p, p.entries[key]) && !Current(Publish(p, e, false), p.entries[key]);
    }
  }

  /** A step evicts an entry exactly if that entry leaves the table without having failed
      and without anybody being left to close it, which only a failed open does that
      finds this entry and not its own under its key. What is evicted is out of reach for
      good. */
  lemma EvictedExactly(actions: seq<Action>, a: Action, f: EntryId)
    requires Enabled(Run(actions), a)
    ensures var s := Run(actions); var s' := Next(s, a);
      && (f in s'.evicted && f !in s.evicted <==>
            Current(s.p, f) && !Current(s'.p, f) && !s'.p.heap[f].status.Failed? && !HasDuty(s', f))
      && (f in s'.evicted <==> f in s.evicted || (a.DoOpenReturn? && !a.ok && f in OtherUnderKey(s.p, At(s, a.t).e)))
      && (f in s'.evicted ==> f in s'.p.heap && !Current(s'.p, f) && s'.closes[f] == 0 && !HasDuty(s', f))
  {
    RunInv(actions);
    RunInv(actions + [a]);
    assert (actions + [a])[..|actions + [a]| - 1] == actions;
    var s, s' := Run(actions), Next(Run(actions), a);
    EvictingStep(s, a, f);
    hide Run, Next, Enabled, OpenerInv, PendingInv, UserInv, RefInv, CountInv, ShutInv;
    assert HasDuty(s', f) ==> f !in s'.evicted && !Current(s'.p, f);
  }

  /** What a step evicts was installed and has not failed; what else leaves the table
      was not closed by the same step. */
  lemma EvictingStep(s: System, a: Action, f: EntryId)
    requires TableInv(s) && OpenerInv(s) && StrayInv(s) && DutyInv(s) && Enabled(s, a)
    ensures var s' := Next(s, a);
      && (f in s'.evicted <==> f in s.evicted || (a.DoOpenReturn? && !a.ok && f in OtherUnderKey(s.p, At(s, a.t).e)))
      && (f in s'.evicted && f !in s.evicted ==>
            Current(s.p, f) && f in s'.p.heap && !s'.p.heap[f].status.Failed?)
      && (Current(s.p, f) && !Current(s'.p, f) ==> f in s'.p.heap && s'.closes[f] == 0)
  {
  }

  /** Without the discipline, a failed open deletes an entry that is not its own:
      the runtime opened under that key is then never closed. */
  lemma UndisciplinedLeak() returns (actions: seq<Action>)
    ensures !DisciplinedRun(actions)
    ensures var s := Run(actions);
      s.returned && 1 in s.p.heap && s.p.heap[1].status.Opened? && s.closes[1] == 0
  {
    var s;
    actions, s := WrongEntryDeleted();
    actions, s := Do(actions, s, DoCloseOne(2, 0, false));
    actions, s := Do(actions, s, DoCleanupDone(2));
    actions, s := Do(actions, s, DoShutdown(4));
    actions, s := Do(actions, s, DoDrain(4));
    actions, s := Do(actions, s, DoReturn(4));
  }

  /** Thread 1's open outlives its session; thread 3 reuses the session's key. */
  lemma WrongEntryDeleted() returns (actions: seq<Action>, s: System)
    ensures !DisciplinedRun(actions) && Run(actions) == s
    ensures s.threads.Keys == {1, 2, 3} && s.threads[2] == Cleaning({0})
    ensures s.p == s.p.(entries := map[], closed := false, cleanups := 1) && s.closes == multiset{}
    ensures s.p.heap.Keys == {0, 1} && s.p.heap[0].status.Failed? && s.p.heap[1].status.Opened?
  {
    actions, s := SessionEndsDuringOpen();
    actions, s := Do(actions, s, DoAcquire(3, Key(0, "", "")));
    actions, s := Do(actions, s, DoOpenReturn(3, true));
    actions, s := Do(actions, s, DoOpenReturn(1, false));
    assert s.p.entries == map[];
  }

  lemma SessionEndsDuringOpen() returns (actions: seq<Action>, s: System)
    ensures Run(actions) == s
    ensures s == System(
      State(map[], map[0 := Entry(Key(0, "", ""), Pending, 1)], {}, false, 1, 0),
      map[1 := Opening(0), 2 := Cleaning({0})], 1, {0}, multiset{}, 0, false, {})
  {
    s := START;
    actions := [];
    actions, s := Do(actions, s, DoAcquire(1, Key(0, "", "")));
    actions, s := Do(actions, s, DoEndSession(2, 0));
    assert s.threads[2] == Cleaning({0}) && s.p.entries == map[];
  }

  lemma Do(before: seq<Action>, s: System, a: Action) returns (actions: seq<Action>, s': System)
    requires Run(before) == s && Enabled(s, a)
    ensures s' == Next(s, a) && Run(actions) == s'
    ensures DisciplinedRun(actions) <==> DisciplinedRun(before) && Disciplined(s, a)
  {
    actions := before + [a];
    assert actions[..|actions| - 1] == before;
    s' := Next(s, a);
  }
}

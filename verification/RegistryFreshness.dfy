/** Fail-closed freshness and the absence of lost wake-ups, over all runs.

    The two go together: that a refresh is never counted twice rests on refreshDone
    marking exactly the refreshes under way, and the other way around. */
module RegistryFreshness {
  import opened Wrappers
  import opened RegistrySections
  import opened RegistryMemory
  import opened RegistryRuns
  import opened RegistryThreads

  /** The thread compiles a refresh of `e`. */
  predicate Flies(thread: Thread, e: EntryId) {
    (thread.Rerunning? && thread.e == e) || (thread.Refreshing? && thread.target == Some(e))
  }

  /** The latest time at which a refresh of `e` was asked for. */
  function LastAsked(s: System, e: EntryId): nat {
    if e in s.requested then s.requested[e] else 0
  }

  /** At most one refresh of `e` is under way; unless another is pending, its compile
      is recent enough. */
  ghost predicate Flights(s: System, e: EntryId)
    requires e in s.m.heap
  {
    && (forall t, u :: Flies(At(s, t), e) && Flies(At(s, u), e) ==> t == u)
    && (forall t :: Flies(At(s, t), e) ==>
      s.m.heap[e].refreshing && (s.m.heap[e].pending || At(s, t).began >= LastAsked(s, e)))
  }

  /** A snapshot that is not held back is recent enough. */
  predicate Snapshot(s: System, e: EntryId)
    requires e in s.m.heap
  {
    var entry := s.m.heap[e];
    entry.ready && e !in s.early && !entry.stale && entry.catalog.Some? ==> entry.catalog.value.began >= LastAsked(s, e)
  }

  /** The entry has an open refreshDone exactly while its timer is armed or a refresh
      is under way, and never both of those at once. */
  predicate Wake(m: Memory, e: EntryId)
    requires e in m.heap
  {
    var entry := m.heap[e];
    && (entry.refreshDone.Some? <==> entry.timer.Some? || entry.refreshing)
    && !(entry.timer.Some? && entry.refreshing)
    && (entry.timer.Some? ==> entry.timer.value in m.armed)
  }

  ghost predicate Tended(s: System, e: EntryId)
    requires e in s.m.heap
  {
    s.m.heap[e].config.toolSearch && s.m.heap[e].config !in s.disturbed ==>
      Flights(s, e) && Snapshot(s, e) && (Current(s.m, e) && !s.m.closed ==> Wake(s.m, e))
  }

  ghost predicate TendedInv(s: System) {
    forall e :: e in s.m.heap ==> Tended(s, e)
  }

  /** What is recorded of the past is about entries that exist. */
  ghost predicate RequestInv(s: System) {
    && (forall e :: e in s.requested ==>
      e in s.m.heap && s.requested[e] < s.clock && (e !in s.early ==> s.m.heap[e].ready))
    && (forall e :: e in s.early ==> e in s.requested)
  }

  /** Whoever asks before an entry is ready asks after its creator started. */
  ghost predicate EarlyInv(s: System) {
    forall t :: At(s, t).Creating? && At(s, t).e in s.requested ==> At(s, t).began < s.requested[At(s, t).e]
  }

  ghost predicate OrphanInv(s: System) {
    Orphaned(s.m) <= s.disturbed
  }

  lemma AskedIsFocus(s: System, a: Action)
    requires MemInv(s.m) && Enabled(s, a)
    ensures Asked(s, a).Some? ==> Asked(s, a) == Focus(s, a) && Asked(s, a).value in s.m.heap
  {
  }

  lemma RequestsKept(s: System, a: Action)
    requires MemInv(s.m) && ThreadInv(s) && RequestInv(s) && Enabled(s, a)
    ensures RequestInv(Next(s, a))
  {
    var s' := Next(s, a);
    StepSteady(s, a);
    AskedIsFocus(s, a);
    forall e | e in s'.requested
      ensures e in s'.m.heap && s'.requested[e] < s'.clock && (e !in s'.early ==> s'.m.heap[e].ready)
    {
      assert e in s.m.heap && Steady(s.m, s'.m, e);
    }
  }

  lemma EarlyKept(s: System, a: Action)
    requires MemInv(s.m) && ThreadInv(s) && RequestInv(s) && EarlyInv(s) && Enabled(s, a)
    ensures EarlyInv(Next(s, a))
  {
    var s' := Next(s, a);
    OnlyActorMoves(s, a);
    AskedIsFocus(s, a);
    forall t | At(s', t).Creating? && At(s', t).e in s'.requested ensures At(s', t).began < s'.requested[At(s', t).e] {
      if t != a.t {
        assert At(s', t) == At(s, t);
        assert Grounded(s.m, s.clock, At(s, t));
      } else {
        NewCreator(s, a);
      }
    }
  }

  lemma NewCreator(s: System, a: Action)
    requires MemInv(s.m) && ThreadInv(s) && Enabled(s, a) && NextThread(s, a).Creating?
    ensures NextThread(s, a).e !in s.m.heap && Asked(s, a).None?
  {
  }

  // ---- Entries that the action does not touch ----

  predicate Elsewhere(s: System, a: Action, e: EntryId)
    requires Enabled(s, a)
  {
    e in s.m.heap && (Sweeping(a) || Focus(s, a) != Some(e))
  }

  lemma ActorFliesAtFocus(s: System, a: Action, e: EntryId)
    requires MemInv(s.m) && ThreadInv(s) && Enabled(s, a) && Elsewhere(s, a, e)
    ensures !Flies(At(s, a.t), e) && !Flies(NextThread(s, a), e)
  {
    StartFliesAtFocus(s, a, e);
    hide NextThread, MemInv, ThreadInv;
  }

  lemma StartFliesAtFocus(s: System, a: Action, e: EntryId)
    requires CacheInv(s.m) && Enabled(s, a) && Elsewhere(s, a, e)
    ensures !Flies(NextThread(s, a), e)
  {
    hide WaitSection;
  }

  /** An untouched entry changes at most by losing its place, timer or channel. */
  lemma ElsewhereSame(s: System, a: Action, e: EntryId)
    requires MemInv(s.m) && ThreadInv(s) && Enabled(s, a) && Elsewhere(s, a, e)
    ensures var m' := NextMemory(s, a);
      && e in m'.heap && SweptEntry(s.m.heap[e], m'.heap[e])
      && (Current(m', e) && !m'.closed ==> Same(s.m, m', e) && !s.m.closed)
  {
    hide ThreadInv, CacheInv, TimerInv, ChannelInv, ClosedInv, FreshIds;
    if Sweeping(a) {
      StepSwept(s, a);
    } else {
      StepLocal(s, a);
      assert Same(s.m, NextMemory(s, a), e);
    }
  }

  lemma RecordElsewhere(s: System, a: Action, e: EntryId)
    requires MemInv(s.m) && Enabled(s, a) && Elsewhere(s, a, e)
    ensures LastAsked(Next(s, a), e) == LastAsked(s, e)
    ensures e in Next(s, a).early <==> e in s.early
  {
    AskedIsFocus(s, a);
  }

  lemma FlightsFrame(s: System, s': System, e: EntryId, t: ThreadId)
    requires e in s.m.heap && e in s'.m.heap && SweptEntry(s.m.heap[e], s'.m.heap[e])
    requires OthersStay(s, s', t) && !Flies(At(s, t), e) && !Flies(At(s', t), e)
    requires LastAsked(s', e) == LastAsked(s, e) && Flights(s, e)
    ensures Flights(s', e)
  {
    forall u | Flies(At(s', u), e) ensures At(s', u) == At(s, u) {
      assert u != t;
    }
  }

  lemma ArmedStay(s: System, a: Action, timer: Timer)
    requires MemInv(s.m) && ThreadInv(s) && Enabled(s, a) && !Sweeping(a)
    requires timer in s.m.armed && timer !in NextMemory(s, a).armed
    ensures a.DoFire? && timer == a.timer
  {
    StepLocal(s, a);
  }

  lemma TimerElsewhere(s: System, a: Action, e: EntryId)
    requires MemInv(s.m) && ThreadInv(s) && Enabled(s, a) && Elsewhere(s, a, e)
    requires Current(NextMemory(s, a), e) && !NextMemory(s, a).closed
    requires s.m.heap[e].timer.Some? && s.m.heap[e].timer.value in s.m.armed
    ensures s.m.heap[e].timer.value in NextMemory(s, a).armed
  {
    ElsewhereSame(s, a, e);
    if Sweeping(a) { StepSwept(s, a); }
    else if s.m.heap[e].timer.value !in NextMemory(s, a).armed { ArmedStay(s, a, s.m.heap[e].timer.value); }
  }

  lemma TendedElsewhere(s: System, a: Action, e: EntryId)
    requires MemInv(s.m) && ThreadInv(s) && Enabled(s, a) && Elsewhere(s, a, e) && Tended(s, e)
    ensures e in Next(s, a).m.heap && Tended(Next(s, a), e)
  {
    var s' := Next(s, a);
    OnlyActorMoves(s, a);
    ActorFliesAtFocus(s, a, e);
    ElsewhereSame(s, a, e);
    RecordElsewhere(s, a, e);
    if s.m.heap[e].config.toolSearch && s'.m.heap[e].config !in s'.disturbed {
      FlightsFrame(s, s', e, a.t);
      if Current(s'.m, e) && !s'.m.closed && s.m.heap[e].timer.Some? { TimerElsewhere(s, a, e); }
    }
  }

  // ---- The entry that the action touches ----

  predicate Guarded(s: System, e: EntryId) {
    e in s.m.heap && s.m.heap[e].config.toolSearch && s.m.heap[e].config !in s.disturbed
  }

  /** What a finished refresh leaves behind. */
  lemma FinishTends(s: System, s': System, e: EntryId, t: ThreadId, compiled: Compiled)
    requires MemInv(s.m) && Guarded(s, e) && Tended(s, e)
    requires Flies(At(s, t), e) && FromCompile(compiled, At(s, t).began, false)
    requires s'.m == FinishRefresh(s.m, e, compiled)
    requires OthersStay(s, s', t) && !Flies(At(s', t), e)
    requires s'.requested == s.requested && s'.early == s.early
    ensures Tended(s', e)
  {
    forall u ensures !Flies(At(s', u), e) {
      if u != t { assert At(s', u) == At(s, u); }
    }
  }

  /** What a refresh request leaves behind. */
  lemma RequestTends(s: System, s': System, e: EntryId, callback: Option<Callback>, t: ThreadId)
    requires MemInv(s.m) && Guarded(s, e) && Tended(s, e) && Current(s.m, e) && !s.m.closed
    requires s'.m == Schedule(MarkRequested(s.m, e, callback), e)
    requires OthersStay(s, s', t) && !Flies(At(s', t), e) && !Flies(At(s, t), e)
    requires s'.requested == s.requested[e := s.clock]
    ensures Tended(s', e)
  {
    forall u | Flies(At(s', u), e) ensures At(s', u) == At(s, u) {
      assert u != t;
    }
  }

  /** What an explicit refresh leaves behind when it starts. */
  lemma BeginTends(s: System, s': System, e: EntryId, t: ThreadId)
    requires MemInv(s.m) && Guarded(s, e) && Tended(s, e) && Current(s.m, e) && !s.m.closed
    requires s.m.heap[e].refreshDone.None? && s'.m == BeginRefresh(s.m, s.m.heap[e].config).0 && s.m.heap[e].ready
    requires OthersStay(s, s', t) && At(s', t) == Refreshing(s.m.heap[e].config, Some(e), s.clock)
    requires s'.requested == s.requested[e := s.clock]
    ensures Tended(s', e)
  {
    assert forall u :: Flies(At(s', u), e) ==> u == t;
  }

  /** What a background refresh leaves behind when its timer starts it. */
  lemma RerunTends(s: System, s': System, e: EntryId, t: ThreadId, timer: Timer)
    requires MemInv(s.m) && RequestInv(s) && Guarded(s, e) && Tended(s, e) && Current(s.m, e) && !s.m.closed
    requires s.m.heap[e].timer == Some(timer)
    requires s'.m == BeginRerun(s.m.(armed := s.m.armed - {timer}), s.m.heap[e].config).0
    requires OthersStay(s, s', t) && At(s', t) == Rerunning(e, s.m.heap[e].callbacks, s.clock)
    requires s'.requested == s.requested && s'.early == s.early
    ensures Tended(s', e)
  {
    assert forall u :: Flies(At(s', u), e) ==> u == t;
  }

  /** Nothing that matters for freshness changes; a timer may start with a channel. */
  lemma QuietTends(s: System, s': System, e: EntryId, t: ThreadId)
    requires e in s.m.heap && Tended(s, e)
    requires e in s'.m.heap && s.m.heap[e].config == s'.m.heap[e].config
    requires s'.m.heap[e].refreshing == s.m.heap[e].refreshing && s'.m.heap[e].pending == s.m.heap[e].pending
    requires OthersStay(s, s', t) && !Flies(At(s', t), e)
    requires s'.requested == s.requested && s.disturbed <= s'.disturbed
    requires Guarded(s, e) ==> Snapshot(s', e) && (Current(s'.m, e) && !s'.m.closed ==> Wake(s'.m, e))
    ensures Tended(s', e)
  {
    forall u | Flies(At(s', u), e) ensures At(s', u) == At(s, u) {
      assert u != t;
    }
  }

  ghost predicate Inv(s: System) {
    && MemInv(s.m) && ThreadInv(s) && SoleCreators(s) && UnreadyInv(s) && WaitInv(s)
    && RequestInv(s) && EarlyInv(s) && OrphanInv(s) && TendedInv(s) && SupervisedInv(s)
  }

  lemma CreatedTends(s: System, a: Action)
    requires MemInv(s.m) && ThreadInv(s) && RequestInv(s) && TendedInv(s) && Enabled(s, a) && a.DoCreated?
    ensures Tended(Next(s, a), At(s, a.t).e)
  {
    OnlyActorMoves(s, a);
    assert Grounded(s.m, s.clock, At(s, a.t));
    QuietTends(s, Next(s, a), At(s, a.t).e, a.t);
  }

  lemma WaitTends(s: System, a: Action)
    requires MemInv(s.m) && ThreadInv(s) && TendedInv(s) && Enabled(s, a) && a.DoAwaitReady?
    ensures At(s, a.t).e in Next(s, a).m.heap && Tended(Next(s, a), At(s, a.t).e)
  {
    OnlyActorMoves(s, a);
    QuietTends(s, Next(s, a), At(s, a.t).e, a.t);
  }

  lemma RefreshTends(s: System, a: Action, e: EntryId)
    requires MemInv(s.m) && ThreadInv(s) && TendedInv(s) && Enabled(s, a) && a.DoRefresh? && Focus(s, a) == Some(e)
    ensures e in Next(s, a).m.heap && Tended(Next(s, a), e)
  {
    OnlyActorMoves(s, a);
    if Asked(s, a).Some? {
      if Guarded(s, e) { BeginTends(s, Next(s, a), e, a.t); }
    } else {
      QuietTends(s, Next(s, a), e, a.t);
    }
  }

  lemma RefreshedTends(s: System, a: Action, e: EntryId)
    requires MemInv(s.m) && ThreadInv(s) && TendedInv(s) && Enabled(s, a) && a.DoRefreshed? && Focus(s, a) == Some(e)
    ensures e in Next(s, a).m.heap && Tended(Next(s, a), e)
  {
    OnlyActorMoves(s, a);
    assert Grounded(s.m, s.clock, At(s, a.t));
    if At(s, a.t).target.None? {
      ReplacedTends(s, a, e);
    } else if s.m.closed {
      QuietTends(s, Next(s, a), e, a.t);
    } else if Guarded(s, e) {
      FinishTends(s, Next(s, a), e, a.t, a.compiled);
    }
  }

  lemma ReplacedTends(s: System, a: Action, e: EntryId)
    requires MemInv(s.m) && TendedInv(s) && Enabled(s, a) && a.DoRefreshed? && Focus(s, a) == Some(e)
    requires At(s, a.t).target.None?
    ensures e in Next(s, a).m.heap && Tended(Next(s, a), e)
  {
    OnlyActorMoves(s, a);
    QuietTends(s, Next(s, a), e, a.t);
  }

  lemma RequestedTends(s: System, a: Action, e: EntryId)
    requires MemInv(s.m) && TendedInv(s) && Enabled(s, a) && a.DoRequest? && Focus(s, a) == Some(e)
    ensures e in Next(s, a).m.heap && Tended(Next(s, a), e)
  {
    OnlyActorMoves(s, a);
    hide NextPlace, NextDelivered, NextGets, Touched;
    if s.m.closed {
      QuietTends(s, Next(s, a), e, a.t);
    } else if Guarded(s, e) {
      RequestTends(s, Next(s, a), e, if a.callback then Some(s.clock) else None, a.t);
    }
  }

  lemma FiredTends(s: System, a: Action, e: EntryId)
    requires MemInv(s.m) && RequestInv(s) && OrphanInv(s) && TendedInv(s) && Enabled(s, a) && a.DoFire?
    requires Focus(s, a) == Some(e)
    ensures e in Next(s, a).m.heap && Tended(Next(s, a), e)
  {
    OnlyActorMoves(s, a);
    if Guarded(s, e) {
      assert OwnTimer(s.m, a.timer);
      RerunTends(s, Next(s, a), e, a.t, a.timer);
    }
  }

  lemma RerunEndTends(s: System, a: Action)
    requires MemInv(s.m) && ThreadInv(s) && TendedInv(s) && Enabled(s, a) && a.DoRerun?
    ensures At(s, a.t).e in Next(s, a).m.heap && Tended(Next(s, a), At(s, a.t).e)
  {
    OnlyActorMoves(s, a);
    var e := At(s, a.t).e;
    if Current(s.m, e) {
      if Guarded(s, e) { FinishTends(s, Next(s, a), e, a.t, a.compiled); }
    } else {
      QuietTends(s, Next(s, a), e, a.t);
    }
  }

  lemma FocusTended(s: System, a: Action, e: EntryId)
    requires MemInv(s.m) && ThreadInv(s) && RequestInv(s) && OrphanInv(s) && TendedInv(s) && Enabled(s, a)
    requires Focus(s, a) == Some(e)
    ensures e in Next(s, a).m.heap && Tended(Next(s, a), e)
  {
    match a
    case DoCreated(_, _) => CreatedTends(s, a);
    case DoAwaitReady(_) => WaitTends(s, a);
    case DoRefresh(_, _) => RefreshTends(s, a, e);
    case DoRefreshed(_, _) => RefreshedTends(s, a, e);
    case DoRequest(_, _, _) => RequestedTends(s, a, e);
    case DoFire(_, _) => FiredTends(s, a, e);
    case DoRerun(_, _) => RerunEndTends(s, a);
  }

  /** A new entry has nothing under way. */
  lemma NewTended(s: System, a: Action, e: EntryId)
    requires MemInv(s.m) && ThreadInv(s) && RequestInv(s) && Enabled(s, a)
    requires e !in s.m.heap && e in Next(s, a).m.heap
    ensures Tended(Next(s, a), e)
  {
    AskedIsFocus(s, a);
    NewClean(s, a, e);
    NobodyFlies(s, a, e);
    assert e !in Next(s, a).requested;
  }

  lemma NobodyFlies(s: System, a: Action, e: EntryId)
    requires MemInv(s.m) && ThreadInv(s) && Enabled(s, a) && e !in s.m.heap
    ensures forall t :: !Flies(At(Next(s, a), t), e)
  {
    OnlyActorMoves(s, a);
    NewThreadFliesOld(s, a, e);
    hide NextThread, NextMemory;
    forall t | t != a.t ensures !Flies(At(Next(s, a), t), e) {
      assert At(Next(s, a), t) == At(s, t) && Grounded(s.m, s.clock, At(s, t));
    }
  }

  lemma NewClean(s: System, a: Action, e: EntryId)
    requires MemInv(s.m) && ThreadInv(s) && Enabled(s, a) && e !in s.m.heap && e in NextMemory(s, a).heap
    ensures Clean(NextMemory(s, a).heap[e])
  {
    hide NextMemory;
    if Sweeping(a) { StepSwept(s, a); } else { StepLocal(s, a); }
  }

  lemma NewThreadFliesOld(s: System, a: Action, e: EntryId)
    requires MemInv(s.m) && ThreadInv(s) && Enabled(s, a) && e !in s.m.heap
    ensures !Flies(NextThread(s, a), e)
  {
  }

  lemma TendedKept(s: System, a: Action)
    requires MemInv(s.m) && ThreadInv(s) && RequestInv(s) && OrphanInv(s) && TendedInv(s) && Enabled(s, a)
    ensures TendedInv(Next(s, a))
  {
    forall e | e in Next(s, a).m.heap ensures Tended(Next(s, a), e) {
      if e !in s.m.heap { NewTended(s, a, e); }
      else if !Sweeping(a) && Focus(s, a) == Some(e) { FocusTended(s, a, e); }
      else { TendedElsewhere(s, a, e); }
    }
  }

  // ---- Refreshes under way belong to a thread ----

  ghost predicate InFlight(s: System, e: EntryId) {
    exists t :: Flies(At(s, t), e)
  }

  ghost predicate SupervisedInv(s: System) {
    forall e :: Current(s.m, e) && !s.m.closed && s.m.heap[e].refreshing ==> InFlight(s, e)
  }

  lemma FocusSupervised(s: System, a: Action, e: EntryId)
    requires MemInv(s.m) && ThreadInv(s) && SupervisedInv(s) && Enabled(s, a) && Focus(s, a) == Some(e)
    requires Current(s.m, e) && !s.m.closed
    requires Current(NextMemory(s, a), e) && NextMemory(s, a).heap[e].refreshing
    ensures Flies(NextThread(s, a), e) || (InFlight(s, e) && !Flies(At(s, a.t), e))
  {
    match a
    case DoRequest(_, config, callback) =>
      RequestKeepsRefreshing(s.m, config, if callback then Some(s.clock) else None);
    case DoRefresh(_, _) => RefreshSupervised(s, a, e);
    case DoRefreshed(_, _) => RefreshedSupervised(s, a, e);
    case DoFire(_, _) => FiredSupervised(s, a, e);
    case DoRerun(_, _) => EndedSupervised(s, a, e);
    case _ => StillSupervised(s, a, e);
  }

  lemma FiredSupervised(s: System, a: Action, e: EntryId)
    requires SupervisedInv(s) && Current(s.m, e) && !s.m.closed && Enabled(s, a) && a.DoFire? && Focus(s, a) == Some(e)
    ensures Flies(NextThread(s, a), e) || (InFlight(s, e) && !Flies(At(s, a.t), e))
  {
  }

  lemma EndedSupervised(s: System, a: Action, e: EntryId)
    requires Current(s.m, e) && Enabled(s, a) && a.DoRerun? && Focus(s, a) == Some(e)
    ensures e in NextMemory(s, a).heap && !NextMemory(s, a).heap[e].refreshing
  {
  }

  lemma StillSupervised(s: System, a: Action, e: EntryId)
    requires SupervisedInv(s) && Current(s.m, e) && !s.m.closed && Enabled(s, a) && (a.DoCreated? || a.DoAwaitReady?)
    requires Focus(s, a) == Some(e)
    requires e in NextMemory(s, a).heap && NextMemory(s, a).heap[e].refreshing
    ensures InFlight(s, e) && !Flies(At(s, a.t), e)
  {
  }

  lemma RequestKeepsRefreshing(m: Memory, config: Config, callback: Option<Callback>)
    requires CacheInv(m) && config in m.entries
    ensures m.entries[config] in RequestRefresh(m, config, callback).heap
    ensures RequestRefresh(m, config, callback).heap[m.entries[config]].refreshing ==
      m.heap[m.entries[config]].refreshing
  {
  }

  lemma RefreshSupervised(s: System, a: Action, e: EntryId)
    requires MemInv(s.m) && Enabled(s, a) && a.DoRefresh? && Focus(s, a) == Some(e)
    requires SupervisedInv(s) && Current(s.m, e) && !s.m.closed && NextMemory(s, a).heap[e].refreshing
    ensures Flies(NextThread(s, a), e) || (InFlight(s, e) && !Flies(At(s, a.t), e))
  {
  }

  lemma RefreshedSupervised(s: System, a: Action, e: EntryId)
    requires MemInv(s.m) && ThreadInv(s) && Enabled(s, a) && a.DoRefreshed? && Focus(s, a) == Some(e)
    requires SupervisedInv(s) && Current(s.m, e) && !s.m.closed
    requires Current(NextMemory(s, a), e) && NextMemory(s, a).heap[e].refreshing
    ensures InFlight(s, e) && !Flies(At(s, a.t), e)
  {
  }

  lemma SupervisedKept(s: System, a: Action)
    requires MemInv(s.m) && ThreadInv(s) && SupervisedInv(s) && Enabled(s, a)
    ensures SupervisedInv(Next(s, a))
  {
    var s' := Next(s, a);
    OnlyActorMoves(s, a);
    forall e | Current(s'.m, e) && !s'.m.closed && s'.m.heap[e].refreshing ensures InFlight(s', e) {
      if e !in s.m.heap {
        if Sweeping(a) { StepSwept(s, a); } else { StepLocal(s, a); }
      } else {
        if !Sweeping(a) && Focus(s, a) == Some(e) {
          StepLocal(s, a);
          FocusSupervised(s, a, e);
        } else {
          ElsewhereSame(s, a, e);
          ActorFliesAtFocus(s, a, e);
        }
        if Flies(NextThread(s, a), e) {
          assert Flies(At(s', a.t), e);
        } else {
          var t :| Flies(At(s, t), e);
          assert At(s', t) == At(s, t);
        }
      }
    }
  }

  lemma {:induction false} RunInv(actions: seq<Action>)
    ensures Inv(Run(actions))
  {
    if |actions| > 0 {
      var s, a := Run(actions[..|actions| - 1]), actions[|actions| - 1];
      RunInv(actions[..|actions| - 1]);
      if Enabled(s, a) {
        StepKeepsMemInv(s, a);
        ThreadsKept(s, a);
        CreatorsKept(s, a);
        UnreadyKept(s, a);
        WaitsKept(s, a);
        RequestsKept(s, a);
        EarlyKept(s, a);
        TendedKept(s, a);
        SupervisedKept(s, a);
      }
    }
  }
}

/** When a wait for a refresh ends, and when it does not, in every run.

    RegistryFreshness shows that nothing is lost while no timer outlives its entry.
    Here nothing is excluded: refreshDone of an installed entry always has a refresh
    under way or a timer, the timer may be dead, and a wait on a dropped entry ends
    exactly if an explicit refresh of that entry is still to end. */
module RegistryWaits {
  import opened Wrappers
  import opened RegistrySections
  import opened RegistryMemory
  import opened RegistryRuns
  import opened RegistryThreads
  import opened RegistryFreshness

  predicate ArmedAt(m: Memory, e: EntryId) {
    e in m.heap && m.heap[e].timer.Some? && m.heap[e].timer.value in m.armed
  }

  /** The entry has a timer that will not fire, so nobody arms another. */
  predicate DeadTimer(m: Memory, e: EntryId) {
    e in m.heap && m.heap[e].timer.Some? && m.heap[e].timer.value !in m.armed
  }

  // ---- An open channel has a refresh or a timer ----

  predicate Awaited(m: Memory, e: EntryId) {
    Current(m, e) && !m.closed && m.heap[e].config.toolSearch && m.heap[e].refreshDone.Some?
  }

  ghost predicate TimedInv(m: Memory) {
    forall e :: Awaited(m, e) ==> m.heap[e].timer.Some? || m.heap[e].refreshing
  }

  lemma FinishTimes(m: Memory, e: EntryId, compiled: Compiled)
    requires e in m.heap && m.heap[e].config.toolSearch && !m.closed
    ensures var m' := FinishRefresh(m, e, compiled);
      e in m'.heap && (m'.heap[e].refreshDone.Some? ==> m'.heap[e].timer.Some?)
  {
  }

  lemma RequestTimes(m: Memory, config: Config, callback: Option<Callback>)
    requires CacheInv(m) && config in m.entries && !m.closed
    ensures var m', e := RequestRefresh(m, config, callback), m.entries[config];
      e in m'.heap && (m'.heap[e].timer.Some? || m'.heap[e].refreshing)
  {
  }

  lemma ReplaceTimes(m: Memory, config: Config, compiled: Compiled)
    requires MemInv(m) && TimedInv(m) && !m.closed && config in m.entries
    ensures var m', e := ReplaceEntry(m, config, compiled), m.entries[config];
      Awaited(m', e) ==> m'.heap[e].timer.Some? || m'.heap[e].refreshing
  {
    var m', e := ReplaceEntry(m, config, compiled), m.entries[config];
    if compiled.Failure? { assert Awaited(m', e) ==> Awaited(m, e); }
  }

  lemma FocusTimed(s: System, a: Action, e: EntryId)
    requires MemInv(s.m) && ThreadInv(s) && TimedInv(s.m) && Enabled(s, a) && Focus(s, a) == Some(e)
    requires Current(s.m, e) && !s.m.closed && Awaited(NextMemory(s, a), e)
    ensures NextMemory(s, a).heap[e].timer.Some? || NextMemory(s, a).heap[e].refreshing
  {
    assert Grounded(s.m, s.clock, At(s, a.t));
    hide FinishRefresh, RequestRefresh, ReplaceEntry, ThreadInv;
    match a
    case DoRequest(_, config, callback) => RequestTimes(s.m, config, if callback then Some(s.clock) else None);
    case DoRefreshed(_, compiled) =>
      if At(s, a.t).target.Some? { FinishTimes(s.m, e, compiled); }
      else { ReplaceTimes(s.m, At(s, a.t).config, compiled); }
    case DoRerun(_, compiled) =>
      RerunKeepsConfig(s.m, e, compiled);
      FinishTimes(s.m, e, compiled);
    case _ => QuietTimed(s, a, e);
  }

  lemma RerunKeepsConfig(m: Memory, e: EntryId, compiled: Compiled)
    requires e in m.heap
    ensures e in FinishRefresh(m, e, compiled).heap && FinishRefresh(m, e, compiled).heap[e].config == m.heap[e].config
  {
  }

  lemma QuietTimed(s: System, a: Action, e: EntryId)
    requires MemInv(s.m) && TimedInv(s.m) && Enabled(s, a) && Focus(s, a) == Some(e)
    requires a.DoCreated? || a.DoAwaitReady? || a.DoRefresh? || a.DoFire?
    requires Current(s.m, e) && !s.m.closed && Awaited(NextMemory(s, a), e)
    ensures NextMemory(s, a).heap[e].timer.Some? || NextMemory(s, a).heap[e].refreshing
  {
    assert Awaited(s.m, e) ==> s.m.heap[e].timer.Some? || s.m.heap[e].refreshing;
  }

  lemma TimedKept(s: System, a: Action)
    requires MemInv(s.m) && ThreadInv(s) && TimedInv(s.m) && Enabled(s, a)
    ensures TimedInv(NextMemory(s, a))
  {
    forall e | Awaited(NextMemory(s, a), e)
      ensures NextMemory(s, a).heap[e].timer.Some? || NextMemory(s, a).heap[e].refreshing
    {
      OneTimed(s, a, e);
    }
  }

  lemma OneTimed(s: System, a: Action, e: EntryId)
    requires MemInv(s.m) && ThreadInv(s) && TimedInv(s.m) && Enabled(s, a) && Awaited(NextMemory(s, a), e)
    ensures NextMemory(s, a).heap[e].timer.Some? || NextMemory(s, a).heap[e].refreshing
  {
    if e !in s.m.heap {
      NewClean(s, a, e);
    } else if Elsewhere(s, a, e) {
      ElsewhereSame(s, a, e);
      assert Awaited(s.m, e);
    } else {
      FocusStays(s, a, e);
      FocusTimed(s, a, e);
    }
  }

  lemma FocusStays(s: System, a: Action, e: EntryId)
    requires MemInv(s.m) && ThreadInv(s) && Enabled(s, a) && e in s.m.heap && !Sweeping(a)
    requires Current(NextMemory(s, a), e) && !NextMemory(s, a).closed
    ensures Current(s.m, e) && !s.m.closed
  {
    StepSteady(s, a);
    StepLocal(s, a);
  }

  lemma {:induction false} RunTimed(actions: seq<Action>)
    ensures TimedInv(Run(actions).m)
  {
    if |actions| > 0 {
      RunTimed(actions[..|actions| - 1]);
      RunInv(actions[..|actions| - 1]);
      if Enabled(Run(actions[..|actions| - 1]), actions[|actions| - 1]) {
        TimedKept(Run(actions[..|actions| - 1]), actions[|actions| - 1]);
      }
    }
  }

  // ---- How refreshDone comes apart from what is under way ----

  /** The entry's refreshDone is set exactly while its timer is armed or a refresh of it
      is under way, never both, and its timer is not dead. */
  ghost predicate Marked(s: System, e: EntryId)
    requires e in s.m.heap
  {
    && (s.m.heap[e].refreshDone.Some? <==> ArmedAt(s.m, e) || InFlight(s, e))
    && !(s.m.heap[e].timer.Some? && InFlight(s, e)) && !DeadTimer(s.m, e)
  }

  ghost predicate OtherFlight(s: System, e: EntryId, t: ThreadId) {
    exists u :: u != t && Flies(At(s, u), e)
  }

  /** A timer fires while refreshDone is nil, which only another entry's can; or one of
      several overlapping refreshes ends. */
  ghost predicate Unmarks(s: System, a: Action, e: EntryId)
    requires Enabled(s, a) && e in s.m.heap
  {
    || (a.DoFire? && s.m.armed[a.timer] == s.m.heap[e].config && s.m.heap[e].refreshDone.None?)
    || ((a.DoRerun? || a.DoRefreshed?) && Flies(At(s, a.t), e) && OtherFlight(s, e, a.t))
  }

  /** Whether the entry is marked after the step, in terms of the section alone. */
  ghost predicate MarkedAfter(s: System, a: Action, e: EntryId)
    requires Enabled(s, a) && e in NextMemory(s, a).heap
  {
    var m', flying := NextMemory(s, a), Flies(NextThread(s, a), e) || OtherFlight(s, e, a.t);
    && (m'.heap[e].refreshDone.Some? <==> ArmedAt(m', e) || flying)
    && !(m'.heap[e].timer.Some? && flying) && !DeadTimer(m', e)
  }

  lemma MarkedNext(s: System, a: Action, e: EntryId)
    requires Enabled(s, a) && e in NextMemory(s, a).heap
    ensures e in Next(s, a).m.heap && (Marked(Next(s, a), e) <==> MarkedAfter(s, a, e))
  {
    hide Next, NextMemory, NextThread, Enabled;
    NextHasMemory(s, a);
    OnlyActorMoves(s, a);
    var s' := Next(s, a);
    assert forall u :: u != a.t ==> At(s', u) == At(s, u);
    if Flies(NextThread(s, a), e) { assert Flies(At(s', a.t), e); }
    if u :| u != a.t && Flies(At(s, u), e) { assert Flies(At(s', u), e); }
    if u :| Flies(At(s', u), e) { assert u == a.t || OtherFlight(s, e, a.t); }
  }

  lemma FlightSplit(s: System, e: EntryId, t: ThreadId)
    ensures InFlight(s, e) <==> Flies(At(s, t), e) || OtherFlight(s, e, t)
  {
    if u :| Flies(At(s, u), e) { assert u == t || OtherFlight(s, e, t); }
  }

  lemma MarkElsewhere(s: System, a: Action, e: EntryId)
    requires MemInv(s.m) && ThreadInv(s) && Enabled(s, a) && Elsewhere(s, a, e) && Marked(s, e)
    requires Current(NextMemory(s, a), e) && !NextMemory(s, a).closed
    ensures MarkedAfter(s, a, e) && !Unmarks(s, a, e)
  {
    hide NextMemory, NextThread, ThreadInv, ChannelInv, TimerInv, FreshIds, ClosedInv;
    ElsewhereSame(s, a, e);
    ActorFliesAtFocus(s, a, e);
    FlightSplit(s, e, a.t);
    if s.m.heap[e].timer.Some? { TimerElsewhere(s, a, e); }
    if a.DoFire? { FiredOther(s, a, e); }
  }

  lemma FiredOther(s: System, a: Action, e: EntryId)
    requires CacheInv(s.m) && Enabled(s, a) && Elsewhere(s, a, e) && a.DoFire? && Current(s.m, e)
    ensures s.m.armed[a.timer] != s.m.heap[e].config
  {
  }

  lemma MarkFinish(s: System, a: Action, e: EntryId)
    requires MemInv(s.m) && Enabled(s, a) && Focus(s, a) == Some(e) && Marked(s, e) && Flies(At(s, a.t), e)
    requires Current(s.m, e) && !s.m.closed && s.m.heap[e].config.toolSearch && (a.DoRerun? || a.DoRefreshed?)
    requires Current(NextMemory(s, a), e)
    ensures MarkedAfter(s, a, e) <==> !OtherFlight(s, e, a.t)
  {
    hide FinishRefresh, ChannelInv, TimerInv, ClosedInv;
    FlightSplit(s, e, a.t);
    FinishMarks(s.m, e, a.compiled);
  }

  lemma FinishMarks(m: Memory, e: EntryId, compiled: Compiled)
    requires e in m.heap && m.heap[e].config.toolSearch && !m.closed
    ensures var entry, m' := m.heap[e], FinishRefresh(m, e, compiled);
      && e in m'.heap
      && if entry.pending then m'.heap[e].refreshDone == entry.refreshDone && ArmedAt(m', e)
         else m'.heap[e].refreshDone.None? && m'.heap[e].timer == entry.timer && m'.armed == m.armed
  {
  }

  lemma MarkFired(s: System, a: Action, e: EntryId)
    requires MemInv(s.m) && SupervisedInv(s) && TimedInv(s.m) && Enabled(s, a) && Focus(s, a) == Some(e) && a.DoFire?
    requires Current(s.m, e) && !s.m.closed && s.m.heap[e].config.toolSearch && Marked(s, e)
    requires Current(NextMemory(s, a), e)
    ensures MarkedAfter(s, a, e) <==> s.m.heap[e].refreshDone.Some?
  {
    FlightSplit(s, e, a.t);
    assert Awaited(s.m, e) <==> s.m.heap[e].refreshDone.Some?;
  }

  lemma RequestMarks(m: Memory, config: Config, callback: Option<Callback>)
    requires MemInv(m) && config in m.entries && config.toolSearch && !m.closed && !DeadTimer(m, m.entries[config])
    ensures var m', e := RequestRefresh(m, config, callback), m.entries[config];
      && e in m'.heap && m'.heap[e].refreshDone.Some?
      && if m.heap[e].refreshing then m'.heap[e].timer == m.heap[e].timer && m'.armed == m.armed else ArmedAt(m', e)
  {
  }

  lemma MarkQuiet(s: System, a: Action, e: EntryId)
    requires MemInv(s.m) && ThreadInv(s) && SupervisedInv(s) && TimedInv(s.m) && Enabled(s, a) && Focus(s, a) == Some(e)
    requires Current(s.m, e) && !s.m.closed && s.m.heap[e].config.toolSearch && Marked(s, e)
    requires Current(NextMemory(s, a), e) && !a.DoFire? && !((a.DoRerun? || a.DoRefreshed?) && Flies(At(s, a.t), e))
    ensures MarkedAfter(s, a, e)
  {
    hide NextMemory, NextThread, MarkedAfter, MemInv, ThreadInv;
    FlightSplit(s, e, a.t);
    FlyingIs(s, e);
    match a
    case DoRequest(_, config, callback) => MarkRequest(s, a, e);
    case DoRefresh(_, _) => MarkRefresh(s, a, e);
    case DoRefreshed(_, _) => MarkReplaced(s, a, e);
    case _ => MarkLooked(s, a, e);
  }

  /** On a marked entry, `refreshing` says whether a refresh is under way. */
  predicate Settled(s: System, e: EntryId, flying: bool)
    requires e in s.m.heap
  {
    && (s.m.heap[e].refreshDone.Some? <==> ArmedAt(s.m, e) || flying)
    && !(s.m.heap[e].timer.Some? && flying) && !DeadTimer(s.m, e)
    && (s.m.heap[e].refreshing <==> flying)
  }

  lemma FlyingIs(s: System, e: EntryId)
    requires SupervisedInv(s) && TimedInv(s.m) && Current(s.m, e) && !s.m.closed && s.m.heap[e].config.toolSearch
    requires Marked(s, e)
    ensures Settled(s, e, InFlight(s, e))
  {
    assert Awaited(s.m, e) <==> s.m.heap[e].refreshDone.Some?;
  }

  lemma MarkRequest(s: System, a: Action, e: EntryId)
    requires MemInv(s.m) && Enabled(s, a) && a.DoRequest? && Focus(s, a) == Some(e)
    requires Current(s.m, e) && !s.m.closed && s.m.heap[e].config.toolSearch
    requires Settled(s, e, OtherFlight(s, e, a.t))
    ensures e in NextMemory(s, a).heap && MarkedAfter(s, a, e)
  {
    hide RequestRefresh, OtherFlight;
    RequestMarks(s.m, a.config, if a.callback then Some(s.clock) else None);
  }

  lemma MarkRefresh(s: System, a: Action, e: EntryId)
    requires MemInv(s.m) && Enabled(s, a) && a.DoRefresh? && Focus(s, a) == Some(e)
    requires Current(s.m, e) && !s.m.closed && s.m.heap[e].config.toolSearch
    requires Settled(s, e, OtherFlight(s, e, a.t))
    ensures e in NextMemory(s, a).heap && MarkedAfter(s, a, e)
  {
    hide OtherFlight;
  }

  lemma MarkReplaced(s: System, a: Action, e: EntryId)
    requires MemInv(s.m) && ThreadInv(s) && Enabled(s, a) && a.DoRefreshed? && Focus(s, a) == Some(e)
    requires Current(s.m, e) && !s.m.closed && s.m.heap[e].config.toolSearch && !Flies(At(s, a.t), e)
    requires Settled(s, e, OtherFlight(s, e, a.t)) && Current(NextMemory(s, a), e)
    ensures MarkedAfter(s, a, e)
  {
    hide OtherFlight, FinishRefresh, ReplaceEntry, ThreadInv;
    ReplaceMarks(s.m, At(s, a.t).config, a.compiled);
  }

  lemma ReplaceMarks(m: Memory, config: Config, compiled: Compiled)
    requires CacheInv(m) && FreshIds(m) && config in m.entries
    ensures var m', e := ReplaceEntry(m, config, compiled), m.entries[config];
      && (Current(m', e) ==> m'.heap[e] == m.heap[e].(stale := m'.heap[e].stale) && m'.armed == m.armed)
  {
  }

  lemma MarkLooked(s: System, a: Action, e: EntryId)
    requires MemInv(s.m) && ThreadInv(s) && Enabled(s, a) && (a.DoCreated? || a.DoAwaitReady?) && Focus(s, a) == Some(e)
    requires Current(s.m, e) && !s.m.closed && s.m.heap[e].config.toolSearch
    requires Settled(s, e, OtherFlight(s, e, a.t)) && Current(NextMemory(s, a), e)
    ensures MarkedAfter(s, a, e)
  {
    hide OtherFlight;
  }

  /** On an installed search entry that is marked, exactly those steps undo it. */
  lemma MarkStep(s: System, a: Action, e: EntryId)
    requires MemInv(s.m) && ThreadInv(s) && SupervisedInv(s) && TimedInv(s.m) && Enabled(s, a) && e in s.m.heap
    requires s.m.heap[e].config.toolSearch && Marked(s, e)
    requires Current(NextMemory(s, a), e) && !NextMemory(s, a).closed
    ensures MarkedAfter(s, a, e) <==> !Unmarks(s, a, e)
  {
    hide NextMemory, NextThread;
    if Elsewhere(s, a, e) {
      MarkElsewhere(s, a, e);
    } else {
      FocusStays(s, a, e);
      if (a.DoRerun? || a.DoRefreshed?) && Flies(At(s, a.t), e) { MarkFinish(s, a, e); }
      else if a.DoFire? { MarkFired(s, a, e); }
      else { MarkQuiet(s, a, e); }
    }
  }

  // ---- How a timer dies ----

  /** The section leaves the entry's timer alone, forgets it, or arms it. */
  predicate TimerTended(m: Memory, m': Memory, e: EntryId) {
    e in m.heap && e in m'.heap &&
    (m'.heap[e].timer == m.heap[e].timer || m'.heap[e].timer.None? || m'.heap[e].timer.value in m'.armed)
  }

  lemma FinishTendsTimer(m: Memory, e: EntryId, compiled: Compiled)
    requires e in m.heap
    ensures TimerTended(m, FinishRefresh(m, e, compiled), e)
  {
  }

  lemma RequestTendsTimer(m: Memory, config: Config, callback: Option<Callback>)
    requires CacheInv(m) && config in m.entries
    ensures TimerTended(m, RequestRefresh(m, config, callback), m.entries[config])
  {
  }

  lemma FocusTimer(s: System, a: Action, e: EntryId)
    requires MemInv(s.m) && ThreadInv(s) && Enabled(s, a) && Focus(s, a) == Some(e) && !a.DoFire?
    ensures TimerTended(s.m, NextMemory(s, a), e)
  {
    hide FinishRefresh, RequestRefresh;
    assert Grounded(s.m, s.clock, At(s, a.t));
    match a
    case DoRequest(_, config, callback) => RequestTendsTimer(s.m, config, if callback then Some(s.clock) else None);
    case DoRefreshed(_, compiled) => FinishTendsTimer(s.m, e, compiled);
    case DoRerun(_, compiled) => FinishTendsTimer(s.m, e, compiled);
    case _ =>
  }

  /** The timer of an installed entry dies exactly when it fires while a refresh of the
      entry is marked as under way: the callback returns and leaves the field set. */
  lemma TimerDies(s: System, a: Action, e: EntryId)
    requires MemInv(s.m) && ThreadInv(s) && Enabled(s, a) && e in s.m.heap
    requires Current(NextMemory(s, a), e) && !NextMemory(s, a).closed && !DeadTimer(s.m, e)
    ensures DeadTimer(NextMemory(s, a), e) <==>
      a.DoFire? && s.m.heap[e].timer == Some(a.timer) && s.m.heap[e].refreshing
  {
    if Elsewhere(s, a, e) {
      ElsewhereSame(s, a, e);
      if s.m.heap[e].timer.Some? { TimerElsewhere(s, a, e); }
      if a.DoFire? { FiredElsewhere(s, a, e); }
    } else {
      FocusStays(s, a, e);
      if a.DoFire? {
        FiredHere(s, a, e);
      } else {
        FocusTimer(s, a, e);
        StepLocal(s, a);
      }
    }
  }

  lemma FiredElsewhere(s: System, a: Action, e: EntryId)
    requires MemInv(s.m) && ThreadInv(s) && Enabled(s, a) && Elsewhere(s, a, e) && a.DoFire? && Current(s.m, e)
    ensures s.m.heap[e].timer != Some(a.timer)
  {
  }

  lemma FiredHere(s: System, a: Action, e: EntryId)
    requires MemInv(s.m) && Enabled(s, a) && a.DoFire? && Focus(s, a) == Some(e) && Current(s.m, e) && !s.m.closed
    requires !DeadTimer(s.m, e)
    ensures DeadTimer(NextMemory(s, a), e) <==> s.m.heap[e].timer == Some(a.timer) && s.m.heap[e].refreshing
  {
  }

  // ---- Waits on dropped entries ----

  /** An explicit refresh of `e` is compiling. */
  predicate Refreshes(thread: Thread, e: EntryId) {
    thread.Refreshing? && thread.target == Some(e)
  }

  /** An explicit refresh of `e` will release its channel: one is enough, unless a
      notification is pending, which the first one only passes on. */
  ghost predicate Releasable(s: System, e: EntryId) {
    && e in s.m.heap && !s.m.closed
    && exists t :: Refreshes(At(s, t), e) && (s.m.heap[e].pending ==> Another(s, e, t))
  }

  ghost predicate Another(s: System, e: EntryId, t: ThreadId) {
    exists u :: u != t && Refreshes(At(s, u), e)
  }

  /** Nobody will release `c`: its entry is gone and no explicit refresh is left to. A
      background refresh of it may still be compiling, but ends without effect. */
  ghost predicate Abandoned(s: System, e: EntryId, c: Channel) {
    && e in s.m.heap && s.m.heap[e].ready && !Current(s.m, e) && s.m.heap[e].refreshDone == Some(c)
    && !Releasable(s, e)
  }

  predicate Ends(s: System, a: Action, e: EntryId)
    requires Enabled(s, a)
  {
    a.DoRefreshed? && Refreshes(At(s, a.t), e) && !s.m.closed
  }

  /** On a dropped entry, nothing but the end of an explicit refresh matters. */
  lemma DroppedStays(s: System, a: Action, e: EntryId)
    requires MemInv(s.m) && ThreadInv(s) && Enabled(s, a)
    requires e in s.m.heap && s.m.heap[e].ready && !Current(s.m, e) && s.m.heap[e].refreshDone.Some? && !Ends(s, a, e)
    ensures var m' := NextMemory(s, a);
      && e in m'.heap && m'.heap[e].refreshDone == s.m.heap[e].refreshDone && m'.heap[e].pending == s.m.heap[e].pending
      && m'.heap[e].ready && !Current(m', e) && (s.m.closed ==> m'.closed)
    ensures Refreshes(NextThread(s, a), e) ==> Refreshes(At(s, a.t), e)
  {
    DroppedThread(s, a, e);
    if Sweeping(a) {
      SweptDropped(s, a, e);
    } else if Focus(s, a) != Some(e) {
      StepLocal(s, a);
      hide NextMemory, NextThread;
      assert Same(s.m, NextMemory(s, a), e);
    } else {
      DroppedFocus(s, a, e);
    }
  }

  lemma DroppedThread(s: System, a: Action, e: EntryId)
    requires MemInv(s.m) && ThreadInv(s) && Enabled(s, a) && e in s.m.heap && !Current(s.m, e)
    ensures Refreshes(NextThread(s, a), e) ==> Refreshes(At(s, a.t), e)
  {
  }

  lemma DroppedFocus(s: System, a: Action, e: EntryId)
    requires MemInv(s.m) && ThreadInv(s) && Enabled(s, a) && Focus(s, a) == Some(e) && !Ends(s, a, e)
    requires e in s.m.heap && s.m.heap[e].ready && !Current(s.m, e) && s.m.heap[e].refreshDone.Some?
    ensures var m' := NextMemory(s, a);
      && e in m'.heap && m'.heap[e].refreshDone == s.m.heap[e].refreshDone && m'.heap[e].pending == s.m.heap[e].pending
      && m'.heap[e].ready && !Current(m', e) && (s.m.closed ==> m'.closed)
  {
    assert Grounded(s.m, s.clock, At(s, a.t));
    hide FinishRefresh, RequestRefresh, ReplaceEntry;
  }

  lemma SweptDropped(s: System, a: Action, e: EntryId)
    requires MemInv(s.m) && Enabled(s, a) && Sweeping(a) && e in s.m.heap && !Current(s.m, e)
    ensures e in NextMemory(s, a).heap && NextMemory(s, a).heap[e] == s.m.heap[e] && !Current(NextMemory(s, a), e)
    ensures s.m.closed ==> NextMemory(s, a).closed
  {
  }

  /** The end of an explicit refresh releases the channel, or passes a pending
      notification on. */
  lemma RefreshEnds(s: System, a: Action, e: EntryId)
    requires MemInv(s.m) && ThreadInv(s) && Enabled(s, a) && Ends(s, a, e)
    requires e in s.m.heap && s.m.heap[e].ready && !Current(s.m, e) && s.m.heap[e].refreshDone.Some?
    ensures var m' := NextMemory(s, a);
      && e in m'.heap && m'.heap[e].ready && !Current(m', e) && !m'.closed && !m'.heap[e].pending
      && NextThread(s, a) == Idle
      && if s.m.heap[e].pending then m'.heap[e].refreshDone == s.m.heap[e].refreshDone
         else s.m.heap[e].refreshDone.value in m'.closedChannels
  {
    assert Grounded(s.m, s.clock, At(s, a.t));
  }

  lemma AbandonedStays(s: System, a: Action, e: EntryId, c: Channel)
    requires MemInv(s.m) && ThreadInv(s) && Enabled(s, a) && Abandoned(s, e, c)
    ensures Abandoned(Next(s, a), e, c)
  {
    hide NextMemory, NextThread, MemInv, ThreadInv, Current;
    var s' := Next(s, a);
    OnlyActorMoves(s, a);
    if Ends(s, a, e) {
      RefreshEnds(s, a, e);
      assert Refreshes(At(s, a.t), e) && s.m.heap[e].pending && !Another(s, e, a.t);
      forall t ensures !Refreshes(At(s', t), e) {
        if t != a.t { assert At(s', t) == At(s, t); }
      }
    } else {
      DroppedStays(s, a, e);
      if Releasable(s', e) { ReleasableBefore(s, a, e); }
    }
  }

  lemma ReleasableBefore(s: System, a: Action, e: EntryId)
    requires Enabled(s, a) && Releasable(Next(s, a), e) && e in s.m.heap
    requires s.m.closed ==> NextMemory(s, a).closed
    requires e in NextMemory(s, a).heap && NextMemory(s, a).heap[e].pending == s.m.heap[e].pending
    requires Refreshes(NextThread(s, a), e) ==> Refreshes(At(s, a.t), e)
    ensures Releasable(s, e)
  {
    hide NextMemory, NextThread;
    OnlyActorMoves(s, a);
    var s' := Next(s, a);
    assert forall t :: t != a.t ==> At(s', t) == At(s, t);
    assert forall t :: Refreshes(At(s', t), e) ==> Refreshes(At(s, t), e);
    var t :| Refreshes(At(s', t), e) && (s'.m.heap[e].pending ==> Another(s', e, t));
    if s'.m.heap[e].pending {
      var u :| u != t && Refreshes(At(s', u), e);
      assert Another(s, e, t);
    }
  }

  lemma AbandonedOneMore(actions: seq<Action>, a: Action, e: EntryId, c: Channel)
    requires Abandoned(Run(actions), e, c)
    ensures Abandoned(Run(actions + [a]), e, c)
  {
    hide Abandoned;
    RunInv(actions);
    RunOneMore(actions, a);
    if Enabled(Run(actions), a) { AbandonedStays(Run(actions), a, e, c); }
  }

  lemma RunOneMore(actions: seq<Action>, a: Action)
    ensures Run(actions + [a]) == if Enabled(Run(actions), a) then Next(Run(actions), a) else Run(actions)
  {
    hide Next, Enabled;
    assert (actions + [a])[..|actions + [a]| - 1] == actions;
  }

  /** Once abandoned, a channel stays open whatever happens next. */
  lemma {:induction false} AbandonedForever(before: seq<Action>, after: seq<Action>, e: EntryId, c: Channel)
    requires Abandoned(Run(before), e, c)
    ensures Abandoned(Run(before + after), e, c) && c !in Run(before + after).m.closedChannels
    decreases |after|
  {
    hide Abandoned, Run;
    if |after| == 0 {
      assert before + after == before;
    } else {
      AbandonedForever(before, after[..|after| - 1], e, c);
      AbandonedOneMore(before + after[..|after| - 1], after[|after| - 1], e, c);
      assert before + after == before + after[..|after| - 1] + [after[|after| - 1]];
    }
    AbandonedOpen(before + after, e, c);
  }

  lemma AbandonedOpen(actions: seq<Action>, e: EntryId, c: Channel)
    requires Abandoned(Run(actions), e, c)
    ensures c !in Run(actions).m.closedChannels
  {
    RunInv(actions);
  }

  // ---- Exactly which waits end ----

  lemma {:induction false} Bounded(threads: set<ThreadId>) returns (bound: ThreadId)
    ensures forall t :: t in threads ==> t < bound
    decreases |threads|
  {
    if threads == {} {
      bound := 0;
    } else {
      var t :| t in threads;
      bound := Bounded(threads - {t});
      assert forall u :: u in threads ==> u == t || u in threads - {t};
      bound := if t < bound then bound else t + 1;
    }
  }

  /** Shutdown releases whoever waits on an installed entry. */
  lemma InstalledReleases(actions: seq<Action>, e: EntryId, c: Channel) returns (after: seq<Action>)
    requires var s := Run(actions); Current(s.m, e) && s.m.heap[e].refreshDone == Some(c)
    ensures c in Run(actions + after).m.closedChannels
  {
    var s := Run(actions);
    var t := Bounded(s.threads.Keys);
    assert At(s, t) == Idle;
    after := [DoClose(t)];
    RunOneMore(actions, DoClose(t));
    CloseReleases(s.m, e);
  }

  lemma CloseReleases(m: Memory, e: EntryId)
    requires Current(m, e) && m.heap[e].refreshDone.Some?
    ensures m.heap[e].refreshDone.value in Close(m).closedChannels
  {
  }

  /** The explicit refreshes that are left release whoever waits on a dropped entry. */
  lemma DroppedReleases(actions: seq<Action>, e: EntryId, c: Channel) returns (after: seq<Action>)
    requires var s := Run(actions);
      && Releasable(s, e) && s.m.heap[e].ready && !Current(s.m, e)
      && s.m.heap[e].refreshDone == Some(c)
    ensures c in Run(actions + after).m.closedChannels
  {
    hide Run, Next, NextMemory, NextThread, MemInv, ThreadInv, SoleCreators, UnreadyInv, WaitInv, TendedInv;
    hide RequestInv, EarlyInv, OrphanInv, SupervisedInv;
    RunInv(actions);
    var s := Run(actions);
    var t :| Refreshes(At(s, t), e) && (s.m.heap[e].pending ==> Another(s, e, t));
    var a := DoRefreshed(t, Failure(Failed));
    RunOneMore(actions, a);
    NextHasMemory(s, a);
    RefreshEnds(s, a, e);
    after := [a];
    if s.m.heap[e].pending {
      var u :| u != t && Refreshes(At(s, u), e);
      SecondReleases(actions + [a], e, c, s, u, t);
      after := [a, DoRefreshed(u, Failure(Failed))];
      assert actions + after == actions + [a] + [DoRefreshed(u, Failure(Failed))];
    }
  }

  lemma SecondReleases(actions: seq<Action>, e: EntryId, c: Channel, s: System, u: ThreadId, t: ThreadId)
    requires u != t && Refreshes(At(s, u), e) && Enabled(s, DoRefreshed(t, Failure(Failed)))
    requires Run(actions) == Next(s, DoRefreshed(t, Failure(Failed)))
    requires var m := Run(actions).m;
      e in m.heap && m.heap[e].ready && !Current(m, e) && !m.closed && !m.heap[e].pending
        && m.heap[e].refreshDone == Some(c)
    ensures c in Run(actions + [DoRefreshed(u, Failure(Failed))]).m.closedChannels
  {
    OnlyActorMoves(s, DoRefreshed(t, Failure(Failed)));
    RunInv(actions);
    hide Next, NextMemory, NextThread, MemInv, ThreadInv;
    var s' := Run(actions);
    assert At(s', u) == At(s, u);
    RunOneMore(actions, DoRefreshed(u, Failure(Failed)));
    RefreshEnds(s', DoRefreshed(u, Failure(Failed)), e);
    NextHasMemory(s', DoRefreshed(u, Failure(Failed)));
  }

  lemma NextHasMemory(s: System, a: Action)
    requires Enabled(s, a)
    ensures Next(s, a).m == NextMemory(s, a)
  {
  }

  /** Main result. A wait that is not over can end in some continuation exactly if its
      entry is installed, or if the registry is open and an explicit refresh of the
      entry is still to end: two of them if a notification is pending. Shutdown alone
      can end any wait on an installed entry; what ends it otherwise is the subject of
      RegistryProgress. */
  lemma WaitEndsExactly(actions: seq<Action>, t: ThreadId)
    requires WaitOf(At(Run(actions), t)).Some?
    requires WaitOf(At(Run(actions), t)).value.channel !in Run(actions).m.closedChannels
    ensures var s := Run(actions); var w := WaitOf(At(s, t)).value;
      (exists after :: w.channel in Run(actions + after).m.closedChannels) <==> Current(s.m, w.e) || Releasable(s, w.e)
  {
    RunInv(actions);
    var s := Run(actions);
    var w := WaitOf(At(s, t)).value;
    assert Kept(s.m, w) && Grounded(s.m, s.clock, At(s, t));
    hide Run, MemInv, ThreadInv;
    if Current(s.m, w.e) {
      var after := InstalledReleases(actions, w.e, w.channel);
    } else if Releasable(s, w.e) {
      var after := DroppedReleases(actions, w.e, w.channel);
    } else {
      forall after ensures w.channel !in Run(actions + after).m.closedChannels {
        AbandonedForever(actions, after, w.e, w.channel);
      }
    }
  }
}

/** Main results about the registry, for every run. */
module RegistryResults {
  import opened Wrappers
  import opened RegistrySections
  import opened RegistryMemory
  import opened RegistryRuns
  import opened RegistryThreads
  import opened RegistryFreshness
  import opened RegistryWaits

  // ---- Only good catalogs are cached ----

  /** In every interleaving, a ready installed entry holds a finished catalog and no
      error, and that is all `Cached` ever hands out. */
  lemma OnlyGoodCatalogsCached(actions: seq<Action>, config: Config)
    ensures var m := Run(actions).m;
      && (config in m.entries ==>
            var e := m.entries[config];
            && e in m.heap && m.heap[e].config == config
            && (m.heap[e].ready ==> m.heap[e].catalog.Some? && !m.heap[e].catalog.value.pending && m.heap[e].err.None?))
      && (Cached(m, config).Some? <==>
            !m.closed && config in m.entries && m.heap[m.entries[config]].ready && !m.heap[m.entries[config]].stale)
      && (Cached(m, config).Some? ==>
            Cached(m, config) == m.heap[m.entries[config]].catalog && !Cached(m, config).value.pending)
  {
    RunInv(actions);
  }

  /** The entry that this end of a compile publishes in, if it has one. */
  function CompiledFor(s: System, a: Action): Option<EntryId>
    requires Enabled(s, a)
  {
    match a
    case DoCreated(_, _) => Some(At(s, a.t).e)
    case DoRerun(_, _) => Some(At(s, a.t).e)
    case DoRefreshed(_, _) => At(s, a.t).target
    case _ => None
  }

  /** A compile that has an entry, which was invalidated or replaced since, leaves the
      table and every other entry as they are. It leaves the timers too, unless it is
      an explicit refresh during which another one was asked for: that arms one new
      timer, for whatever is installed by then. A compile without an entry of its own
      is the subject of RegistryInvalidation.OutdatedExactly. */
  lemma InvalidatedCompileHarmless(actions: seq<Action>, a: Action, e: EntryId)
    requires Enabled(Run(actions), a) && CompiledFor(Run(actions), a) == Some(e) && !Current(Run(actions).m, e)
    ensures var s := Run(actions); var m' := Next(s, a).m;
      && m'.entries == s.m.entries && m'.closed == s.m.closed && m'.heap.Keys == s.m.heap.Keys
      && (forall f :: f in s.m.heap && f != e ==> m'.heap[f] == s.m.heap[f])
      && (a.DoRerun? ==> m' == s.m)
    ensures var s := Run(actions); var m' := Next(s, a).m;
      e in s.m.heap &&
      if a.DoRefreshed? && !s.m.closed && s.m.heap[e].pending
      then s.m.next !in s.m.armed && m'.armed == s.m.armed[s.m.next := s.m.heap[e].config]
      else m'.armed == s.m.armed
  {
    RunInv(actions);
    var s := Run(actions);
    assert Grounded(s.m, s.clock, At(s, a.t));
    hide Run, ThreadInv, SoleCreators, UnreadyInv, WaitInv, RequestInv, EarlyInv, OrphanInv, TendedInv, SupervisedInv;
    hide Asked, Touched, Orphaned, NextThread, NextPlace, NextDelivered, PublishFirst, FinishRefresh;
    match a
    case DoCreated(_, compiled) => DroppedPublish(s.m, e, compiled);
    case DoRefreshed(_, compiled) => DroppedFinish(s.m, e, compiled);
    case DoRerun(_, _) =>
  }

  lemma DroppedPublish(m: Memory, e: EntryId, compiled: Compiled)
    requires e in m.heap && !Current(m, e)
    ensures PublishFirst(m, e, compiled) == m.(heap := PublishFirst(m, e, compiled).heap)
    ensures PublishFirst(m, e, compiled).heap.Keys == m.heap.Keys
    ensures forall f :: f in m.heap && f != e ==> PublishFirst(m, e, compiled).heap[f] == m.heap[f]
  {
  }

  lemma DroppedFinish(m: Memory, e: EntryId, compiled: Compiled)
    requires e in m.heap
    ensures var m' := FinishRefresh(m, e, compiled);
      && m'.entries == m.entries && m'.closed == m.closed && m'.heap.Keys == m.heap.Keys
      && (forall f :: f in m.heap && f != e ==> m'.heap[f] == m.heap[f])
      && m'.armed == if m.heap[e].pending && !m.closed then m.armed[m.next := m.heap[e].config] else m.armed
  {
  }

  // ---- Fail-closed freshness ----

  lemma {:induction false} RunSplit(before: seq<Action>, after: seq<Action>)
    ensures Run(before + after) == Continue(Run(before), after)
    decreases |after|
  {
    if |after| == 0 {
      assert before + after == before;
    } else {
      var init := after[..|after| - 1];
      RunSplit(before, init);
      assert (before + after)[..|before + after| - 1] == before + init;
    }
  }

  function Continue(s: System, actions: seq<Action>): System {
    if |actions| == 0 then s
    else
      var s' := Continue(s, actions[..|actions| - 1]);
      if Enabled(s', actions[|actions| - 1]) then Next(s', actions[|actions| - 1]) else s'
  }

  lemma {:induction false} AskedRemembered(s: System, after: seq<Action>, e: EntryId)
    requires LastAsked(s, e) <= s.clock
    ensures LastAsked(s, e) <= LastAsked(Continue(s, after), e) <= Continue(s, after).clock
    ensures e in s.requested ==> e in Continue(s, after).requested
    decreases |after|
  {
    if |after| > 0 { AskedRemembered(s, after[..|after| - 1], e); }
  }

  /** What a Get may return from an entry: an error, or a catalog whose compile began
      no earlier than `time`. */
  predicate FailClosed(catalog: Option<Catalog>, err: Option<Error>, time: nat) {
    err.None? ==> catalog.Some? && catalog.value.began >= time
  }

  /** Every critical section in which a Get reads the entry fails closed. */
  predicate ServesFailClosed(m: Memory, e: EntryId, time: nat)
    requires e in m.heap
  {
    && (match WaitSection(m, e).1
        case Answer(catalog, err) => FailClosed(catalog, err, time)
        case _ => true)
    && (Current(m, e) ==>
          && (match ReadCurrent(m, m.heap[e].config)
              case Found(catalog, err) => FailClosed(catalog, err, time)
              case Unavailable => true)
          && (Cached(m, m.heap[e].config).Some? ==> Cached(m, m.heap[e].config).value.began >= time))
  }

  /** Main result. Take any run in which `a` is an effective RequestRefresh, or the
      start of an explicit Refresh, of a search entry `e` that is ready by then. From
      then on, for as long as `e` stays installed and no timer for its configuration
      has outlived its entry, every critical section in which a Get reads `e` yields
      an error or a catalog whose compile began no earlier than that request. What
      happens without these two conditions is RegistryAging.FailClosedExactly. */
  lemma FailClosedFreshness(before: seq<Action>, a: Action, after: seq<Action>, e: EntryId)
    requires Enabled(Run(before), a) && Asked(Run(before), a) == Some(e)
    requires var s := Run(before + [a] + after);
      Current(s.m, e) && s.m.heap[e].config.toolSearch && s.m.heap[e].config !in s.disturbed && e !in s.early
    ensures ServesFailClosed(Run(before + [a] + after).m, e, Run(before).clock)
  {
    var s := Run(before + [a] + after);
    RunInv(before + [a] + after);
    assert (before + [a])[..|before + [a]| - 1] == before;
    RunSplit(before + [a], after);
    AskedRemembered(Run(before + [a]), after, e);
    assert Tended(s, e);
  }

  /** A creator stores a catalog that may predate a request: the stored catalog is no
      older than the last request exactly when none came before the entry was ready. */
  lemma CreatorStoresFresh(actions: seq<Action>, t: ThreadId, compiled: Compiled)
    requires Enabled(Run(actions), DoCreated(t, compiled)) && Cacheable(compiled)
    ensures var s := Run(actions); var e := At(s, t).e; var s' := Next(s, DoCreated(t, compiled));
      e in s'.m.heap && s'.m.heap[e].catalog.Some? &&
      (s'.m.heap[e].catalog.value.began >= LastAsked(s', e) <==> e !in s.early)
  {
    RunInv(actions);
    var s := Run(actions);
    assert Grounded(s.m, s.clock, At(s, t));
  }

  // ---- No lost wake-ups ----

  /** While the registry is open, an installed search entry with an open refreshDone
      has a timer or a refresh under way. As long as no timer has outlived its entry,
      it has one exactly then, its timer is armed, and never both. */
  lemma RefreshDoneExact(actions: seq<Action>, e: EntryId)
    requires var s := Run(actions); Current(s.m, e) && !s.m.closed && s.m.heap[e].config.toolSearch
    ensures var s := Run(actions); var entry := s.m.heap[e];
      && (entry.refreshDone.Some? ==> entry.timer.Some? || InFlight(s, e))
      && (entry.refreshDone.Some? ==> entry.refreshDone.value !in s.m.closedChannels)
    ensures var s := Run(actions); var entry := s.m.heap[e];
      entry.config !in s.disturbed ==>
        && (entry.refreshDone.Some? <==> ArmedAt(s.m, e) || InFlight(s, e))
        && !(entry.timer.Some? && InFlight(s, e)) && !DeadTimer(s.m, e)
        && (forall t, u :: Flies(At(s, t), e) && Flies(At(s, u), e) ==> t == u)
  {
    RunInv(actions);
    RunTimed(actions);
    assert Tended(Run(actions), e);
    assert Awaited(Run(actions).m, e) <==> Run(actions).m.heap[e].refreshDone.Some?;
  }

  /** Which steps undo that correspondence, for an installed entry of any search
      configuration: a timer, then necessarily another entry's, fires while refreshDone
      is nil, or one of several refreshes of the entry ends before the others. */
  lemma RefreshDoneBreaksExactly(actions: seq<Action>, a: Action, e: EntryId)
    requires var s := Run(actions);
      Enabled(s, a) && e in s.m.heap && s.m.heap[e].config.toolSearch && Marked(s, e)
    requires Current(Next(Run(actions), a).m, e) && !Next(Run(actions), a).m.closed
    ensures Marked(Next(Run(actions), a), e) <==> !Unmarks(Run(actions), a, e)
    ensures Unmarks(Run(actions), a, e) ==> Run(actions).m.heap[e].config in Run(actions).disturbed
  {
    hide Run, Next, NextMemory, Unmarks, Marked, MarkedAfter;
    RunInv(actions);
    RunTimed(actions);
    NextHasMemory(Run(actions), a);
    MarkStep(Run(actions), a, e);
    MarkedNext(Run(actions), a, e);
    if Unmarks(Run(actions), a, e) { UnmarksDisturbed(Run(actions), a, e); }
  }

  /** Every entry starts out that way. */
  lemma StartsMarked(actions: seq<Action>, a: Action, e: EntryId)
    requires Enabled(Run(actions), a) && e !in Run(actions).m.heap && e in Next(Run(actions), a).m.heap
    ensures Marked(Next(Run(actions), a), e)
  {
    hide Run, Next, NextMemory, NextThread;
    RunInv(actions);
    NextHasMemory(Run(actions), a);
    NewClean(Run(actions), a, e);
    NobodyFlies(Run(actions), a, e);
  }

  lemma UnmarksDisturbed(s: System, a: Action, e: EntryId)
    requires MemInv(s.m) && OrphanInv(s) && TendedInv(s) && Enabled(s, a)
    requires e in s.m.heap && s.m.heap[e].config.toolSearch && Marked(s, e) && Unmarks(s, a, e)
    requires Current(NextMemory(s, a), e) && ThreadInv(s)
    ensures s.m.heap[e].config in s.disturbed
  {
    StepSteady(s, a);
    assert Steady(s.m, NextMemory(s, a), e) && Tended(s, e);
    hide NextMemory;
    if a.DoFire? { assert OwnTimer(s.m, a.timer) || s.m.armed[a.timer] in Orphaned(s.m); }
  }

  /** Main result. A Get or Refresh that began to wait on an installed entry waits on a
      channel that is closed already, or on that entry's, and then a refresh of it is
      under way, or its timer is armed, or its timer is dead. It has neither of the first
      two exactly in the last case, and only if some timer has outlived its entry. */
  lemma NoLostWakeups(actions: seq<Action>, t: ThreadId)
    requires WaitOf(At(Run(actions), t)).Some? && WaitOf(At(Run(actions), t)).value.held
    ensures var s := Run(actions); var w := WaitOf(At(s, t)).value;
      || w.channel in s.m.closedChannels
      || (&& !s.m.closed && Current(s.m, w.e) && s.m.heap[w.e].refreshDone == Some(w.channel)
          && (!InFlight(s, w.e) && !ArmedAt(s.m, w.e) <==> !InFlight(s, w.e) && DeadTimer(s.m, w.e))
          && (DeadTimer(s.m, w.e) ==> s.m.heap[w.e].config in s.disturbed))
  {
    RunInv(actions);
    RunTimed(actions);
    var s := Run(actions);
    var w := WaitOf(At(s, t)).value;
    assert Grounded(s.m, s.clock, At(s, t)) && Kept(s.m, w);
    assert Tended(s, w.e);
    assert w.channel !in s.m.closedChannels ==> Awaited(s.m, w.e);
  }

  /** Only one step kills the timer of an installed entry: its firing while a refresh of
      the entry is marked as under way. */
  lemma TimerDiesExactly(actions: seq<Action>, a: Action, e: EntryId)
    requires Enabled(Run(actions), a) && e in Run(actions).m.heap && !DeadTimer(Run(actions).m, e)
    requires Current(Next(Run(actions), a).m, e) && !Next(Run(actions), a).m.closed
    ensures DeadTimer(Next(Run(actions), a).m, e) <==>
      a.DoFire? && Run(actions).m.heap[e].timer == Some(a.timer) && Run(actions).m.heap[e].refreshing
  {
    RunInv(actions);
    TimerDies(Run(actions), a, e);
  }

  /** A thread that waits for an entry to become ready has a creator to thank. */
  lemma ReadyWillCome(actions: seq<Action>, t: ThreadId)
    requires At(Run(actions), t).AwaitReady? || At(Run(actions), t).BlockedReady?
    ensures var s := Run(actions); var e := At(s, t).e; e in s.m.heap && (s.m.heap[e].ready || CreatorAtWork(s, e))
  {
    RunInv(actions);
    var s := Run(actions);
    assert Grounded(s.m, s.clock, At(s, t));
  }

  /** The next Get of a stale entry with nothing under way waits with the timer armed,
      exactly unless that timer is dead; it is never dead while no timer has outlived
      its entry. */
  lemma NextGetRearms(actions: seq<Action>, e: EntryId)
    requires var s := Run(actions);
      && Current(s.m, e) && !s.m.closed && s.m.heap[e].ready && s.m.heap[e].config.toolSearch
      && s.m.heap[e].stale && !InFlight(s, e)
    ensures var s := Run(actions); var (m', waited) := WaitSection(s.m, e);
      && e in m'.heap && waited.WaitFor? && m'.heap[e].refreshDone == Some(waited.channel)
      && waited.channel !in m'.closedChannels
      && (ArmedAt(m', e) <==> !DeadTimer(s.m, e))
      && (ArmedAt(m', e) ==> m'.armed[m'.heap[e].timer.value] == m'.heap[e].config)
      && (s.m.heap[e].config !in s.disturbed ==> !DeadTimer(s.m, e))
  {
    RunInv(actions);
    assert Tended(Run(actions), e);
    assert !Run(actions).m.heap[e].refreshing;
  }

  /** After shutdown no installed entry has a timer or an open refreshDone. */
  lemma ShutdownSettles(actions: seq<Action>, e: EntryId)
    requires Run(actions).m.closed && Current(Run(actions).m, e)
    ensures Run(actions).m.heap[e].timer.None? && Run(actions).m.heap[e].refreshDone.None?
  {
    RunInv(actions);
  }

  // ---- When a timer outlives its entry ----

  /** The four ways: an entry notified before it was ready is dropped by its creator;
      a Get that outlived its entry restarts its refresh; an explicit refresh replaces
      an entry whose timer is armed; or it ends on an entry dropped meanwhile, with a
      notification still pending. */
  predicate LeavesTimer(s: System, a: Action, config: Config)
    requires Enabled(s, a)
  {
    var thread := At(s, a.t);
    match a
    case DoCreated(_, compiled) =>
      s.m.heap[thread.e].config == config && Current(s.m, thread.e) && !Cacheable(compiled) && ArmedAt(s.m, thread.e)
    case DoAwaitReady(_) =>
      s.m.heap[thread.e].config == config && !Current(s.m, thread.e)
      && WaitSection(s.m, thread.e).1.WaitFor? && !s.m.heap[thread.e].refreshing && s.m.heap[thread.e].timer.None?
    case DoRefreshed(_, compiled) =>
      thread.config == config &&
      (match thread.target
       case None => compiled.Success? && config in s.m.entries && ArmedAt(s.m, s.m.entries[config])
       case Some(e) => !Current(s.m, e) && !s.m.closed && s.m.heap[e].pending)
    case _ => false
  }

  /** A search configuration stops being undisturbed exactly in one of those four ways. */
  lemma TimerOutlivesExactly(actions: seq<Action>, a: Action, config: Config)
    requires Enabled(Run(actions), a) && config.toolSearch && config !in Run(actions).disturbed
    ensures config in Next(Run(actions), a).disturbed <==> LeavesTimer(Run(actions), a, config)
  {
    RunInv(actions);
    var s := Run(actions);
    if LeavesTimer(s, a, config) {
      LeftTimer(s, a, config);
    } else if config in Orphaned(NextMemory(s, a)) {
      var timer :| timer in NextMemory(s, a).armed && !OwnTimer(NextMemory(s, a), timer)
        && NextMemory(s, a).armed[timer] == config;
      TimerStaysOwn(s, a, config, timer);
    }
  }

  lemma LeftTimer(s: System, a: Action, config: Config)
    requires MemInv(s.m) && ThreadInv(s) && Enabled(s, a) && LeavesTimer(s, a, config)
    ensures config in Orphaned(NextMemory(s, a))
  {
    var m' := NextMemory(s, a);
    var thread := At(s, a.t);
    assert Grounded(s.m, s.clock, thread);
    var e :=
      if !a.DoRefreshed? then thread.e
      else if thread.target.Some? then thread.target.value
      else s.m.entries[config];
    var armed := a.DoAwaitReady? || (a.DoRefreshed? && thread.target.Some?);
    var timer := if armed then m'.heap[e].timer.value else s.m.heap[e].timer.value;
    assert timer in m'.armed && m'.armed[timer] == config && !OwnTimer(m', timer);
  }

  /** All armed timers for `config` are its installed entry's. */
  ghost predicate AllOwn(m: Memory, config: Config) {
    forall timer :: timer in m.armed && m.armed[timer] == config ==> OwnTimer(m, timer)
  }

  lemma TimerStaysOwn(s: System, a: Action, config: Config, timer: Timer)
    requires MemInv(s.m) && ThreadInv(s) && OrphanInv(s) && TendedInv(s) && Enabled(s, a)
    requires config.toolSearch && config !in s.disturbed && !LeavesTimer(s, a, config)
    requires timer in NextMemory(s, a).armed && NextMemory(s, a).armed[timer] == config
    ensures OwnTimer(NextMemory(s, a), timer)
  {
    var thread := At(s, a.t);
    assert Grounded(s.m, s.clock, thread);
    forall x | x in s.m.armed && s.m.armed[x] == config ensures OwnTimer(s.m, x) {
      assert OwnTimer(s.m, x) || config in Orphaned(s.m);
    }
    assert AllOwn(s.m, config);
    match a
    case DoCreated(_, compiled) => OwnCreated(s, a, config);
    case DoAwaitReady(_) => OwnWaited(s, a, config);
    case DoRefreshed(_, compiled) =>
      if thread.target.Some? {
        assert Tended(s, thread.target.value);
        if !s.m.closed { OwnFinished(s, thread.target.value, compiled, a.t, config); }
      } else {
        OwnReplaced(s.m, thread.config, compiled, config);
      }
    case DoRerun(_, compiled) =>
      if Current(s.m, thread.e) {
        assert Tended(s, thread.e);
        OwnFinished(s, thread.e, compiled, a.t, config);
      }
    case DoRequest(_, c, callback) => OwnRequested(s.m, c, if callback then Some(s.clock) else None, config);
    case DoFire(_, fired) => OwnFired(s.m, fired, config);
    case DoInvalidate(_, name) => OwnInvalidated(s.m, name, config);
    case DoClose(_) => OwnClosed(s.m, config);
    case _ => OwnElse(s, a, config);
  }

  lemma OwnCreated(s: System, a: Action, config: Config)
    requires CacheInv(s.m) && TimerInv(s.m) && AllOwn(s.m, config) && Enabled(s, a) && a.DoCreated?
    requires !LeavesTimer(s, a, config)
    ensures AllOwn(NextMemory(s, a), config)
  {
  }

  lemma OwnWaited(s: System, a: Action, config: Config)
    requires CacheInv(s.m) && FreshIds(s.m) && AllOwn(s.m, config) && Enabled(s, a) && a.DoAwaitReady?
    requires !LeavesTimer(s, a, config)
    ensures AllOwn(NextMemory(s, a), config)
  {
  }

  lemma OwnFinished(s: System, e: EntryId, compiled: Compiled, t: ThreadId, config: Config)
    requires CacheInv(s.m) && FreshIds(s.m) && AllOwn(s.m, config) && Flies(At(s, t), e)
    requires e in s.m.heap
    requires (s.m.heap[e].config == config ==> Tended(s, e) && config.toolSearch && config !in s.disturbed)
    requires s.m.heap[e].config == config && s.m.heap[e].pending && !s.m.closed ==> Current(s.m, e)
    ensures AllOwn(FinishRefresh(s.m, e, compiled), config)
  {
  }

  lemma OwnReplaced(m: Memory, c: Config, compiled: Compiled, config: Config)
    requires CacheInv(m) && FreshIds(m) && AllOwn(m, config)
    requires c == config && compiled.Success? && config in m.entries ==> !ArmedAt(m, m.entries[config])
    ensures AllOwn(ReplaceEntry(m, c, compiled), config)
  {
  }

  lemma OwnRequested(m: Memory, c: Config, callback: Option<Callback>, config: Config)
    requires CacheInv(m) && FreshIds(m) && AllOwn(m, config)
    ensures AllOwn(RequestRefresh(m, c, callback), config)
  {
    if !m.closed && c in m.entries {
      OwnMarked(m, m.entries[c], callback, config);
      MarkedSteady(m, m.entries[c], callback);
      OwnScheduled(MarkRequested(m, m.entries[c], callback), m.entries[c], config);
    }
  }

  lemma OwnMarked(m: Memory, e: EntryId, callback: Option<Callback>, config: Config)
    requires e in m.heap && AllOwn(m, config)
    ensures AllOwn(MarkRequested(m, e, callback), config)
  {
  }

  lemma MarkedSteady(m: Memory, e: EntryId, callback: Option<Callback>)
    requires Current(m, e) && FreshIds(m)
    ensures Current(MarkRequested(m, e, callback), e) && FreshIds(MarkRequested(m, e, callback))
  {
  }

  lemma OwnScheduled(m: Memory, e: EntryId, config: Config)
    requires Current(m, e) && FreshIds(m) && AllOwn(m, config)
    ensures AllOwn(Schedule(m, e), config)
  {
  }

  lemma OwnFired(m: Memory, fired: Timer, config: Config)
    requires CacheInv(m) && AllOwn(m, config) && fired in m.armed
    ensures AllOwn(BeginRerun(m.(armed := m.armed - {fired}), m.armed[fired]).0, config)
  {
  }

  lemma OwnInvalidated(m: Memory, name: string, config: Config)
    requires CacheInv(m) && AllOwn(m, config)
    ensures AllOwn(InvalidateComponent(m, name), config)
  {
    forall timer | timer in m.armed - Timers(m, name) && m.armed[timer] == config
      ensures OwnTimer(InvalidateComponent(m, name), timer)
    {
      assert OwnTimer(m, timer) && !Invalidated(m, name, m.entries[config]);
    }
  }

  lemma OwnClosed(m: Memory, config: Config)
    requires CacheInv(m) && AllOwn(m, config)
    ensures AllOwn(Close(m), config)
  {
    forall timer | timer in Close(m).armed && m.armed[timer] == config ensures false {
      assert OwnTimer(m, timer) && Current(m, m.entries[config]);
    }
  }

  lemma OwnElse(s: System, a: Action, config: Config)
    requires CacheInv(s.m) && FreshIds(s.m) && AllOwn(s.m, config) && Enabled(s, a)
    requires a.DoGet? || a.DoOwnCompiled? || a.DoRefresh? || a.DoAwaitDone? || a.DoCancel? || a.DoDeliver?
    ensures AllOwn(NextMemory(s, a), config)
  {
  }
}

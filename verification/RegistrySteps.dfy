/** What each section of the registry does to the table, the timers and its caller, in
    every run. */
module RegistrySteps {
  import opened Wrappers
  import opened RegistrySections
  import opened RegistryMemory
  import opened RegistryRuns
  import opened RegistryThreads
  import opened RegistryFreshness
  import RegistryWaits
  import opened RegistryInvalidation

  // ---- The table ----

  /** The action installs a new entry for the configuration. */
  predicate Adds(s: System, a: Action, config: Config)
    requires Enabled(s, a)
  {
    match a
    case DoGet(_, c) => c == config && config !in s.m.entries
    case DoOwnCompiled(t, compiled) =>
      && At(s, t).config == config && compiled.Success? && !compiled.catalog.pending
      && !s.m.closed && config !in s.m.entries
    case DoRefreshed(t, compiled) => At(s, t).config == config && At(s, t).target.None? && compiled.Success?
    case _ => false
  }

  /** The action takes the configuration's entry away. */
  predicate Drops(s: System, a: Action, config: Config)
    requires Enabled(s, a)
  {
    match a
    case DoCreated(t, compiled) => InstalledAt(s.m, config) == Some(At(s, t).e) && !Cacheable(compiled)
    case DoInvalidate(_, name) => name in config.servers
    case _ => false
  }

  /** Main result. In every run, the table changes exactly so: the first Get installs an
      entry and every other one finds it; a Get's own finished catalog is installed where
      nothing is; an explicit refresh that marked no entry replaces what is there; a
      creator that comes back without a finished catalog takes its own entry away; and
      an invalidation takes away exactly what lists the component. */
  lemma TableExactly(actions: seq<Action>, a: Action, config: Config)
    requires Enabled(Run(actions), a)
    ensures var s := Run(actions); var m' := Next(s, a).m;
      && (config in m'.entries <==> Adds(s, a, config) || (config in s.m.entries && !Drops(s, a, config)))
      && (config in m'.entries ==>
            m'.entries[config] == if Adds(s, a, config) then s.m.next else s.m.entries[config])
      && (m'.closed <==> s.m.closed || a.DoClose?)
  {
    RunInv(actions);
    var s := Run(actions);
    RegistryWaits.NextHasMemory(s, a);
    assert Grounded(s.m, s.clock, At(s, a.t));
    hide Run, Next, ThreadInv;
    if MayInstall(s, a) { AddsExactly(s, a, config); } else { DropsExactly(s, a, config); }
  }

  lemma AddsExactly(s: System, a: Action, config: Config)
    requires CacheInv(s.m) && Enabled(s, a) && MayInstall(s, a)
    ensures var m' := NextMemory(s, a);
      && (config in m'.entries <==> Adds(s, a, config) || config in s.m.entries)
      && (config in m'.entries ==>
            m'.entries[config] == if Adds(s, a, config) then s.m.next else s.m.entries[config])
      && m'.closed == s.m.closed && !Drops(s, a, config)
  {
  }

  lemma DropsExactly(s: System, a: Action, config: Config)
    requires CacheInv(s.m) && Enabled(s, a) && !MayInstall(s, a) && Grounded(s.m, s.clock, At(s, a.t))
    ensures var m' := NextMemory(s, a);
      && (config in m'.entries <==> config in s.m.entries && !Drops(s, a, config))
      && (config in m'.entries ==> m'.entries[config] == s.m.entries[config])
      && (m'.closed <==> s.m.closed || a.DoClose?) && !Adds(s, a, config)
  {
    hide RequestRefresh, FinishRefresh, WaitSection, BeginRerun, BeginRefresh;
    match a
    case DoRequest(_, c, callback) => RequestTable(s.m, c, if callback then Some(s.clock) else None);
    case DoRefreshed(_, compiled) => FinishTable(s.m, At(s, a.t).target.value, compiled);
    case DoRerun(_, compiled) => FinishTable(s.m, At(s, a.t).e, compiled);
    case DoAwaitReady(_) => WaitTable(s.m, At(s, a.t).e);
    case DoRefresh(_, c) => BeginTable(s.m, c);
    case DoFire(_, timer) => BeginTable(s.m.(armed := s.m.armed - {timer}), s.m.armed[timer]);
    case _ =>
  }

  predicate SameTable(m: Memory, m': Memory) {
    m'.entries == m.entries && m'.closed == m.closed
  }

  lemma RequestTable(m: Memory, config: Config, callback: Option<Callback>)
    ensures SameTable(m, RequestRefresh(m, config, callback))
  {
  }

  lemma FinishTable(m: Memory, e: EntryId, compiled: Compiled)
    requires e in m.heap
    ensures SameTable(m, FinishRefresh(m, e, compiled))
  {
  }

  lemma WaitTable(m: Memory, e: EntryId)
    requires e in m.heap
    ensures SameTable(m, WaitSection(m, e).0)
  {
  }

  lemma BeginTable(m: Memory, config: Config)
    ensures SameTable(m, BeginRefresh(m, config).0) && SameTable(m, BeginRerun(m, config).0)
  {
  }

  // ---- The callers ----

  /** Main result. A Get compiles exactly if nothing is installed for its configuration, and
      otherwise waits for the installed entry: the first compile is shared. */
  lemma GetExactly(actions: seq<Action>, t: ThreadId, config: Config)
    requires Enabled(Run(actions), DoGet(t, config))
    ensures var s := Run(actions);
      At(Next(s, DoGet(t, config)), t) ==
        if config in s.m.entries then AwaitReady(s.m.entries[config]) else Creating(s.m.next, s.clock)
  {
  }

  /** Main result. What an explicit refresh does next: without tool search it compiles; with
      it, it stops if the registry is closed, waits for a first compile, then for the
      refresh of the entry, and otherwise compiles for the entry it has marked, if any. */
  lemma RefreshExactly(actions: seq<Action>, t: ThreadId, config: Config)
    requires Enabled(Run(actions), DoRefresh(t, config))
    ensures var s := Run(actions); var s' := Next(s, DoRefresh(t, config)); var thread := At(s', t);
      if !config.toolSearch then thread == Refreshing(config, None, s.clock) && s'.m == s.m
      else if s.m.closed then thread == Idle && s'.m == s.m
      else if config !in s.m.entries then thread == Refreshing(config, None, s.clock) && s'.m == s.m
      else
        var e := s.m.entries[config];
        && e in s.m.heap && e in s'.m.heap
        && if !s.m.heap[e].ready then
             thread == BlockedReady(config, e) && s'.m == s.m
           else if s.m.heap[e].refreshDone.Some? then
             thread == BlockedDone(config, e, s.m.heap[e].refreshDone.value) && s'.m == s.m
           else
             && thread == Refreshing(config, Some(e), s.clock)
             && s'.m.heap[e].stale && s'.m.heap[e].refreshing && s'.m.heap[e].refreshDone.Some?
             && s'.m.heap[e].refreshDone.value !in s'.m.closedChannels && s'.m.armed == s.m.armed
  {
    RunInv(actions);
  }

  /** A refresh of the entry is marked as under way. */
  predicate Marked(m: Memory, e: EntryId) {
    e in m.heap && m.heap[e].refreshing
  }

  /** Main result. A timer that fires starts a refresh exactly of the installed entry, with
      all callbacks it has collected, unless the registry is closed, nothing is installed
      or a refresh of it is marked as under way. */
  lemma FireExactly(actions: seq<Action>, t: ThreadId, timer: Timer)
    requires Enabled(Run(actions), DoFire(t, timer))
    ensures var s := Run(actions); var s' := Next(s, DoFire(t, timer)); var config := s.m.armed[timer];
      && s'.m.armed == s.m.armed - {timer}
      && (config in s.m.entries ==> s.m.entries[config] in s.m.heap)
      && if s.m.closed || config !in s.m.entries || Marked(s.m, s.m.entries[config]) then
           At(s', t) == Idle && s'.m.heap == s.m.heap
         else
           var e := s.m.entries[config];
           && At(s', t) == Rerunning(e, s.m.heap[e].callbacks, s.clock) && e in s'.m.heap
           && s'.m.heap[e].refreshing && !s'.m.heap[e].pending && s'.m.heap[e].timer.None?
           && s'.m.heap[e].callbacks == []
  {
    RunInv(actions);
    var s, a := Run(actions), DoFire(t, timer);
    RegistryWaits.NextHasMemory(s, a);
    OnlyActorMoves(s, a);
    hide Run, Next, MemInv, ThreadInv;
    RerunRight(s.m.(armed := s.m.armed - {timer}), s.m.armed[timer]);
    RerunRight(s.m, s.m.armed[timer]);
    hide BeginRerun;
  }

  /** What a firing timer makes of the memory, whichever timers are armed. */
  lemma RerunRight(m: Memory, config: Config)
    ensures var (m', rerun) := BeginRerun(m, config);
      && m'.armed == m.armed
      && if m.closed || config !in m.entries || m.entries[config] !in m.heap || Marked(m, m.entries[config]) then
           rerun == None && m'.heap == m.heap
         else
           var e := m.entries[config];
           && rerun == Some((e, m.heap[e].callbacks)) && e in m'.heap
           && m'.heap[e].refreshing && !m'.heap[e].pending && m'.heap[e].timer.None? && m'.heap[e].callbacks == []
  {
  }

  // ---- Requests and the ends of refreshes ----

  /** Main result. A request for an installed entry is remembered whole: its callback is
      appended, a search catalog is held back behind an open channel, and the refresh
      follows the one under way, or its timer is armed. Otherwise it does nothing. */
  lemma RequestExactly(actions: seq<Action>, t: ThreadId, config: Config, callback: bool)
    requires Enabled(Run(actions), DoRequest(t, config, callback))
    ensures var s := Run(actions); var s' := Next(s, DoRequest(t, config, callback));
      if s.m.closed || config !in s.m.entries then s'.m == s.m
      else
        var e := s.m.entries[config];
        && e in s.m.heap && e in s'.m.heap && RequestRight(s.m.heap[e], s'.m, e, if callback then [s.clock] else [])
  {
    RunInv(actions);
    var s := Run(actions);
    RegistryWaits.NextHasMemory(s, DoRequest(t, config, callback));
    hide Run, Next;
    if !s.m.closed && config in s.m.entries {
      var e := s.m.entries[config];
      var called := if callback then Some(s.clock) else None;
      MarkRight(s.m, e, called);
      ScheduleRight(MarkRequested(s.m, e, called), e);
    }
  }

  predicate RequestRight(entry: Entry, m': Memory, e: EntryId, added: seq<Callback>)
    requires e in m'.heap
  {
    && m'.heap[e].callbacks == entry.callbacks + added
    && (entry.config.toolSearch ==>
          m'.heap[e].stale && m'.heap[e].refreshDone.Some? && m'.heap[e].refreshDone.value !in m'.closedChannels)
    && (entry.refreshDone.Some? ==> m'.heap[e].refreshDone == entry.refreshDone)
    && m'.heap[e].refreshing == entry.refreshing
    && if entry.refreshing then
         m'.heap[e].pending && m'.heap[e].timer == entry.timer
       else
         && RegistryWaits.ArmedAt(m', e) && m'.armed[m'.heap[e].timer.value] == entry.config
         && (entry.timer.Some? ==> m'.heap[e].timer == entry.timer)
  }

  lemma MarkRight(m: Memory, e: EntryId, callback: Option<Callback>)
    requires MemInv(m) && e in m.heap
    ensures var entry, m' := m.heap[e], MarkRequested(m, e, callback);
      && e in m'.heap && m'.armed == m.armed && m'.closedChannels == m.closedChannels
      && m'.heap[e].callbacks == entry.callbacks + (if callback.Some? then [callback.value] else [])
      && (entry.config.toolSearch ==>
            m'.heap[e].stale && m'.heap[e].refreshDone.Some? && m'.heap[e].refreshDone.value !in m'.closedChannels)
      && (entry.refreshDone.Some? ==> m'.heap[e].refreshDone == entry.refreshDone)
      && m'.heap[e].refreshing == entry.refreshing && m'.heap[e].timer == entry.timer
      && m'.heap[e].config == entry.config
  {
  }

  lemma ScheduleRight(m: Memory, e: EntryId)
    requires e in m.heap
    ensures var entry, m' := m.heap[e], Schedule(m, e);
      && e in m'.heap && m'.closedChannels == m.closedChannels
      && m'.heap[e].callbacks == entry.callbacks && m'.heap[e].stale == entry.stale
      && m'.heap[e].refreshDone == entry.refreshDone && m'.heap[e].refreshing == entry.refreshing
      && if entry.refreshing then
           m'.heap[e].pending && m'.heap[e].timer == entry.timer
         else
           && RegistryWaits.ArmedAt(m', e) && m'.armed[m'.heap[e].timer.value] == entry.config
           && (entry.timer.Some? ==> m'.heap[e].timer == entry.timer)
  {
  }

  /** The action ends a refresh that publishes in the entry. */
  predicate EndsFor(s: System, a: Action, e: EntryId)
    requires Enabled(s, a)
  {
    || (a.DoRerun? && At(s, a.t).e == e && Current(s.m, e))
    || (a.DoRefreshed? && At(s, a.t).target == Some(e) && !s.m.closed)
  }

  /** Main result. The end of a refresh stores a success, of every configuration, and keeps
      what there was on failure. With another refresh pending it arms its timer, unless
      the registry is closed; otherwise, with tool search, whoever waits is released. */
  lemma EndExactly(actions: seq<Action>, a: Action, e: EntryId)
    requires Enabled(Run(actions), a) && EndsFor(Run(actions), a, e)
    ensures var s := Run(actions); var m' := Next(s, a).m;
      && e in s.m.heap && e in m'.heap
      && var entry, entry' := s.m.heap[e], m'.heap[e];
         && entry'.catalog == (if a.compiled.Success? then Some(a.compiled.catalog) else entry.catalog)
         && entry'.err == (if a.compiled.Success? then None else entry.err)
         && !entry'.refreshing && !entry'.pending
         && (entry'.stale <==>
               if entry.config.toolSearch then a.compiled.Failure? || entry.pending else entry.stale)
         && (if entry.pending && !s.m.closed
             then RegistryWaits.ArmedAt(m', e) && m'.armed == s.m.armed[entry'.timer.value := entry.config]
             else entry'.timer == entry.timer && m'.armed == s.m.armed)
         && (if entry.config.toolSearch && !entry.pending && entry.refreshDone.Some?
             then entry'.refreshDone.None? && m'.closedChannels == s.m.closedChannels + {entry.refreshDone.value}
             else entry'.refreshDone == entry.refreshDone && m'.closedChannels == s.m.closedChannels)
  {
    RunInv(actions);
    var s := Run(actions);
    RegistryWaits.NextHasMemory(s, a);
    assert Grounded(s.m, s.clock, At(s, a.t));
    hide Run, Next, MemInv, ThreadInv;
    EndMemory(s.m, e, a.compiled);
    hide FinishRefresh;
  }

  lemma EndMemory(m: Memory, e: EntryId, compiled: Compiled)
    requires e in m.heap
    ensures var m' := FinishRefresh(m, e, compiled);
      && e in m'.heap
      && var entry, entry' := m.heap[e], m'.heap[e];
         && entry'.catalog == (if compiled.Success? then Some(compiled.catalog) else entry.catalog)
         && entry'.err == (if compiled.Success? then None else entry.err)
         && !entry'.refreshing && !entry'.pending
         && (entry'.stale <==> if entry.config.toolSearch then compiled.Failure? || entry.pending else entry.stale)
         && (if entry.pending && !m.closed
             then RegistryWaits.ArmedAt(m', e) && m'.armed == m.armed[entry'.timer.value := entry.config]
             else entry'.timer == entry.timer && m'.armed == m.armed)
         && (if entry.config.toolSearch && !entry.pending && entry.refreshDone.Some?
             then entry'.refreshDone.None? && m'.closedChannels == m.closedChannels + {entry.refreshDone.value}
             else entry'.refreshDone == entry.refreshDone && m'.closedChannels == m.closedChannels)
  {
  }

  // ---- Invalidation and shutdown ----

  /** Main result. An invalidated entry's timer is stopped and its waiters released;
      shutdown does so for every installed entry; nobody else is affected. */
  lemma SweptExactly(actions: seq<Action>, a: Action, e: EntryId)
    requires Enabled(Run(actions), a) && (a.DoInvalidate? || a.DoClose?) && e in Run(actions).m.heap
    ensures var s := Run(actions); var m' := Next(s, a).m; var entry := s.m.heap[e];
      && e in m'.heap
      && if Current(s.m, e) && (a.DoInvalidate? ==> a.name in entry.config.servers) then
           && m'.heap[e].refreshDone.None?
           && (entry.refreshDone.Some? ==> entry.refreshDone.value in m'.closedChannels)
           && (entry.timer.Some? ==> entry.timer.value !in m'.armed)
         else
           && m'.heap[e] == entry
           && (entry.refreshDone.Some? ==> entry.refreshDone.value !in m'.closedChannels)
           && (RegistryWaits.ArmedAt(s.m, e) ==> RegistryWaits.ArmedAt(m', e))
  {
    RunInv(actions);
    var s := Run(actions);
    RegistryWaits.NextHasMemory(s, a);
    hide Run, Next, CacheInv, ClosedInv, ThreadInv;
  }
}

/** Invalidating a component: which compiles that began before it are harmless, and
    which install what they discovered before it all the same. */
module RegistryInvalidation {
  import opened Wrappers
  import opened RegistrySections
  import opened RegistryMemory
  import opened RegistryRuns
  import opened RegistryThreads
  import opened RegistryFreshness

  /** Some component of the configuration was invalidated after `began`. */
  ghost predicate Predates(s: System, config: Config, began: nat) {
    exists name :: name in config.servers && name in s.invalidated && began < s.invalidated[name]
  }

  /** The installed catalog was discovered before an invalidation. */
  ghost predicate Outdated(s: System, config: Config) {
    && config in s.m.entries && s.m.entries[config] in s.m.heap && s.m.heap[s.m.entries[config]].catalog.Some?
    && Predates(s, config, s.m.heap[s.m.entries[config]].catalog.value.began)
  }

  // ---- Whoever works on an installed entry began after the last invalidation ----

  predicate WorksOn(thread: Thread, e: EntryId) {
    (thread.Creating? && thread.e == e) || Flies(thread, e)
  }

  ghost predicate CurrentWork(s: System) {
    forall t, e :: WorksOn(At(s, t), e) && Current(s.m, e) ==> !Predates(s, s.m.heap[e].config, At(s, t).began)
  }

  ghost predicate InvalidatedInv(s: System) {
    (forall name :: name in s.invalidated ==> s.invalidated[name] < s.clock) && CurrentWork(s)
  }

  /** An invalidation leaves none of its configurations installed. */
  lemma InvalidationEmpties(s: System, a: Action, config: Config)
    requires Enabled(s, a) && a.DoInvalidate? && config in NextMemory(s, a).entries
    ensures a.name !in config.servers
  {
  }

  lemma PredatesStays(s: System, a: Action, config: Config, began: nat)
    requires Enabled(s, a) && (a.DoInvalidate? ==> a.name !in config.servers)
    ensures Predates(Next(s, a), config, began) <==> Predates(s, config, began)
  {
    hide NextMemory, NextThread, NextPlace, NextDelivered, Asked, Touched, Orphaned;
    var s' := Next(s, a);
    assert forall name :: name in config.servers ==>
      (name in s'.invalidated <==> name in s.invalidated)
        && (name in s.invalidated ==> s'.invalidated[name] == s.invalidated[name]);
  }

  lemma NewWork(s: System, a: Action, e: EntryId)
    requires Enabled(s, a) && WorksOn(NextThread(s, a), e)
    ensures NextThread(s, a).began == s.clock
  {
  }

  lemma RecentNotOutdated(s: System, config: Config, began: nat)
    requires began + 1 >= s.clock && forall name :: name in s.invalidated ==> s.invalidated[name] < s.clock
    ensures !Predates(s, config, began)
  {
  }

  lemma InvalidatedKept(s: System, a: Action)
    requires MemInv(s.m) && ThreadInv(s) && InvalidatedInv(s) && Enabled(s, a)
    ensures InvalidatedInv(Next(s, a))
  {
    var s' := Next(s, a);
    OnlyActorMoves(s, a);
    assert forall name :: name in s'.invalidated ==> s'.invalidated[name] < s'.clock;
    forall t, e | WorksOn(At(s', t), e) && Current(s'.m, e)
      ensures !Predates(s', s'.m.heap[e].config, At(s', t).began) {
      if t == a.t {
        NewWork(s, a, e);
        RecentNotOutdated(s', s'.m.heap[e].config, s.clock);
      } else {
        OthersWork(s, a, t, e);
      }
    }
  }

  lemma OthersWork(s: System, a: Action, t: ThreadId, e: EntryId)
    requires MemInv(s.m) && ThreadInv(s) && InvalidatedInv(s) && Enabled(s, a) && t != a.t
    requires WorksOn(At(s, t), e) && Current(NextMemory(s, a), e)
    ensures !Predates(Next(s, a), NextMemory(s, a).heap[e].config, At(s, t).began)
  {
    assert Grounded(s.m, s.clock, At(s, t));
    StepSteady(s, a);
    assert Steady(s.m, NextMemory(s, a), e);
    var config := s.m.heap[e].config;
    if a.DoInvalidate? { InvalidationEmpties(s, a, config); }
    PredatesStays(s, a, config, At(s, t).began);
  }

  lemma {:induction false} RunInvalidated(actions: seq<Action>)
    ensures InvalidatedInv(Run(actions))
  {
    if |actions| > 0 {
      RunInvalidated(actions[..|actions| - 1]);
      RunInv(actions[..|actions| - 1]);
      if Enabled(Run(actions[..|actions| - 1]), actions[|actions| - 1]) {
        InvalidatedKept(Run(actions[..|actions| - 1]), actions[|actions| - 1]);
      }
    }
  }

  // ---- Exactly which compiles outlive an invalidation ----

  /** An explicit refresh that marked no entry replaces whatever is installed; and a
      Get's compile with its own credentials is published where nothing is. Both do so
      also when they began before an invalidation. */
  ghost predicate InstallsOutdated(s: System, a: Action, config: Config)
    requires Enabled(s, a)
  {
    var thread := At(s, a.t);
    match a
    case DoRefreshed(_, compiled) =>
      thread.config == config && thread.target.None? && compiled.Success? && Predates(s, config, thread.began)
    case DoOwnCompiled(_, compiled) =>
      && thread.config == config && compiled.Success? && !compiled.catalog.pending
      && !s.m.closed && config !in s.m.entries
      && Predates(s, config, thread.began)
    case _ => false
  }

  /** What is installed under `config` afterwards: no catalog, the same one as before,
      or the one of the compile that the actor has just ended. */
  ghost predicate Installs(s: System, a: Action, config: Config)
    requires Enabled(s, a)
  {
    config in NextMemory(s, a).entries ==> InstallsEntry(s, a, config, NextMemory(s, a).entries[config])
  }

  ghost predicate InstallsEntry(s: System, a: Action, config: Config, e: EntryId)
    requires Enabled(s, a)
  {
    var m, m' := s.m, NextMemory(s, a);
    && e in m'.heap
    && (|| m'.heap[e].catalog.None?
        || (Current(m, e) && m.heap[e].config == config && m'.heap[e].catalog == m.heap[e].catalog)
        || (WorksOn(At(s, a.t), e) && Current(m, e) && m'.heap[e].catalog.value.began == At(s, a.t).began)
        || ReplacesWith(s, a, config))
  }

  predicate ReplacesWith(s: System, a: Action, config: Config)
    requires Enabled(s, a)
  {
    var thread := At(s, a.t);
    var m' := NextMemory(s, a);
    && (a.DoRefreshed? || a.DoOwnCompiled?) && thread.config == config && a.compiled.Success?
    && (a.DoRefreshed? ==> thread.target.None?)
    && (a.DoOwnCompiled? ==> !a.compiled.catalog.pending && !s.m.closed && config !in s.m.entries)
    && config in m'.entries && m'.entries[config] in m'.heap
    && m'.heap[m'.entries[config]].catalog == Some(a.compiled.catalog)
  }

  lemma FinishCatalog(m: Memory, e: EntryId, compiled: Compiled)
    requires e in m.heap
    ensures var m' := FinishRefresh(m, e, compiled);
      e in m'.heap && m'.heap[e].catalog == if compiled.Success? then Some(compiled.catalog) else m.heap[e].catalog
  {
  }

  lemma RequestCatalog(m: Memory, config: Config, callback: Option<Callback>)
    requires CacheInv(m) && config in m.entries
    ensures var m', e := RequestRefresh(m, config, callback), m.entries[config];
      e in m'.heap && m'.heap[e].catalog == m.heap[e].catalog
  {
    if !m.closed && m.entries[config] in m.heap {
      MarkCatalog(m, m.entries[config], callback);
      ScheduleCatalog(MarkRequested(m, m.entries[config], callback), m.entries[config]);
    }
  }

  lemma MarkCatalog(m: Memory, e: EntryId, callback: Option<Callback>)
    requires e in m.heap
    ensures e in MarkRequested(m, e, callback).heap
    ensures MarkRequested(m, e, callback).heap[e].catalog == m.heap[e].catalog
  {
  }

  lemma ScheduleCatalog(m: Memory, e: EntryId)
    requires e in m.heap
    ensures e in Schedule(m, e).heap && Schedule(m, e).heap[e].catalog == m.heap[e].catalog
  {
  }

  /** Looking at an entry, or starting to refresh it, changes no catalog. */
  lemma QuietCatalog(s: System, a: Action, e: EntryId)
    requires CacheInv(s.m) && Enabled(s, a) && Focus(s, a) == Some(e) && (a.DoAwaitReady? || a.DoRefresh? || a.DoFire?)
    ensures e in s.m.heap && e in NextMemory(s, a).heap && NextMemory(s, a).heap[e].catalog == s.m.heap[e].catalog
    ensures NextMemory(s, a).entries == s.m.entries
  {
  }

  lemma ReplaceCatalog(m: Memory, config: Config, compiled: Compiled)
    requires CacheInv(m) && FreshIds(m)
    ensures var m' := ReplaceEntry(m, config, compiled);
      if compiled.Success? then
        && config in m'.entries && m'.entries[config] == m.next && m.next !in m.heap
        && m.next in m'.heap && m'.heap[m.next].catalog == Some(compiled.catalog)
      else
        && m'.entries == m.entries
        && forall e :: e in m.heap ==> e in m'.heap && m'.heap[e].catalog == m.heap[e].catalog
  {
  }

  lemma PublishCatalog(m: Memory, e: EntryId, compiled: Compiled)
    requires e in m.heap
    ensures var m' := PublishFirst(m, e, compiled);
      e in m'.heap && m'.heap[e].catalog == if compiled.Success? then Some(compiled.catalog) else None
  {
  }

  lemma FocusInstalls(s: System, a: Action, e: EntryId)
    requires MemInv(s.m) && ThreadInv(s) && Enabled(s, a) && Focus(s, a) == Some(e)
    requires Current(s.m, e) && Current(NextMemory(s, a), e) && NextMemory(s, a).heap[e].config == s.m.heap[e].config
    ensures InstallsEntry(s, a, s.m.heap[e].config, e)
  {
    hide FinishRefresh, RequestRefresh, ReplaceEntry, PublishFirst, WaitSection, BeginRefresh, BeginRerun;
    hide ThreadInv, ChannelInv, TimerInv, ClosedInv;
    match a
    case DoRequest(_, config, callback) => RequestCatalog(s.m, config, if callback then Some(s.clock) else None);
    case DoRefreshed(_, compiled) =>
      if At(s, a.t).target.Some? { FinishCatalog(s.m, e, compiled); }
      else { ReplaceCatalog(s.m, At(s, a.t).config, compiled); }
    case DoRerun(_, compiled) => FinishCatalog(s.m, e, compiled);
    case DoCreated(_, compiled) => PublishCatalog(s.m, e, compiled);
    case _ => QuietCatalog(s, a, e);
  }

  predicate MayInstall(s: System, a: Action) {
    a.DoGet? || a.DoOwnCompiled? || (a.DoRefreshed? && At(s, a.t).Refreshing? && At(s, a.t).target.None?)
  }

  lemma OthersInstallNone(s: System, a: Action)
    requires Enabled(s, a) && !MayInstall(s, a)
    ensures forall config :: config in NextMemory(s, a).entries ==>
      config in s.m.entries && s.m.entries[config] == NextMemory(s, a).entries[config]
  {
  }

  lemma MayInstalls(s: System, a: Action, config: Config)
    requires CacheInv(s.m) && FreshIds(s.m) && Enabled(s, a) && MayInstall(s, a)
    requires config in NextMemory(s, a).entries && NextMemory(s, a).entries[config] !in s.m.heap
    ensures InstallsEntry(s, a, config, NextMemory(s, a).entries[config])
  {
    if a.DoRefreshed? && At(s, a.t).config == config {
      hide ReplaceEntry;
      ReplaceCatalog(s.m, config, a.compiled);
    }
  }

  lemma NewInstalls(s: System, a: Action, config: Config)
    requires MemInv(s.m) && ThreadInv(s) && Enabled(s, a)
    requires config in NextMemory(s, a).entries && NextMemory(s, a).entries[config] !in s.m.heap
    ensures InstallsEntry(s, a, config, NextMemory(s, a).entries[config])
  {
    if !MayInstall(s, a) {
      hide NextMemory;
      OthersInstallNone(s, a);
    } else {
      MayInstalls(s, a, config);
    }
  }

  lemma StepInstalls(s: System, a: Action, config: Config)
    requires MemInv(s.m) && ThreadInv(s) && Enabled(s, a)
    ensures Installs(s, a, config)
  {
    hide NextMemory, ThreadInv, InstallsEntry;
    var m' := NextMemory(s, a);
    if config in m'.entries {
      var e := m'.entries[config];
      StepKeepsMemInv(s, a);
      if e !in s.m.heap {
        NewInstalls(s, a, config);
      } else {
        StepSteady(s, a);
        assert Steady(s.m, m', e);
        if Elsewhere(s, a, e) { ElsewhereInstalls(s, a, e); } else { FocusInstalls(s, a, e); }
      }
    }
  }

  lemma ElsewhereInstalls(s: System, a: Action, e: EntryId)
    requires MemInv(s.m) && ThreadInv(s) && Enabled(s, a) && Elsewhere(s, a, e) && Current(s.m, e)
    ensures InstallsEntry(s, a, s.m.heap[e].config, e)
  {
    ElsewhereSame(s, a, e);
  }

  /** The installed catalog, or its entry, is given up for one that began after every
      invalidation: the component is invalidated again, a refresh of the entry ends
      well, or an explicit refresh replaces the entry in time. */
  ghost predicate Renews(s: System, a: Action, config: Config)
    requires Enabled(s, a)
  {
    var thread := At(s, a.t);
    match a
    case DoInvalidate(_, name) => name in config.servers
    case DoCreated(_, _) => config in s.m.entries && s.m.entries[config] == thread.e
    case DoRerun(_, compiled) => config in s.m.entries && s.m.entries[config] == thread.e && compiled.Success?
    case DoRefreshed(_, compiled) =>
      && thread.config == config && compiled.Success?
      && (match thread.target
          case None => !Predates(s, config, thread.began)
          case Some(e) => config in s.m.entries && s.m.entries[config] == e && !s.m.closed)
    case _ => false
  }

  /** Main result. A compile that began before an invalidation gets its catalog into the
      table exactly in two ways: an explicit refresh that marked no entry succeeds, or a
      Get's own compile is published where nothing is installed. It then stays there
      exactly until it is renewed. */
  lemma OutdatedExactly(actions: seq<Action>, a: Action, config: Config)
    requires Enabled(Run(actions), a)
    ensures var s := Run(actions);
      Outdated(Next(s, a), config) <==> InstallsOutdated(s, a, config) || (Outdated(s, config) && !Renews(s, a, config))
  {
    RunInv(actions);
    RunInvalidated(actions);
    var s := Run(actions);
    hide Run, NextMemory, Next, InstallsOutdated, Renews, Outdated, InvalidatedInv;
    if InstallsOutdated(s, a, config) {
      OutdatedInstalled(s, a, config);
    } else if !Outdated(s, config) {
      StepInstalls(s, a, config);
      NotOutdated(s, a, config);
    } else if Renews(s, a, config) {
      Renewed(s, a, config);
    } else {
      StaysOutdated(s, a, config);
    }
  }

  lemma Renewed(s: System, a: Action, config: Config)
    requires MemInv(s.m) && ThreadInv(s) && InvalidatedInv(s) && Enabled(s, a) && Renews(s, a, config)
    ensures !Outdated(Next(s, a), config)
  {
    NextMemoryOf(s, a);
    hide Next, FinishRefresh, RequestRefresh, ReplaceEntry, InvalidateComponent, Close, WaitSection, BeginRefresh;
    hide BeginRerun, ThreadInv, ChannelInv, TimerInv, ClosedInv;
    var thread := At(s, a.t);
    if a.DoInvalidate? {
      if config in NextMemory(s, a).entries { InvalidationEmpties(s, a, config); }
    } else {
      PredatesStays(s, a, config, thread.began);
      match a
      case DoRerun(_, compiled) => FinishCatalog(s.m, thread.e, compiled);
      case DoRefreshed(_, compiled) =>
        if thread.target.Some? { FinishCatalog(s.m, thread.target.value, compiled); }
        else { ReplaceCatalog(s.m, config, compiled); }
      case _ =>
    }
  }

  /** The catalog that is installed stays there. */
  ghost predicate Stays(s: System, a: Action, config: Config)
    requires Enabled(s, a)
  {
    var m, m' := s.m, NextMemory(s, a);
    config in m.entries && m.entries[config] in m.heap ==>
      && config in m'.entries && m'.entries[config] == m.entries[config] && m.entries[config] in m'.heap
      && m'.heap[m.entries[config]].catalog == m.heap[m.entries[config]].catalog
  }

  lemma FocusStays(s: System, a: Action, config: Config)
    requires MemInv(s.m) && ThreadInv(s) && Enabled(s, a) && config in s.m.entries
    requires Focus(s, a) == Some(s.m.entries[config]) && !Renews(s, a, config) && !InstallsOutdated(s, a, config)
    ensures Stays(s, a, config)
  {
    var e := s.m.entries[config];
    assert Grounded(s.m, s.clock, At(s, a.t));
    hide FinishRefresh, RequestRefresh, ReplaceEntry, PublishFirst, WaitSection, BeginRefresh, BeginRerun;
    hide ThreadInv, ChannelInv, TimerInv, ClosedInv;
    match a
    case DoRequest(_, c, callback) => RequestStays(s.m, c, if callback then Some(s.clock) else None);
    case DoRefreshed(_, compiled) =>
      if At(s, a.t).target.Some? { FinishStays(s.m, At(s, a.t).target.value, compiled); }
      else { ReplaceCatalog(s.m, At(s, a.t).config, compiled); }
    case DoRerun(_, compiled) => FinishStays(s.m, At(s, a.t).e, compiled);
    case _ => if !a.DoCreated? { QuietCatalog(s, a, e); }
  }

  lemma FinishStays(m: Memory, e: EntryId, compiled: Compiled)
    requires e in m.heap
    ensures FinishRefresh(m, e, compiled).entries == m.entries
    ensures compiled.Failure? ==>
      e in FinishRefresh(m, e, compiled).heap && FinishRefresh(m, e, compiled).heap[e].catalog == m.heap[e].catalog
  {
  }

  lemma RequestStays(m: Memory, config: Config, callback: Option<Callback>)
    requires CacheInv(m)
    ensures RequestRefresh(m, config, callback).entries == m.entries
    ensures config in m.entries ==> var m', e := RequestRefresh(m, config, callback), m.entries[config];
      e in m'.heap && m'.heap[e].catalog == m.heap[e].catalog
  {
    if config in m.entries { RequestCatalog(m, config, callback); }
  }

  lemma ElsewhereStays(s: System, a: Action, config: Config)
    requires MemInv(s.m) && ThreadInv(s) && Enabled(s, a) && config in s.m.entries
    requires Elsewhere(s, a, s.m.entries[config]) && !(a.DoInvalidate? && a.name in config.servers)
    ensures Stays(s, a, config)
  {
    ElsewhereSame(s, a, s.m.entries[config]);
    if !Sweeping(a) {
      StepLocal(s, a);
      assert Same(s.m, NextMemory(s, a), s.m.entries[config]);
    }
  }

  lemma StaysOutdated(s: System, a: Action, config: Config)
    requires MemInv(s.m) && ThreadInv(s) && InvalidatedInv(s) && Enabled(s, a)
    requires Outdated(s, config) && !Renews(s, a, config) && !InstallsOutdated(s, a, config)
    ensures Outdated(Next(s, a), config)
  {
    NextMemoryOf(s, a);
    assert !(a.DoInvalidate? && a.name in config.servers);
    if Elsewhere(s, a, s.m.entries[config]) { ElsewhereStays(s, a, config); } else { FocusStays(s, a, config); }
    hide NextMemory, Next, Renews;
    PredatesStays(s, a, config, s.m.heap[s.m.entries[config]].catalog.value.began);
  }

  lemma OutdatedInstalled(s: System, a: Action, config: Config)
    requires MemInv(s.m) && Enabled(s, a) && InstallsOutdated(s, a, config)
    ensures Outdated(Next(s, a), config)
  {
    PredatesStays(s, a, config, At(s, a.t).began);
    assert ReplacesWith(s, a, config);
  }

  lemma NextMemoryOf(s: System, a: Action)
    requires Enabled(s, a)
    ensures Next(s, a).m == NextMemory(s, a)
  {
  }

  lemma NotOutdated(s: System, a: Action, config: Config)
    requires MemInv(s.m) && ThreadInv(s) && InvalidatedInv(s) && Enabled(s, a) && Installs(s, a, config)
    requires !Outdated(s, config) && !InstallsOutdated(s, a, config)
    ensures !Outdated(Next(s, a), config)
  {
    hide NextMemory, ThreadInv, Next;
    var m' := NextMemory(s, a);
    NextMemoryOf(s, a);
    if config in m'.entries && m'.entries[config] in m'.heap && m'.heap[m'.entries[config]].catalog.Some? {
      var e := m'.entries[config];
      if a.DoInvalidate? { InvalidationEmpties(s, a, config); }
      PredatesStays(s, a, config, m'.heap[e].catalog.value.began);
      if WorksOn(At(s, a.t), e) && Current(s.m, e) {
        assert !Predates(s, s.m.heap[e].config, At(s, a.t).began);
        StepSteady(s, a);
        assert Steady(s.m, m', e);
        StepKeepsMemInv(s, a);
      }
    }
  }
}

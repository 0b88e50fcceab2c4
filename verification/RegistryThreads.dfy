/** How one action changes the registry, and what the threads may rely on. */
module RegistryThreads {
  import opened Wrappers
  import opened RegistrySections
  import opened RegistryMemory
  import opened RegistryRuns

  /** Threads refer to entries that exist; a creator's entry is not ready yet. */
  predicate Grounded(m: Memory, clock: nat, thread: Thread) {
    match thread
    case Creating(e, began) => e in m.heap && !m.heap[e].ready && began < clock
    case AwaitReady(e) => e in m.heap
    case AwaitDone(e, _, _) => e in m.heap && m.heap[e].ready && m.heap[e].config.toolSearch
    case OwnCompiling(_, began) => began < clock
    case BlockedReady(_, e) => e in m.heap
    case BlockedDone(config, e, _) => e in m.heap && m.heap[e].ready && m.heap[e].config == config && config.toolSearch
    case Refreshing(config, target, began) =>
      began < clock &&
      (target.Some? ==>
        target.value in m.heap && m.heap[target.value].ready && m.heap[target.value].config == config
          && config.toolSearch)
    case Rerunning(e, _, began) => e in m.heap && began < clock
    case Delivering(_, _, began) => began < clock
    case Idle => true
  }

  ghost predicate ThreadInv(s: System) {
    forall t :: Grounded(s.m, s.clock, At(s, t))
  }

  lemma StepKeepsMemInv(s: System, a: Action)
    requires MemInv(s.m) && ThreadInv(s) && Enabled(s, a)
    ensures MemInv(NextMemory(s, a))
  {
    var thread := At(s, a.t);
    match a
    case DoGet(_, config) => EntryForConfigKeeps(s.m, config);
    case DoCreated(_, compiled) => PublishFirstKeeps(s.m, thread.e, compiled);
    case DoAwaitReady(_) => WaitSectionKeeps(s.m, thread.e);
    case DoOwnCompiled(_, compiled) =>
      if compiled.Success? { PublishOwnKeeps(s.m, thread.config, compiled.catalog); }
    case DoRefresh(_, config) => BeginRefreshKeeps(s.m, config);
    case DoRefreshed(_, compiled) =>
      if thread.target.Some? { FinishRefreshKeeps(s.m, thread.target.value, compiled); }
      else { ReplaceEntryKeeps(s.m, thread.config, compiled); }
    case DoRequest(_, config, callback) => RequestRefreshKeeps(s.m, config, if callback then Some(s.clock) else None);
    case DoFire(_, timer) =>
      DisarmKeeps(s.m, {timer});
      BeginRerunKeeps(s.m.(armed := s.m.armed - {timer}), s.m.armed[timer]);
    case DoRerun(_, compiled) => FinishRefreshKeeps(s.m, thread.e, compiled);
    case DoInvalidate(_, name) => InvalidateKeeps(s.m, name);
    case DoClose(_) => CloseKeeps(s.m);
    case _ =>
  }

  // ---- One action touches one entry ----

  predicate Sweeping(a: Action) {
    a.DoInvalidate? || a.DoClose?
  }

  function InstalledAt(m: Memory, config: Config): Option<EntryId> {
    if config in m.entries then Some(m.entries[config]) else None
  }

  function Focus(s: System, a: Action): Option<EntryId>
    requires Enabled(s, a)
  {
    var thread := At(s, a.t);
    match a
    case DoCreated(_, _) => Some(thread.e)
    case DoAwaitReady(_) => Some(thread.e)
    case DoRefresh(_, config) => InstalledAt(s.m, config)
    case DoRefreshed(_, _) => if thread.target.Some? then thread.target else InstalledAt(s.m, thread.config)
    case DoRequest(_, config, _) => InstalledAt(s.m, config)
    case DoFire(_, timer) => InstalledAt(s.m, s.m.armed[timer])
    case DoRerun(_, _) => Some(thread.e)
    case _ => None
  }

  /** A new entry starts clean: nothing is under way for it. */
  predicate Clean(entry: Entry) {
    !entry.refreshing && !entry.pending && !entry.stale && entry.timer.None? && entry.refreshDone.None?
      && entry.callbacks == []
  }

  predicate Same(m: Memory, m': Memory, e: EntryId)
    requires e in m.heap
  {
    e in m'.heap && m'.heap[e] == m.heap[e] && (Current(m', e) <==> Current(m, e))
  }

  /** What the touched entry may do: its configuration and readiness last, and a
      refreshDone channel is only given up by closing it. */
  predicate Steady(m: Memory, m': Memory, e: EntryId)
    requires e in m.heap
  {
    && e in m'.heap
    && m'.heap[e].config == m.heap[e].config
    && (m.heap[e].ready ==> m'.heap[e].ready)
    && (Current(m', e) ==> Current(m, e))
    && (m.heap[e].refreshDone.Some? ==>
          m'.heap[e].refreshDone == m.heap[e].refreshDone || m.heap[e].refreshDone.value in m'.closedChannels)
  }

  ghost predicate Local(m: Memory, m': Memory, focus: Option<EntryId>) {
    && (focus.Some? ==>
          var e := focus.value;
          && e in m.heap && Steady(m, m', e) && m'.heap[e].ready == m.heap[e].ready
          && (Current(m, e) && !Current(m', e) ==> m'.heap[e].refreshDone.None?))
    && Aside(m, m', focus)
  }

  /** Nothing but the touched entry changes, and new entries are clean. */
  ghost predicate Aside(m: Memory, m': Memory, focus: Option<EntryId>) {
    && (forall e :: e in m.heap && focus != Some(e) ==> Same(m, m', e))
    && (forall e :: e in m'.heap && e !in m.heap ==>
      m.next <= e && Clean(m'.heap[e]) && (m'.heap[e].ready || focus.None?))
    && m.closedChannels <= m'.closedChannels
    && m.armed.Keys <= m'.armed.Keys
    && m'.closed == m.closed
  }

  lemma LocalFinish(m: Memory, e: EntryId, compiled: Compiled)
    requires e in m.heap
    ensures Local(m, FinishRefresh(m, e, compiled), Some(e))
  {
  }

  lemma LocalMark(m: Memory, e: EntryId, callback: Option<Callback>)
    requires e in m.heap
    ensures Local(m, MarkRequested(m, e, callback), Some(e))
  {
  }

  lemma LocalSchedule(m: Memory, e: EntryId)
    requires e in m.heap
    ensures Local(m, Schedule(m, e), Some(e))
  {
  }

  lemma LocalTwice(m: Memory, m1: Memory, m2: Memory, e: EntryId)
    requires Local(m, m1, Some(e)) && Local(m1, m2, Some(e)) && m2.heap.Keys == m1.heap.Keys == m.heap.Keys
    requires m1.entries == m.entries
    requires m1.heap[e].refreshDone == m.heap[e].refreshDone || m.heap[e].refreshDone.None?
    ensures Local(m, m2, Some(e))
  {
    forall f | f in m.heap && f != e ensures Same(m, m2, f) {
      assert Same(m, m1, f) && Same(m1, m2, f);
    }
  }

  lemma LocalRequest(m: Memory, config: Config, callback: Option<Callback>)
    requires CacheInv(m)
    ensures Local(m, RequestRefresh(m, config, callback), InstalledAt(m, config))
  {
    if !m.closed && config in m.entries {
      var e := m.entries[config];
      LocalMark(m, e, callback);
      LocalSchedule(MarkRequested(m, e, callback), e);
      LocalTwice(m, MarkRequested(m, e, callback), RequestRefresh(m, config, callback), e);
    }
  }

  lemma LocalWait(m: Memory, e: EntryId)
    requires e in m.heap
    ensures Local(m, WaitSection(m, e).0, Some(e))
  {
  }

  lemma LocalReplace(m: Memory, config: Config, compiled: Compiled)
    requires CacheInv(m) && FreshIds(m)
    ensures Local(m, ReplaceEntry(m, config, compiled), InstalledAt(m, config))
  {
    if compiled.Success? {
      AsideInstall(m, config, ReadyEntry(config, compiled.catalog));
      if config in m.entries {
        AsideRelease(m, Install(m, config, ReadyEntry(config, compiled.catalog)), m.entries[config]);
        assert ReplaceEntry(m, config, compiled) ==
          ReleaseDone(Install(m, config, ReadyEntry(config, compiled.catalog)), m.entries[config]);
      }
    }
  }

  lemma AsideInstall(m: Memory, config: Config, entry: Entry)
    requires CacheInv(m) && FreshIds(m) && Clean(entry) && entry.ready
    ensures Aside(m, Install(m, config, entry), InstalledAt(m, config))
    ensures config in m.entries ==> Steady(m, Install(m, config, entry), m.entries[config])
  {
  }

  lemma AsideRelease(m: Memory, m1: Memory, e: EntryId)
    requires e in m.heap && Aside(m, m1, Some(e)) && Steady(m, m1, e)
    ensures Aside(m, ReleaseDone(m1, e), Some(e)) && Steady(m, ReleaseDone(m1, e), e)
  {
  }

  lemma LocalBegin(m: Memory, config: Config)
    requires CacheInv(m)
    ensures Local(m, BeginRefresh(m, config).0, InstalledAt(m, config))
    ensures Local(m, BeginRerun(m, config).0, InstalledAt(m, config))
  {
  }

  lemma LocalPublish(m: Memory, e: EntryId, compiled: Compiled)
    requires CacheInv(m) && e in m.heap
    ensures Aside(m, PublishFirst(m, e, compiled), Some(e))
    ensures Steady(m, PublishFirst(m, e, compiled), e) && PublishFirst(m, e, compiled).heap[e].ready
  {
  }

  lemma LocalGet(m: Memory, config: Config, catalog: Catalog)
    requires CacheInv(m) && FreshIds(m)
    ensures Local(m, EntryForConfig(m, config).0, None)
    ensures Local(m, PublishOwn(m, config, catalog), None)
  {
  }

  /** The memory as the action's section finds it: a firing timer is spent. */
  function Fired(s: System, a: Action): Memory {
    if a.DoFire? then s.m.(armed := s.m.armed - {a.timer}) else s.m
  }

  lemma StepLocal(s: System, a: Action)
    requires MemInv(s.m) && ThreadInv(s) && Enabled(s, a) && !Sweeping(a)
    ensures !a.DoCreated? ==> Local(Fired(s, a), NextMemory(s, a), Focus(s, a))
    ensures Aside(Fired(s, a), NextMemory(s, a), Focus(s, a))
    ensures a.DoCreated? ==> Steady(s.m, NextMemory(s, a), At(s, a.t).e) && NextMemory(s, a).heap[At(s, a.t).e].ready
  {
    var thread := At(s, a.t);
    match a
    case DoGet(_, config) => LocalGet(s.m, config, Catalog(false, 0));
    case DoCreated(_, compiled) => LocalPublish(s.m, thread.e, compiled);
    case DoAwaitReady(_) => LocalWait(s.m, thread.e);
    case DoOwnCompiled(_, compiled) =>
      if compiled.Success? { LocalGet(s.m, thread.config, compiled.catalog); }
    case DoRefresh(_, config) => LocalBegin(s.m, config);
    case DoRefreshed(_, compiled) =>
      if thread.target.Some? { LocalFinish(s.m, thread.target.value, compiled); }
      else { LocalReplace(s.m, thread.config, compiled); }
    case DoRequest(_, config, callback) => LocalRequest(s.m, config, if callback then Some(s.clock) else None);
    case DoFire(_, timer) =>
      DisarmKeeps(s.m, {timer});
      LocalBegin(s.m.(armed := s.m.armed - {timer}), s.m.armed[timer]);
    case DoRerun(_, compiled) => LocalFinish(s.m, thread.e, compiled);
    case _ =>
  }

  /** Invalidation and shutdown drop entries and release whoever waits on them. */
  ghost predicate Swept(m: Memory, m': Memory) {
    && (forall e :: e in m.heap ==> Steady(m, m', e) && SweptEntry(m.heap[e], m'.heap[e]))
    && m'.heap.Keys == m.heap.Keys
    && m.closedChannels <= m'.closedChannels
    && (forall e :: e in m.heap && Current(m, e) && !Current(m', e) ==> m'.heap[e].refreshDone.None?)
    && (forall e :: Current(m', e) && !m'.closed ==> Same(m, m', e))
    && (forall e :: Current(m', e) && !m'.closed && m.heap[e].timer.Some? && m.heap[e].timer.value in m.armed
          ==> m.heap[e].timer.value in m'.armed)
  }

  predicate SweptEntry(entry: Entry, entry': Entry) {
    entry' == entry.(refreshDone := entry'.refreshDone, timer := entry'.timer)
  }

  lemma StepSwept(s: System, a: Action)
    requires MemInv(s.m) && Enabled(s, a) && Sweeping(a)
    ensures Swept(s.m, NextMemory(s, a))
  {
    if a.DoInvalidate? { InvalidateSweeps(s.m, a.name); } else { CloseSweeps(s.m); }
  }

  lemma InvalidateSweeps(m: Memory, name: string)
    requires CacheInv(m) && TimerInv(m)
    ensures Swept(m, InvalidateComponent(m, name))
  {
    var m' := InvalidateComponent(m, name);
    assert m'.heap.Keys == m.heap.Keys;
    forall e | e in m.heap ensures Steady(m, m', e) && SweptEntry(m.heap[e], m'.heap[e]) {
      if Invalidated(m, name, e) && m.heap[e].refreshDone.Some? {
        assert m.heap[e].refreshDone.value in Channels(m, name);
      }
    }
    forall e | Current(m', e)
      ensures Same(m, m', e) && (m.heap[e].timer.Some? ==> m.heap[e].timer.value !in Timers(m, name)) {
      SurvivorKeepsTimer(m, name, e);
    }
  }

  lemma SurvivorKeepsTimer(m: Memory, name: string, e: EntryId)
    requires CacheInv(m) && TimerInv(m)
    requires e in m.heap && !Invalidated(m, name, e)
    ensures m.heap[e].timer.Some? ==> m.heap[e].timer.value !in Timers(m, name)
  {
  }

  lemma CloseSweeps(m: Memory)
    requires MemInv(m)
    ensures Swept(m, Close(m))
  {
    var m' := Close(m);
    forall e | e in m.heap && m.heap[e].refreshDone.Some? && m'.heap[e].refreshDone.None?
      ensures m.heap[e].refreshDone.value in m'.closedChannels
    {
      assert Current(m, e);
    }
  }

  // ---- Threads stay grounded ----

  /** Whatever an action does, an entry that exists stays, ready if it was. */
  lemma StepSteady(s: System, a: Action)
    requires MemInv(s.m) && ThreadInv(s) && Enabled(s, a)
    ensures forall e :: e in s.m.heap ==> Steady(s.m, NextMemory(s, a), e)
    ensures s.m.closedChannels <= NextMemory(s, a).closedChannels
  {
    if Sweeping(a) { StepSwept(s, a); } else {
      StepLocal(s, a);
      forall e | e in s.m.heap ensures Steady(s.m, NextMemory(s, a), e) {
        assert Focus(s, a) != Some(e) ==> Same(s.m, NextMemory(s, a), e);
      }
    }
  }

  /** Only its creator makes an entry ready. */
  lemma ReadyByCreator(s: System, a: Action, e: EntryId)
    requires MemInv(s.m) && ThreadInv(s) && Enabled(s, a) && e in s.m.heap && !s.m.heap[e].ready
    ensures e in NextMemory(s, a).heap
    ensures NextMemory(s, a).heap[e].ready <==> a.DoCreated? && At(s, a.t).e == e
  {
    if Sweeping(a) {
      StepSwept(s, a);
      assert SweptEntry(s.m.heap[e], NextMemory(s, a).heap[e]);
    } else {
      StepLocal(s, a);
      assert Focus(s, a) != Some(e) ==> Same(s.m, NextMemory(s, a), e);
    }
  }

  ghost predicate SoleCreators(s: System) {
    forall t, u :: At(s, t).Creating? && At(s, u).Creating? && At(s, t).e == At(s, u).e ==> t == u
  }

  ghost predicate CreatorAtWork(s: System, e: EntryId) {
    exists t :: At(s, t).Creating? && At(s, t).e == e
  }

  ghost predicate UnreadyInv(s: System) {
    forall e :: e in s.m.heap && !s.m.heap[e].ready ==> CreatorAtWork(s, e)
  }

  /** What the actor does next refers to entries that exist. */
  lemma ActorGrounded(s: System, a: Action)
    requires MemInv(s.m) && ThreadInv(s) && Enabled(s, a)
    ensures Grounded(NextMemory(s, a), s.clock + 1, NextThread(s, a))
  {
    assert Grounded(s.m, s.clock, At(s, a.t));
  }

  lemma ThreadsKept(s: System, a: Action)
    requires MemInv(s.m) && ThreadInv(s) && SoleCreators(s) && Enabled(s, a)
    ensures ThreadInv(Next(s, a))
  {
    var s' := Next(s, a);
    OnlyActorMoves(s, a);
    ActorGrounded(s, a);
    StepSteady(s, a);
    forall t ensures Grounded(s'.m, s'.clock, At(s', t)) {
      assert Grounded(s.m, s.clock, At(s, t));
      if t != a.t {
        assert At(s', t) == At(s, t);
        if At(s, t).Creating? { ReadyByCreator(s, a, At(s, t).e); }
      }
    }
  }

  lemma CreatorsKept(s: System, a: Action)
    requires MemInv(s.m) && ThreadInv(s) && SoleCreators(s) && Enabled(s, a)
    ensures SoleCreators(Next(s, a))
  {
    var s' := Next(s, a);
    OnlyActorMoves(s, a);
    forall t, u | At(s', t).Creating? && At(s', u).Creating? && At(s', t).e == At(s', u).e ensures t == u {
      assert Grounded(s.m, s.clock, At(s, t)) && Grounded(s.m, s.clock, At(s, u));
      assert t != a.t ==> At(s', t) == At(s, t);
      assert u != a.t ==> At(s', u) == At(s, u);
      assert NextThread(s, a).Creating? ==> NextThread(s, a).e == s.m.next;
    }
  }

  lemma UnreadyKept(s: System, a: Action)
    requires MemInv(s.m) && ThreadInv(s) && UnreadyInv(s) && Enabled(s, a)
    ensures UnreadyInv(Next(s, a))
  {
    var s' := Next(s, a);
    OnlyActorMoves(s, a);
    forall e | e in s'.m.heap && !s'.m.heap[e].ready ensures CreatorAtWork(s', e) {
      if e in s.m.heap {
        StepSteady(s, a);
        ReadyByCreator(s, a, e);
        var t :| At(s, t).Creating? && At(s, t).e == e;
        assert t != a.t ==> At(s', t) == At(s, t);
        assert At(s', t).Creating? && At(s', t).e == e;
      } else {
        NewUnready(s, a, e);
        assert At(s', a.t).Creating? && At(s', a.t).e == e;
      }
    }
  }

  lemma NewUnready(s: System, a: Action, e: EntryId)
    requires MemInv(s.m) && ThreadInv(s) && Enabled(s, a)
    requires e !in s.m.heap && e in NextMemory(s, a).heap && !NextMemory(s, a).heap[e].ready
    ensures NextThread(s, a).Creating? && NextThread(s, a).e == e
  {
    assert Grounded(s.m, s.clock, At(s, a.t));
    if Sweeping(a) { StepSwept(s, a); } else { StepLocal(s, a); }
  }

  // ---- Waiting for a refresh ----

  /** The entry and channel that a thread waits on, and whether that entry was
      installed when the wait began. */
  datatype Wait = Wait(e: EntryId, channel: Channel, held: bool)

  function WaitOf(thread: Thread): Option<Wait> {
    match thread
    case AwaitDone(e, c, held) => Some(Wait(e, c, held))
    case BlockedDone(_, e, c) => Some(Wait(e, c, true))
    case _ => None
  }

  /** The channel is closed, or still the entry's own; and an entry that was
      installed stays so until the channel is closed. */
  predicate Kept(m: Memory, w: Wait)
    requires w.e in m.heap
  {
    w.channel in m.closedChannels || (m.heap[w.e].refreshDone == Some(w.channel) && (w.held ==> Current(m, w.e)))
  }

  ghost predicate WaitInv(s: System) {
    forall t :: WaitOf(At(s, t)).Some? ==> WaitOf(At(s, t)).value.e in s.m.heap && Kept(s.m, WaitOf(At(s, t)).value)
  }

  /** An installed entry that is ready leaves the table only with its channel closed. */
  lemma LeavesReleased(s: System, a: Action, e: EntryId)
    requires MemInv(s.m) && ThreadInv(s) && Enabled(s, a)
    requires Current(s.m, e) && s.m.heap[e].ready && !Current(NextMemory(s, a), e)
    ensures e in NextMemory(s, a).heap && NextMemory(s, a).heap[e].refreshDone.None?
  {
    if Sweeping(a) { StepSwept(s, a); } else {
      StepLocal(s, a);
      assert Grounded(s.m, s.clock, At(s, a.t));
    }
  }

  lemma WaitsKept(s: System, a: Action)
    requires MemInv(s.m) && ThreadInv(s) && WaitInv(s) && Enabled(s, a)
    ensures WaitInv(Next(s, a))
  {
    var s' := Next(s, a);
    OnlyActorMoves(s, a);
    StepSteady(s, a);
    forall t | WaitOf(At(s', t)).Some?
      ensures WaitOf(At(s', t)).value.e in s'.m.heap && Kept(s'.m, WaitOf(At(s', t)).value)
    {
      if t != a.t {
        assert At(s', t) == At(s, t);
        assert Grounded(s.m, s.clock, At(s, t));
        var e := WaitOf(At(s, t)).value.e;
        assert Steady(s.m, s'.m, e);
        if Current(s.m, e) && !Current(s'.m, e) { LeavesReleased(s, a, e); }
      } else {
        ActorWaits(s, a);
      }
    }
  }

  lemma ActorWaits(s: System, a: Action)
    requires MemInv(s.m) && ThreadInv(s) && Enabled(s, a) && WaitOf(NextThread(s, a)).Some?
    ensures var w := WaitOf(NextThread(s, a)).value; w.e in NextMemory(s, a).heap && Kept(NextMemory(s, a), w)
  {
    if a.DoAwaitReady? { WaitKept(s, a); } else { hide WaitSection; }
  }

  lemma WaitKept(s: System, a: Action)
    requires Enabled(s, a) && a.DoAwaitReady? && WaitOf(NextThread(s, a)).Some?
    ensures var w := WaitOf(NextThread(s, a)).value; w.e in NextMemory(s, a).heap && Kept(NextMemory(s, a), w)
  {
  }
}

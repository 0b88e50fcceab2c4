/** What every critical section of the registry keeps, whoever runs it and when. */
module RegistryMemory {
  import opened Wrappers
  import opened RegistrySections

  predicate Good(entry: Entry) {
    entry.ready ==> entry.catalog.Some? && !entry.catalog.value.pending && entry.err.None?
  }

  /** Installed entries sit under their own configuration and, once ready, hold a
      finished catalog and no error. */
  ghost predicate CacheInv(m: Memory) {
    forall config :: config in m.entries ==>
      && m.entries[config] in m.heap
      && m.heap[m.entries[config]].config == config
      && Good(m.heap[m.entries[config]])
  }

  ghost predicate FreshIds(m: Memory) {
    && (forall e :: e in m.heap ==> e < m.next && BoundedBy(m.heap[e], m.next))
    && (forall timer :: timer in m.armed ==> timer < m.next)
    && (forall c :: c in m.closedChannels ==> c < m.next)
  }

  predicate BoundedBy(entry: Entry, bound: nat) {
    (entry.timer.Some? ==> entry.timer.value < bound) && (entry.refreshDone.Some? ==> entry.refreshDone.value < bound)
  }

  /** Each refreshDone channel belongs to one entry and is still open. */
  ghost predicate ChannelInv(m: Memory) {
    && (forall e :: e in m.heap && m.heap[e].refreshDone.Some? ==> m.heap[e].refreshDone.value !in m.closedChannels)
    && (forall e, f ::
          e in m.heap && f in m.heap && m.heap[e].refreshDone.Some? && m.heap[e].refreshDone == m.heap[f].refreshDone
          ==> e == f)
  }

  /** Each timer belongs to one entry and refreshes that entry's configuration. */
  ghost predicate TimerInv(m: Memory) {
    && (forall e :: e in m.heap && m.heap[e].timer.Some? && m.heap[e].timer.value in m.armed
          ==> m.armed[m.heap[e].timer.value] == m.heap[e].config)
    && (forall e, f ::
          e in m.heap && f in m.heap && m.heap[e].timer.Some? && m.heap[e].timer == m.heap[f].timer
          ==> e == f)
  }

  ghost predicate ClosedInv(m: Memory) {
    m.closed ==> forall e :: Current(m, e) ==> m.heap[e].timer.None? && m.heap[e].refreshDone.None?
  }

  ghost predicate MemInv(m: Memory) {
    CacheInv(m) && FreshIds(m) && ChannelInv(m) && TimerInv(m) && ClosedInv(m)
  }

  // ---- The primitive updates ----

  lemma SetKeeps(m: Memory, e: EntryId, entry: Entry)
    requires MemInv(m) && e in m.heap && entry.config == m.heap[e].config
    requires Current(m, e) ==> Good(entry)
    requires entry.timer.None? || entry.timer == m.heap[e].timer
    requires entry.refreshDone == m.heap[e].refreshDone
    ensures MemInv(Set(m, e, entry))
  {
  }

  lemma ArmKeeps(m: Memory, e: EntryId)
    requires MemInv(m) && e in m.heap && !m.closed
    ensures MemInv(Arm(m, e))
  {
  }

  lemma EnsureDoneKeeps(m: Memory, e: EntryId)
    requires MemInv(m) && e in m.heap && !m.closed
    ensures MemInv(EnsureDone(m, e))
  {
  }

  lemma ReleaseDoneKeeps(m: Memory, e: EntryId)
    requires MemInv(m) && e in m.heap
    ensures MemInv(ReleaseDone(m, e))
  {
  }

  function Install(m: Memory, config: Config, entry: Entry): Memory {
    m.(entries := m.entries[config := m.next], heap := m.heap[m.next := entry], next := m.next + 1)
  }

  lemma InstallKeeps(m: Memory, config: Config, entry: Entry)
    requires MemInv(m) && entry.config == config && Good(entry) && entry.timer.None? && entry.refreshDone.None?
    ensures MemInv(Install(m, config, entry))
  {
  }

  lemma RemoveKeeps(m: Memory, config: Config)
    requires MemInv(m)
    ensures MemInv(m.(entries := m.entries - {config}))
  {
  }

  // ---- The sections ----

  lemma EntryForConfigKeeps(m: Memory, config: Config)
    requires MemInv(m)
    ensures MemInv(EntryForConfig(m, config).0)
  {
    InstallKeeps(m, config, NewEntry(config));
  }

  /** Only a finished catalog stays installed when its creator opens the entry. */
  lemma PublishFirstKeeps(m: Memory, e: EntryId, compiled: Compiled)
    requires MemInv(m) && e in m.heap && !m.heap[e].ready
    ensures MemInv(PublishFirst(m, e, compiled))
  {
    var entry := m.heap[e].(
      ready := true,
      catalog := if compiled.Success? then Some(compiled.catalog) else None,
      err := if compiled.Success? then None else Some(compiled.error));
    if Current(m, e) && !Cacheable(compiled) {
      RemoveKeeps(m, entry.config);
      SetKeeps(m.(entries := m.entries - {entry.config}), e, entry);
    } else {
      SetKeeps(m, e, entry);
    }
  }

  lemma PublishOwnKeeps(m: Memory, config: Config, catalog: Catalog)
    requires MemInv(m)
    ensures MemInv(PublishOwn(m, config, catalog))
  {
    if !catalog.pending { InstallKeeps(m, config, ReadyEntry(config, catalog)); }
  }

  lemma WaitSectionKeeps(m: Memory, e: EntryId)
    requires MemInv(m) && e in m.heap
    ensures MemInv(WaitSection(m, e).0)
  {
    if !m.closed {
      EnsureDoneKeeps(m, e);
      ArmKeeps(EnsureDone(m, e), e);
    }
  }

  lemma BeginRefreshKeeps(m: Memory, config: Config)
    requires MemInv(m)
    ensures MemInv(BeginRefresh(m, config).0)
  {
    if !m.closed && config in m.entries && m.heap[m.entries[config]].refreshDone.None? {
      var e := m.entries[config];
      EnsureDoneKeeps(m, e);
      var m1 := EnsureDone(m, e);
      SetKeeps(m1, e, m1.heap[e].(stale := true, refreshing := true));
    }
  }

  lemma FinishRefreshKeeps(m: Memory, e: EntryId, compiled: Compiled)
    requires MemInv(m) && e in m.heap
    requires compiled.Success? ==> !compiled.catalog.pending
    ensures MemInv(FinishRefresh(m, e, compiled))
  {
    var entry := m.heap[e];
    var stored := if compiled.Success? then entry.(catalog := Some(compiled.catalog), err := None) else entry;
    var settled := stored.(
      refreshing := false,
      pending := false,
      stale := if entry.config.toolSearch then entry.pending || compiled.Failure? else entry.stale);
    SetKeeps(m, e, settled);
    var m1 := Set(m, e, settled);
    ReleaseDoneKeeps(m1, e);
    var m2 := if entry.config.toolSearch && !entry.pending then ReleaseDone(m1, e) else m1;
    if entry.pending && !m.closed { ArmKeeps(m2, e); }
  }

  lemma ReplaceEntryKeeps(m: Memory, config: Config, compiled: Compiled)
    requires MemInv(m)
    requires compiled.Success? ==> !compiled.catalog.pending
    ensures MemInv(ReplaceEntry(m, config, compiled))
  {
    if compiled.Success? {
      InstallKeeps(m, config, ReadyEntry(config, compiled.catalog));
      if config in m.entries {
        ReleaseDoneKeeps(Install(m, config, ReadyEntry(config, compiled.catalog)), m.entries[config]);
      }
    } else if config in m.entries {
      SetKeeps(m, m.entries[config], m.heap[m.entries[config]].(stale := true));
    }
  }

  lemma MarkRequestedKeeps(m: Memory, e: EntryId, callback: Option<Callback>)
    requires MemInv(m) && e in m.heap && !m.closed
    ensures MemInv(MarkRequested(m, e, callback))
  {
    var entry := m.heap[e];
    var called := if callback.Some? then entry.(callbacks := entry.callbacks + [callback.value]) else entry;
    if entry.config.toolSearch {
      SetKeeps(m, e, called.(stale := true));
      EnsureDoneKeeps(Set(m, e, called.(stale := true)), e);
    } else {
      SetKeeps(m, e, called);
    }
  }

  lemma ScheduleKeeps(m: Memory, e: EntryId)
    requires MemInv(m) && e in m.heap && !m.closed
    ensures MemInv(Schedule(m, e))
  {
    if m.heap[e].refreshing {
      SetKeeps(m, e, m.heap[e].(pending := true));
    } else if m.heap[e].timer.None? {
      ArmKeeps(m, e);
    } else {
      ResetKeeps(m, e);
    }
  }

  lemma RequestRefreshKeeps(m: Memory, config: Config, callback: Option<Callback>)
    requires MemInv(m)
    ensures MemInv(RequestRefresh(m, config, callback))
  {
    if !m.closed && config in m.entries {
      MarkRequestedKeeps(m, m.entries[config], callback);
      ScheduleKeeps(MarkRequested(m, m.entries[config], callback), m.entries[config]);
    }
  }

  lemma ResetKeeps(m: Memory, e: EntryId)
    requires MemInv(m) && e in m.heap && m.heap[e].timer.Some?
    ensures MemInv(m.(armed := m.armed[m.heap[e].timer.value := m.heap[e].config]))
  {
  }

  lemma DisarmKeeps(m: Memory, timers: set<Timer>)
    requires MemInv(m)
    ensures MemInv(m.(armed := m.armed - timers))
  {
  }

  lemma BeginRerunKeeps(m: Memory, config: Config)
    requires MemInv(m)
    ensures MemInv(BeginRerun(m, config).0)
  {
    if config in m.entries {
      var e := m.entries[config];
      SetKeeps(m, e, m.heap[e].(timer := None, refreshing := true, pending := false, callbacks := []));
    }
  }

  lemma InvalidateKeeps(m: Memory, name: string)
    requires MemInv(m)
    ensures MemInv(InvalidateComponent(m, name))
  {
    var m' := InvalidateComponent(m, name);
    assert ChannelInv(m') by {
      forall e | e in m'.heap && m'.heap[e].refreshDone.Some?
        ensures m'.heap[e].refreshDone.value !in m'.closedChannels {
        assert m.heap[e].refreshDone == m'.heap[e].refreshDone;
      }
    }
  }

  lemma CloseKeeps(m: Memory)
    requires MemInv(m)
    ensures MemInv(Close(m))
  {
    var m' := Close(m);
    assert ChannelInv(m') by {
      forall e | e in m'.heap && m'.heap[e].refreshDone.Some?
        ensures m'.heap[e].refreshDone.value !in m'.closedChannels {
        assert m.heap[e].refreshDone == m'.heap[e].refreshDone;
      }
    }
  }
}

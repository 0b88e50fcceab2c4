/** The registry itself: its critical sections run on its fields. */
module CatalogRegistry {
  import opened Wrappers
  import opened RegistrySections

  /** `heap` holds the fields of every entry ever created; `armed`, `closedChannels`
      and `next` stand for the runtime's timers and channels and for fresh identities. */
  class Registry {
    var entries: map<Config, EntryId>
    var heap: map<EntryId, Entry>
    var closed: bool
    var armed: map<Timer, Config>
    var closedChannels: set<Channel>
    var next: nat

    ghost function View(): Memory
      reads this
    {
      Memory(entries, heap, closed, armed, closedChannels, next)
    }

    /** The table points at existing entries, each under its own configuration, and
        identities are not reused. */
    ghost predicate Valid()
      reads this
    {
      && (forall config :: config in entries ==> entries[config] in heap && heap[entries[config]].config == config)
      && (forall e :: e in heap ==> e < next)
    }

    constructor ()
      ensures Valid() && View() == INITIAL
    {
      entries, heap, closed, armed, closedChannels, next := map[], map[], false, map[], {}, 0;
    }

    /** entry.timer = time.AfterFunc(...) */
    method Arm(e: EntryId)
      requires e in heap
      modifies this`heap, this`armed, this`next
      ensures View() == RegistrySections.Arm(old(View()), e)
    {
      heap := heap[e := heap[e].(timer := Some(next))];
      armed := armed[next := heap[e].config];
      next := next + 1;
    }

    /** entry.refreshDone = make(chan struct{}) */
    method MakeDone(e: EntryId)
      requires e in heap && heap[e].refreshDone.None?
      modifies this`heap, this`next
      ensures View() == EnsureDone(old(View()), e)
    {
      heap := heap[e := heap[e].(refreshDone := Some(next))];
      next := next + 1;
    }

    /** close(entry.refreshDone); entry.refreshDone = nil */
    method CloseDone(e: EntryId)
      requires e in heap && heap[e].refreshDone.Some?
      modifies this`heap, this`closedChannels
      ensures View() == ReleaseDone(old(View()), e)
    {
      closedChannels := closedChannels + {heap[e].refreshDone.value};
      heap := heap[e := heap[e].(refreshDone := None)];
    }

    method Install(config: Config, entry: Entry) returns (e: EntryId)
      requires Valid() && entry.config == config
      modifies this`entries, this`heap, this`next
      ensures Valid() && e == old(next)
      ensures View() == old(View()).(
        entries := old(entries)[config := e], heap := old(heap)[e := entry], next := old(next) + 1)
    {
      e := next;
      next := next + 1;
      heap := heap[e := entry];
      entries := entries[config := e];
    }

    // ---- Get ----

    method EntryForConfig(config: Config) returns (e: EntryId, created: bool)
      requires Valid()
      modifies this
      ensures Valid() && (View(), e, created) == RegistrySections.EntryForConfig(old(View()), config)
    {
      if config in entries {
        return entries[config], false;
      }
      e := Install(config, NewEntry(config));
      created := true;
    }

    /** The last section of a Get that created its entry. */
    method PublishFirst(e: EntryId, compiled: Compiled)
      requires Valid() && e in heap
      modifies this
      ensures Valid() && View() == RegistrySections.PublishFirst(old(View()), e, compiled)
    {
      var entry := heap[e];
      var config := entry.config;
      entry := entry.(
        catalog := if compiled.Success? then Some(compiled.catalog) else None,
        err := if compiled.Success? then None else Some(compiled.error));
      if config in entries && entries[config] == e && (compiled.Failure? || compiled.catalog.pending) {
        entries := entries - {config};
      }
      heap := heap[e := entry.(ready := true)];
    }

    method PublishOwn(config: Config, catalog: Catalog)
      requires Valid()
      modifies this
      ensures Valid() && View() == RegistrySections.PublishOwn(old(View()), config, catalog)
    {
      if closed || catalog.pending || config in entries {
        return;
      }
      var _ := Install(config, ReadyEntry(config, catalog));
    }

    /** The first section of waitForCatalog. */
    method WaitSection(e: EntryId) returns (waited: Waited)
      requires Valid() && e in heap
      modifies this
      ensures Valid() && (View(), waited) == RegistrySections.WaitSection(old(View()), e)
    {
      if heap[e].err.Some? || !heap[e].stale || !heap[e].config.toolSearch {
        return Answer(heap[e].catalog, heap[e].err);
      }
      if closed {
        return Canceled;
      }
      if heap[e].refreshDone.None? {
        MakeDone(e);
      }
      if !heap[e].refreshing && heap[e].timer.None? {
        Arm(e);
      }
      return WaitFor(heap[e].refreshDone.value);
    }

    /** The last section of waitForCatalog. */
    method ReadCurrent(config: Config) returns (read: Read)
      requires Valid()
      ensures read == RegistrySections.ReadCurrent(View(), config)
    {
      if config !in entries || heap[entries[config]].stale {
        return Unavailable;
      }
      return Found(heap[entries[config]].catalog, heap[entries[config]].err);
    }

    method Cached(config: Config) returns (catalog: Option<Catalog>)
      requires Valid()
      ensures catalog == RegistrySections.Cached(View(), config)
    {
      if closed || config !in entries || heap[entries[config]].stale || heap[entries[config]].err.Some? {
        return None;
      }
      var entry := heap[entries[config]];
      if entry.ready && entry.catalog.Some? && !entry.catalog.value.pending {
        return entry.catalog;
      }
      return None;
    }

    // ---- Refresh ----

    /** One pass of Refresh's loop, up to the point where it waits or compiles. */
    method BeginRefresh(config: Config) returns (begun: Begun)
      requires Valid()
      modifies this
      ensures Valid() && (View(), begun) == RegistrySections.BeginRefresh(old(View()), config)
    {
      if closed {
        return Stopped;
      }
      if config !in entries {
        return Proceed(None);
      }
      var e := entries[config];
      if !heap[e].ready {
        return MustAwaitReady(e);
      }
      if heap[e].refreshDone.Some? {
        return MustAwaitDone(e, heap[e].refreshDone.value);
      }
      MakeDone(e);
      heap := heap[e := heap[e].(stale := true, refreshing := true)];
      return Proceed(Some(e));
    }

    method FinishRefresh(e: EntryId, compiled: Compiled)
      requires Valid() && e in heap
      modifies this
      ensures Valid() && View() == RegistrySections.FinishRefresh(old(View()), e, compiled)
    {
      var entry := heap[e];
      if compiled.Success? {
        entry := entry.(catalog := Some(compiled.catalog), err := None);
      }
      var pending := entry.pending;
      entry := entry.(refreshing := false, pending := false);
      if entry.config.toolSearch {
        entry := entry.(stale := pending || compiled.Failure?);
      }
      heap := heap[e := entry];
      if entry.config.toolSearch && !pending && entry.refreshDone.Some? {
        CloseDone(e);
      }
      if pending && !closed {
        Arm(e);
      }
    }

    /** The last section of a Refresh that marked an entry. */
    method EndRefresh(e: EntryId, compiled: Compiled)
      requires Valid() && e in heap
      modifies this
      ensures Valid() && View() == RegistrySections.EndRefresh(old(View()), e, compiled)
    {
      if closed {
        return;
      }
      FinishRefresh(e, compiled);
    }

    /** The last section of any other Refresh. */
    method ReplaceEntry(config: Config, compiled: Compiled)
      requires Valid()
      modifies this
      ensures Valid() && View() == RegistrySections.ReplaceEntry(old(View()), config, compiled)
    {
      if compiled.Failure? {
        if config.toolSearch && config in entries {
          heap := heap[entries[config] := heap[entries[config]].(stale := true)];
        }
        return;
      }
      var previous := if config in entries then Some(entries[config]) else None;
      var _ := Install(config, ReadyEntry(config, compiled.catalog));
      if previous.Some? && heap[previous.value].refreshDone.Some? {
        CloseDone(previous.value);
      }
    }

    // ---- Notifications and background refreshes ----

    method RequestRefresh(config: Config, callback: Option<Callback>)
      requires Valid()
      modifies this
      ensures Valid() && View() == RegistrySections.RequestRefresh(old(View()), config, callback)
    {
      if closed || config !in entries {
        return;
      }
      var e := entries[config];
      var entry := heap[e];
      if callback.Some? {
        entry := entry.(callbacks := entry.callbacks + [callback.value]);
      }
      if config.toolSearch {
        entry := entry.(stale := true);
      }
      heap := heap[e := entry];
      if config.toolSearch && entry.refreshDone.None? {
        MakeDone(e);
      }
      assert View() == MarkRequested(old(View()), e, callback);
      if heap[e].refreshing {
        heap := heap[e := heap[e].(pending := true)];
        return;
      }
      if heap[e].timer.None? {
        Arm(e);
      } else {
        armed := armed[heap[e].timer.value := config];
      }
    }

    /** What a firing timer does before it compiles. */
    method BeginRerun(config: Config) returns (rerun: Option<(EntryId, seq<Callback>)>)
      requires Valid()
      modifies this
      ensures Valid() && (View(), rerun) == RegistrySections.BeginRerun(old(View()), config)
    {
      if closed || config !in entries || heap[entries[config]].refreshing {
        return None;
      }
      var e := entries[config];
      rerun := Some((e, heap[e].callbacks));
      heap := heap[e := heap[e].(timer := None, refreshing := true, pending := false, callbacks := [])];
    }

    method EndRerun(e: EntryId, compiled: Compiled)
      requires Valid() && e in heap
      modifies this
      ensures Valid() && View() == RegistrySections.EndRerun(old(View()), e, compiled)
    {
      var config := heap[e].config;
      if config !in entries || entries[config] != e {
        return;
      }
      FinishRefresh(e, compiled);
    }

    // ---- Invalidation and shutdown ----

    /** Drops every entry that lists the component, one by one and in any order. */
    method InvalidateComponent(component: string)
      requires Valid()
      modifies this
      ensures Valid() && View() == RegistrySections.InvalidateComponent(old(View()), component)
    {
      hide ReleaseOne, ReleaseAll;
      ghost var m, order := View(), [];
      var rest := entries.Keys;
      while rest != {}
        invariant rest <= m.entries.Keys && Valid() && View() == ReleaseEach(m, order, true)
        invariant Lists(order, Listing(m.entries, component) - rest)
        invariant rest <= entries.Keys
        decreases |rest|
      {
        var config :| config in rest;
        rest := rest - {config};
        if component in config.servers {
          order := order + [config];
          Release(config, true);
        }
      }
      ReleasedAll(m, order, Listing(m.entries, component), true);
      DroppedAll(m, component);
    }

    /** Closes every installed entry's channel and stops its timer, in any order. */
    method Close()
      requires Valid()
      modifies this
      ensures Valid() && View() == RegistrySections.Close(old(View()))
    {
      hide ReleaseOne, ReleaseAll;
      closed := true;
      ghost var m, order := View(), [];
      var rest := entries.Keys;
      while rest != {}
        invariant rest <= entries.Keys && Valid() && View() == ReleaseEach(m, order, false)
        invariant Lists(order, entries.Keys - rest) && entries == m.entries
        decreases |rest|
      {
        var config :| config in rest;
        rest := rest - {config};
        order := order + [config];
        Release(config, false);
      }
      ReleasedAll(m, order, m.entries.Keys, false);
      SettledAll(old(View()));
    }

    /** Stops an entry's timer and closes its channel; `drop` also removes the entry
        from the table, and otherwise its timer is forgotten. */
    method Release(config: Config, drop: bool)
      requires Valid() && config in entries
      modifies this
      ensures Valid() && View() == ReleaseOne(old(View()), config, drop)
      ensures entries == if drop then old(entries) - {config} else old(entries)
    {
      Settle(entries[config], drop);
      if drop {
        entries := entries - {config};
      }
    }

    method Settle(e: EntryId, keepTimer: bool)
      requires e in heap
      modifies this`heap, this`armed, this`closedChannels
      ensures armed == old(armed) - Items(old(heap)[e].timer)
      ensures closedChannels == old(closedChannels) + Items(old(heap)[e].refreshDone)
      ensures heap == old(heap)[e := Released(old(heap)[e], keepTimer)]
    {
      var entry := heap[e];
      if entry.refreshDone.Some? {
        closedChannels := closedChannels + {entry.refreshDone.value};
        entry := entry.(refreshDone := None);
      }
      if entry.timer.Some? {
        armed := armed - {entry.timer.value};
        entry := entry.(timer := if keepTimer then entry.timer else None);
      }
      heap := heap[e := entry];
    }
  }

  // ---- Releasing the entries of some configurations, one at a time ----

  function Items<T>(option: Option<T>): set<T> {
    if option.Some? then {option.value} else {}
  }

  function Listing(entries: map<Config, EntryId>, component: string): set<Config> {
    set config | config in entries && component in config.servers
  }

  ghost predicate Lists(order: seq<Config>, configs: set<Config>) {
    && (forall config :: config in order <==> config in configs)
    && (forall i, j :: 0 <= i < j < |order| ==> order[i] != order[j])
  }

  function Released(entry: Entry, keepTimer: bool): Entry {
    entry.(refreshDone := None, timer := if keepTimer then entry.timer else None)
  }

  function ReleaseOne(m: Memory, config: Config, drop: bool): Memory {
    if config !in m.entries || m.entries[config] !in m.heap then m
    else
      var e := m.entries[config];
      m.(entries := if drop then m.entries - {config} else m.entries,
         heap := m.heap[e := Released(m.heap[e], drop)],
         armed := m.armed - Items(m.heap[e].timer),
         closedChannels := m.closedChannels + Items(m.heap[e].refreshDone))
  }

  function ReleaseEach(m: Memory, order: seq<Config>, drop: bool): Memory {
    if |order| == 0 then m
    else ReleaseOne(ReleaseEach(m, order[..|order| - 1], drop), order[|order| - 1], drop)
  }

  predicate Among(m: Memory, gone: set<Config>, e: EntryId) {
    Current(m, e) && m.heap[e].config in gone
  }

  function ReleaseHeap(m: Memory, gone: set<Config>, drop: bool): map<EntryId, Entry> {
    map e | e in m.heap :: if Among(m, gone, e) then Released(m.heap[e], drop) else m.heap[e]
  }

  function TimersOf(m: Memory, gone: set<Config>): set<Timer> {
    set e | e in m.heap && Among(m, gone, e) && m.heap[e].timer.Some? :: m.heap[e].timer.value
  }

  function ChannelsOf(m: Memory, gone: set<Config>): set<Channel> {
    set e | e in m.heap && Among(m, gone, e) && m.heap[e].refreshDone.Some? :: m.heap[e].refreshDone.value
  }

  function ReleaseAll(m: Memory, gone: set<Config>, drop: bool): Memory {
    m.(entries := if drop then m.entries - gone else m.entries,
       heap := ReleaseHeap(m, gone, drop),
       armed := m.armed - TimersOf(m, gone),
       closedChannels := m.closedChannels + ChannelsOf(m, gone))
  }

  ghost predicate Sound(m: Memory) {
    forall config :: config in m.entries ==> m.entries[config] in m.heap && m.heap[m.entries[config]].config == config
  }

  lemma OneMore(m: Memory, gone: set<Config>, config: Config, drop: bool)
    requires Sound(m) && config !in gone && config in m.entries
    ensures ReleaseOne(ReleaseAll(m, gone, drop), config, drop) == ReleaseAll(m, gone + {config}, drop)
  {
    hide ReleaseHeap, TimersOf, ChannelsOf, Released, Items;
    AmongOneMore(m, gone, config);
    SetsOneMore(m, gone, config);
    HeapOneMore(m, gone, config, drop);
    assert m.entries - (gone + {config}) == m.entries - gone - {config};
    assert m.armed - (TimersOf(m, gone) + Items(m.heap[m.entries[config]].timer))
        == m.armed - TimersOf(m, gone) - Items(m.heap[m.entries[config]].timer);
  }

  lemma AmongOneMore(m: Memory, gone: set<Config>, config: Config)
    requires Sound(m) && config !in gone && config in m.entries
    ensures forall f :: Among(m, gone + {config}, f) <==> Among(m, gone, f) || f == m.entries[config]
    ensures !Among(m, gone, m.entries[config])
  {
    assert Among(m, gone + {config}, m.entries[config]);
  }

  lemma SetsOneMore(m: Memory, gone: set<Config>, config: Config)
    requires Sound(m) && config !in gone && config in m.entries
    ensures TimersOf(m, gone + {config}) == TimersOf(m, gone) + Items(m.heap[m.entries[config]].timer)
    ensures ChannelsOf(m, gone + {config}) == ChannelsOf(m, gone) + Items(m.heap[m.entries[config]].refreshDone)
  {
    AmongOneMore(m, gone, config);
  }

  lemma HeapOneMore(m: Memory, gone: set<Config>, config: Config, drop: bool)
    requires Sound(m) && config !in gone && config in m.entries
    ensures var e := m.entries[config];
      && ReleaseHeap(m, gone + {config}, drop) == ReleaseHeap(m, gone, drop)[e := Released(m.heap[e], drop)]
      && e in ReleaseHeap(m, gone, drop) && ReleaseHeap(m, gone, drop)[e] == m.heap[e]
  {
    AmongOneMore(m, gone, config);
  }

  /** The order in which the entries are visited does not matter. */
  lemma {:induction false} ReleasedAll(m: Memory, order: seq<Config>, gone: set<Config>, drop: bool)
    requires Sound(m) && Lists(order, gone) && gone <= m.entries.Keys
    ensures ReleaseEach(m, order, drop) == ReleaseAll(m, gone, drop)
  {
    if |order| == 0 {
      assert gone == {};
      assert ReleaseHeap(m, gone, drop) == m.heap;
    } else {
      var init, last := order[..|order| - 1], order[|order| - 1];
      assert Lists(init, gone - {last});
      ReleasedAll(m, init, gone - {last}, drop);
      OneMore(m, gone - {last}, last, drop);
      assert gone - {last} + {last} == gone;
    }
  }

  lemma DroppedAll(m: Memory, component: string)
    ensures InvalidateComponent(m, component) == ReleaseAll(m, Listing(m.entries, component), true)
  {
    var gone := Listing(m.entries, component);
    assert forall e :: Among(m, gone, e) <==> Invalidated(m, component, e);
    assert TimersOf(m, gone) == Timers(m, component) && ChannelsOf(m, gone) == Channels(m, component);
    assert InvalidateComponent(m, component).heap == ReleaseHeap(m, gone, true);
    assert InvalidateComponent(m, component).entries == m.entries - gone;
  }

  lemma SettledAll(m: Memory)
    ensures Close(m) == ReleaseAll(m.(closed := true), m.entries.Keys, false)
  {
    var m', gone := m.(closed := true), m.entries.Keys;
    assert forall e :: Among(m', gone, e) <==> Current(m, e);
    assert Close(m).heap == ReleaseHeap(m', gone, false);
  }
}

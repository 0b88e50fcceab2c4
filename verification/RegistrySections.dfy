/** The catalog registry: a single-flight cache of compiled catalogs with a
    debounced background refresh.

    `Memory` is everything the registry's mutex guards, and each critical section
    under that mutex is one function on it. Entries, timers and channels are named
    by numbers from one supply, `next`. A configuration stands for its own
    fingerprint. */
module RegistrySections {
  import opened Wrappers

  type EntryId = nat
  type Timer = nat
  type Channel = nat
  type Callback = nat

  datatype Config = Config(id: nat, toolSearch: bool, deferAuthorization: bool, servers: set<string>)

  /** `began` is the time at which the compile that produced the catalog started. */
  datatype Catalog = Catalog(pending: bool, began: nat)

  datatype Error = Unauthorized | Failed

  datatype Compiled = Success(catalog: Catalog) | Failure(error: Error)

  datatype Entry = Entry(
    config: Config,
    ready: bool,
    catalog: Option<Catalog>,
    err: Option<Error>,
    refreshing: bool,
    pending: bool,
    timer: Option<Timer>,
    callbacks: seq<Callback>,
    stale: bool,
    refreshDone: Option<Channel>)

  datatype Memory = Memory(
    entries: map<Config, EntryId>,
    heap: map<EntryId, Entry>,            // every entry ever created
    closed: bool,
    armed: map<Timer, Config>,            // timers that will fire, and what they refresh
    closedChannels: set<Channel>,
    next: nat)

  const INITIAL := Memory(map[], map[], false, map[], {}, 0)

  predicate Current(m: Memory, e: EntryId) {
    e in m.heap && m.heap[e].config in m.entries && m.entries[m.heap[e].config] == e
  }

  function NewEntry(config: Config): Entry {
    Entry(config, false, None, None, false, false, None, [], false, None)
  }

  function ReadyEntry(config: Config, catalog: Catalog): Entry {
    NewEntry(config).(ready := true, catalog := Some(catalog))
  }

  function Set(m: Memory, e: EntryId, entry: Entry): Memory {
    m.(heap := m.heap[e := entry])
  }

  /** entry.timer = time.AfterFunc(...) */
  function Arm(m: Memory, e: EntryId): Memory
    requires e in m.heap
  {
    m.(heap := m.heap[e := m.heap[e].(timer := Some(m.next))],
       armed := m.armed[m.next := m.heap[e].config],
       next := m.next + 1)
  }

  /** entry.refreshDone = make(chan struct{}), unless there is one. */
  function EnsureDone(m: Memory, e: EntryId): Memory
    requires e in m.heap
  {
    if m.heap[e].refreshDone.Some? then m
    else m.(heap := m.heap[e := m.heap[e].(refreshDone := Some(m.next))], next := m.next + 1)
  }

  /** Closes and forgets entry.refreshDone, if there is one. */
  function ReleaseDone(m: Memory, e: EntryId): Memory
    requires e in m.heap
  {
    match m.heap[e].refreshDone
    case None => m
    case Some(c) => m.(heap := m.heap[e := m.heap[e].(refreshDone := None)], closedChannels := m.closedChannels + {c})
  }

  // ---- Get ----

  function EntryForConfig(m: Memory, config: Config): (Memory, EntryId, bool) {
    if config in m.entries then (m, m.entries[config], false)
    else
      (m.(entries := m.entries[config := m.next], heap := m.heap[m.next := NewEntry(config)], next := m.next + 1),
       m.next, true)
  }

  predicate Cacheable(compiled: Compiled) {
    compiled.Success? && !compiled.catalog.pending
  }

  /** The creator stores its compile and opens the entry. */
  function PublishFirst(m: Memory, e: EntryId, compiled: Compiled): Memory
    requires e in m.heap
  {
    var config := m.heap[e].config;
    var entry := m.heap[e].(
      ready := true,
      catalog := if compiled.Success? then Some(compiled.catalog) else None,
      err := if compiled.Success? then None else Some(compiled.error));
    m.(heap := m.heap[e := entry],
       entries := if Current(m, e) && !Cacheable(compiled) then m.entries - {config} else m.entries)
  }

  /** A waiter stores the catalog that it compiled for itself. */
  function PublishOwn(m: Memory, config: Config, catalog: Catalog): Memory {
    if m.closed || catalog.pending || config in m.entries then m
    else
      m.(entries := m.entries[config := m.next],
         heap := m.heap[m.next := ReadyEntry(config, catalog)],
         next := m.next + 1)
  }

  datatype Waited = Answer(catalog: Option<Catalog>, err: Option<Error>) | Canceled | WaitFor(channel: Channel)

  /** The first section of waitForCatalog, on the entry that Get looked up. */
  function WaitSection(m: Memory, e: EntryId): (Memory, Waited)
    requires e in m.heap
  {
    var entry := m.heap[e];
    if entry.err.Some? || !entry.stale || !entry.config.toolSearch then (m, Answer(entry.catalog, entry.err))
    else if m.closed then (m, Canceled)
    else
      var m1 := EnsureDone(m, e);
      var m2 := if !entry.refreshing && entry.timer.None? then Arm(m1, e) else m1;
      (m2, WaitFor(m1.heap[e].refreshDone.value))
  }

  datatype Read = Unavailable | Found(catalog: Option<Catalog>, err: Option<Error>)

  /** The last section of waitForCatalog, on whichever entry is installed by then. */
  function ReadCurrent(m: Memory, config: Config): Read {
    if config !in m.entries || m.entries[config] !in m.heap || m.heap[m.entries[config]].stale then Unavailable
    else Found(m.heap[m.entries[config]].catalog, m.heap[m.entries[config]].err)
  }

  function Cached(m: Memory, config: Config): Option<Catalog> {
    if m.closed || config !in m.entries || m.entries[config] !in m.heap then None
    else
      var entry := m.heap[m.entries[config]];
      if entry.stale || entry.err.Some? || !entry.ready then None
      else if entry.catalog.Some? && !entry.catalog.value.pending then entry.catalog
      else None
  }

  // ---- Refresh ----

  datatype Begun = Stopped | MustAwaitReady(e: EntryId) | MustAwaitDone(e: EntryId, channel: Channel)
    | Proceed(target: Option<EntryId>)

  /** One pass of Refresh's loop for a search catalog. */
  function BeginRefresh(m: Memory, config: Config): (Memory, Begun) {
    if m.closed then (m, Stopped)
    else if config !in m.entries || m.entries[config] !in m.heap then (m, Proceed(None))
    else
      var e := m.entries[config];
      var entry := m.heap[e];
      if !entry.ready then (m, MustAwaitReady(e))
      else if entry.refreshDone.Some? then (m, MustAwaitDone(e, entry.refreshDone.value))
      else
        var m1 := EnsureDone(m, e);
        (Set(m1, e, m1.heap[e].(stale := true, refreshing := true)), Proceed(Some(e)))
  }

  /** Installs a successful snapshot and releases waiters once nothing is pending. */
  function FinishRefresh(m: Memory, e: EntryId, compiled: Compiled): Memory
    requires e in m.heap
  {
    var entry := m.heap[e];
    var stored := if compiled.Success? then entry.(catalog := Some(compiled.catalog), err := None) else entry;
    var settled := stored.(
      refreshing := false,
      pending := false,
      stale := if entry.config.toolSearch then entry.pending || compiled.Failure? else entry.stale);
    var m1 := Set(m, e, settled);
    var m2 := if entry.config.toolSearch && !entry.pending then ReleaseDone(m1, e) else m1;
    if entry.pending && !m.closed then Arm(m2, e) else m2
  }

  /** The end of an explicit refresh of a search entry. */
  function EndRefresh(m: Memory, e: EntryId, compiled: Compiled): Memory
    requires e in m.heap
  {
    if m.closed then m else FinishRefresh(m, e, compiled)
  }

  /** The end of any other explicit refresh: a success replaces the entry. */
  function ReplaceEntry(m: Memory, config: Config, compiled: Compiled): Memory {
    match compiled
    case Failure(_) =>
      if config.toolSearch && config in m.entries && m.entries[config] in m.heap
      then Set(m, m.entries[config], m.heap[m.entries[config]].(stale := true))
      else m
    case Success(catalog) =>
      var m' := m.(
        entries := m.entries[config := m.next],
        heap := m.heap[m.next := ReadyEntry(config, catalog)],
        next := m.next + 1);
      if config in m.entries && m.entries[config] in m.heap then ReleaseDone(m', m.entries[config]) else m'
  }

  // ---- Notifications and background refreshes ----

  function RequestRefresh(m: Memory, config: Config, callback: Option<Callback>): Memory {
    if m.closed || config !in m.entries || m.entries[config] !in m.heap then m
    else Schedule(MarkRequested(m, m.entries[config], callback), m.entries[config])
  }

  /** Records the callback and, for a search catalog, holds back the old snapshot. */
  function MarkRequested(m: Memory, e: EntryId, callback: Option<Callback>): Memory
    requires e in m.heap
  {
    var entry := m.heap[e];
    var called := if callback.Some? then entry.(callbacks := entry.callbacks + [callback.value]) else entry;
    if entry.config.toolSearch then EnsureDone(Set(m, e, called.(stale := true)), e) else Set(m, e, called)
  }

  /** Runs after the refresh in progress, or starts or restarts the debounce timer. */
  function Schedule(m: Memory, e: EntryId): Memory
    requires e in m.heap
  {
    var entry := m.heap[e];
    if entry.refreshing then Set(m, e, entry.(pending := true))
    else if entry.timer.None? then Arm(m, e)
    else m.(armed := m.armed[entry.timer.value := entry.config])
  }

  /** What a firing timer starts: the entry to refresh and its callbacks. */
  function BeginRerun(m: Memory, config: Config): (Memory, Option<(EntryId, seq<Callback>)>) {
    if m.closed || config !in m.entries || m.entries[config] !in m.heap then (m, None)
    else if m.heap[m.entries[config]].refreshing then (m, None)
    else
      var e := m.entries[config];
      (Set(m, e, m.heap[e].(timer := None, refreshing := true, pending := false, callbacks := [])),
       Some((e, m.heap[e].callbacks)))
  }

  function EndRerun(m: Memory, e: EntryId, compiled: Compiled): Memory
    requires e in m.heap
  {
    if !Current(m, e) then m else FinishRefresh(m, e, compiled)
  }

  // ---- Invalidation and shutdown ----

  predicate Invalidated(m: Memory, name: string, e: EntryId) {
    Current(m, e) && name in m.heap[e].config.servers
  }

  function Timers(m: Memory, name: string): set<Timer> {
    set e | e in m.heap && Invalidated(m, name, e) && m.heap[e].timer.Some? :: m.heap[e].timer.value
  }

  function Channels(m: Memory, name: string): set<Channel> {
    set e | e in m.heap && Invalidated(m, name, e) && m.heap[e].refreshDone.Some? :: m.heap[e].refreshDone.value
  }

  /** Stops the timers of the dropped entries without forgetting them. */
  function InvalidateComponent(m: Memory, name: string): Memory {
    m.(entries := map config | config in m.entries && name !in config.servers :: m.entries[config],
       heap := map e | e in m.heap :: if Invalidated(m, name, e) then m.heap[e].(refreshDone := None) else m.heap[e],
       armed := m.armed - Timers(m, name),
       closedChannels := m.closedChannels + Channels(m, name))
  }

  function Close(m: Memory): Memory {
    m.(closed := true,
       heap := map e | e in m.heap ::
         if Current(m, e) then m.heap[e].(refreshDone := None, timer := None) else m.heap[e],
       armed := m.armed - (set e | e in m.heap && Current(m, e) && m.heap[e].timer.Some? :: m.heap[e].timer.value),
       closedChannels := m.closedChannels +
         (set e | e in m.heap && Current(m, e) && m.heap[e].refreshDone.Some? :: m.heap[e].refreshDone.value))
  }
}

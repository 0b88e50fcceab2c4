/** All interleavings of catalog requests, refreshes, notifications, timers,
    invalidations and shutdown, with any compile results. */
module RegistryRuns {
  import opened Wrappers
  import opened RegistrySections

  type ThreadId = nat

  datatype Thread =
    | Idle
    | Creating(e: EntryId, began: nat)
    | AwaitReady(e: EntryId)                                         // Get, on entry.ready
    | AwaitDone(e: EntryId, channel: Channel, held: bool)            // Get, on refreshDone; `held`: e was installed
    | OwnCompiling(config: Config, began: nat)                       // Get, with its own credentials
    | BlockedReady(config: Config, e: EntryId)                       // Refresh, on entry.ready
    | BlockedDone(config: Config, e: EntryId, channel: Channel)      // Refresh, on refreshDone
    | Refreshing(config: Config, target: Option<EntryId>, began: nat)
    | Rerunning(e: EntryId, callbacks: seq<Callback>, began: nat)
    | Delivering(callbacks: seq<Callback>, success: bool, began: nat)

  datatype Delivery = Delivery(callback: Callback, success: bool, began: nat)

  /** Where a callback is: in its entry, with the background refresh that took it,
      or delivered. */
  datatype Place = InEntry(e: EntryId) | InThread(t: ThreadId) | Delivered

  /** How a Get ends: with a catalog or an error, with the catalog unavailable, by giving
      up, or by looking into a nil catalog. */
  datatype Reply = Served(catalog: Catalog) | Refused(error: Error) | NotAvailable | GaveUp | NilLookup

  datatype Got = Got(t: ThreadId, config: Config, reply: Reply)

  /** What is beyond `m` and `threads` only records the past. A callback is named by
      the time of its registration, and a compile by the time it started: `outcomes`
      says which of those that ended succeeded. `requested` is the time of the latest
      refresh request an entry has seen; `early` are the entries that saw one before
      they were ready; `touched` those that a request, a failed explicit refresh or a
      background refresh has dealt with. `disturbed` are the configurations for which
      some timer has outlived the entry that armed it; `invalidated` says when a
      component was last invalidated; `gets` lists every Get that has ended. */
  datatype System = System(
    m: Memory,
    threads: map<ThreadId, Thread>,
    clock: nat,
    requested: map<EntryId, nat>,
    early: set<EntryId>,
    touched: set<EntryId>,
    disturbed: set<Config>,
    invalidated: map<string, nat>,
    outcomes: map<nat, bool>,
    place: map<Callback, Place>,
    delivered: seq<Delivery>,
    gets: seq<Got>)

  datatype Action =
    | DoGet(t: ThreadId, config: Config)
    | DoCreated(t: ThreadId, compiled: Compiled)
    | DoAwaitReady(t: ThreadId)
    | DoAwaitDone(t: ThreadId)
    | DoOwnCompiled(t: ThreadId, compiled: Compiled)
    | DoCancel(t: ThreadId)
    | DoRefresh(t: ThreadId, config: Config)
    | DoRefreshed(t: ThreadId, compiled: Compiled)
    | DoRequest(t: ThreadId, config: Config, callback: bool)
    | DoFire(t: ThreadId, timer: Timer)
    | DoRerun(t: ThreadId, compiled: Compiled)
    | DoDeliver(t: ThreadId)
    | DoInvalidate(t: ThreadId, name: string)
    | DoClose(t: ThreadId)

  const START := System(INITIAL, map[], 0, map[], {}, {}, {}, map[], map[], map[], [], [])

  function At(s: System, t: ThreadId): Thread {
    if t in s.threads then s.threads[t] else Idle
  }

  function Put(s: System, t: ThreadId, thread: Thread): map<ThreadId, Thread> {
    s.threads[t := thread]
  }

  predicate FromCompile(compiled: Compiled, began: nat, deferAuthorization: bool) {
    compiled.Success? ==> compiled.catalog.began == began && (compiled.catalog.pending ==> deferAuthorization)
  }

  /** A Refresh may start or retry its loop. */
  predicate MayBegin(s: System, t: ThreadId, config: Config) {
    match At(s, t)
    case Idle => true
    case BlockedReady(c, e) => c == config && e in s.m.heap && s.m.heap[e].ready
    case BlockedDone(c, _, channel) => c == config && channel in s.m.closedChannels
    case _ => false
  }

  predicate Enabled(s: System, a: Action) {
    var thread := At(s, a.t);
    match a
    case DoGet(_, _) => thread.Idle?
    case DoCreated(_, compiled) =>
      thread.Creating? && thread.e in s.m.heap
        && FromCompile(compiled, thread.began, s.m.heap[thread.e].config.deferAuthorization)
    case DoAwaitReady(_) => thread.AwaitReady? && thread.e in s.m.heap && s.m.heap[thread.e].ready
    case DoAwaitDone(_) => thread.AwaitDone? && thread.e in s.m.heap && thread.channel in s.m.closedChannels
    case DoOwnCompiled(_, compiled) =>
      thread.OwnCompiling? && FromCompile(compiled, thread.began, thread.config.deferAuthorization)
    case DoCancel(_) => thread.AwaitReady? || thread.AwaitDone? || thread.BlockedReady? || thread.BlockedDone?
    case DoRefresh(t, config) => MayBegin(s, t, config)
    case DoRefreshed(_, compiled) =>
      thread.Refreshing? && (thread.target.Some? ==> thread.target.value in s.m.heap)
        && FromCompile(compiled, thread.began, false)
    case DoRequest(_, _, _) => thread.Idle?
    case DoFire(_, timer) => thread.Idle? && timer in s.m.armed
    case DoRerun(_, compiled) => thread.Rerunning? && thread.e in s.m.heap && FromCompile(compiled, thread.began, false)
    case DoDeliver(_) => thread.Delivering?
    case DoInvalidate(_, _) => thread.Idle?
    case DoClose(_) => thread.Idle?
  }

  // ---- The step of each thread, and of the memory ----

  function NextMemory(s: System, a: Action): Memory
    requires Enabled(s, a)
  {
    var thread := At(s, a.t);
    match a
    case DoGet(_, config) => EntryForConfig(s.m, config).0
    case DoCreated(_, compiled) => PublishFirst(s.m, thread.e, compiled)
    case DoAwaitReady(_) => WaitSection(s.m, thread.e).0
    case DoOwnCompiled(_, compiled) =>
      if compiled.Success? then PublishOwn(s.m, thread.config, compiled.catalog) else s.m
    case DoRefresh(_, config) => if config.toolSearch then BeginRefresh(s.m, config).0 else s.m
    case DoRefreshed(_, compiled) =>
      if thread.target.Some? then EndRefresh(s.m, thread.target.value, compiled)
      else ReplaceEntry(s.m, thread.config, compiled)
    case DoRequest(_, config, callback) => RequestRefresh(s.m, config, if callback then Some(s.clock) else None)
    case DoFire(_, timer) => BeginRerun(s.m.(armed := s.m.armed - {timer}), s.m.armed[timer]).0
    case DoRerun(_, compiled) => EndRerun(s.m, thread.e, compiled)
    case DoInvalidate(_, name) => InvalidateComponent(s.m, name)
    case DoClose(_) => Close(s.m)
    case _ => s.m
  }

  /** Another request's credentials were not enough: the Get compiles with its own. */
  predicate Retries(catalog: Option<Catalog>, err: Option<Error>) {
    err == Some(Unauthorized) || (err.None? && catalog.Some? && catalog.value.pending)
  }

  function AfterWait(s: System, e: EntryId, waited: Waited, config: Config): Thread {
    match waited
    case WaitFor(c) => AwaitDone(e, c, Current(s.m, e))
    case Answer(catalog, err) => if Retries(catalog, err) then OwnCompiling(config, s.clock) else Idle
    case Canceled => Idle
  }

  function AfterRead(s: System, read: Read, config: Config): Thread {
    if read.Found? && Retries(read.catalog, read.err) then OwnCompiling(config, s.clock) else Idle
  }

  function NextThread(s: System, a: Action): Thread
    requires Enabled(s, a)
  {
    var thread := At(s, a.t);
    match a
    case DoGet(_, config) =>
      var (_, e, created) := EntryForConfig(s.m, config);
      if created then Creating(e, s.clock) else AwaitReady(e)
    case DoAwaitReady(_) => AfterWait(s, thread.e, WaitSection(s.m, thread.e).1, s.m.heap[thread.e].config)
    case DoAwaitDone(_) =>
      AfterRead(s, ReadCurrent(s.m, s.m.heap[thread.e].config), s.m.heap[thread.e].config)
    case DoRefresh(_, config) =>
      if !config.toolSearch then Refreshing(config, None, s.clock)
      else
        (match BeginRefresh(s.m, config).1
         case Stopped => Idle
         case MustAwaitReady(e) => BlockedReady(config, e)
         case MustAwaitDone(e, c) => BlockedDone(config, e, c)
         case Proceed(target) => Refreshing(config, target, s.clock))
    case DoFire(_, timer) =>
      (match BeginRerun(s.m, s.m.armed[timer]).1
       case None => Idle
       case Some((e, callbacks)) => Rerunning(e, callbacks, s.clock))
    case DoRerun(_, compiled) => Delivering(thread.callbacks, compiled.Success?, thread.began)
    case DoDeliver(_) => if |thread.callbacks| <= 1 then Idle else thread.(callbacks := thread.callbacks[1..])
    case _ => Idle
  }

  // ---- The record of the past ----

  /** The entry that this action asks to refresh. */
  function Asked(s: System, a: Action): Option<EntryId>
    requires Enabled(s, a)
  {
    match a
    case DoRequest(_, config, _) => if !s.m.closed && config in s.m.entries then Some(s.m.entries[config]) else None
    case DoRefresh(_, config) =>
      if config.toolSearch && BeginRefresh(s.m, config).1.Proceed? then BeginRefresh(s.m, config).1.target else None
    case _ => None
  }

  /** The thread is compiling; all it can do is to end that. */
  predicate Compiles(thread: Thread) {
    thread.Creating? || thread.OwnCompiling? || thread.Refreshing? || thread.Rerunning?
  }

  /** The entry that this action deals with in one of the ways that `touched` lists. */
  function Touched(s: System, a: Action): set<EntryId>
    requires Enabled(s, a)
  {
    var thread := At(s, a.t);
    match a
    case DoRefreshed(_, Failure(_)) =>
      if thread.target.None? && thread.config.toolSearch && thread.config in s.m.entries
      then {s.m.entries[thread.config]} else {}
    case DoRerun(_, _) => if Current(s.m, thread.e) then {thread.e} else {}
    case _ => if Asked(s, a).Some? then {Asked(s, a).value} else {}
  }

  /** Configurations with an armed timer that is not their installed entry's. */
  function Orphaned(m: Memory): set<Config> {
    set timer | timer in m.armed && !OwnTimer(m, timer) :: m.armed[timer]
  }

  predicate OwnTimer(m: Memory, timer: Timer)
    requires timer in m.armed
  {
    var config := m.armed[timer];
    config in m.entries && m.entries[config] in m.heap && m.heap[m.entries[config]].timer == Some(timer)
  }

  function NextPlace(s: System, a: Action): map<Callback, Place>
    requires Enabled(s, a)
  {
    var thread := At(s, a.t);
    match a
    case DoRequest(_, _, callback) =>
      if callback && Asked(s, a).Some? then s.place[s.clock := InEntry(Asked(s, a).value)] else s.place
    case DoFire(t, timer) =>
      (match BeginRerun(s.m, s.m.armed[timer]).1
       case None => s.place
       case Some((_, callbacks)) => map c | c in s.place :: if c in callbacks then InThread(t) else s.place[c])
    case DoDeliver(_) => if |thread.callbacks| > 0 then s.place[thread.callbacks[0] := Delivered] else s.place
    case _ => s.place
  }

  function NextDelivered(s: System, a: Action): seq<Delivery>
    requires Enabled(s, a)
  {
    var thread := At(s, a.t);
    if a.DoDeliver? && |thread.callbacks| > 0
    then s.delivered + [Delivery(thread.callbacks[0], thread.success, thread.began)]
    else s.delivered
  }

  function ReplyOf(catalog: Option<Catalog>, err: Option<Error>): Reply {
    if err.Some? then Refused(err.value) else if catalog.Some? then Served(catalog.value) else NilLookup
  }

  function CompiledReply(compiled: Compiled): Reply {
    match compiled
    case Success(catalog) => Served(catalog)
    case Failure(error) => Refused(error)
  }

  /** How the actor's Get ends with this action, if it does. */
  function NextReply(s: System, a: Action): Option<Reply>
    requires Enabled(s, a)
  {
    var thread := At(s, a.t);
    match a
    case DoCreated(_, compiled) => Some(CompiledReply(compiled))
    case DoOwnCompiled(_, compiled) => Some(CompiledReply(compiled))
    case DoAwaitReady(_) =>
      (match WaitSection(s.m, thread.e).1
       case WaitFor(_) => None
       case Canceled => Some(GaveUp)
       case Answer(catalog, err) => if Retries(catalog, err) then None else Some(ReplyOf(catalog, err)))
    case DoAwaitDone(_) =>
      (match ReadCurrent(s.m, s.m.heap[thread.e].config)
       case Unavailable => Some(NotAvailable)
       case Found(catalog, err) => if Retries(catalog, err) then None else Some(ReplyOf(catalog, err)))
    case DoCancel(_) => if thread.AwaitReady? || thread.AwaitDone? then Some(GaveUp) else None
    case _ => None
  }

  /** The configuration that the actor's Get asks for. */
  function Wanted(s: System, a: Action): Config
    requires Enabled(s, a) && NextReply(s, a).Some?
  {
    var thread := At(s, a.t);
    if thread.OwnCompiling? then thread.config
    else if thread.e in s.m.heap then s.m.heap[thread.e].config
    else Config(0, false, false, {})
  }

  function NextGets(s: System, a: Action): seq<Got>
    requires Enabled(s, a)
  {
    match NextReply(s, a)
    case None => s.gets
    case Some(reply) => s.gets + [Got(a.t, Wanted(s, a), reply)]
  }

  function Next(s: System, a: Action): System
    requires Enabled(s, a)
  {
    var m := NextMemory(s, a);
    System(
      m,
      Put(s, a.t, NextThread(s, a)),
      s.clock + 1,
      match Asked(s, a) case None => s.requested case Some(e) => s.requested[e := s.clock],
      match Asked(s, a)
      case None => s.early
      case Some(e) => if e in s.m.heap && !s.m.heap[e].ready then s.early + {e} else s.early,
      s.touched + Touched(s, a),
      s.disturbed + Orphaned(m),
      if a.DoInvalidate? then s.invalidated[a.name := s.clock] else s.invalidated,
      if Compiles(At(s, a.t)) then s.outcomes[At(s, a.t).began := a.compiled.Success?] else s.outcomes,
      NextPlace(s, a),
      NextDelivered(s, a),
      NextGets(s, a))
  }

  function Run(actions: seq<Action>): System {
    if |actions| == 0 then START
    else
      var s := Run(actions[..|actions| - 1]);
      var a := actions[|actions| - 1];
      if Enabled(s, a) then Next(s, a) else s
  }

  ghost predicate OthersStay(s: System, s': System, t: ThreadId) {
    forall u :: u != t ==> At(s', u) == At(s, u)
  }

  lemma OnlyActorMoves(s: System, a: Action)
    requires Enabled(s, a)
    ensures OthersStay(s, Next(s, a), a.t) && At(Next(s, a), a.t) == NextThread(s, a)
  {
  }
}

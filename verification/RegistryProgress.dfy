/** What the work under way does for a wait on an installed entry: when it can close the
    channel without shutdown, invalidation or a new request. */
module RegistryProgress {
  import opened Wrappers
  import opened RegistrySections
  import opened RegistryMemory
  import opened RegistryRuns
  import opened RegistryThreads
  import opened RegistryFreshness
  import opened RegistryWaits
  import opened RegistryInvalidation
  import opened RegistryAging

  /** A ready search entry is installed in the open registry, and its channel is `c`. */
  predicate Awaits(m: Memory, e: EntryId, c: Channel) {
    && Current(m, e) && !m.closed && m.heap[e].config.toolSearch && m.heap[e].ready
    && m.heap[e].refreshDone == Some(c)
  }

  // ---- What is under way ----

  /** Some timer, the entry's own or not, will refresh the configuration. */
  predicate SomeTimer(m: Memory, config: Config) {
    exists timer :: timer in m.armed && m.armed[timer] == config
  }

  predicate Replaces(thread: Thread, config: Config) {
    thread.Refreshing? && thread.target.None? && thread.config == config
  }

  /** An explicit refresh that will replace whatever is installed. */
  ghost predicate SomeReplacement(s: System, config: Config) {
    exists t :: Replaces(At(s, t), config)
  }

  /** An entry of the configuration that is out of the table. */
  predicate Dropped(m: Memory, f: EntryId, config: Config) {
    f in m.heap && m.heap[f].config == config && !Current(m, f)
  }

  /** An explicit refresh of a dropped entry will pass its pending notification on. */
  predicate PassesOn(s: System, t: ThreadId, f: EntryId, config: Config) {
    Refreshes(At(s, t), f) && Dropped(s.m, f, config) && s.m.heap[f].pending
  }

  ghost predicate SomePassedOn(s: System, config: Config) {
    exists t, f :: PassesOn(s, t, f, config)
  }

  ghost predicate Refreshed(s: System, f: EntryId) {
    exists t :: Refreshes(At(s, t), f)
  }

  /** A Get that waited for `f` to become ready may arm a timer for it: at once, once its
      creator is done, or once an explicit refresh of it has failed. */
  ghost predicate Rearms(s: System, f: EntryId)
    requires f in s.m.heap
  {
    var entry := s.m.heap[f];
    && entry.timer.None?
    && ((entry.stale && !entry.refreshing) || Refreshed(s, f))
    && (entry.ready ==> entry.err.None?)
  }

  ghost predicate LateGet(s: System, t: ThreadId, f: EntryId, config: Config) {
    At(s, t) == AwaitReady(f) && Dropped(s.m, f, config) && Rearms(s, f)
  }

  ghost predicate SomeLateGet(s: System, config: Config) {
    exists t, f :: LateGet(s, t, f, config)
  }

  /** Something is under way that can close the channel of `e`. */
  ghost predicate Moving(s: System, e: EntryId)
    requires e in s.m.heap
  {
    var config := s.m.heap[e].config;
    || InFlight(s, e) || SomeTimer(s.m, config) || SomeReplacement(s, config)
    || SomePassedOn(s, config) || SomeLateGet(s, config)
  }

  /** Neither shutdown, nor invalidation, nor a new notification. */
  predicate Ordinary(a: Action) {
    !a.DoClose? && !a.DoInvalidate? && !a.DoRequest?
  }

  predicate AllOrdinary(after: seq<Action>) {
    forall a :: a in after ==> Ordinary(a)
  }

  // ---- An explicit refresh is of an entry without error ----

  ghost predicate SoundFlights(s: System) {
    forall t, f :: Refreshes(At(s, t), f) ==> f in s.m.heap && s.m.heap[f].ready && s.m.heap[f].err.None?
  }

  lemma SoundKept(s: System, a: Action)
    requires MemInv(s.m) && ThreadInv(s) && SoundFlights(s) && Enabled(s, a)
    ensures SoundFlights(Next(s, a))
  {
    hide Next, NextMemory, NextThread, MemInv, ThreadInv, Creates, Concludes, Asked, FailsBeside, HoldsBack;
    OnlyActorMoves(s, a);
    NextHasMemory(s, a);
    StepSteady(s, a);
    forall t, f | Refreshes(At(Next(s, a), t), f)
      ensures f in Next(s, a).m.heap && Next(s, a).m.heap[f].ready && Next(s, a).m.heap[f].err.None?
    {
      if t == a.t {
        StartSound(s, a, f);
      } else {
        assert At(Next(s, a), t) == At(s, t);
        SearchFlight(s, t, f);
      }
      assert Steady(s.m, NextMemory(s, a), f);
      StepServes(s, a, f);
      OneRole(s, a, f);
    }
  }

  lemma SearchFlight(s: System, t: ThreadId, f: EntryId)
    requires ThreadInv(s) && Refreshes(At(s, t), f)
    ensures f in s.m.heap && s.m.heap[f].config.toolSearch
  {
    assert Grounded(s.m, s.clock, At(s, t));
  }

  lemma StartSound(s: System, a: Action, f: EntryId)
    requires MemInv(s.m) && ThreadInv(s) && Enabled(s, a) && Refreshes(NextThread(s, a), f)
    ensures f in s.m.heap && s.m.heap[f].ready && s.m.heap[f].err.None? && s.m.heap[f].config.toolSearch
  {
  }

  lemma {:induction false} RunSound(actions: seq<Action>)
    ensures SoundFlights(Run(actions))
  {
    if |actions| > 0 {
      var s, a := Run(actions[..|actions| - 1]), actions[|actions| - 1];
      RunSound(actions[..|actions| - 1]);
      RunInv(actions[..|actions| - 1]);
      if Enabled(s, a) { SoundKept(s, a); }
    }
  }

  // ---- Nothing starts to move by itself ----

  ghost predicate Stuck(s: System, e: EntryId, c: Channel) {
    Awaits(s.m, e, c) && !Moving(s, e)
  }

  /** What a dropped entry may become in an ordinary step other than the end of its own
      explicit refresh. */
  lemma DroppedRests(s: System, a: Action, f: EntryId)
    requires MemInv(s.m) && ThreadInv(s) && Enabled(s, a) && Ordinary(a) && f in s.m.heap && !Current(s.m, f)
    requires !(a.DoRefreshed? && Refreshes(At(s, a.t), f))
    ensures f in NextMemory(s, a).heap
    ensures var entry, entry' := s.m.heap[f], NextMemory(s, a).heap[f];
      && entry'.stale == entry.stale && entry'.refreshing == entry.refreshing && entry'.pending == entry.pending
      && (entry'.timer.None? ==> entry.timer.None?) && (entry.ready ==> entry'.ready && entry'.err == entry.err)
  {
    if Focus(s, a) != Some(f) {
      StepLocal(s, a);
      hide NextMemory;
      assert Same(s.m, NextMemory(s, a), f);
    } else {
      assert Grounded(s.m, s.clock, At(s, a.t));
      if a.DoAwaitReady? { WaitRests(s.m, f); }
      hide FinishRefresh, RequestRefresh, ReplaceEntry, BeginRerun, BeginRefresh, WaitSection, CacheInv, ThreadInv;
    }
  }

  lemma WaitRests(m: Memory, f: EntryId)
    requires f in m.heap
    ensures f in WaitSection(m, f).0.heap
    ensures var entry, entry' := m.heap[f], WaitSection(m, f).0.heap[f];
      && entry'.stale == entry.stale && entry'.refreshing == entry.refreshing && entry'.pending == entry.pending
      && (entry'.timer.None? ==> entry.timer.None?) && entry'.ready == entry.ready && entry'.err == entry.err
  {
  }

  lemma DroppedEnds(s: System, a: Action, f: EntryId)
    requires Enabled(s, a) && a.DoRefreshed? && Refreshes(At(s, a.t), f) && f in s.m.heap
    ensures f in NextMemory(s, a).heap
    ensures var entry, entry' := s.m.heap[f], NextMemory(s, a).heap[f];
      (entry'.pending ==> entry.pending) && (entry'.timer.None? ==> entry.timer.None?)
  {
  }

  lemma StuckTimer(s: System, e: EntryId, c: Channel)
    requires TimedInv(s.m) && SupervisedInv(s) && Stuck(s, e, c)
    ensures s.m.heap[e].timer.Some?
  {
    assert Awaited(s.m, e);
  }

  lemma StuckEntry(s: System, a: Action, e: EntryId, c: Channel)
    requires MemInv(s.m) && ThreadInv(s) && TimedInv(s.m) && SupervisedInv(s)
    requires Enabled(s, a) && Ordinary(a) && Stuck(s, e, c)
    ensures Awaits(NextMemory(s, a), e, c) && NextMemory(s, a).heap[e].config == s.m.heap[e].config
    ensures !Flies(NextThread(s, a), e)
  {
    StuckTimer(s, e, c);
    if Focus(s, a) != Some(e) {
      ActorFliesAtFocus(s, a, e);
      StepLocal(s, a);
      hide NextMemory, NextThread;
      assert Same(s.m, NextMemory(s, a), e);
    } else {
      StuckFocus(s, a, e, c);
    }
  }

  lemma StuckFocus(s: System, a: Action, e: EntryId, c: Channel)
    requires CacheInv(s.m) && ThreadInv(s) && Enabled(s, a) && Ordinary(a) && Focus(s, a) == Some(e)
    requires Stuck(s, e, c) && s.m.heap[e].timer.Some?
    ensures NextMemory(s, a) == s.m && !Flies(NextThread(s, a), e)
  {
    assert Grounded(s.m, s.clock, At(s, a.t));
    assert !Flies(At(s, a.t), e);
    hide FinishRefresh, RequestRefresh, ReplaceEntry, PublishFirst, BeginRerun;
    assert !SomeTimer(s.m, s.m.heap[e].config) && !Replaces(At(s, a.t), s.m.heap[e].config);
  }

  lemma NoNewTimer(s: System, a: Action, e: EntryId, c: Channel, timer: Timer)
    requires CacheInv(s.m) && ThreadInv(s) && Enabled(s, a) && Ordinary(a) && Stuck(s, e, c) && s.m.heap[e].timer.Some?
    requires timer in NextMemory(s, a).armed && NextMemory(s, a).armed[timer] == s.m.heap[e].config
    ensures timer in s.m.armed && s.m.armed[timer] == s.m.heap[e].config
  {
    assert Grounded(s.m, s.clock, At(s, a.t));
    assert !Flies(At(s, a.t), e);
    match a
    case DoAwaitReady(_) => LookArms(s, a, e, c, timer);
    case DoRefreshed(_, _) => EndArms(s, a, e, c, timer);
    case _ => hide WaitSection, RequestRefresh, Moving, ThreadInv;
  }

  lemma EndArms(s: System, a: Action, e: EntryId, c: Channel, timer: Timer)
    requires CacheInv(s.m) && ThreadInv(s) && Enabled(s, a) && a.DoRefreshed?
    requires Stuck(s, e, c) && s.m.heap[e].timer.Some?
    requires timer in NextMemory(s, a).armed && NextMemory(s, a).armed[timer] == s.m.heap[e].config
    ensures timer in s.m.armed && s.m.armed[timer] == s.m.heap[e].config
  {
    assert Grounded(s.m, s.clock, At(s, a.t)) && !Flies(At(s, a.t), e);
    if At(s, a.t).target.Some? { assert !PassesOn(s, a.t, At(s, a.t).target.value, s.m.heap[e].config); }
  }

  lemma LookArms(s: System, a: Action, e: EntryId, c: Channel, timer: Timer)
    requires CacheInv(s.m) && ThreadInv(s) && Enabled(s, a) && a.DoAwaitReady?
    requires Stuck(s, e, c) && s.m.heap[e].timer.Some?
    requires timer in NextMemory(s, a).armed && NextMemory(s, a).armed[timer] == s.m.heap[e].config
    ensures timer in s.m.armed && s.m.armed[timer] == s.m.heap[e].config
  {
    assert !LateGet(s, a.t, At(s, a.t).e, s.m.heap[e].config);
  }

  lemma NoNewThread(s: System, a: Action, e: EntryId, c: Channel)
    requires CacheInv(s.m) && Enabled(s, a) && Awaits(s.m, e, c)
    ensures !Replaces(NextThread(s, a), s.m.heap[e].config)
    ensures forall f :: Refreshes(NextThread(s, a), f) || NextThread(s, a) == AwaitReady(f) ==>
      Current(s.m, f) && (Refreshes(NextThread(s, a), f) ==> f != e)
  {
  }

  lemma NoMoreMoving(s: System, a: Action, e: EntryId, c: Channel)
    requires MemInv(s.m) && ThreadInv(s) && SoundFlights(s) && Enabled(s, a) && Ordinary(a)
    requires Stuck(s, e, c) && s.m.heap[e].timer.Some?
    requires Awaits(NextMemory(s, a), e, c) && NextMemory(s, a).heap[e].config == s.m.heap[e].config
    requires !Flies(NextThread(s, a), e)
    ensures !Moving(Next(s, a), e)
  {
    OnlyActorMoves(s, a);
    NextHasMemory(s, a);
    NoNewThread(s, a, e, c);
    var s', config := Next(s, a), s.m.heap[e].config;
    hide Next, NextMemory, NextThread, PassesOn, LateGet;
    assert !InFlight(s', e) by {
      if t :| Flies(At(s', t), e) { assert At(s', t) == At(s, t); }
    }
    if timer :| timer in s'.m.armed && s'.m.armed[timer] == config { NoNewTimer(s, a, e, c, timer); }
    assert !SomeReplacement(s', config) by {
      if t :| Replaces(At(s', t), config) { assert At(s', t) == At(s, t); }
    }
    if t, f :| PassesOn(s', t, f, config) { NonePassedOn(s, a, e, c, t, f); }
    if t, f :| LateGet(s', t, f, config) { NoLateGet(s, a, e, c, t, f); }
  }

  /** An entry dropped afterwards was dropped before, as `e` holds the place. */
  lemma WasDropped(s: System, a: Action, e: EntryId, c: Channel, f: EntryId)
    requires MemInv(s.m) && ThreadInv(s) && Enabled(s, a) && Awaits(s.m, e, c) && Current(NextMemory(s, a), e)
    requires NextMemory(s, a).heap[e].config == s.m.heap[e].config
    requires f in s.m.heap && Dropped(NextMemory(s, a), f, s.m.heap[e].config)
    ensures Dropped(s.m, f, s.m.heap[e].config)
  {
    StepSteady(s, a);
    hide NextMemory;
    assert Steady(s.m, NextMemory(s, a), f);
  }

  lemma NonePassedOn(s: System, a: Action, e: EntryId, c: Channel, t: ThreadId, f: EntryId)
    requires MemInv(s.m) && ThreadInv(s) && Enabled(s, a) && Ordinary(a) && Stuck(s, e, c)
    requires Awaits(NextMemory(s, a), e, c) && NextMemory(s, a).heap[e].config == s.m.heap[e].config
    ensures !PassesOn(Next(s, a), t, f, s.m.heap[e].config)
  {
    OnlyActorMoves(s, a);
    NextHasMemory(s, a);
    NoNewThread(s, a, e, c);
    StuckPassesNone(s, e, c, t, f);
    StepSteady(s, a);
    hide Next, NextMemory, NextThread, MemInv, Moving;
    if PassesOn(Next(s, a), t, f, s.m.heap[e].config) {
      SameThread(s, a, e, t, f);
      WasDropped(s, a, e, c, f);
      if a.DoRefreshed? && Refreshes(At(s, a.t), f) { DroppedEnds(s, a, f); } else { DroppedRests(s, a, f); }
    }
  }

  /** Who works on or looks at a dropped entry did so before. */
  lemma SameThread(s: System, a: Action, e: EntryId, t: ThreadId, f: EntryId)
    requires ThreadInv(s) && Enabled(s, a) && Current(NextMemory(s, a), e)
    requires forall g :: g in s.m.heap ==> Steady(s.m, NextMemory(s, a), g)
    requires forall g :: Refreshes(NextThread(s, a), g) || NextThread(s, a) == AwaitReady(g) ==> Current(s.m, g)
    requires Current(s.m, e) && Dropped(Next(s, a).m, f, s.m.heap[e].config)
    requires Refreshes(At(Next(s, a), t), f) || At(Next(s, a), t) == AwaitReady(f)
    ensures At(s, t) == At(Next(s, a), t) && f in s.m.heap
  {
    hide Next, NextMemory, NextThread, Enabled, ThreadInv, Steady;
    OnlyActorMoves(s, a);
    NextHasMemory(s, a);
    if t == a.t {
      HoldsPlace(s.m, NextMemory(s, a), e, f);
    } else {
      WasThere(s, t, f);
    }
  }

  lemma WasThere(s: System, t: ThreadId, f: EntryId)
    requires ThreadInv(s) && (Refreshes(At(s, t), f) || At(s, t) == AwaitReady(f))
    ensures f in s.m.heap
  {
    assert Grounded(s.m, s.clock, At(s, t));
  }

  lemma HoldsPlace(m: Memory, m': Memory, e: EntryId, f: EntryId)
    requires Current(m, e) && Current(m', e) && Current(m, f) && Steady(m, m', f)
    ensures !Dropped(m', f, m.heap[e].config)
  {
  }

  lemma NoLateGet(s: System, a: Action, e: EntryId, c: Channel, t: ThreadId, f: EntryId)
    requires MemInv(s.m) && ThreadInv(s) && SoundFlights(s) && Enabled(s, a) && Ordinary(a) && Stuck(s, e, c)
    requires Awaits(NextMemory(s, a), e, c) && NextMemory(s, a).heap[e].config == s.m.heap[e].config
    ensures !LateGet(Next(s, a), t, f, s.m.heap[e].config)
  {
    OnlyActorMoves(s, a);
    NextHasMemory(s, a);
    NoNewThread(s, a, e, c);
    StuckPassesNone(s, e, c, t, f);
    StepSteady(s, a);
    hide Next, NextMemory, NextThread, MemInv, Moving;
    if LateGet(Next(s, a), t, f, s.m.heap[e].config) {
      SameThread(s, a, e, t, f);
      WasDropped(s, a, e, c, f);
      if a.DoRefreshed? && Refreshes(At(s, a.t), f) {
        DroppedEnds(s, a, f);
      } else {
        DroppedRests(s, a, f);
        if u :| Refreshes(At(Next(s, a), u), f) { SameThread(s, a, e, u, f); }
      }
    }
  }

  lemma StuckPassesNone(s: System, e: EntryId, c: Channel, t: ThreadId, f: EntryId)
    requires Stuck(s, e, c)
    ensures !PassesOn(s, t, f, s.m.heap[e].config) && !LateGet(s, t, f, s.m.heap[e].config)
  {
  }

  /** As long as nobody shuts down, invalidates or asks anew, what is stuck stays so. */
  lemma StuckStays(s: System, a: Action, e: EntryId, c: Channel)
    requires MemInv(s.m) && ThreadInv(s) && TimedInv(s.m) && SupervisedInv(s) && SoundFlights(s)
    requires Enabled(s, a) && Ordinary(a) && Stuck(s, e, c)
    ensures Stuck(Next(s, a), e, c)
  {
    StuckEntry(s, a, e, c);
    NextHasMemory(s, a);
    StuckTimer(s, e, c);
    hide Next, NextMemory, NextThread, MemInv, ThreadInv, Moving;
    NoMoreMoving(s, a, e, c);
  }

  lemma {:induction false} StuckForGood(before: seq<Action>, after: seq<Action>, e: EntryId, c: Channel)
    requires Stuck(Run(before), e, c) && AllOrdinary(after)
    ensures Stuck(Run(before + after), e, c) && c !in Run(before + after).m.closedChannels
    decreases |after|
  {
    hide Stuck, Run;
    if |after| == 0 {
      assert before + after == before;
    } else {
      var init, last := after[..|after| - 1], after[|after| - 1];
      StuckForGood(before, init, e, c);
      assert before + after == before + init + [last];
      StuckOneMore(before + init, last, e, c);
    }
    StuckOpen(before + after, e, c);
  }

  lemma StuckOneMore(actions: seq<Action>, a: Action, e: EntryId, c: Channel)
    requires Stuck(Run(actions), e, c) && Ordinary(a)
    ensures Stuck(Run(actions + [a]), e, c)
  {
    hide Stuck;
    RunInv(actions);
    RunTimed(actions);
    RunSound(actions);
    RunOneMore(actions, a);
    if Enabled(Run(actions), a) { StuckStays(Run(actions), a, e, c); }
  }

  lemma StuckOpen(actions: seq<Action>, e: EntryId, c: Channel)
    requires Stuck(Run(actions), e, c)
    ensures c !in Run(actions).m.closedChannels
  {
    RunInv(actions);
  }

  // ---- What moves closes the channel ----

  /** How the compile that began at that time ends. */
  function Outcome(ends: nat -> bool, began: nat): Compiled {
    if ends(began) then Success(Catalog(false, began)) else Failure(Failed)
  }

  /** A timer that fires, or a refresh that ends as `ends` says. */
  predicate Works(s: System, a: Action, ends: nat -> bool) {
    && Enabled(s, a)
    && (a.DoFire? || ((a.DoRerun? || a.DoRefreshed?) && a.compiled == Outcome(ends, At(s, a.t).began)))
  }

  predicate AllWork(s: System, after: seq<Action>, ends: nat -> bool)
    decreases |after|
  {
    |after| == 0 || (Works(s, after[0], ends) && AllWork(Next(s, after[0]), after[1..], ends))
  }

  /** The entry's channel is closed, or still open with a timer armed and no refresh
      marked as under way. */
  predicate Passed(m: Memory, e: EntryId, c: Channel, config: Config) {
    c in m.closedChannels
    || (Awaits(m, e, c) && m.heap[e].config == config && SomeTimer(m, config) && !m.heap[e].refreshing)
  }

  /** The end of a refresh closes the channel, or passes a pending notification on. */
  lemma FlightStep(s: System, t: ThreadId, e: EntryId, c: Channel, ends: nat -> bool) returns (a: Action)
    requires Flies(At(s, t), e) && Awaits(s.m, e, c)
    ensures Works(s, a, ends)
    ensures if s.m.heap[e].pending then Passed(NextMemory(s, a), e, c, s.m.heap[e].config)
      else c in NextMemory(s, a).closedChannels
  {
    var compiled := Outcome(ends, At(s, t).began);
    a := if At(s, t).Rerunning? then DoRerun(t, compiled) else DoRefreshed(t, compiled);
    FinishPasses(s.m, e, c, compiled);
    hide FinishRefresh;
  }

  lemma FinishPasses(m: Memory, e: EntryId, c: Channel, compiled: Compiled)
    requires Awaits(m, e, c)
    ensures var m' := FinishRefresh(m, e, compiled);
      if m.heap[e].pending then Passed(m', e, c, m.heap[e].config) else c in m'.closedChannels
  {
    var m' := FinishRefresh(m, e, compiled);
    if m.heap[e].pending { assert m'.armed[m'.heap[e].timer.value] == m.heap[e].config; }
  }

  /** A timer that fires starts a refresh with nothing pending. */
  lemma FireStep(s: System, timer: Timer, e: EntryId, c: Channel) returns (a: Action)
    requires Awaits(s.m, e, c) && timer in s.m.armed && s.m.armed[timer] == s.m.heap[e].config
    requires !s.m.heap[e].refreshing
    ensures Enabled(s, a) && a.DoFire? && Flies(NextThread(s, a), e)
    ensures Awaits(NextMemory(s, a), e, c) && !NextMemory(s, a).heap[e].pending
  {
    var t := Bounded(s.threads.Keys);
    assert At(s, t) == Idle;
    a := DoFire(t, timer);
  }

  lemma FireReleases(actions: seq<Action>, e: EntryId, c: Channel, ends: nat -> bool) returns (after: seq<Action>)
    requires var m := Run(actions).m; Awaits(m, e, c) && SomeTimer(m, m.heap[e].config) && !m.heap[e].refreshing
    ensures AllWork(Run(actions), after, ends) && c in Run(actions + after).m.closedChannels
  {
    hide Run, Next, NextMemory, NextThread;
    var s := Run(actions);
    var timer :| timer in s.m.armed && s.m.armed[timer] == s.m.heap[e].config;
    var a := FireStep(s, timer, e, c);
    RunOneMore(actions, a);
    NextHasMemory(s, a);
    OnlyActorMoves(s, a);
    var b := FlightStep(Next(s, a), a.t, e, c, ends);
    RunOneMore(actions + [a], b);
    NextHasMemory(Next(s, a), b);
    after := [a, b];
    assert AllWork(Next(s, a), [b], ends) && after[1..] == [b];
    assert actions + after == actions + [a] + [b];
  }

  lemma FlightReleases(actions: seq<Action>, e: EntryId, c: Channel, ends: nat -> bool) returns (after: seq<Action>)
    requires Awaits(Run(actions).m, e, c) && InFlight(Run(actions), e)
    ensures AllWork(Run(actions), after, ends) && c in Run(actions + after).m.closedChannels
  {
    hide Run, Next, NextMemory, NextThread;
    var s := Run(actions);
    var t :| Flies(At(s, t), e);
    var a := FlightStep(s, t, e, c, ends);
    RunOneMore(actions, a);
    NextHasMemory(s, a);
    if c in Next(s, a).m.closedChannels {
      after := [a];
      assert after[1..] == [];
    } else {
      var rest := FireReleases(actions + [a], e, c, ends);
      after := [a] + rest;
      assert after[1..] == rest;
      assert actions + after == actions + [a] + rest;
    }
  }

  /** Main result. What is under way is enough: while a refresh of an installed entry is
      under way, or any timer of its configuration is armed, refreshes that end and
      timers that fire close the entry's channel, whatever their results. */
  lemma WorkReleases(actions: seq<Action>, e: EntryId, c: Channel, ends: nat -> bool) returns (after: seq<Action>)
    requires Awaits(Run(actions).m, e, c)
    requires InFlight(Run(actions), e) || SomeTimer(Run(actions).m, Run(actions).m.heap[e].config)
    ensures AllWork(Run(actions), after, ends) && c in Run(actions + after).m.closedChannels
  {
    RunInv(actions);
    hide Run;
    if InFlight(Run(actions), e) { after := FlightReleases(actions, e, c, ends); }
    else { after := FireReleases(actions, e, c, ends); }
  }

  lemma {:induction false} WorkIsOrdinary(s: System, after: seq<Action>, ends: nat -> bool)
    requires AllWork(s, after, ends)
    ensures AllOrdinary(after)
    decreases |after|
  {
    hide Next;
    if |after| > 0 { WorkIsOrdinary(Next(s, after[0]), after[1..], ends); }
  }

  // ---- The other ways ----

  /** An explicit refresh that replaces the entry closes its channel. */
  lemma ReplacementReleases(actions: seq<Action>, e: EntryId, c: Channel) returns (after: seq<Action>)
    requires Awaits(Run(actions).m, e, c) && SomeReplacement(Run(actions), Run(actions).m.heap[e].config)
    ensures AllOrdinary(after) && c in Run(actions + after).m.closedChannels
  {
    var s := Run(actions);
    RunInv(actions);
    var t :| Replaces(At(s, t), s.m.heap[e].config);
    ReplaceCloses(s.m, e, c, Catalog(false, At(s, t).began));
    hide Run, Next, ReplaceEntry, MemInv, ThreadInv;
    var a := DoRefreshed(t, Success(Catalog(false, At(s, t).began)));
    RunOneMore(actions, a);
    NextHasMemory(s, a);
    after := [a];
  }

  lemma ReplaceCloses(m: Memory, e: EntryId, c: Channel, catalog: Catalog)
    requires MemInv(m) && Awaits(m, e, c)
    ensures c in ReplaceEntry(m, m.heap[e].config, Success(catalog)).closedChannels
  {
  }

  /** A step that leaves the entry alone and arms a timer for its configuration. */
  predicate ArmsBeside(s: System, a: Action, e: EntryId, c: Channel)
    requires Enabled(s, a) && e in s.m.heap
  {
    var m' := NextMemory(s, a);
    Awaits(m', e, c) && m'.heap[e].config == s.m.heap[e].config && SomeTimer(m', m'.heap[e].config)
  }

  lemma ArmedReleases(actions: seq<Action>, a: Action, e: EntryId, c: Channel) returns (after: seq<Action>)
    requires Enabled(Run(actions), a) && Ordinary(a) && e in Run(actions).m.heap && ArmsBeside(Run(actions), a, e, c)
    ensures AllOrdinary(after) && c in Run(actions + after).m.closedChannels
  {
    hide Run, Next, NextMemory, NextThread;
    RunOneMore(actions, a);
    NextHasMemory(Run(actions), a);
    var ends := (began: nat) => false;
    var rest := WorkReleases(actions + [a], e, c, ends);
    WorkIsOrdinary(Run(actions + [a]), rest, ends);
    after := [a] + rest;
    assert actions + after == actions + [a] + rest;
  }

  lemma PassedOnReleases(actions: seq<Action>, e: EntryId, c: Channel) returns (after: seq<Action>)
    requires Awaits(Run(actions).m, e, c) && SomePassedOn(Run(actions), Run(actions).m.heap[e].config)
    ensures AllOrdinary(after) && c in Run(actions + after).m.closedChannels
  {
    RunInv(actions);
    var s := Run(actions);
    var t, f :| PassesOn(s, t, f, s.m.heap[e].config);
    hide Run;
    PassingArms(s, t, f, e, c);
    after := ArmedReleases(actions, DoRefreshed(t, Failure(Failed)), e, c);
  }

  lemma PassingArms(s: System, t: ThreadId, f: EntryId, e: EntryId, c: Channel)
    requires MemInv(s.m) && Awaits(s.m, e, c) && PassesOn(s, t, f, s.m.heap[e].config)
    ensures Enabled(s, DoRefreshed(t, Failure(Failed))) && ArmsBeside(s, DoRefreshed(t, Failure(Failed)), e, c)
  {
    var m' := NextMemory(s, DoRefreshed(t, Failure(Failed)));
    assert m'.armed[m'.heap[f].timer.value] == s.m.heap[e].config;
  }

  /** A Get that looks at a ready entry that was dropped while held back. */
  lemma LateGetArms(s: System, t: ThreadId, f: EntryId, e: EntryId, c: Channel)
    requires MemInv(s.m) && Awaits(s.m, e, c) && At(s, t) == AwaitReady(f) && Dropped(s.m, f, s.m.heap[e].config)
    requires var entry := s.m.heap[f];
      entry.ready && entry.stale && !entry.refreshing && entry.timer.None? && entry.err.None?
    ensures Enabled(s, DoAwaitReady(t)) && ArmsBeside(s, DoAwaitReady(t), e, c)
  {
    var m' := NextMemory(s, DoAwaitReady(t));
    assert m'.armed[m'.heap[f].timer.value] == s.m.heap[e].config;
  }

  /** A step after which such a Get may look. */
  predicate Prepares(s: System, a: Action, t: ThreadId, f: EntryId, e: EntryId, c: Channel)
    requires Enabled(s, a) && e in s.m.heap
  {
    var m' := NextMemory(s, a);
    && Ordinary(a) && a.t != t && Awaits(m', e, c) && m'.heap[e].config == s.m.heap[e].config
    && Dropped(m', f, s.m.heap[e].config)
    && var entry := m'.heap[f];
       entry.ready && entry.stale && !entry.refreshing && entry.timer.None? && entry.err.None?
  }

  lemma CreatorPrepares(s: System, t: ThreadId, u: ThreadId, f: EntryId, e: EntryId, c: Channel) returns (a: Action)
    requires Awaits(s.m, e, c) && LateGet(s, t, f, s.m.heap[e].config) && !s.m.heap[f].ready && !Refreshed(s, f)
    requires At(s, u).Creating? && At(s, u).e == f
    ensures Enabled(s, a) && Prepares(s, a, t, f, e, c)
  {
    a := DoCreated(u, Success(Catalog(false, At(s, u).began)));
  }

  lemma RefreshPrepares(s: System, t: ThreadId, u: ThreadId, f: EntryId, e: EntryId, c: Channel) returns (a: Action)
    requires Awaits(s.m, e, c) && LateGet(s, t, f, s.m.heap[e].config) && Refreshes(At(s, u), f)
    requires s.m.heap[f].ready && !s.m.heap[f].pending
    ensures Enabled(s, a) && Prepares(s, a, t, f, e, c)
  {
    a := DoRefreshed(u, Failure(Failed));
  }

  lemma PreparedReleases(actions: seq<Action>, a: Action, t: ThreadId, f: EntryId, e: EntryId, c: Channel)
      returns (after: seq<Action>)
    requires Awaits(Run(actions).m, e, c) && At(Run(actions), t) == AwaitReady(f)
    requires Enabled(Run(actions), a) && Prepares(Run(actions), a, t, f, e, c)
    ensures AllOrdinary(after) && c in Run(actions + after).m.closedChannels
  {
    RunInv(actions + [a]);
    hide Run, Next, NextMemory, NextThread, MemInv;
    RunOneMore(actions, a);
    NextHasMemory(Run(actions), a);
    OnlyActorMoves(Run(actions), a);
    LateGetArms(Run(actions + [a]), t, f, e, c);
    var rest := ArmedReleases(actions + [a], DoAwaitReady(t), e, c);
    after := [a] + rest;
    assert actions + after == actions + [a] + rest;
  }

  lemma LateGetReleases(actions: seq<Action>, e: EntryId, c: Channel) returns (after: seq<Action>)
    requires Awaits(Run(actions).m, e, c) && SomeLateGet(Run(actions), Run(actions).m.heap[e].config)
    ensures AllOrdinary(after) && c in Run(actions + after).m.closedChannels
  {
    RunInv(actions);
    RunSound(actions);
    var s := Run(actions);
    hide Run, MemInv;
    var t, f :| LateGet(s, t, f, s.m.heap[e].config);
    if u :| Refreshes(At(s, u), f) {
      if s.m.heap[f].pending {
        assert PassesOn(s, u, f, s.m.heap[e].config);
        after := PassedOnReleases(actions, e, c);
      } else {
        var a := RefreshPrepares(s, t, u, f, e, c);
        after := PreparedReleases(actions, a, t, f, e, c);
      }
    } else if s.m.heap[f].ready {
      LateGetArms(s, t, f, e, c);
      after := ArmedReleases(actions, DoAwaitReady(t), e, c);
    } else {
      var u :| At(s, u).Creating? && At(s, u).e == f;
      var a := CreatorPrepares(s, t, u, f, e, c);
      after := PreparedReleases(actions, a, t, f, e, c);
    }
  }

  /** Main result. Without shutdown, invalidation and new notifications, the channel of
      an installed entry can be closed exactly if something is under way for its
      configuration: a refresh of the entry, a timer, an explicit refresh that replaces
      it, or something that arms a timer for an entry dropped earlier. */
  lemma MovesExactly(actions: seq<Action>, e: EntryId, c: Channel)
    requires Awaits(Run(actions).m, e, c)
    ensures (exists after :: AllOrdinary(after) && c in Run(actions + after).m.closedChannels) <==>
      Moving(Run(actions), e)
  {
    var s := Run(actions);
    var config := s.m.heap[e].config;
    hide Run, InFlight, SomeTimer, SomeReplacement, SomePassedOn, SomeLateGet;
    if InFlight(s, e) || SomeTimer(s.m, config) {
      var after := WorkReleases(actions, e, c, (began: nat) => false);
      WorkIsOrdinary(s, after, (began: nat) => false);
    } else if SomeReplacement(s, config) {
      var after := ReplacementReleases(actions, e, c);
    } else if SomePassedOn(s, config) {
      var after := PassedOnReleases(actions, e, c);
    } else if SomeLateGet(s, config) {
      var after := LateGetReleases(actions, e, c);
    } else {
      forall after | AllOrdinary(after) ensures c !in Run(actions + after).m.closedChannels {
        StuckForGood(actions, after, e, c);
      }
    }
  }

  lemma HeldWaitAwaits(actions: seq<Action>, t: ThreadId)
    requires WaitOf(At(Run(actions), t)).Some? && WaitOf(At(Run(actions), t)).value.held
    requires WaitOf(At(Run(actions), t)).value.channel !in Run(actions).m.closedChannels
    ensures var w := WaitOf(At(Run(actions), t)).value; Awaits(Run(actions).m, w.e, w.channel)
    ensures var s := Run(actions); var w := WaitOf(At(s, t)).value;
      ArmedAt(s.m, w.e) ==> SomeTimer(s.m, s.m.heap[w.e].config)
  {
    RunInv(actions);
    var s := Run(actions);
    assert Grounded(s.m, s.clock, At(s, t)) && Kept(s.m, WaitOf(At(s, t)).value);
  }

  /** Main result. Take a wait that began on an installed entry and is not over. If a
      refresh of the entry is under way or its timer is armed, the work under way ends
      the wait, however the compiles end. In general it can end without shutdown,
      invalidation and new notifications exactly if something moves. */
  lemma HeldWaitEndsExactly(actions: seq<Action>, t: ThreadId, ends: nat -> bool)
    requires WaitOf(At(Run(actions), t)).Some? && WaitOf(At(Run(actions), t)).value.held
    requires WaitOf(At(Run(actions), t)).value.channel !in Run(actions).m.closedChannels
    ensures var s := Run(actions); var w := WaitOf(At(s, t)).value;
      InFlight(s, w.e) || ArmedAt(s.m, w.e) ==>
        exists after :: AllWork(s, after, ends) && w.channel in Run(actions + after).m.closedChannels
    ensures var s := Run(actions); var w := WaitOf(At(s, t)).value;
      w.e in s.m.heap &&
      ((exists after :: AllOrdinary(after) && w.channel in Run(actions + after).m.closedChannels) <==> Moving(s, w.e))
  {
    hide Run, InFlight, ArmedAt, SomeTimer, Moving;
    HeldWaitAwaits(actions, t);
    var s, w := Run(actions), WaitOf(At(Run(actions), t)).value;
    MovesExactly(actions, w.e, w.channel);
    if InFlight(s, w.e) || ArmedAt(s.m, w.e) { var after := WorkReleases(actions, w.e, w.channel, ends); }
  }
}

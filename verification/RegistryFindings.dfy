/** Where the registry falls short, with concrete runs. They show why the main results
    about freshness and wake-ups ask whether an entry is still installed, whether it was
    asked for before it was ready, and whether some timer has outlived its entry. */
module RegistryFindings {
  import opened Wrappers
  import opened RegistrySections
  import opened RegistryMemory
  import opened RegistryRuns
  import opened RegistryThreads
  import opened RegistryFreshness
  import opened RegistryWaits
  import opened RegistryInvalidation
  import opened RegistryAging
  import opened RegistryProgress

  const SEARCH := Config(0, true, false, {"x"})

  lemma Do(before: seq<Action>, s: System, a: Action) returns (actions: seq<Action>, s': System)
    requires Run(before) == s && Enabled(s, a)
    ensures s' == Next(s, a) && Run(actions) == s'
  {
    actions := before + [a];
    assert actions[..|actions| - 1] == before;
    s' := Next(s, a);
  }

  function Ok(began: nat): Compiled {
    Success(Catalog(false, began))
  }

  const NOTIFIED := ReadyEntry(SEARCH, Catalog(false, 0)).(stale := true, refreshDone := Some(1), timer := Some(2))

  /** A ready search entry that has just been notified: its timer 2 is armed, and
      channel 1 is open. */
  lemma NotifiedEntry() returns (actions: seq<Action>, s: System)
    ensures Run(actions) == s && s.clock == 3
    ensures s.m == Memory(map[SEARCH := 0], map[0 := NOTIFIED], false, map[2 := SEARCH], {}, 3)
    ensures s.threads == map[1 := Idle, 2 := Idle]
  {
    actions, s := CachedEntry();
    actions, s := Do(actions, s, DoRequest(2, SEARCH, false));
  }

  lemma CachedEntry() returns (actions: seq<Action>, s: System)
    ensures Run(actions) == s && s.clock == 2
    ensures s.m == Memory(map[SEARCH := 0], map[0 := ReadyEntry(SEARCH, Catalog(false, 0))], false, map[], {}, 1)
    ensures s.threads == map[1 := Idle]
  {
    actions, s := Do([], START, DoGet(1, SEARCH));
    actions, s := Do(actions, s, DoCreated(1, Ok(0)));
  }

  /** Invalidation closes the channel but leaves the dropped entry stale. */
  lemma DropNotified()
    ensures InvalidateComponent(Memory(map[SEARCH := 0], map[0 := NOTIFIED], false, map[2 := SEARCH], {}, 3), "x")
         == Memory(map[], map[0 := NOTIFIED.(refreshDone := None)], false, map[], {1}, 3)
  {
    var m := Memory(map[SEARCH := 0], map[0 := NOTIFIED], false, map[2 := SEARCH], {}, 3);
    assert Invalidated(m, "x", 0);
    assert Timers(m, "x") == {2} && Channels(m, "x") == {1};
    assert InvalidateComponent(m, "x").entries == map[];
    assert InvalidateComponent(m, "x").heap == map[0 := NOTIFIED.(refreshDone := None)];
    assert InvalidateComponent(m, "x").armed == map[];
  }

  /** A Get whose entry is invalidated while it waits, and replaced by one that is not
      ready yet, reads neither a catalog nor an error. */
  lemma NilCatalogRead() returns (actions: seq<Action>, t: ThreadId)
    ensures var s := Run(actions);
      && Enabled(s, DoAwaitDone(t))
      && ReadCurrent(s.m, s.m.heap[At(s, t).e].config) == Found(None, None)
  {
    var s;
    t := 3;
    actions, s := NotifiedWaiter();
    DropNotified();
    actions, s := Do(actions, s, DoInvalidate(4, "x"));
    actions, s := Do(actions, s, DoGet(5, SEARCH));
  }

  /** Thread 3 waits for the notified entry's refresh. */
  lemma NotifiedWaiter() returns (actions: seq<Action>, s: System)
    ensures Run(actions) == s
    ensures s.m == Memory(map[SEARCH := 0], map[0 := NOTIFIED], false, map[2 := SEARCH], {}, 3)
    ensures s.threads == map[1 := Idle, 2 := Idle, 3 := AwaitDone(0, 1, true)]
  {
    actions, s := NotifiedEntry();
    actions, s := Do(actions, s, DoGet(3, SEARCH));
    actions, s := Do(actions, s, DoAwaitReady(3));
  }

  /** What the creator of a search entry has yet to open is empty and not held back
      exactly until something deals with it. */
  predicate Untouched(s: System, e: EntryId) {
    e in s.m.heap && !s.m.heap[e].ready && s.m.heap[e].config.toolSearch ==>
      s.m.heap[e].err.None? && (s.m.heap[e].stale || s.m.heap[e].catalog.Some? <==> e in s.touched)
  }

  ghost predicate TouchedInv(s: System) {
    (forall e :: e in s.touched ==> e in s.m.heap) && forall e :: e in s.m.heap ==> Untouched(s, e)
  }

  lemma TouchesFocus(s: System, a: Action)
    requires MemInv(s.m) && ThreadInv(s) && Enabled(s, a)
    ensures forall e :: e in Touched(s, a) ==> !Sweeping(a) && Focus(s, a) == Some(e) && e in s.m.heap
  {
    assert Grounded(s.m, s.clock, At(s, a.t));
  }

  lemma FinishTouches(m: Memory, e: EntryId, compiled: Compiled)
    requires e in m.heap && m.heap[e].config.toolSearch && m.heap[e].err.None?
    ensures var m' := FinishRefresh(m, e, compiled);
      e in m'.heap && (m'.heap[e].stale || m'.heap[e].catalog.Some?) && m'.heap[e].err.None?
  {
  }

  lemma RequestTouches(m: Memory, config: Config, callback: Option<Callback>)
    requires CacheInv(m) && config in m.entries && config.toolSearch
    ensures var m', e := RequestRefresh(m, config, callback), m.entries[config];
      && e in m'.heap && m'.heap[e].err == m.heap[e].err && m'.heap[e].catalog == m.heap[e].catalog
      && (m'.heap[e].stale <==> m.heap[e].stale || !m.closed)
  {
  }

  lemma FocusTouched(s: System, a: Action, e: EntryId)
    requires MemInv(s.m) && ThreadInv(s) && TouchedInv(s) && Enabled(s, a) && Focus(s, a) == Some(e) && e in s.m.heap
    requires e in NextMemory(s, a).heap && !NextMemory(s, a).heap[e].ready && !s.m.heap[e].ready
    requires s.m.heap[e].config.toolSearch
    ensures var entry := NextMemory(s, a).heap[e];
      entry.err.None? && (entry.stale || entry.catalog.Some? <==> e in s.touched + Touched(s, a))
  {
    assert Untouched(s, e) && Grounded(s.m, s.clock, At(s, a.t));
    hide FinishRefresh, RequestRefresh, ReplaceEntry, ThreadInv, TouchedInv, FreshIds, ChannelInv, TimerInv, ClosedInv;
    match a
    case DoRefreshed(_, _) => ReplaceTouches(s, a, e);
    case DoRequest(_, config, callback) => RequestTouches(s.m, config, if callback then Some(s.clock) else None);
    case DoRerun(_, compiled) => FinishTouches(s.m, e, compiled);
    case _ => QuietTouches(s, a, e);
  }

  lemma QuietTouches(s: System, a: Action, e: EntryId)
    requires CacheInv(s.m) && Enabled(s, a) && Focus(s, a) == Some(e) && e in s.m.heap && Untouched(s, e)
    requires e in NextMemory(s, a).heap && !NextMemory(s, a).heap[e].ready && !s.m.heap[e].ready
    requires s.m.heap[e].config.toolSearch && !(a.DoRefreshed? || a.DoRequest? || a.DoRerun?)
    ensures var entry := NextMemory(s, a).heap[e];
      entry.err.None? && (entry.stale || entry.catalog.Some? <==> e in s.touched + Touched(s, a))
  {
  }

  lemma ReplaceTouches(s: System, a: Action, e: EntryId)
    requires CacheInv(s.m) && FreshIds(s.m) && Enabled(s, a) && a.DoRefreshed? && Focus(s, a) == Some(e)
    requires At(s, a.t).target.None?
    requires e in s.m.heap && s.m.heap[e].config.toolSearch && Untouched(s, e)
    requires e in NextMemory(s, a).heap && !NextMemory(s, a).heap[e].ready && !s.m.heap[e].ready
    ensures var entry := NextMemory(s, a).heap[e];
      entry.err.None? && (entry.stale || entry.catalog.Some? <==> e in s.touched + Touched(s, a))
  {
    assert e == s.m.entries[At(s, a.t).config];
    ReplaceMarks(s.m, At(s, a.t).config, a.compiled);
    hide ReplaceEntry, CacheInv, FreshIds, Asked;
  }

  lemma ReplaceMarks(m: Memory, config: Config, compiled: Compiled)
    requires CacheInv(m) && FreshIds(m) && config in m.entries && config.toolSearch
    ensures var e, m' := m.entries[config], ReplaceEntry(m, config, compiled);
      e in m'.heap && m'.heap[e].err == m.heap[e].err && m'.heap[e].catalog == m.heap[e].catalog
      && m'.heap[e].stale == (m.heap[e].stale || compiled.Failure?)
  {
  }

  lemma OneTouched(s: System, a: Action, e: EntryId)
    requires MemInv(s.m) && ThreadInv(s) && TouchedInv(s) && Enabled(s, a) && e in NextMemory(s, a).heap
    ensures Untouched(Next(s, a), e)
  {
    TouchesFocus(s, a);
    if e !in s.m.heap {
      NewUntouched(s, a, e);
    } else {
      assert Untouched(s, e);
      StepSteady(s, a);
      assert Steady(s.m, NextMemory(s, a), e);
      if Elsewhere(s, a, e) { ElsewhereSame(s, a, e); }
      else if !NextMemory(s, a).heap[e].ready && s.m.heap[e].config.toolSearch { FocusTouched(s, a, e); }
    }
  }

  lemma NewUntouched(s: System, a: Action, e: EntryId)
    requires MemInv(s.m) && ThreadInv(s) && Enabled(s, a) && e !in s.m.heap && e in NextMemory(s, a).heap
    ensures !NextMemory(s, a).heap[e].ready ==> NextMemory(s, a).heap[e] == NewEntry(NextMemory(s, a).heap[e].config)
  {
    if !NextMemory(s, a).heap[e].ready { NewUnready(s, a, e); }
  }

  lemma {:induction false} RunTouched(actions: seq<Action>)
    ensures TouchedInv(Run(actions))
  {
    if |actions| > 0 {
      var s, a := Run(actions[..|actions| - 1]), actions[|actions| - 1];
      RunTouched(actions[..|actions| - 1]);
      RunInv(actions[..|actions| - 1]);
      if Enabled(s, a) {
        StepSteady(s, a);
        TouchesFocus(s, a);
        hide NextMemory, Touched, Untouched;
        forall e | e in Next(s, a).m.heap ensures Untouched(Next(s, a), e) { OneTouched(s, a, e); }
      }
    }
  }

  /** A search read comes back with neither catalog nor error exactly if the installed
      entry's creator is still compiling, and no request, failed explicit refresh or
      background refresh has dealt with that entry. */
  lemma NilReadExactly(actions: seq<Action>, config: Config)
    requires config.toolSearch
    ensures var s := Run(actions);
      ReadCurrent(s.m, config) == Found(None, None) <==>
        config in s.m.entries && CreatorAtWork(s, s.m.entries[config]) && s.m.entries[config] !in s.touched
  {
    RunInv(actions);
    RunTouched(actions);
    var s := Run(actions);
    hide Run, TendedInv, SupervisedInv;
    if config in s.m.entries {
      var e := s.m.entries[config];
      assert Untouched(s, e);
      if CreatorAtWork(s, e) {
        var t :| At(s, t).Creating? && At(s, t).e == e;
        assert Grounded(s.m, s.clock, At(s, t));
      }
    }
  }

  /** So it takes a replacement: whoever waited on an entry that is still installed
      reads a catalog, or that none is available. */
  lemma OwnEntryNeverNil(actions: seq<Action>, t: ThreadId)
    requires At(Run(actions), t).AwaitDone? && Current(Run(actions).m, At(Run(actions), t).e)
    ensures var s := Run(actions);
      var read := ReadCurrent(s.m, s.m.heap[At(s, t).e].config);
      read.Unavailable? || (read.catalog.Some? && read.err.None?)
  {
    RunInv(actions);
    var s := Run(actions);
    assert Grounded(s.m, s.clock, At(s, t));
  }

  // ---- A wait that never ends ----

  /** A Get that looks at its entry only after the entry was invalidated opens a new
      channel on it, and then waits for good. */
  lemma LostWakeup() returns (actions: seq<Action>, t: ThreadId, e: EntryId, c: Channel)
    ensures At(Run(actions), t) == AwaitDone(e, c, false)
    ensures forall after :: c !in Run(actions + after).m.closedChannels
  {
    t, e, c := 3, 0, 3;
    actions := LateWait();
    forall after ensures c !in Run(actions + after).m.closedChannels {
      AbandonedForever(actions, after, e, c);
    }
  }

  lemma LateWait() returns (actions: seq<Action>)
    ensures At(Run(actions), 3) == AwaitDone(0, 3, false) && Abandoned(Run(actions), 0, 3)
  {
    var s;
    actions, s := DroppedBeforeWait();
    actions, s := Do(actions, s, DoAwaitReady(3));
  }

  lemma DroppedBeforeWait() returns (actions: seq<Action>, s: System)
    ensures Run(actions) == s && s.threads == map[1 := Idle, 2 := Idle, 3 := AwaitReady(0), 4 := Idle]
    ensures s.m == Memory(map[], map[0 := NOTIFIED.(refreshDone := None)], false, map[], {1}, 3)
  {
    actions, s := NotifiedEntry();
    actions, s := Do(actions, s, DoGet(3, SEARCH));
    DropNotified();
    actions, s := Do(actions, s, DoInvalidate(4, "x"));
  }

  // ---- Stale reads that the conditions of the freshness result rule out ----

  const ASKED_EARLY := NewEntry(SEARCH).(stale := true, refreshDone := Some(1), timer := Some(2))

  /** Thread 1 is still compiling entry 0 when thread 2 asks to refresh it. */
  lemma AskedEarly() returns (actions: seq<Action>, s: System)
    ensures Run(actions) == s && s.clock == 2 && s.requested == map[0 := 1] && s.early == {0}
    ensures s.m == Memory(map[SEARCH := 0], map[0 := ASKED_EARLY], false, map[2 := SEARCH], {}, 3)
    ensures s.threads == map[1 := Creating(0, 0), 2 := Idle]
  {
    actions, s := Do([], START, DoGet(1, SEARCH));
    actions, s := Do(actions, s, DoRequest(2, SEARCH, false));
  }

  /** The requested refresh runs and installs its catalog before entry 0 is ready. */
  lemma RefreshedEarly() returns (actions: seq<Action>, s: System)
    ensures Run(actions) == s && s.clock == 4 && s.requested == map[0 := 1] && s.early == {0}
    ensures s.m ==
      Memory(map[SEARCH := 0], map[0 := NewEntry(SEARCH).(catalog := Some(Catalog(false, 2)))], false, map[], {1}, 3)
    ensures At(s, 1) == Creating(0, 0)
  {
    actions, s := FiredEarly();
    actions, s := Do(actions, s, DoRerun(3, Ok(2)));
  }

  lemma FiredEarly() returns (actions: seq<Action>, s: System)
    ensures Run(actions) == s && s.clock == 3 && s.requested == map[0 := 1] && s.early == {0}
    ensures s.m ==
      Memory(map[SEARCH := 0], map[0 := ASKED_EARLY.(timer := None, refreshing := true)], false, map[], {}, 3)
    ensures s.threads == map[1 := Creating(0, 0), 2 := Idle, 3 := Rerunning(0, [], 2)]
  {
    actions, s := AskedEarly();
    actions, s := Do(actions, s, DoFire(3, 2));
  }

  /** Notified before it was ready, an entry ends up with its creator's older catalog. */
  lemma CreatorOverwritesFresher() returns (actions: seq<Action>, e: EntryId)
    ensures var s := Run(actions);
      && Current(s.m, e) && e in s.early
      && WaitSection(s.m, e).1 == Answer(Some(Catalog(false, 0)), None) && LastAsked(s, e) == 1 && Aged(s, e)
  {
    var s;
    e := 0;
    actions, s := RefreshedEarly();
    actions, s := Do(actions, s, DoCreated(1, Ok(0)));
  }

  /** Its first compile fails, entry 0 is dropped, and its timer stays armed. */
  lemma OrphanedTimer() returns (actions: seq<Action>, s: System)
    ensures Run(actions) == s && s.clock == 3 && s.requested == map[0 := 1] && s.early == {0} && SEARCH in s.disturbed
    ensures s.m ==
      Memory(map[], map[0 := ASKED_EARLY.(ready := true, err := Some(Failed))], false, map[2 := SEARCH], {}, 3)
    ensures s.threads == map[1 := Idle, 2 := Idle]
  {
    actions, s := AskedEarly();
    actions, s := Do(actions, s, DoCreated(1, Failure(Failed)));
    assert s.m.entries == map[];
    assert 2 in s.m.armed && !OwnTimer(s.m, 2);
  }

  /** Entry 3 takes its place. */
  lemma Replaced() returns (actions: seq<Action>, s: System)
    ensures Run(actions) == s && s.clock == 5 && s.requested == map[0 := 1] && s.early == {0} && SEARCH in s.disturbed
    ensures s.m.entries == map[SEARCH := 3] && !s.m.closed && 3 in s.m.heap && s.m.next == 4
    ensures s.m.heap[3] == ReadyEntry(SEARCH, Catalog(false, 3)) && s.m.armed == map[2 := SEARCH]
    ensures s.m.closedChannels == {}
    ensures s.threads == map[1 := Idle, 2 := Idle, 4 := Idle]
  {
    actions, s := OrphanedTimer();
    actions, s := Do(actions, s, DoGet(4, SEARCH));
    assert s.threads == map[1 := Idle, 2 := Idle, 4 := Creating(3, 3)];
    actions, s := Do(actions, s, DoCreated(4, Ok(3)));
  }

  /** The old timer starts to refresh it. */
  lemma UnannouncedRefresh() returns (actions: seq<Action>, s: System)
    ensures Run(actions) == s && s.clock == 6 && s.requested == map[0 := 1] && s.early == {0} && SEARCH in s.disturbed
    ensures s.m.entries == map[SEARCH := 3] && !s.m.closed && 3 in s.m.heap && s.m.next == 4
    ensures s.m.heap[3] == ReadyEntry(SEARCH, Catalog(false, 3)).(refreshing := true) && s.m.armed == map[]
    ensures s.m.closedChannels == {}
    ensures s.threads == map[1 := Idle, 2 := Idle, 4 := Idle, 5 := Rerunning(3, [], 5)]
  {
    actions, s := Replaced();
    actions, s := Do(actions, s, DoFire(5, 2));
  }

  const SEARCHED := ReadyEntry(SEARCH, Catalog(false, 5))

  /** The refresh that the old timer started overlaps an explicit one, releases that
      one's channel 4, and lets thread 7 notify the entry while the latter still runs. */
  lemma Overlapped() returns (actions: seq<Action>, s: System)
    ensures Run(actions) == s && s.clock == 9 && !s.m.closed
    ensures s.m.entries == map[SEARCH := 3] && s.m.armed == map[6 := SEARCH] && s.m.closedChannels == {4}
    ensures s.m.next == 7
    ensures 3 in s.m.heap && s.m.heap[3] == SEARCHED.(stale := true, refreshDone := Some(5), timer := Some(6))
    ensures s.threads ==
      map[1 := Idle, 2 := Idle, 4 := Idle, 5 := Delivering([], true, 5), 6 := Refreshing(SEARCH, Some(3), 6), 7 := Idle]
  {
    actions, s := ReleasedOverlap();
    actions, s := Do(actions, s, DoRequest(7, SEARCH, false));
  }

  lemma ReleasedOverlap() returns (actions: seq<Action>, s: System)
    ensures Run(actions) == s && s.clock == 8 && !s.m.closed
    ensures s.m.entries == map[SEARCH := 3] && s.m.armed == map[] && s.m.closedChannels == {4} && s.m.next == 5
    ensures 3 in s.m.heap && s.m.heap[3] == SEARCHED
    ensures s.threads ==
      map[1 := Idle, 2 := Idle, 4 := Idle, 5 := Delivering([], true, 5), 6 := Refreshing(SEARCH, Some(3), 6)]
  {
    actions, s := ExplicitRefresh();
    actions, s := Do(actions, s, DoRerun(5, Ok(5)));
  }

  lemma ExplicitRefresh() returns (actions: seq<Action>, s: System)
    ensures Run(actions) == s && s.clock == 7 && !s.m.closed
    ensures s.m.entries == map[SEARCH := 3] && s.m.armed == map[] && s.m.closedChannels == {} && s.m.next == 5
    ensures 3 in s.m.heap
    ensures s.m.heap[3] ==
      ReadyEntry(SEARCH, Catalog(false, 3)).(refreshing := true, stale := true, refreshDone := Some(4))
    ensures s.threads ==
      map[1 := Idle, 2 := Idle, 4 := Idle, 5 := Rerunning(3, [], 5), 6 := Refreshing(SEARCH, Some(3), 6)]
  {
    actions, s := UnannouncedRefresh();
    actions, s := Do(actions, s, DoRefresh(6, SEARCH));
  }

  /** The explicit refresh releases the notification's channel but not its timer: the
      timer is armed while refreshDone is nil. A second explicit refresh starts. */
  lemma TimerWithoutChannel() returns (actions: seq<Action>, s: System)
    ensures Run(actions) == s && s.clock == 10 && !s.m.closed
    ensures s.m.entries == map[SEARCH := 3] && s.m.armed == map[6 := SEARCH] && s.m.closedChannels == {4, 5}
    ensures s.m.next == 7
    ensures 3 in s.m.heap && s.m.heap[3] == ReadyEntry(SEARCH, Catalog(false, 6)).(timer := Some(6))
    ensures s.threads == map[1 := Idle, 2 := Idle, 4 := Idle, 5 := Delivering([], true, 5), 6 := Idle, 7 := Idle]
  {
    actions, s := Overlapped();
    actions, s := Do(actions, s, DoRefreshed(6, Ok(6)));
  }

  /** The timer fires during the second refresh and dies: its field stays set. */
  lemma TimerDead() returns (actions: seq<Action>, s: System)
    ensures Run(actions) == s && s.clock == 12 && !s.m.closed
    ensures s.m.entries == map[SEARCH := 3] && s.m.armed == map[] && s.m.closedChannels == {4, 5} && s.m.next == 8
    ensures 3 in s.m.heap
    ensures s.m.heap[3] ==
      ReadyEntry(SEARCH, Catalog(false, 6)).(
        timer := Some(6), stale := true, refreshing := true, refreshDone := Some(7))
    ensures s.threads == map[1 := Idle, 2 := Idle, 4 := Idle, 5 := Delivering([], true, 5), 6 := Idle, 7 := Idle,
      8 := Refreshing(SEARCH, Some(3), 10), 9 := Idle]
  {
    actions, s := TimerWithoutChannel();
    actions, s := Do(actions, s, DoRefresh(8, SEARCH));
    actions, s := Do(actions, s, DoFire(9, 6));
  }

  /** The second refresh fails. From then on a Get waits on the installed entry with
      no refresh under way and no timer armed at all, and arms none; nothing under way
      can end that wait. */
  lemma StalledWait() returns (actions: seq<Action>, t: ThreadId)
    ensures var s := Run(actions);
      && At(s, t) == AwaitDone(3, 8, true) && 8 !in s.m.closedChannels && Current(s.m, 3) && !s.m.closed
      && s.m.heap[3].stale && !InFlight(s, 3) && DeadTimer(s.m, 3) && s.m.armed == map[]
      && WaitSection(s.m, 3) == (s.m, WaitFor(8)) && Stuck(s, 3, 8)
  {
    var s;
    t := 10;
    actions, s := LateWaiter();
    assert Awaits(s.m, 3, 8);
    assert !InFlight(s, 3) && !SomeReplacement(s, SEARCH) && !SomePassedOn(s, SEARCH) && !SomeLateGet(s, SEARCH);
  }

  lemma LateWaiter() returns (actions: seq<Action>, s: System)
    ensures Run(actions) == s && !s.m.closed
    ensures s.m.entries == map[SEARCH := 3] && s.m.armed == map[] && s.m.closedChannels == {4, 5, 7}
    ensures 3 in s.m.heap
    ensures s.m.heap[3] ==
      ReadyEntry(SEARCH, Catalog(false, 6)).(timer := Some(6), stale := true, refreshDone := Some(8))
    ensures s.threads == map[1 := Idle, 2 := Idle, 4 := Idle, 5 := Delivering([], true, 5), 6 := Idle, 7 := Idle,
      8 := Idle, 9 := Idle, 10 := AwaitDone(3, 8, true)]
  {
    actions, s := FailedOverDead();
    actions, s := Do(actions, s, DoGet(10, SEARCH));
    actions, s := Do(actions, s, DoAwaitReady(10));
  }

  lemma FailedOverDead() returns (actions: seq<Action>, s: System)
    ensures Run(actions) == s && s.clock == 13 && !s.m.closed
    ensures s.m.entries == map[SEARCH := 3] && s.m.armed == map[] && s.m.closedChannels == {4, 5, 7} && s.m.next == 8
    ensures 3 in s.m.heap && s.m.heap[3] == ReadyEntry(SEARCH, Catalog(false, 6)).(timer := Some(6), stale := true)
    ensures s.threads ==
      map[1 := Idle, 2 := Idle, 4 := Idle, 5 := Delivering([], true, 5), 6 := Idle, 7 := Idle, 8 := Idle, 9 := Idle]
  {
    actions, s := TimerDead();
    actions, s := Do(actions, s, DoRefreshed(8, Failure(Failed)));
  }

  /** A timer that outlives its entry makes a refresh run unannounced; an explicit
      refresh then runs beside it, and the older of the two releases its snapshot. */
  lemma OutlivedTimerServesStale() returns (actions: seq<Action>, e: EntryId)
    ensures var s := Run(actions);
      && Current(s.m, e) && e !in s.early && SEARCH in s.disturbed
      && WaitSection(s.m, e).1 == Answer(Some(Catalog(false, 5)), None) && LastAsked(s, e) == 6 && Aged(s, e)
  {
    var s;
    e := 3;
    actions, s := UnannouncedRefresh();
    actions, s := Do(actions, s, DoRefresh(6, SEARCH));
    assert At(s, 5) == Rerunning(3, [], 5) && s.requested == map[0 := 1, 3 := 6];
    actions, s := Do(actions, s, DoRerun(5, Ok(5)));
  }

  // ---- Catalogs discovered before an invalidation ----

  const PLAIN := Config(0, false, false, {"x"})
  const PLAIN_ENTRY := ReadyEntry(PLAIN, Catalog(false, 0))

  /** Thread 2 refreshes a configuration without tool search, whose component "x" is
      invalidated meanwhile. */
  lemma InvalidatedRefresh() returns (actions: seq<Action>, s: System)
    ensures Run(actions) == s && s.clock == 4 && s.invalidated == map["x" := 3]
    ensures s.m == Memory(map[], map[0 := PLAIN_ENTRY], false, map[], {}, 1)
    ensures s.threads == map[1 := Idle, 2 := Refreshing(PLAIN, None, 2), 3 := Idle]
  {
    actions, s := PlainRefresh();
    DropPlain();
    actions, s := Do(actions, s, DoInvalidate(3, "x"));
  }

  lemma PlainRefresh() returns (actions: seq<Action>, s: System)
    ensures Run(actions) == s && s.clock == 3 && s.invalidated == map[]
    ensures s.m == Memory(map[PLAIN := 0], map[0 := PLAIN_ENTRY], false, map[], {}, 1)
    ensures s.threads == map[1 := Idle, 2 := Refreshing(PLAIN, None, 2)]
  {
    actions, s := PlainEntry();
    actions, s := Do(actions, s, DoRefresh(2, PLAIN));
  }

  lemma PlainEntry() returns (actions: seq<Action>, s: System)
    ensures Run(actions) == s && s.clock == 2 && s.invalidated == map[]
    ensures s.m == Memory(map[PLAIN := 0], map[0 := PLAIN_ENTRY], false, map[], {}, 1)
    ensures s.threads == map[1 := Idle]
  {
    actions, s := Do([], START, DoGet(1, PLAIN));
    actions, s := Do(actions, s, DoCreated(1, Ok(0)));
  }

  lemma DropPlain()
    ensures InvalidateComponent(Memory(map[PLAIN := 0], map[0 := PLAIN_ENTRY], false, map[], {}, 1), "x")
         == Memory(map[], map[0 := PLAIN_ENTRY], false, map[], {}, 1)
  {
    var m := Memory(map[PLAIN := 0], map[0 := PLAIN_ENTRY], false, map[], {}, 1);
    assert InvalidateComponent(m, "x").entries == map[];
    assert InvalidateComponent(m, "x").heap == map[0 := PLAIN_ENTRY];
    assert Timers(m, "x") == {} && Channels(m, "x") == {};
  }

  /** A Get compiles the replacement. */
  lemma ReplacedPlain() returns (actions: seq<Action>, s: System)
    ensures Run(actions) == s && s.clock == 6 && s.invalidated == map["x" := 3] && !s.m.closed
    ensures Cached(s.m, PLAIN) == Some(Catalog(false, 4)) && !Outdated(s, PLAIN)
    ensures At(s, 2) == Refreshing(PLAIN, None, 2)
  {
    actions, s := InvalidatedRefresh();
    actions, s := Do(actions, s, DoGet(4, PLAIN));
    actions, s := Do(actions, s, DoCreated(4, Ok(4)));
  }

  /** The invalidated refresh then overwrites the replacement with its older catalog. */
  lemma RefreshOverwritesReplacement() returns (before: seq<Action>, a: Action)
    ensures var s := Run(before);
      && Enabled(s, a) && s.invalidated == map["x" := 3]
      && Cached(s.m, PLAIN) == Some(Catalog(false, 4)) && !Outdated(s, PLAIN)
      && Cached(Next(s, a).m, PLAIN) == Some(Catalog(false, 2)) && Outdated(Next(s, a), PLAIN)
  {
    var s;
    before, s := ReplacedPlain();
    a := DoRefreshed(2, Ok(2));
    assert "x" in PLAIN.servers;
    assert Predates(Next(s, a), PLAIN, 2);
  }

  /** Nothing is installed when thread 1 starts to refresh, and "x" is invalidated. */
  lemma EmptyRefresh() returns (actions: seq<Action>, s: System)
    ensures Run(actions) == s && s.clock == 2 && s.invalidated == map["x" := 1] && s.m == INITIAL
    ensures s.threads == map[1 := Refreshing(SEARCH, None, 0), 2 := Idle]
  {
    actions, s := Do([], START, DoRefresh(1, SEARCH));
    assert InvalidateComponent(INITIAL, "x") == INITIAL;
    actions, s := Do(actions, s, DoInvalidate(2, "x"));
  }

  /** An explicit refresh that began before an invalidation fails, and holds back the
      entry that was compiled after it. */
  lemma FailedRefreshHoldsBack() returns (before: seq<Action>, a: Action)
    ensures var s := Run(before);
      && Enabled(s, a) && s.invalidated == map["x" := 1] && At(s, a.t) == Refreshing(SEARCH, None, 0)
      && Cached(s.m, SEARCH) == Some(Catalog(false, 2)) && !Outdated(s, SEARCH)
      && Cached(Next(s, a).m, SEARCH) == None && HoldsBack(s, a, s.m.entries[SEARCH])
  {
    var s;
    before, s := EmptyRefresh();
    before, s := Do(before, s, DoGet(3, SEARCH));
    before, s := Do(before, s, DoCreated(3, Ok(2)));
    a := DoRefreshed(1, Failure(Failed));
  }

  /** The first compile lacks credentials, and thread 2 starts one with its own. */
  lemma OwnCompile() returns (actions: seq<Action>, s: System)
    ensures Run(actions) == s && s.clock == 4 && s.invalidated == map[]
    ensures s.m.entries == map[] && !s.m.closed
    ensures s.threads == map[1 := Idle, 2 := OwnCompiling(PLAIN, 3)]
  {
    actions, s := SharedFailure();
    actions, s := Do(actions, s, DoAwaitReady(2));
  }

  lemma SharedFailure() returns (actions: seq<Action>, s: System)
    ensures Run(actions) == s && s.clock == 3 && s.invalidated == map[]
    ensures s.m ==
      Memory(map[], map[0 := NewEntry(PLAIN).(ready := true, err := Some(Unauthorized))], false, map[], {}, 1)
    ensures s.threads == map[1 := Idle, 2 := AwaitReady(0)]
  {
    actions, s := Do([], START, DoGet(1, PLAIN));
    actions, s := Do(actions, s, DoGet(2, PLAIN));
    actions, s := Do(actions, s, DoCreated(1, Failure(Unauthorized)));
    assert s.m.entries == map[];
  }

  /** An invalidation does not reach a compile that is not in the table yet. */
  lemma OwnCompileOutdated() returns (before: seq<Action>, a: Action)
    ensures var s := Run(before);
      && Enabled(s, a) && s.invalidated == map["x" := 4] && PLAIN !in s.m.entries
      && Cached(Next(s, a).m, PLAIN) == Some(Catalog(false, 3)) && Outdated(Next(s, a), PLAIN)
  {
    var s;
    before, s := OwnCompile();
    before, s := Do(before, s, DoInvalidate(3, "x"));
    a := DoOwnCompiled(2, Ok(3));
    assert "x" in PLAIN.servers;
    assert Predates(Next(s, a), PLAIN, 3);
  }
}

/** What every Get is answered, in every run and for every configuration: from which
    compile a catalog or an error comes, and when a Get ends in another way. */
module RegistryAnswers {
  import opened Wrappers
  import opened RegistrySections
  import opened RegistryMemory
  import opened RegistryRuns
  import opened RegistryThreads
  import opened RegistryFreshness
  import opened RegistryWaits
  import opened RegistryInvalidation
  import opened RegistryAging
  import opened RegistryProgress
  import opened RegistryCallbacks

  // ---- Where an entry's error comes from ----

  /** Once an entry is ready, nothing changes its error. */
  ghost predicate ErrorsStay(s: System, a: Action, e: EntryId)
    requires Enabled(s, a)
  {
    e in s.m.heap && s.m.heap[e].ready ==>
      e in NextMemory(s, a).heap && NextMemory(s, a).heap[e].err == s.m.heap[e].err
  }

  lemma ErrorStays(s: System, a: Action, e: EntryId)
    requires MemInv(s.m) && ThreadInv(s) && SoundFlights(s) && Enabled(s, a)
    ensures ErrorsStay(s, a, e)
  {
    if e in s.m.heap && s.m.heap[e].ready {
      StepServes(s, a, e);
      OneRole(s, a, e);
      ConcludesWithoutError(s, a, e);
      hide NextMemory, Creates, Concludes, HoldsBack;
    }
  }

  lemma ConcludesWithoutError(s: System, a: Action, e: EntryId)
    requires MemInv(s.m) && SoundFlights(s) && Enabled(s, a) && e in s.m.heap && s.m.heap[e].ready
    ensures Concludes(s, a, e) ==> s.m.heap[e].err.None?
  {
    if Concludes(s, a, e) && a.DoRefreshed? { assert Refreshes(At(s, a.t), e); }
  }

  /** The i-th step ends the compile of the entry's creator. */
  ghost predicate CreatesAt(actions: seq<Action>, i: nat, e: EntryId)
    requires i < |actions|
  {
    Enabled(Run(actions[..i]), actions[i]) && Creates(Run(actions[..i]), actions[i], e)
  }

  ghost predicate FailedAt(actions: seq<Action>, i: nat, e: EntryId, error: Error)
    requires i < |actions|
  {
    CreatesAt(actions, i, e) && actions[i].compiled == Failure(error)
  }

  /** Main result. A ready entry holds an error exactly if its creator's compile has
      failed with it. */
  lemma {:induction false} ErrorByRun(actions: seq<Action>, e: EntryId, error: Error)
    ensures var m := Run(actions).m;
      (e in m.heap && m.heap[e].ready && m.heap[e].err == Some(error)) <==>
        exists i :: 0 <= i < |actions| && FailedAt(actions, i, e, error)
  {
    hide Next, NextMemory, Enabled, Creates;
    if |actions| == 0 {
      NothingYet(e);
    } else {
      var n := |actions| - 1;
      var init := actions[..n];
      ErrorByRun(init, e, error);
      assert forall i: nat :: i < n ==> init[i] == actions[i] && init[..i] == actions[..i];
      assert forall i: nat :: i < n ==> (FailedAt(init, i, e, error) <==> FailedAt(actions, i, e, error));
      if Enabled(Run(init), actions[n]) { ErrorStep(init, actions[n], e, error); }
      if FailedAt(actions, n, e, error) { assert 0 <= n < |actions| && FailedAt(actions, n, e, error); }
      hide FailedAt;
    }
  }

  lemma NothingYet(e: EntryId)
    ensures e !in Run([]).m.heap
  {
  }

  lemma ErrorStep(actions: seq<Action>, a: Action, e: EntryId, error: Error)
    requires Enabled(Run(actions), a)
    ensures var s := Run(actions); var m' := Next(s, a).m;
      (e in m'.heap && m'.heap[e].ready && m'.heap[e].err == Some(error)) <==>
        || (e in s.m.heap && s.m.heap[e].ready && s.m.heap[e].err == Some(error))
        || (Creates(s, a, e) && a.compiled == Failure(error))
  {
    RunInv(actions);
    RunSound(actions);
    var s := Run(actions);
    NextHasMemory(s, a);
    hide Next, Run;
    assert Grounded(s.m, s.clock, At(s, a.t));
    if e in s.m.heap {
      ErrorStays(s, a, e);
      StepServes(s, a, e);
      OneRole(s, a, e);
      hide NextMemory, Creates, Concludes, HoldsBack;
    } else {
      if e in NextMemory(s, a).heap && NextMemory(s, a).heap[e].ready { NewTold(s, a, e); }
      hide NextMemory;
    }
  }

  // ---- Where an entry's catalog comes from ----

  /** The action ends well a compile whose catalog the entry then holds: its creator's, a
      refresh of it, or the one that it is made for. */
  predicate Stores(s: System, a: Action, e: EntryId)
    requires Enabled(s, a)
  {
    && (a.DoCreated? || a.DoRerun? || a.DoRefreshed? || a.DoOwnCompiled?) && a.compiled.Success?
    && if e in s.m.heap then Creates(s, a, e) || Concludes(s, a, e) else MayInstall(s, a) && e in NextMemory(s, a).heap
  }

  predicate Overwrites(s: System, a: Action, e: EntryId)
    requires Enabled(s, a)
  {
    Stores(s, a, e) || Creates(s, a, e)
  }

  ghost predicate StoresAt(actions: seq<Action>, i: nat, e: EntryId, catalog: Catalog)
    requires i < |actions|
  {
    && Enabled(Run(actions[..i]), actions[i]) && Stores(Run(actions[..i]), actions[i], e)
    && actions[i].compiled == Success(catalog)
  }

  ghost predicate OverwritesAt(actions: seq<Action>, i: nat, e: EntryId)
    requires i < |actions|
  {
    Enabled(Run(actions[..i]), actions[i]) && Overwrites(Run(actions[..i]), actions[i], e)
  }

  ghost predicate StoredSince(actions: seq<Action>, i: nat, e: EntryId, catalog: Catalog)
    requires i < |actions|
  {
    StoresAt(actions, i, e, catalog) && forall j :: i < j < |actions| ==> !OverwritesAt(actions, j, e)
  }

  /** Main result. An entry holds a catalog exactly if some step ended the compile of that
      catalog for it, and none has ended a later one, nor its creator's, since. */
  lemma {:induction false} CatalogByRun(actions: seq<Action>, e: EntryId, catalog: Catalog)
    ensures var m := Run(actions).m;
      (e in m.heap && m.heap[e].catalog == Some(catalog)) <==>
        exists i :: 0 <= i < |actions| && StoredSince(actions, i, e, catalog)
  {
    hide Next, NextMemory, Enabled, Stores, Overwrites;
    if |actions| == 0 {
      NothingYet(e);
    } else {
      var n := |actions| - 1;
      var init := actions[..n];
      CatalogByRun(init, e, catalog);
      forall i: nat | i < n
        ensures StoresAt(init, i, e, catalog) <==> StoresAt(actions, i, e, catalog)
        ensures OverwritesAt(init, i, e) <==> OverwritesAt(actions, i, e)
      {
        assert init[i] == actions[i] && init[..i] == actions[..i];
      }
      if Enabled(Run(init), actions[n]) { CatalogStep(init, actions[n], e, catalog); }
      if i :| 0 <= i < n && StoredSince(init, i, e, catalog) && !OverwritesAt(actions, n, e) {
        assert StoredSince(actions, i, e, catalog);
      }
      if i :| 0 <= i < n && StoredSince(actions, i, e, catalog) {
        assert StoredSince(init, i, e, catalog);
      }
      assert StoresAt(actions, n, e, catalog) <==> StoredSince(actions, n, e, catalog);
    }
  }

  lemma CatalogStep(actions: seq<Action>, a: Action, e: EntryId, catalog: Catalog)
    requires Enabled(Run(actions), a)
    ensures var s := Run(actions); var m' := Next(s, a).m;
      (e in m'.heap && m'.heap[e].catalog == Some(catalog)) <==>
        || (Stores(s, a, e) && a.compiled == Success(catalog))
        || (e in s.m.heap && s.m.heap[e].catalog == Some(catalog) && !Overwrites(s, a, e))
  {
    RunInv(actions);
    var s := Run(actions);
    NextHasMemory(s, a);
    hide Next, Run;
    if e in s.m.heap {
      StepServes(s, a, e);
      OneRole(s, a, e);
      hide NextMemory, Creates, Concludes, HoldsBack;
    } else {
      NewCatalog(s, a, e);
      hide NextMemory;
    }
  }

  lemma NewCatalog(s: System, a: Action, e: EntryId)
    requires MemInv(s.m) && ThreadInv(s) && Enabled(s, a) && e !in s.m.heap
    ensures !Creates(s, a, e)
    ensures e in NextMemory(s, a).heap ==>
      NextMemory(s, a).heap[e].catalog == if Stores(s, a, e) then Some(a.compiled.catalog) else None
  {
    assert Grounded(s.m, s.clock, At(s, a.t));
    if !MayInstall(s, a) { NoneAdded(s, a, e); }
    else if e in NextMemory(s, a).heap { InstalledCatalog(s, a, e); }
  }

  lemma InstalledCatalog(s: System, a: Action, e: EntryId)
    requires Enabled(s, a) && MayInstall(s, a) && e !in s.m.heap && e in NextMemory(s, a).heap
    ensures NextMemory(s, a).heap[e].catalog == if Stores(s, a, e) then Some(a.compiled.catalog) else None
  {
  }

  /** What is stored comes from a compile that is on record as a success. */
  lemma StoredOutcome(actions: seq<Action>, e: EntryId)
    requires e in Run(actions).m.heap && Run(actions).m.heap[e].catalog.Some?
    ensures var s := Run(actions); Ended(s.outcomes, s.m.heap[e].catalog.value.began, true)
  {
    RunOutcomes(actions);
  }

  ghost predicate OutcomeInv(s: System) {
    forall e :: e in s.m.heap && s.m.heap[e].catalog.Some? ==> Ended(s.outcomes, s.m.heap[e].catalog.value.began, true)
  }

  lemma {:induction false} RunOutcomes(actions: seq<Action>)
    ensures OutcomeInv(Run(actions))
  {
    if |actions| > 0 {
      var init, a := actions[..|actions| - 1], actions[|actions| - 1];
      RunOutcomes(init);
      if Enabled(Run(init), a) { OutcomesKept(init, a); }
    }
  }

  lemma OutcomesKept(actions: seq<Action>, a: Action)
    requires Enabled(Run(actions), a) && OutcomeInv(Run(actions))
    ensures OutcomeInv(Next(Run(actions), a))
  {
    var s := Run(actions);
    hide Run, Next, NextMemory, Overwrites;
    forall e | e in Next(s, a).m.heap && Next(s, a).m.heap[e].catalog.Some?
      ensures Ended(Next(s, a).outcomes, Next(s, a).m.heap[e].catalog.value.began, true)
    {
      var catalog := Next(s, a).m.heap[e].catalog.value;
      CatalogStep(actions, a, e, catalog);
      if Stores(s, a, e) && a.compiled == Success(catalog) {
        StoresOwn(s, a, e);
        OutcomesRecorded(actions, a, At(s, a.t).began);
      } else {
        OutcomesRecorded(actions, a, catalog.began);
      }
    }
  }

  lemma StoresOwn(s: System, a: Action, e: EntryId)
    requires Enabled(s, a) && Stores(s, a, e)
    ensures Compiles(At(s, a.t)) && a.compiled.catalog.began == At(s, a.t).began
  {
  }

  // ---- What a Get is answered ----

  /** The actor's Get ends with this reply. */
  predicate Answers(s: System, s': System, t: ThreadId, config: Config, reply: Reply) {
    s'.gets == s.gets + [Got(t, config, reply)]
  }

  /** The Get goes on to compile with its own credentials. */
  predicate GoesOn(s: System, s': System, t: ThreadId, config: Config) {
    s'.gets == s.gets && At(s', t) == OwnCompiling(config, s.clock)
  }

  /** Main result. In every run and for every configuration, a Get that looks at a ready
      entry is refused exactly with the error that the entry's creator failed with, or
      compiles for itself if that one lacked credentials. Otherwise it is served the
      stored catalog, unless that is pending, or held back for a refresh. */
  lemma AnsweredExactly(actions: seq<Action>, t: ThreadId)
    requires Enabled(Run(actions), DoAwaitReady(t))
    ensures var s := Run(actions); var s' := Next(s, DoAwaitReady(t)); var entry := s.m.heap[At(s, t).e];
      && (forall error :: Answers(s, s', t, entry.config, Refused(error)) <==> entry.err == Some(error) == Some(Failed))
      && (forall catalog :: Answers(s, s', t, entry.config, Served(catalog)) <==>
            entry.catalog == Some(catalog) && !catalog.pending && !(entry.stale && entry.config.toolSearch))
      && (GoesOn(s, s', t, entry.config) <==>
            entry.err == Some(Unauthorized)
            || (entry.catalog.Some? && entry.catalog.value.pending && !(entry.stale && entry.config.toolSearch)))
      && (Answers(s, s', t, entry.config, GaveUp) <==>
            entry.err.None? && entry.stale && entry.config.toolSearch && s.m.closed)
      && (At(s', t).AwaitDone? <==> entry.err.None? && entry.stale && entry.config.toolSearch && !s.m.closed)
      && !Answers(s, s', t, entry.config, NilLookup)
  {
    RunInv(actions);
    RunTold(actions);
    var s, a := Run(actions), DoAwaitReady(t);
    AnswersExactly(s, a);
    LookedAt(s, t);
    hide Run, Next, NextReply, Wanted, WaitSection, MemInv;
  }

  /** What is on record after a step is what the actor was answered. */
  lemma AnswersExactly(s: System, a: Action)
    requires Enabled(s, a)
    ensures var s' := Next(s, a);
      && (forall config, reply :: Answers(s, s', a.t, config, reply) <==>
            NextReply(s, a) == Some(reply) && Wanted(s, a) == config)
      && (s'.gets == s.gets <==> NextReply(s, a).None?)
      && At(s', a.t) == NextThread(s, a)
  {
    GetsGrow(s, a);
    OnlyActorMoves(s, a);
    hide Next, NextReply, Wanted, NextThread;
    forall config, reply ensures Answers(s, Next(s, a), a.t, config, reply) <==>
      (NextReply(s, a) == Some(reply) && Wanted(s, a) == config)
    {
      var got := Got(a.t, config, reply);
      assert (s.gets + [got])[|s.gets|] == got;
      if NextReply(s, a).Some? {
        var other := Got(a.t, Wanted(s, a), NextReply(s, a).value);
        assert (s.gets + [other])[|s.gets|] == other;
      } else {
        assert |s.gets + [got]| == |s.gets| + 1;
      }
    }
  }

  lemma LookedAt(s: System, t: ThreadId)
    requires Enabled(s, DoAwaitReady(t)) && ToldInv(s)
    ensures var entry := s.m.heap[At(s, t).e]; var a := DoAwaitReady(t);
      && (NextReply(s, a).Some? ==> Wanted(s, a) == entry.config)
      && NextReply(s, a) ==
           (if entry.err.Some? then (if entry.err.value.Failed? then Some(Refused(Failed)) else None)
            else if entry.stale && entry.config.toolSearch then (if s.m.closed then Some(GaveUp) else None)
            else if entry.catalog.value.pending then None
            else Some(Served(entry.catalog.value)))
      && (NextThread(s, a) == OwnCompiling(entry.config, s.clock) <==>
            entry.err == Some(Unauthorized)
            || (entry.catalog.Some? && entry.catalog.value.pending && !(entry.stale && entry.config.toolSearch)))
      && (NextThread(s, a).AwaitDone? <==> entry.err.None? && entry.stale && entry.config.toolSearch && !s.m.closed)
      && entry.catalog.Some? == entry.err.None?
  {
  }

  /** A Get that is answered is over, and so is a refresh that gives up. */
  lemma AnsweredIsOver(actions: seq<Action>, a: Action)
    requires Enabled(Run(actions), a) && (NextReply(Run(actions), a).Some? || a.DoCancel?)
    ensures At(Next(Run(actions), a), a.t) == Idle
  {
    OnlyActorMoves(Run(actions), a);
    hide Run, Next, NextMemory;
  }

  /** Whoever compiles, the first time or with its own credentials, is answered what that
      compile came to. */
  lemma CompilerAnswered(actions: seq<Action>, a: Action)
    requires Enabled(Run(actions), a) && (a.DoCreated? || a.DoOwnCompiled?)
    ensures var s := Run(actions); var s' := Next(s, a);
      var config := if a.DoCreated? then s.m.heap[At(s, a.t).e].config else At(s, a.t).config;
      match a.compiled
      case Success(catalog) => Answers(s, s', a.t, config, Served(catalog))
      case Failure(error) => Answers(s, s', a.t, config, Refused(error))
  {
    GetsGrow(Run(actions), a);
  }

  /** Main result. What `Cached` hands out, the next Get is served. */
  lemma CachedIsServed(actions: seq<Action>, t: ThreadId, config: Config)
    requires Enabled(Run(actions), DoAwaitReady(t)) && Cached(Run(actions).m, config).Some?
    requires Run(actions).m.entries[config] == At(Run(actions), t).e
    ensures var s := Run(actions);
      Answers(s, Next(s, DoAwaitReady(t)), t, config, Served(Cached(s.m, config).value))
  {
    RunInv(actions);
    AnsweredExactly(actions, t);
  }

  /** Main result. After a wait for a refresh, a Get is served what the installed entry
      holds by then, unless that is held back or gone; it compiles for itself if that is
      pending, and looks into a nil catalog if there is none yet. */
  lemma AwaitedExactly(actions: seq<Action>, t: ThreadId)
    requires Enabled(Run(actions), DoAwaitDone(t))
    ensures var s := Run(actions); var s' := Next(s, DoAwaitDone(t)); var config := s.m.heap[At(s, t).e].config;
      ReadRight(s, s', t, config)
  {
    hide Run, Next, NextReply, Wanted, ReadCurrent, ThreadInv, SoleCreators, UnreadyInv, WaitInv, RequestInv, EarlyInv;
    hide OrphanInv, TendedInv, SupervisedInv, CacheInv, FreshIds, ChannelInv, TimerInv, ClosedInv;
    RunInv(actions);
    var s, a := Run(actions), DoAwaitDone(t);
    AnswersExactly(s, a);
    ReadAt(s, t);
  }

  ghost predicate ReadRight(s: System, s': System, t: ThreadId, config: Config) {
    if config !in s.m.entries then Answers(s, s', t, config, NotAvailable)
    else
      && s.m.entries[config] in s.m.heap
      && var entry := s.m.heap[s.m.entries[config]];
         if entry.stale then Answers(s, s', t, config, NotAvailable)
         else
           && (forall catalog :: Answers(s, s', t, config, Served(catalog)) <==>
                 entry.catalog == Some(catalog) && entry.err.None? && !catalog.pending)
           && (forall error :: Answers(s, s', t, config, Refused(error)) <==> entry.err == Some(error) == Some(Failed))
           && (Answers(s, s', t, config, NilLookup) <==> entry.catalog.None? && entry.err.None?)
           && (GoesOn(s, s', t, config) <==>
                 entry.err == Some(Unauthorized)
                 || (entry.err.None? && entry.catalog.Some? && entry.catalog.value.pending))
  }

  lemma ReadAt(s: System, t: ThreadId)
    requires Enabled(s, DoAwaitDone(t)) && CacheInv(s.m)
    ensures var a, config := DoAwaitDone(t), s.m.heap[At(s, t).e].config;
      && (NextReply(s, a).Some? ==> Wanted(s, a) == config)
      && (config in s.m.entries ==> s.m.entries[config] in s.m.heap)
      && NextReply(s, a) ==
           if config !in s.m.entries || s.m.heap[s.m.entries[config]].stale then Some(NotAvailable)
           else
             var entry := s.m.heap[s.m.entries[config]];
             if entry.err.Some? then (if entry.err.value.Failed? then Some(Refused(Failed)) else None)
             else if entry.catalog.None? then Some(NilLookup)
             else if entry.catalog.value.pending then None
             else Some(Served(entry.catalog.value))
    ensures var a, config := DoAwaitDone(t), s.m.heap[At(s, t).e].config;
      NextThread(s, a) == if NextReply(s, a).None? then OwnCompiling(config, s.clock) else Idle
  {
  }

  /** The reply comes from a compile that is on record with that outcome; a pending catalog
      is only handed out where authorization is deferred. */
  ghost predicate Justified(outcomes: map<nat, bool>, got: Got) {
    match got.reply
    case Served(catalog) => Ended(outcomes, catalog.began, true) && (catalog.pending ==> got.config.deferAuthorization)
    case Refused(_) => SomeFailure(outcomes)
    case _ => true
  }

  ghost predicate SomeFailure(outcomes: map<nat, bool>) {
    exists began :: Ended(outcomes, began, false)
  }

  ghost predicate RepliesInv(s: System) {
    && (forall i :: 0 <= i < |s.gets| ==> Justified(s.outcomes, s.gets[i]))
    && (forall e :: e in s.m.heap && s.m.heap[e].err.Some? ==> SomeFailure(s.outcomes))
  }

  /** Main result. Every Get that was ever served got the catalog of a compile that is on
      record as a success, and a pending one only where authorization is deferred; and
      no Get is refused unless some compile is on record as a failure. */
  lemma {:induction false} RepliesJustified(actions: seq<Action>)
    ensures RepliesInv(Run(actions))
  {
    if |actions| > 0 {
      var init, a := actions[..|actions| - 1], actions[|actions| - 1];
      RepliesJustified(init);
      if Enabled(Run(init), a) { RepliesKept(init, a); }
    }
  }

  lemma RepliesKept(actions: seq<Action>, a: Action)
    requires Enabled(Run(actions), a) && RepliesInv(Run(actions))
    ensures RepliesInv(Next(Run(actions), a))
  {
    var s, s' := Run(actions), Next(Run(actions), a);
    NextHasMemory(s, a);
    GetsGrow(s, a);
    OutcomesLast(actions, a);
    ErrorsJustified(actions, a);
    if NextReply(s, a).Some? { NextJustified(actions, a); }
    hide Run, Next, NextMemory, NextReply, Wanted;
    forall i | 0 <= i < |s'.gets| ensures Justified(s'.outcomes, s'.gets[i]) {
      if i < |s.gets| { StillJustified(s.outcomes, s'.outcomes, s.gets[i]); }
    }
  }

  lemma GetsGrow(s: System, a: Action)
    requires Enabled(s, a)
    ensures Next(s, a).gets ==
      s.gets + if NextReply(s, a).Some? then [Got(a.t, Wanted(s, a), NextReply(s, a).value)] else []
  {
  }

  ghost predicate Extends(outcomes: map<nat, bool>, outcomes': map<nat, bool>) {
    forall began, success :: Ended(outcomes, began, success) ==> Ended(outcomes', began, success)
  }

  lemma StillJustified(outcomes: map<nat, bool>, outcomes': map<nat, bool>, got: Got)
    requires Extends(outcomes, outcomes') && Justified(outcomes, got)
    ensures Justified(outcomes', got)
  {
    if got.reply.Refused? {
      var began :| Ended(outcomes, began, false);
      assert Ended(outcomes', began, false);
    }
  }

  lemma OutcomesLast(actions: seq<Action>, a: Action)
    requires Enabled(Run(actions), a)
    ensures Extends(Run(actions).outcomes, Next(Run(actions), a).outcomes)
    ensures Compiles(At(Run(actions), a.t)) ==>
      Ended(Next(Run(actions), a).outcomes, At(Run(actions), a.t).began, a.compiled.Success?)
  {
    hide Run, Next, Enabled;
    forall began, success | Ended(Run(actions).outcomes, began, success)
      ensures Ended(Next(Run(actions), a).outcomes, began, success)
    {
      OutcomesRecorded(actions, a, began);
    }
    OutcomesRecorded(actions, a, 0);
  }

  lemma ErrorsJustified(actions: seq<Action>, a: Action)
    requires Enabled(Run(actions), a) && RepliesInv(Run(actions))
    ensures var s' := Next(Run(actions), a);
      forall e :: e in s'.m.heap && s'.m.heap[e].err.Some? ==> SomeFailure(s'.outcomes)
  {
    var s, s' := Run(actions), Next(Run(actions), a);
    RunInv(actions);
    NextHasMemory(s, a);
    OutcomesLast(actions, a);
    hide Run, Next, NextMemory, MemInv, ThreadInv;
    forall e | e in s'.m.heap && s'.m.heap[e].err.Some? ensures SomeFailure(s'.outcomes) {
      if e !in s.m.heap {
        NewError(s, a, e);
      } else {
        StepServes(s, a, e);
        OneRole(s, a, e);
        if s.m.heap[e].err.Some? {
          var began :| Ended(s.outcomes, began, false);
          assert Ended(s'.outcomes, began, false);
        } else {
          assert Ended(s'.outcomes, At(s, a.t).began, false);
        }
      }
    }
  }

  lemma NewError(s: System, a: Action, e: EntryId)
    requires MemInv(s.m) && ThreadInv(s) && Enabled(s, a) && e !in s.m.heap && e in NextMemory(s, a).heap
    ensures NextMemory(s, a).heap[e].err.None?
  {
    if !MayInstall(s, a) { NoneAdded(s, a, e); } else { InstalledError(s, a, e); }
  }

  lemma InstalledError(s: System, a: Action, e: EntryId)
    requires Enabled(s, a) && MayInstall(s, a) && e !in s.m.heap && e in NextMemory(s, a).heap
    ensures NextMemory(s, a).heap[e].err.None?
  {
  }

  lemma NextJustified(actions: seq<Action>, a: Action)
    requires Enabled(Run(actions), a) && RepliesInv(Run(actions)) && NextReply(Run(actions), a).Some?
    ensures var s, s' := Run(actions), Next(Run(actions), a);
      Justified(s'.outcomes, Got(a.t, Wanted(s, a), NextReply(s, a).value))
  {
    var s, s' := Run(actions), Next(Run(actions), a);
    OutcomesLast(actions, a);
    RunInv(actions);
    RunOutcomes(actions);
    hide Run, Next;
    assert Grounded(s.m, s.clock, At(s, a.t));
    if a.DoAwaitReady? || a.DoAwaitDone? {
      ReadJustified(s, a);
      hide NextReply, Wanted;
      StillJustified(s.outcomes, s'.outcomes, Got(a.t, Wanted(s, a), NextReply(s, a).value));
    } else if Compiles(At(s, a.t)) {
      assert Ended(s'.outcomes, At(s, a.t).began, a.compiled.Success?);
    }
  }

  /** What a Get reads from an entry is justified by what was stored there. */
  lemma ReadJustified(s: System, a: Action)
    requires CacheInv(s.m) && OutcomeInv(s) && RepliesInv(s) && Enabled(s, a) && (a.DoAwaitReady? || a.DoAwaitDone?)
    requires NextReply(s, a).Some?
    ensures Justified(s.outcomes, Got(a.t, Wanted(s, a), NextReply(s, a).value))
  {
  }
}

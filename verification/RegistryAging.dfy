/** Exactly when a registry entry serves a catalog that is older than a request, in
    every run: also where timers outlive their entries, and where somebody asked
    before the entry was ready. */
module RegistryAging {
  import opened Wrappers
  import opened RegistrySections
  import opened RegistryMemory
  import opened RegistryRuns
  import opened RegistryThreads
  import opened RegistryFreshness
  import opened RegistryWaits
  import opened RegistryResults
  import opened RegistryInvalidation

  // ---- How one action changes what an entry serves ----

  /** The action ends the compile of the entry's creator. */
  predicate Creates(s: System, a: Action, e: EntryId)
    requires Enabled(s, a)
  {
    a.DoCreated? && At(s, a.t).e == e
  }

  /** The action ends a refresh that publishes in the entry. */
  predicate Concludes(s: System, a: Action, e: EntryId)
    requires Enabled(s, a)
  {
    || (a.DoRerun? && At(s, a.t).e == e && Current(s.m, e))
    || (a.DoRefreshed? && At(s, a.t).target == Some(e) && !s.m.closed)
  }

  /** An explicit refresh that marked no entry fails while this one is installed. */
  predicate FailsBeside(s: System, a: Action, e: EntryId)
    requires Enabled(s, a)
  {
    && a.DoRefreshed? && a.compiled.Failure? && At(s, a.t).target.None? && At(s, a.t).config.toolSearch
    && InstalledAt(s.m, At(s, a.t).config) == Some(e)
  }

  predicate HoldsBack(s: System, a: Action, e: EntryId)
    requires Enabled(s, a) && e in s.m.heap
  {
    || Asked(s, a) == Some(e) || FailsBeside(s, a, e)
    || (Concludes(s, a, e) && (a.compiled.Failure? || s.m.heap[e].pending))
  }

  /** What the action makes of what the entry serves. */
  ghost predicate Serves(s: System, a: Action, e: EntryId)
    requires Enabled(s, a) && e in s.m.heap
  {
    var entry, m' := s.m.heap[e], NextMemory(s, a);
    var stores := (Creates(s, a, e) || Concludes(s, a, e)) && a.compiled.Success?;
    && e in m'.heap && m'.heap[e].config == entry.config
    && (m'.heap[e].ready <==> entry.ready || Creates(s, a, e))
    && (m'.heap[e].stale <==>
          if entry.config.toolSearch then HoldsBack(s, a, e) || (entry.stale && !Concludes(s, a, e)) else entry.stale)
    && m'.heap[e].catalog ==
       (if stores then Some(a.compiled.catalog) else if Creates(s, a, e) then None else entry.catalog)
    && m'.heap[e].err ==
       (if stores then None else if Creates(s, a, e) then Some(a.compiled.error) else entry.err)
  }

  lemma FinishServes(m: Memory, e: EntryId, compiled: Compiled)
    requires e in m.heap
    ensures var entry, m' := m.heap[e], FinishRefresh(m, e, compiled);
      && e in m'.heap && m'.heap[e].config == entry.config && m'.heap[e].ready == entry.ready
      && (m'.heap[e].stale <==> if entry.config.toolSearch then compiled.Failure? || entry.pending else entry.stale)
      && m'.heap[e].catalog == (if compiled.Success? then Some(compiled.catalog) else entry.catalog)
      && m'.heap[e].err == (if compiled.Success? then None else entry.err)
  {
  }

  predicate SameButStale(entry: Entry, entry': Entry) {
    && entry'.config == entry.config && entry'.ready == entry.ready
    && entry'.catalog == entry.catalog && entry'.err == entry.err
  }

  lemma RequestServes(m: Memory, config: Config, callback: Option<Callback>)
    requires CacheInv(m) && config in m.entries
    ensures var m', e := RequestRefresh(m, config, callback), m.entries[config];
      && e in m'.heap && SameButStale(m.heap[e], m'.heap[e])
      && (m'.heap[e].stale <==> m.heap[e].stale || (config.toolSearch && !m.closed))
  {
    if !m.closed {
      MarkServes(m, m.entries[config], callback);
      ScheduleServes(MarkRequested(m, m.entries[config], callback), m.entries[config]);
      hide MarkRequested, Schedule;
    }
  }

  lemma MarkServes(m: Memory, e: EntryId, callback: Option<Callback>)
    requires e in m.heap
    ensures var m' := MarkRequested(m, e, callback);
      && e in m'.heap && SameButStale(m.heap[e], m'.heap[e])
      && (m'.heap[e].stale <==> m.heap[e].stale || m.heap[e].config.toolSearch)
  {
  }

  lemma ScheduleServes(m: Memory, e: EntryId)
    requires e in m.heap
    ensures e in Schedule(m, e).heap && SameButStale(m.heap[e], Schedule(m, e).heap[e])
    ensures Schedule(m, e).heap[e].stale == m.heap[e].stale
  {
  }

  lemma ReplaceServes(m: Memory, config: Config, compiled: Compiled)
    requires CacheInv(m) && FreshIds(m) && config in m.entries
    ensures var m', e := ReplaceEntry(m, config, compiled), m.entries[config];
      e in m'.heap && SameButStale(m.heap[e], m'.heap[e])
      && (m'.heap[e].stale <==> m.heap[e].stale || (config.toolSearch && compiled.Failure?))
  {
  }

  lemma QuietServes(s: System, a: Action, e: EntryId)
    requires CacheInv(s.m) && Enabled(s, a) && Focus(s, a) == Some(e) && e in s.m.heap
    requires a.DoRefresh? || a.DoFire?
    ensures Serves(s, a, e)
  {
  }

  lemma WaitServes(s: System, a: Action, e: EntryId)
    requires Enabled(s, a) && a.DoAwaitReady? && At(s, a.t).e == e && e in s.m.heap
    ensures Serves(s, a, e)
  {
  }

  lemma CreatedServes(s: System, a: Action, e: EntryId)
    requires Enabled(s, a) && a.DoCreated? && At(s, a.t).e == e && e in s.m.heap
    ensures Serves(s, a, e)
  {
  }

  lemma RefreshedServes(s: System, a: Action, e: EntryId)
    requires CacheInv(s.m) && FreshIds(s.m) && Enabled(s, a) && a.DoRefreshed? && Focus(s, a) == Some(e)
    requires e in s.m.heap && Grounded(s.m, s.clock, At(s, a.t))
    ensures Serves(s, a, e)
  {
    hide FinishRefresh, ReplaceEntry;
    if At(s, a.t).target.Some? { FinishServes(s.m, e, a.compiled); }
    else { ReplaceServes(s.m, At(s, a.t).config, a.compiled); }
  }

  lemma RequestedServes(s: System, a: Action, e: EntryId)
    requires CacheInv(s.m) && Enabled(s, a) && a.DoRequest? && Focus(s, a) == Some(e)
    requires e in s.m.heap
    ensures Serves(s, a, e)
  {
    hide RequestRefresh;
    RequestServes(s.m, a.config, if a.callback then Some(s.clock) else None);
  }

  lemma RerunServes(s: System, a: Action, e: EntryId)
    requires Enabled(s, a) && a.DoRerun? && At(s, a.t).e == e && e in s.m.heap
    ensures Serves(s, a, e)
  {
    hide FinishRefresh;
    FinishServes(s.m, e, a.compiled);
  }

  lemma FocusServes(s: System, a: Action, e: EntryId)
    requires MemInv(s.m) && ThreadInv(s) && Enabled(s, a) && Focus(s, a) == Some(e) && e in s.m.heap
    ensures Serves(s, a, e)
  {
    assert Grounded(s.m, s.clock, At(s, a.t));
    hide Serves, NextMemory;
    match a
    case DoRequest(_, _, _) => RequestedServes(s, a, e);
    case DoRefreshed(_, _) => RefreshedServes(s, a, e);
    case DoRerun(_, _) => RerunServes(s, a, e);
    case DoCreated(_, _) => CreatedServes(s, a, e);
    case DoAwaitReady(_) => WaitServes(s, a, e);
    case _ => QuietServes(s, a, e);
  }

  lemma ElsewhereServes(s: System, a: Action, e: EntryId)
    requires MemInv(s.m) && ThreadInv(s) && Enabled(s, a) && Elsewhere(s, a, e)
    ensures Serves(s, a, e)
  {
    hide NextMemory, ThreadInv, MemInv, Elsewhere, Asked, Creates, Concludes, FailsBeside;
    ElsewhereQuiet(s, a, e);
    ElsewhereSame(s, a, e);
  }

  lemma ElsewhereQuiet(s: System, a: Action, e: EntryId)
    requires MemInv(s.m) && Enabled(s, a) && Elsewhere(s, a, e)
    ensures e in s.m.heap && !Creates(s, a, e) && !Concludes(s, a, e) && !FailsBeside(s, a, e) && Asked(s, a) != Some(e)
  {
    AskedIsFocus(s, a);
  }

  lemma StepServes(s: System, a: Action, e: EntryId)
    requires MemInv(s.m) && ThreadInv(s) && Enabled(s, a) && e in s.m.heap
    ensures Serves(s, a, e)
  {
    if Elsewhere(s, a, e) { ElsewhereServes(s, a, e); } else { FocusServes(s, a, e); }
  }

  /** A search entry is held back after a step exactly if the step asks to refresh it,
      or ends a refresh of it in vain, or if it was and no refresh of it ended. That
      goes for any explicit refresh that fails beside it, whenever that one began. */
  lemma HeldBackExactly(actions: seq<Action>, a: Action, e: EntryId)
    requires var s := Run(actions); Enabled(s, a) && e in s.m.heap && s.m.heap[e].config.toolSearch
    ensures var s := Run(actions); var m' := Next(s, a).m;
      && e in m'.heap
      && (m'.heap[e].stale <==> HoldsBack(s, a, e) || (s.m.heap[e].stale && !Concludes(s, a, e)))
  {
    RunInv(actions);
    StepServes(Run(actions), a, e);
  }

  // ---- Aged entries ----

  /** The entry serves a catalog that is older than the latest request. */
  predicate Aged(s: System, e: EntryId) {
    && e in s.m.heap && s.m.heap[e].config.toolSearch && s.m.heap[e].ready && !s.m.heap[e].stale
    && s.m.heap[e].catalog.Some? && s.m.heap[e].catalog.value.began < LastAsked(s, e)
  }

  /** A refresh that began before the latest request ends well with nothing pending; or
      the creator does, and the entry is not held back. */
  predicate Ages(s: System, a: Action, e: EntryId)
    requires Enabled(s, a)
  {
    && e in s.m.heap && s.m.heap[e].config.toolSearch
    && (Concludes(s, a, e) || Creates(s, a, e)) && a.compiled.Success? && At(s, a.t).began < LastAsked(s, e)
    && (Concludes(s, a, e) ==> s.m.heap[e].ready && !s.m.heap[e].pending)
    && (Creates(s, a, e) ==> !s.m.heap[e].stale)
  }

  predicate Cures(s: System, a: Action, e: EntryId)
    requires Enabled(s, a)
  {
    Asked(s, a) == Some(e) || Concludes(s, a, e) || FailsBeside(s, a, e)
  }

  lemma AskedLast(s: System, a: Action, e: EntryId)
    requires Enabled(s, a)
    ensures LastAsked(Next(s, a), e) == if Asked(s, a) == Some(e) then s.clock else LastAsked(s, e)
  {
  }

  lemma NewNotAged(s: System, a: Action, e: EntryId)
    requires MemInv(s.m) && RequestInv(s) && Enabled(s, a) && e !in s.m.heap
    ensures !Aged(Next(s, a), e)
  {
    hide Next, NextMemory, Asked;
    AskedIsFocus(s, a);
    AskedLast(s, a, e);
  }

  lemma AgedStep(s: System, a: Action, e: EntryId)
    requires MemInv(s.m) && ThreadInv(s) && Enabled(s, a) && e in s.m.heap
    ensures Aged(Next(s, a), e) <==> Ages(s, a, e) || (Aged(s, e) && !Cures(s, a, e))
  {
    hide Next, NextMemory, MemInv, ThreadInv, Asked, Concludes, Creates, FailsBeside;
    AskedLast(s, a, e);
    NextHasMemory(s, a);
    StepSteady(s, a);
    assert Steady(s.m, NextMemory(s, a), e);
    if s.m.heap[e].config.toolSearch {
      StepServes(s, a, e);
      OneRole(s, a, e);
    }
  }

  lemma OneRole(s: System, a: Action, e: EntryId)
    requires ThreadInv(s) && Enabled(s, a) && e in s.m.heap
    ensures Asked(s, a) == Some(e) ==> !Concludes(s, a, e) && !Creates(s, a, e)
    ensures FailsBeside(s, a, e) ==> !Concludes(s, a, e) && !Creates(s, a, e)
    ensures Concludes(s, a, e) ==> !Creates(s, a, e)
    ensures Creates(s, a, e) ==> !s.m.heap[e].ready
    ensures Concludes(s, a, e) || Creates(s, a, e) ==> a.DoCreated? || a.DoRerun? || a.DoRefreshed?
    ensures (Concludes(s, a, e) || Creates(s, a, e)) && a.compiled.Success? ==>
      a.compiled.catalog.began == At(s, a.t).began
  {
    assert Grounded(s.m, s.clock, At(s, a.t));
  }

  /** Main result. In every run, an entry serves an older catalog after a step exactly if
      the step ages it, or if it did before and the step does not cure it. */
  lemma AgedExactly(actions: seq<Action>, a: Action, e: EntryId)
    requires Enabled(Run(actions), a)
    ensures var s := Run(actions); Aged(Next(s, a), e) <==> Ages(s, a, e) || (Aged(s, e) && !Cures(s, a, e))
  {
    RunInv(actions);
    if e in Run(actions).m.heap { AgedStep(Run(actions), a, e); } else { NewNotAged(Run(actions), a, e); }
  }

  /** Only an overlap after some timer has outlived an entry of the configuration makes a
      refresh age its entry. A creator ages its entry exactly if somebody asked before
      it was ready and nothing holds it back. */
  lemma AgesOnlyWhen(actions: seq<Action>, a: Action, e: EntryId)
    requires Enabled(Run(actions), a)
    ensures var s := Run(actions); Ages(s, a, e) && !Creates(s, a, e) ==> s.m.heap[e].config in s.disturbed
    ensures var s := Run(actions);
      Creates(s, a, e) ==>
        (Ages(s, a, e) <==>
          a.compiled.Success? && s.m.heap[e].config.toolSearch && !s.m.heap[e].stale && e in s.early)
  {
    RunInv(actions);
    var s := Run(actions);
    assert Grounded(s.m, s.clock, At(s, a.t));
    if Ages(s, a, e) { assert Tended(s, e); }
  }

  // ---- Over a whole run ----

  ghost predicate AgesAt(actions: seq<Action>, i: nat, e: EntryId)
    requires i < |actions|
  {
    Enabled(Run(actions[..i]), actions[i]) && Ages(Run(actions[..i]), actions[i], e)
  }

  ghost predicate CuresAt(actions: seq<Action>, i: nat, e: EntryId)
    requires i < |actions|
  {
    Enabled(Run(actions[..i]), actions[i]) && Cures(Run(actions[..i]), actions[i], e)
  }

  /** The i-th step ages the entry, and no later one cures it. */
  ghost predicate AgedSince(actions: seq<Action>, i: nat, e: EntryId)
    requires i < |actions|
  {
    AgesAt(actions, i, e) && forall j :: i < j < |actions| ==> !CuresAt(actions, j, e)
  }

  /** Main result. A run leaves an entry serving an older catalog exactly if one of its
      steps aged the entry and none has cured it since. */
  lemma {:induction false} AgedByRun(actions: seq<Action>, e: EntryId)
    ensures Aged(Run(actions), e) <==> exists i :: 0 <= i < |actions| && AgedSince(actions, i, e)
  {
    hide Aged, Ages, Cures, Next, Enabled;
    if |actions| == 0 {
      StartNotAged(e);
    } else {
      var n := |actions| - 1;
      var init := actions[..n];
      AgedByRun(init, e);
      forall i: nat | i < n
        ensures (AgesAt(init, i, e) <==> AgesAt(actions, i, e)) && (CuresAt(init, i, e) <==> CuresAt(actions, i, e))
      {
        assert init[i] == actions[i] && init[..i] == actions[..i];
      }
      if Enabled(Run(init), actions[n]) { AgedExactly(init, actions[n], e); }
      if i :| 0 <= i < n && AgedSince(init, i, e) && !CuresAt(actions, n, e) {
        assert AgedSince(actions, i, e);
      }
      if i :| 0 <= i < n && AgedSince(actions, i, e) {
        assert AgedSince(init, i, e);
      }
      assert AgesAt(actions, n, e) <==> AgedSince(actions, n, e);
    }
  }

  lemma StartNotAged(e: EntryId)
    ensures !Aged(Run([]), e)
  {
  }

  // ---- What is served ----

  /** A ready entry holds a catalog or an error, and not both. */
  ghost predicate ToldInv(s: System) {
    forall e :: e in s.m.heap && s.m.heap[e].ready ==>
      (s.m.heap[e].catalog.Some? <==> s.m.heap[e].err.None?)
  }

  lemma {:induction false} RunTold(actions: seq<Action>)
    ensures ToldInv(Run(actions))
  {
    if |actions| > 0 {
      var s, a := Run(actions[..|actions| - 1]), actions[|actions| - 1];
      RunTold(actions[..|actions| - 1]);
      RunInv(actions[..|actions| - 1]);
      if Enabled(s, a) { ToldKept(s, a); }
    }
  }

  lemma ToldKept(s: System, a: Action)
    requires MemInv(s.m) && ThreadInv(s) && ToldInv(s) && Enabled(s, a)
    ensures ToldInv(Next(s, a))
  {
    hide Next, NextMemory, MemInv, ThreadInv, Asked, Concludes, Creates, FailsBeside, HoldsBack, Enabled;
    NextHasMemory(s, a);
    StepSteady(s, a);
    forall e | e in NextMemory(s, a).heap && NextMemory(s, a).heap[e].ready
      ensures NextMemory(s, a).heap[e].catalog.Some? <==> NextMemory(s, a).heap[e].err.None?
    {
      if e in s.m.heap {
        assert Steady(s.m, NextMemory(s, a), e);
        StepServes(s, a, e);
      } else {
        NewTold(s, a, e);
      }
    }
  }

  lemma NewTold(s: System, a: Action, e: EntryId)
    requires MemInv(s.m) && ThreadInv(s) && Enabled(s, a) && e !in s.m.heap
    requires e in NextMemory(s, a).heap && NextMemory(s, a).heap[e].ready
    ensures NextMemory(s, a).heap[e].catalog.Some? && NextMemory(s, a).heap[e].err.None?
  {
    if MayInstall(s, a) { InstalledTold(s, a, e); } else { NoneAdded(s, a, e); }
  }

  lemma InstalledTold(s: System, a: Action, e: EntryId)
    requires Enabled(s, a) && MayInstall(s, a) && e !in s.m.heap
    requires e in NextMemory(s, a).heap && NextMemory(s, a).heap[e].ready
    ensures NextMemory(s, a).heap[e].catalog.Some? && NextMemory(s, a).heap[e].err.None?
  {
  }

  lemma NoneAdded(s: System, a: Action, e: EntryId)
    requires Enabled(s, a) && !MayInstall(s, a) && e !in s.m.heap
    ensures e !in NextMemory(s, a).heap
  {
  }

  /** Main result. In every run, the sections that read a ready search entry, installed
      or not, fail closed for the latest request exactly if the entry is not aged. If it
      is, they hand out its older catalog without error. */
  lemma ServedExactly(actions: seq<Action>, e: EntryId)
    requires var s := Run(actions); e in s.m.heap && s.m.heap[e].config.toolSearch && s.m.heap[e].ready
    ensures var s := Run(actions);
      ServesFailClosed(s.m, e, LastAsked(s, e)) <==> !Aged(s, e)
    ensures var s := Run(actions); var entry := s.m.heap[e];
      Aged(s, e) ==>
        && WaitSection(s.m, e).1 == Answer(entry.catalog, None)
        && (Current(s.m, e) ==> ReadCurrent(s.m, entry.config) == Found(entry.catalog, None))
  {
    RunInv(actions);
    RunTold(actions);
    hide Run, TendedInv, SupervisedInv, ThreadInv;
  }

  /** Main result. After an effective request `a` for a search entry, whatever happens,
      the entry fails closed for the latest request exactly unless some later step has
      aged it and none has cured it since. */
  lemma FailClosedExactly(before: seq<Action>, a: Action, after: seq<Action>, e: EntryId)
    requires Enabled(Run(before), a) && Asked(Run(before), a) == Some(e)
    requires var s := Run(before + [a] + after); e in s.m.heap && s.m.heap[e].config.toolSearch && s.m.heap[e].ready
    ensures var actions := before + [a] + after;
      ServesFailClosed(Run(actions).m, e, LastAsked(Run(actions), e)) <==>
        !exists i :: |before| < i < |actions| && AgedSince(actions, i, e)
    ensures Run(before).clock <= LastAsked(Run(before + [a] + after), e)
  {
    var actions := before + [a] + after;
    hide Run, Next, Aged, Ages, Asked, ServesFailClosed;
    ServedExactly(actions, e);
    AgedByRun(actions, e);
    LaterAsked(before, a, after, e);
    assert actions[..|before|] == before && actions[|before|] == a;
    NotAgesAsked(before, a, e);
    forall i: nat | i < |actions| && AgedSince(actions, i, e) ensures i > |before| {
      assert CuresAt(actions, |before|, e);
    }
  }

  lemma NotAgesAsked(before: seq<Action>, a: Action, e: EntryId)
    requires Enabled(Run(before), a) && Asked(Run(before), a) == Some(e)
    ensures !Ages(Run(before), a, e)
  {
    RunInv(before);
    if e in Run(before).m.heap { OneRole(Run(before), a, e); }
  }

  lemma LaterAsked(before: seq<Action>, a: Action, after: seq<Action>, e: EntryId)
    requires Enabled(Run(before), a) && Asked(Run(before), a) == Some(e)
    ensures Run(before).clock <= LastAsked(Run(before + [a] + after), e)
  {
    assert (before + [a])[..|before + [a]| - 1] == before;
    RunSplit(before + [a], after);
    AskedRemembered(Run(before + [a]), after, e);
  }
}

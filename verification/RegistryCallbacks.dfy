/** Refresh callbacks are delivered at most once, each with the outcome of a compile
    that began after the callback was registered. */
module RegistryCallbacks {
  import opened Wrappers
  import opened RegistrySections
  import opened RegistryMemory
  import opened RegistryRuns
  import opened RegistryThreads
  import opened RegistryFreshness

  /** Callbacks wait in the order of their registration, without repetition. */
  predicate Increasing(callbacks: seq<Callback>) {
    forall i, j :: 0 <= i < j < |callbacks| ==> callbacks[i] < callbacks[j]
  }

  ghost predicate Holds(s: System, callbacks: seq<Callback>, place: Place, bound: nat) {
    && Increasing(callbacks)
    && forall i :: 0 <= i < |callbacks| ==>
         callbacks[i] in s.place && s.place[callbacks[i]] == place && callbacks[i] < bound
  }

  function Carried(thread: Thread): seq<Callback> {
    if thread.Rerunning? || thread.Delivering? then thread.callbacks else []
  }

  function Deadline(thread: Thread): nat {
    if thread.Rerunning? || thread.Delivering? then thread.began else 0
  }

  ghost predicate EntryCalls(s: System) {
    forall e :: e in s.m.heap ==> Holds(s, s.m.heap[e].callbacks, InEntry(e), s.clock)
  }

  ghost predicate ThreadCalls(s: System) {
    forall t :: Holds(s, Carried(At(s, t)), InThread(t), Deadline(At(s, t)))
  }

  ghost predicate DeliveredCalls(s: System) {
    && (forall i :: 0 <= i < |s.delivered| ==>
          var d := s.delivered[i];
          d.callback in s.place && s.place[d.callback] == Delivered && d.callback < d.began)
    && (forall i, j :: 0 <= i < j < |s.delivered| ==> s.delivered[i].callback != s.delivered[j].callback)
    && (forall c :: c in s.place ==> c < s.clock)
  }

  ghost predicate CallInv(s: System) {
    EntryCalls(s) && ThreadCalls(s) && DeliveredCalls(s)
  }

  // ---- Which callbacks an action moves ----

  lemma FocusCallbacks(s: System, a: Action, e: EntryId)
    requires MemInv(s.m) && ThreadInv(s) && Enabled(s, a) && Focus(s, a) == Some(e)
    ensures e in NextMemory(s, a).heap
    ensures NextMemory(s, a).heap[e].callbacks ==
      if a.DoRequest? && a.callback && !s.m.closed then s.m.heap[e].callbacks + [s.clock]
      else if a.DoFire? && NextThread(s, a).Rerunning? then []
      else s.m.heap[e].callbacks
  {
    hide FinishRefresh, RequestRefresh, ReplaceEntry, WaitSection;
    match a
    case DoRequest(_, config, callback) => RequestCallbacks(s.m, config, if callback then Some(s.clock) else None);
    case DoRefreshed(_, compiled) =>
      if At(s, a.t).target.Some? { FinishCallbacks(s.m, e, compiled); }
      else { ReplaceCallbacks(s.m, At(s, a.t).config, compiled); }
    case DoRerun(_, compiled) => FinishCallbacks(s.m, e, compiled);
    case DoAwaitReady(_) => WaitCallbacks(s.m, e);
    case _ =>
  }

  lemma ReplaceCallbacks(m: Memory, config: Config, compiled: Compiled)
    requires CacheInv(m) && FreshIds(m) && config in m.entries
    ensures var m', e := ReplaceEntry(m, config, compiled), m.entries[config];
      e in m'.heap && m'.heap[e].callbacks == m.heap[e].callbacks
  {
  }

  lemma WaitCallbacks(m: Memory, e: EntryId)
    requires e in m.heap
    ensures e in WaitSection(m, e).0.heap && WaitSection(m, e).0.heap[e].callbacks == m.heap[e].callbacks
  {
  }

  lemma FinishCallbacks(m: Memory, e: EntryId, compiled: Compiled)
    requires e in m.heap
    ensures e in FinishRefresh(m, e, compiled).heap
    ensures FinishRefresh(m, e, compiled).heap[e].callbacks == m.heap[e].callbacks
  {
  }

  lemma RequestCallbacks(m: Memory, config: Config, callback: Option<Callback>)
    requires CacheInv(m) && config in m.entries
    ensures var e := m.entries[config];
      && e in RequestRefresh(m, config, callback).heap
      && RequestRefresh(m, config, callback).heap[e].callbacks ==
           if callback.Some? && !m.closed then m.heap[e].callbacks + [callback.value] else m.heap[e].callbacks
  {
  }

  lemma NewEntryCallbacks(s: System, a: Action, e: EntryId)
    requires MemInv(s.m) && ThreadInv(s) && Enabled(s, a) && e !in s.m.heap && e in NextMemory(s, a).heap
    ensures NextMemory(s, a).heap[e].callbacks == []
  {
    if Sweeping(a) { StepSwept(s, a); } else { StepLocal(s, a); }
  }

  /** Places change only for the callback registered, taken up or delivered. */
  lemma PlaceKept(s: System, a: Action, c: Callback)
    requires Enabled(s, a) && c in s.place && c < s.clock
    requires a.DoFire? && NextThread(s, a).Rerunning? ==> c !in NextThread(s, a).callbacks
    requires a.DoDeliver? && |At(s, a.t).callbacks| > 0 ==> c != At(s, a.t).callbacks[0]
    ensures c in NextPlace(s, a) && NextPlace(s, a)[c] == s.place[c]
  {
  }

  lemma HoldsKept(s: System, a: Action, callbacks: seq<Callback>, place: Place, bound: nat)
    requires CallInv(s) && MemInv(s.m) && Enabled(s, a)
    requires Holds(s, callbacks, place, bound) && bound <= s.clock
    requires place != InThread(a.t)
    requires a.DoFire? && NextThread(s, a).Rerunning? ==> place != InEntry(NextThread(s, a).e)
    ensures Holds(Next(s, a), callbacks, place, bound)
  {
    assert Holds(s, Carried(At(s, a.t)), InThread(a.t), Deadline(At(s, a.t)));
    forall i | 0 <= i < |callbacks|
      ensures callbacks[i] in NextPlace(s, a) && NextPlace(s, a)[callbacks[i]] == place
    {
      PlaceKept(s, a, callbacks[i]);
    }
  }

  lemma EntryCallsKept(s: System, a: Action)
    requires MemInv(s.m) && ThreadInv(s) && CallInv(s) && Enabled(s, a)
    ensures EntryCalls(Next(s, a))
  {
    forall e | e in Next(s, a).m.heap
      ensures Holds(Next(s, a), Next(s, a).m.heap[e].callbacks, InEntry(e), s.clock + 1) {
      OneEntryKept(s, a, e);
    }
  }

  lemma OneEntryKept(s: System, a: Action, e: EntryId)
    requires MemInv(s.m) && ThreadInv(s) && CallInv(s) && Enabled(s, a) && e in NextMemory(s, a).heap
    ensures Holds(Next(s, a), NextMemory(s, a).heap[e].callbacks, InEntry(e), s.clock + 1)
  {
    hide NextMemory, NextPlace, NextThread, MemInv, ThreadInv, Holds;
    if e !in s.m.heap {
      NewEntryCallbacks(s, a, e);
      NothingHeld(Next(s, a), InEntry(e), s.clock + 1);
    } else if Sweeping(a) || Focus(s, a) != Some(e) {
      ElsewhereKept(s, a, e);
    } else {
      FocusKept(s, a, e);
    }
  }

  lemma NothingHeld(s: System, place: Place, bound: nat)
    ensures Holds(s, [], place, bound)
  {
  }

  lemma ElsewhereKept(s: System, a: Action, e: EntryId)
    requires MemInv(s.m) && ThreadInv(s) && CallInv(s) && Enabled(s, a) && Elsewhere(s, a, e)
    ensures e in NextMemory(s, a).heap && Holds(Next(s, a), NextMemory(s, a).heap[e].callbacks, InEntry(e), s.clock + 1)
  {
    ElsewhereSame(s, a, e);
    assert a.DoFire? && NextThread(s, a).Rerunning? ==> NextThread(s, a).e != e;
    hide NextMemory, NextPlace, NextThread;
    HoldsKept(s, a, s.m.heap[e].callbacks, InEntry(e), s.clock);
  }

  lemma FocusKept(s: System, a: Action, e: EntryId)
    requires MemInv(s.m) && ThreadInv(s) && CallInv(s) && Enabled(s, a) && Focus(s, a) == Some(e)
    ensures e in NextMemory(s, a).heap && Holds(Next(s, a), NextMemory(s, a).heap[e].callbacks, InEntry(e), s.clock + 1)
  {
    hide *;
    AskedIsFocusEntry(s, a, e);
    FocusCallbacks(s, a, e);
    EntryHolds(s, e);
    if a.DoFire? && NextThread(s, a).Rerunning? {
      NothingHeld(Next(s, a), InEntry(e), s.clock + 1);
    } else {
      HoldsKept(s, a, s.m.heap[e].callbacks, InEntry(e), s.clock);
      HoldsLater(Next(s, a), s.m.heap[e].callbacks, InEntry(e), s.clock);
      if a.DoRequest? && a.callback && !s.m.closed {
        Registered(s, a, e);
        HoldsAppend(Next(s, a), s.m.heap[e].callbacks, InEntry(e), s.clock);
      }
    }
  }

  lemma EntryHolds(s: System, e: EntryId)
    requires CallInv(s) && e in s.m.heap
    ensures Holds(s, s.m.heap[e].callbacks, InEntry(e), s.clock)
  {
  }

  lemma HoldsLater(s: System, callbacks: seq<Callback>, place: Place, bound: nat)
    requires Holds(s, callbacks, place, bound)
    ensures Holds(s, callbacks, place, bound + 1)
  {
  }

  lemma HoldsAppend(s: System, callbacks: seq<Callback>, place: Place, c: Callback)
    requires Holds(s, callbacks, place, c) && c in s.place && s.place[c] == place
    ensures Holds(s, callbacks + [c], place, c + 1)
  {
  }

  lemma AskedIsFocusEntry(s: System, a: Action, e: EntryId)
    requires MemInv(s.m) && ThreadInv(s) && Enabled(s, a) && Focus(s, a) == Some(e)
    ensures e in s.m.heap
  {
    assert Grounded(s.m, s.clock, At(s, a.t));
  }

  lemma Registered(s: System, a: Action, e: EntryId)
    requires Enabled(s, a) && a.DoRequest? && a.callback && !s.m.closed && Focus(s, a) == Some(e)
    ensures s.clock in Next(s, a).place && Next(s, a).place[s.clock] == InEntry(e)
  {
  }

  lemma ThreadCallsKept(s: System, a: Action)
    requires MemInv(s.m) && ThreadInv(s) && CallInv(s) && Enabled(s, a)
    ensures ThreadCalls(Next(s, a))
  {
    var s' := Next(s, a);
    OnlyActorMoves(s, a);
    forall t ensures Holds(s', Carried(At(s', t)), InThread(t), Deadline(At(s', t))) {
      assert Holds(s, Carried(At(s, t)), InThread(t), Deadline(At(s, t)));
      if t != a.t {
        assert At(s', t) == At(s, t) && Grounded(s.m, s.clock, At(s, t));
        HoldsKept(s, a, Carried(At(s, t)), InThread(t), Deadline(At(s, t)));
      } else {
        ActorCarries(s, a);
      }
    }
  }

  /** A background refresh takes its entry's callbacks, and delivers them in order. */
  lemma ActorCarries(s: System, a: Action)
    requires MemInv(s.m) && ThreadInv(s) && CallInv(s) && Enabled(s, a)
    ensures Holds(Next(s, a), Carried(NextThread(s, a)), InThread(a.t), Deadline(NextThread(s, a)))
  {
    assert Holds(s, Carried(At(s, a.t)), InThread(a.t), Deadline(At(s, a.t)));
    match a
    case DoFire(t, timer) => TakesCallbacks(s, a);
    case DoRerun(_, _) =>
    case DoDeliver(_) => DeliversOne(s, a);
    case _ => assert Carried(NextThread(s, a)) == [];
  }

  lemma TakesCallbacks(s: System, a: Action)
    requires CacheInv(s.m) && CallInv(s) && Enabled(s, a) && a.DoFire?
    ensures Holds(Next(s, a), Carried(NextThread(s, a)), InThread(a.t), Deadline(NextThread(s, a)))
  {
    if NextThread(s, a).Rerunning? {
      var e := NextThread(s, a).e;
      assert Holds(s, s.m.heap[e].callbacks, InEntry(e), s.clock);
    }
  }

  lemma DeliversOne(s: System, a: Action)
    requires Enabled(s, a) && a.DoDeliver?
    requires Holds(s, Carried(At(s, a.t)), InThread(a.t), Deadline(At(s, a.t)))
    ensures Holds(Next(s, a), Carried(NextThread(s, a)), InThread(a.t), Deadline(NextThread(s, a)))
  {
  }

  lemma DeliveredKept(s: System, a: Action)
    requires MemInv(s.m) && CallInv(s) && Enabled(s, a)
    ensures DeliveredCalls(Next(s, a))
  {
    var s' := Next(s, a);
    assert Holds(s, Carried(At(s, a.t)), InThread(a.t), Deadline(At(s, a.t)));
    forall i | 0 <= i < |s.delivered|
      ensures s.delivered[i].callback in NextPlace(s, a) && NextPlace(s, a)[s.delivered[i].callback] == Delivered
    {
      var c := s.delivered[i].callback;
      if a.DoFire? && NextThread(s, a).Rerunning? {
        assert Holds(s, s.m.heap[NextThread(s, a).e].callbacks, InEntry(NextThread(s, a).e), s.clock);
      }
      PlaceKept(s, a, c);
    }
  }

  lemma {:induction false} RunCallInv(actions: seq<Action>)
    ensures CallInv(Run(actions))
  {
    if |actions| > 0 {
      var s, a := Run(actions[..|actions| - 1]), actions[|actions| - 1];
      RunCallInv(actions[..|actions| - 1]);
      RunInv(actions[..|actions| - 1]);
      if Enabled(s, a) {
        EntryCallsKept(s, a);
        ThreadCallsKept(s, a);
        DeliveredKept(s, a);
      }
    }
  }

  // ---- Outcomes ----

  /** Each compile has its own start time and ends once. */
  ghost predicate CompileInv(s: System) {
    && (forall t :: Compiles(At(s, t)) ==> At(s, t).began < s.clock && At(s, t).began !in s.outcomes)
    && (forall t, u :: t != u && Compiles(At(s, t)) && Compiles(At(s, u)) ==> At(s, t).began != At(s, u).began)
    && (forall began :: began in s.outcomes ==> began < s.clock)
  }

  predicate Ended(outcomes: map<nat, bool>, began: nat, success: bool) {
    began in outcomes && outcomes[began] == success
  }

  /** Whatever is delivered, or about to be, is the outcome of its compile. */
  ghost predicate ReportInv(s: System) {
    && (forall t :: At(s, t).Delivering? ==> Ended(s.outcomes, At(s, t).began, At(s, t).success))
    && (forall d :: d in s.delivered ==> Ended(s.outcomes, d.began, d.success))
  }

  lemma ActorCompiles(s: System, a: Action)
    requires Enabled(s, a)
    ensures Compiles(NextThread(s, a)) ==> NextThread(s, a).began == s.clock
    ensures NextThread(s, a).Delivering? ==>
      || (a.DoRerun? && NextThread(s, a).began == At(s, a.t).began && NextThread(s, a).success == a.compiled.Success?)
      || (At(s, a.t).Delivering? && NextThread(s, a).began == At(s, a.t).began
        && NextThread(s, a).success == At(s, a.t).success)
  {
  }

  lemma CompilesKept(s: System, a: Action)
    requires CompileInv(s) && Enabled(s, a)
    ensures CompileInv(Next(s, a))
  {
    ActorCompiles(s, a);
    OnlyActorMoves(s, a);
    hide NextThread, NextMemory, NextPlace, Asked, Touched, Orphaned, At, Enabled;
    var s' := Next(s, a);
    forall t | t != a.t ensures At(s', t) == At(s, t) {}
  }

  lemma ReportsKept(s: System, a: Action)
    requires CompileInv(s) && ReportInv(s) && Enabled(s, a)
    ensures ReportInv(Next(s, a))
  {
    ActorCompiles(s, a);
    OnlyActorMoves(s, a);
    var s' := Next(s, a);
    OutcomesGrow(s, a);
    DeliveredGrows(s, a);
    hide NextThread, NextMemory, NextPlace, NextDelivered, Asked, Touched, Orphaned, At, Enabled;
    forall t | t != a.t ensures At(s', t) == At(s, t) {}
  }

  lemma DeliveredGrows(s: System, a: Action)
    requires Enabled(s, a)
    ensures forall d :: d in NextDelivered(s, a) ==>
      d in s.delivered || (At(s, a.t).Delivering? && d.success == At(s, a.t).success && d.began == At(s, a.t).began)
  {
  }

  lemma OutcomesGrow(s: System, a: Action)
    requires CompileInv(s) && Enabled(s, a)
    ensures forall began, success :: Ended(s.outcomes, began, success) ==> Ended(Next(s, a).outcomes, began, success)
    ensures a.DoRerun? ==> Ended(Next(s, a).outcomes, At(s, a.t).began, a.compiled.Success?)
  {
    hide NextThread, NextMemory, NextPlace, NextDelivered, Asked, Touched, Orphaned;
  }

  lemma {:induction false} RunReportInv(actions: seq<Action>)
    ensures CompileInv(Run(actions)) && ReportInv(Run(actions))
  {
    if |actions| > 0 {
      var s, a := Run(actions[..|actions| - 1]), actions[|actions| - 1];
      RunReportInv(actions[..|actions| - 1]);
      if Enabled(s, a) {
        CompilesKept(s, a);
        ReportsKept(s, a);
      }
    }
  }

  /** Main result. Over any run, no callback is delivered twice, and each delivery
      reports the outcome of a compile that began after the callback was registered. */
  lemma CallbacksDeliveredOnce(actions: seq<Action>)
    ensures var s := Run(actions);
      && (forall i, j :: 0 <= i < j < |s.delivered| ==> s.delivered[i].callback != s.delivered[j].callback)
      && (forall i :: 0 <= i < |s.delivered| ==>
            var d := s.delivered[i];
            d.callback < d.began && d.began in s.outcomes && d.success == s.outcomes[d.began])
  {
    RunCallInv(actions);
    RunReportInv(actions);
    hide Run, EntryCalls, ThreadCalls, CompileInv;
    forall i | 0 <= i < |Run(actions).delivered|
      ensures var s := Run(actions);
        s.delivered[i].began in s.outcomes && s.delivered[i].success == s.outcomes[s.delivered[i].began]
    {
      assert Ended(Run(actions).outcomes, Run(actions).delivered[i].began, Run(actions).delivered[i].success);
    }
  }

  /** What `outcomes` records: every compile that ends, under its own start time, and
      for good. */
  lemma OutcomesRecorded(actions: seq<Action>, a: Action, began: nat)
    requires Enabled(Run(actions), a)
    ensures var s := Run(actions); var s' := Next(s, a); var thread := At(s, a.t);
      && (Compiles(thread) ==> thread.began !in s.outcomes && Ended(s'.outcomes, thread.began, a.compiled.Success?))
      && (began in s.outcomes ==> Ended(s'.outcomes, began, s.outcomes[began]))
  {
    RunReportInv(actions);
    hide Run, NextThread, NextMemory, NextPlace, NextDelivered, Asked, Touched, Orphaned;
  }

  /** A refresh that ends hands on exactly the callbacks that its timer took: each was
      registered before this compile began, has not been delivered, and is about to be
      told what goes on record as the outcome of this very compile. */
  lemma RerunReports(actions: seq<Action>, a: Action)
    requires Enabled(Run(actions), a) && a.DoRerun?
    ensures var s := Run(actions); var s' := Next(s, a); var thread := At(s', a.t);
      && thread.Delivering? && thread.callbacks == At(s, a.t).callbacks
      && Ended(s'.outcomes, thread.began, thread.success) && thread.began !in s.outcomes
      && forall i :: 0 <= i < |thread.callbacks| ==>
           && thread.callbacks[i] < thread.began
           && forall j :: 0 <= j < |s'.delivered| ==> s'.delivered[j].callback != thread.callbacks[i]
  {
    RunCallInv(actions);
    RunReportInv(actions);
    var s := Run(actions);
    assert Holds(s, Carried(At(s, a.t)), InThread(a.t), Deadline(At(s, a.t)));
    OutcomesRecorded(actions, a, At(s, a.t).began);
  }

  // ---- No callback is lost ----

  /** The callback is where its place says. */
  ghost predicate InPlace(s: System, c: Callback)
    requires c in s.place
  {
    match s.place[c]
    case InEntry(e) => e in s.m.heap && c in s.m.heap[e].callbacks
    case InThread(t) => c in Carried(At(s, t))
    case Delivered => exists i :: 0 <= i < |s.delivered| && s.delivered[i].callback == c
  }

  ghost predicate NoneLost(s: System) {
    forall c :: c in s.place ==> InPlace(s, c)
  }

  lemma NoneLostKept(s: System, a: Action)
    requires MemInv(s.m) && ThreadInv(s) && CallInv(s) && NoneLost(s) && Enabled(s, a)
    ensures NoneLost(Next(s, a))
  {
    hide Next, NextPlace, NextMemory, NextThread, MemInv, ThreadInv, CallInv, InPlace, Enabled;
    forall c | c in Next(s, a).place ensures InPlace(Next(s, a), c) {
      assert c in s.place ==> InPlace(s, c);
      OneKept(s, a, c);
    }
  }

  lemma OneKept(s: System, a: Action, c: Callback)
    requires MemInv(s.m) && ThreadInv(s) && CallInv(s) && Enabled(s, a)
    requires c in s.place ==> InPlace(s, c)
    requires c in Next(s, a).place
    ensures InPlace(Next(s, a), c)
  {
    if c !in s.place {
      NewInPlace(s, a, c);
    } else if s.place[c].Delivered? {
      DeliveredStays(s, a, c);
    } else if s.place[c].InThread? {
      ThreadStays(s, a, c);
    } else {
      EntryStays(s, a, c);
    }
  }

  lemma NewInPlace(s: System, a: Action, c: Callback)
    requires MemInv(s.m) && ThreadInv(s) && CallInv(s) && Enabled(s, a) && c !in s.place && c in Next(s, a).place
    ensures InPlace(Next(s, a), c)
  {
    assert Holds(s, Carried(At(s, a.t)), InThread(a.t), Deadline(At(s, a.t)));
    if a.DoRequest? && Focus(s, a).Some? {
      FocusCallbacks(s, a, Focus(s, a).value);
      hide NextMemory;
    }
  }

  lemma DeliveredStays(s: System, a: Action, c: Callback)
    requires CacheInv(s.m) && CallInv(s) && Enabled(s, a) && c in s.place && s.place[c].Delivered? && InPlace(s, c)
    ensures c in Next(s, a).place && InPlace(Next(s, a), c)
  {
    var i :| 0 <= i < |s.delivered| && s.delivered[i].callback == c;
    assert c < s.clock;
    assert Holds(s, Carried(At(s, a.t)), InThread(a.t), Deadline(At(s, a.t)));
    if a.DoFire? && NextThread(s, a).Rerunning? {
      assert Holds(s, s.m.heap[NextThread(s, a).e].callbacks, InEntry(NextThread(s, a).e), s.clock);
    }
    PlaceKept(s, a, c);
    hide NextMemory, NextThread, NextPlace, Holds;
    assert Next(s, a).delivered[i].callback == c;
  }

  lemma ThreadStays(s: System, a: Action, c: Callback)
    requires CacheInv(s.m) && CallInv(s) && Enabled(s, a) && c in s.place && s.place[c].InThread? && InPlace(s, c)
    ensures c in Next(s, a).place && InPlace(Next(s, a), c)
  {
    OnlyActorMoves(s, a);
    var t := s.place[c].t;
    assert c < s.clock;
    assert Holds(s, Carried(At(s, t)), InThread(t), Deadline(At(s, t)));
    assert Holds(s, Carried(At(s, a.t)), InThread(a.t), Deadline(At(s, a.t)));
    if a.DoFire? && NextThread(s, a).Rerunning? {
      assert Holds(s, s.m.heap[NextThread(s, a).e].callbacks, InEntry(NextThread(s, a).e), s.clock);
    }
    if a.DoDeliver? && t == a.t {
      DeliverMoves(s, a, c);
    } else {
      assert c in NextPlace(s, a) && NextPlace(s, a)[c] == s.place[c] by { PlaceKept(s, a, c); }
      hide NextMemory, NextPlace;
      assert t == a.t ==> a.DoRerun?;
    }
  }

  lemma DeliverMoves(s: System, a: Action, c: Callback)
    requires Enabled(s, a) && a.DoDeliver? && c in s.place && s.place[c] == InThread(a.t) && c in Carried(At(s, a.t))
    ensures c in Next(s, a).place && InPlace(Next(s, a), c)
  {
    var callbacks := At(s, a.t).callbacks;
    if c == callbacks[0] {
      assert Next(s, a).delivered[|s.delivered|].callback == c;
    } else {
      assert c in callbacks[1..];
    }
  }

  lemma EntryStays(s: System, a: Action, c: Callback)
    requires MemInv(s.m) && ThreadInv(s) && CallInv(s) && Enabled(s, a)
    requires c in s.place && s.place[c].InEntry? && InPlace(s, c)
    ensures c in Next(s, a).place && InPlace(Next(s, a), c)
  {
    var e := s.place[c].e;
    assert c < s.clock;
    if a.DoFire? && NextThread(s, a).Rerunning? {
      TakenMoves(s, a, c);
    } else {
      assert Holds(s, Carried(At(s, a.t)), InThread(a.t), Deadline(At(s, a.t)));
      PlaceKept(s, a, c);
      CallbacksKept(s, a, e);
      hide NextMemory, NextPlace, NextThread;
    }
  }

  lemma CallbacksKept(s: System, a: Action, e: EntryId)
    requires MemInv(s.m) && ThreadInv(s) && Enabled(s, a) && e in s.m.heap
    requires !(a.DoFire? && NextThread(s, a).Rerunning?)
    ensures e in NextMemory(s, a).heap && s.m.heap[e].callbacks <= NextMemory(s, a).heap[e].callbacks
  {
    if Elsewhere(s, a, e) { ElsewhereSame(s, a, e); } else { FocusCallbacks(s, a, e); }
    hide NextMemory;
  }

  lemma TakenMoves(s: System, a: Action, c: Callback)
    requires MemInv(s.m) && ThreadInv(s) && CallInv(s) && Enabled(s, a) && a.DoFire? && NextThread(s, a).Rerunning?
    requires c in s.place && s.place[c].InEntry? && InPlace(s, c)
    ensures c in Next(s, a).place && InPlace(Next(s, a), c)
  {
    OnlyActorMoves(s, a);
    var e := s.place[c].e;
    if e != NextThread(s, a).e {
      assert Holds(s, s.m.heap[NextThread(s, a).e].callbacks, InEntry(NextThread(s, a).e), s.clock);
      ElsewhereSame(s, a, e);
    }
  }

  lemma {:induction false} RunNoneLost(actions: seq<Action>)
    ensures NoneLost(Run(actions))
  {
    if |actions| > 0 {
      var s, a := Run(actions[..|actions| - 1]), actions[|actions| - 1];
      RunNoneLost(actions[..|actions| - 1]);
      RunInv(actions[..|actions| - 1]);
      RunCallInv(actions[..|actions| - 1]);
      if Enabled(s, a) { NoneLostKept(s, a); }
    }
  }

  /** Main result. A callback is taken on exactly by a request for an installed entry of an
      open registry; and in every run each callback taken on is still collected by its
      entry, or carried by the refresh that took it, or delivered. */
  lemma CallbacksAccounted(actions: seq<Action>, a: Action, c: Callback)
    requires Enabled(Run(actions), a)
    ensures var s := Run(actions); var s' := Next(s, a);
      && (c in s'.place <==>
            c in s.place
            || (a.DoRequest? && a.callback && !s.m.closed && a.config in s.m.entries && c == s.clock))
      && (c in s'.place ==> InPlace(s', c))
  {
    RunNoneLost(actions + [a]);
    assert (actions + [a])[..|actions + [a]| - 1] == actions;
    PlacesExactly(actions, a, c);
    hide Next;
  }

  lemma PlacesExactly(actions: seq<Action>, a: Action, c: Callback)
    requires Enabled(Run(actions), a)
    ensures var s := Run(actions);
      c in Next(s, a).place <==>
        c in s.place || (a.DoRequest? && a.callback && !s.m.closed && a.config in s.m.entries && c == s.clock)
  {
    RunCallInv(actions);
    var s := Run(actions);
    hide Run, NextMemory;
    assert Holds(s, Carried(At(s, a.t)), InThread(a.t), Deadline(At(s, a.t)));
  }
}

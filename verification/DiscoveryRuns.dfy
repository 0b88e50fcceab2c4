/** All interleavings of the discovery workers. */
module DiscoveryRuns {
  import opened Wrappers
  import opened CatalogTypes
  import opened FamilyCompiler
  import opened CatalogCompiler
  import opened DiscoverySections

  datatype Worker = Ready | Working(i: nat) | Finished

  /** `claims` is the order in which components were taken. */
  datatype System = System(shared: Shared, workers: seq<Worker>, callerCanceled: bool, claims: seq<nat>)

  datatype Action = DoClaim(w: nat) | DoReport(w: nat, outcome: Discovered) | DoCancel

  function Start(job: DiscoverySections.Job): System {
    var n := |job.servers|;
    System(Begin(job), seq(if n < MAX_PARALLEL_DISCOVERIES then n else MAX_PARALLEL_DISCOVERIES, _ => Ready), false, [])
  }

  /** Once everything is canceled, a discovery may also fail for that reason. */
  predicate Enabled(job: DiscoverySections.Job, s: System, a: Action) {
    match a
    case DoClaim(w) => w < |s.workers| && s.workers[w].Ready?
    case DoReport(w, outcome) =>
      w < |s.workers| && s.workers[w].Working? && s.workers[w].i < |job.servers| && Sized(job, s.shared)
      && (outcome == job.env.discover(job.servers[s.workers[w].i]) || (s.shared.cause.Some? && outcome.Failed?))
    case DoCancel => true
  }

  function Next(job: DiscoverySections.Job, s: System, a: Action): System
    requires Enabled(job, s, a)
  {
    match a
    case DoClaim(w) =>
      (match Claim(s.shared)
       case (_, None) => s.(workers := s.workers[w := Finished])
       case (shared, Some(i)) => s.(shared := shared, workers := s.workers[w := Working(i)], claims := s.claims + [i]))
    case DoReport(w, outcome) =>
      var (shared, goesOn) := Report(job, s.shared, s.workers[w].i, outcome);
      s.(shared := shared, workers := s.workers[w := if goesOn then Ready else Finished])
    case DoCancel => s.(shared := Cancel(s.shared, ByCaller), callerCanceled := true)
  }

  function Run(job: DiscoverySections.Job, actions: seq<Action>): System {
    if |actions| == 0 then Start(job)
    else
      var s := Run(job, actions[..|actions| - 1]);
      if Enabled(job, s, actions[|actions| - 1]) then Next(job, s, actions[|actions| - 1]) else s
  }

  /** All workers have returned. */
  predicate Over(s: System) {
    forall w :: 0 <= w < |s.workers| ==> s.workers[w].Finished?
  }

  // ---- Invariants ----

  /** The error of a component that fails otherwise than by asking for authorization. */
  function Failure(job: DiscoverySections.Job, i: nat): Option<Error>
    requires i < |job.servers| == |job.prefixes|
  {
    match job.env.discover(job.servers[i])
    case Challenged => None
    case Failed => Some(Undiscovered(job.servers[i].name))
    case Listed(None) => Some(Undiscovered(job.servers[i].name))
    case Listed(Some(features)) =>
      match CompileComponent(job.env, NO_SECTIONS, Part(job.servers[i], job.prefixes[i], features))
      case Err(e) => Some(e)
      case Ok(_) => None
  }

  /** A result is that of its own component. */
  predicate Justified(job: DiscoverySections.Job, i: nat, slot: Slot)
    requires i < |job.servers| == |job.prefixes|
  {
    slot.Set? ==>
      && Failure(job, i).None?
      && (slot.challenged <==> job.env.discover(job.servers[i]).Challenged?)
      && slot.found ==
        (if slot.challenged then Found(NOTHING, true)
         else Found(job.env.discover(job.servers[i]).features.value, false))
  }

  ghost predicate ClaimInv(s: System) {
    |s.claims| == s.shared.next && forall k :: 0 <= k < |s.claims| ==> s.claims[k] == k
  }

  ghost predicate WorkInv(s: System) {
    && (forall w :: 0 <= w < |s.workers| && s.workers[w].Working? ==>
          s.workers[w].i < s.shared.next && s.workers[w].i < |s.shared.results|
            && s.shared.results[s.workers[w].i].Unset?)
    && (forall v, w :: 0 <= v < w < |s.workers| && s.workers[v].Working? && s.workers[w].Working? ==>
      s.workers[v].i != s.workers[w].i)
  }

  ghost predicate ResultInv(job: DiscoverySections.Job, s: System)
    requires Sized(job, s.shared)
  {
    forall i :: 0 <= i < |s.shared.results| ==>
      Justified(job, i, s.shared.results[i]) && (s.shared.results[i].Set? ==> i < s.shared.next)
  }

  ghost predicate AtWork(s: System, i: nat) {
    exists w :: 0 <= w < |s.workers| && s.workers[w] == Working(i)
  }

  /** Nothing that was taken gets lost, and nobody stops early without a cause. */
  ghost predicate ProgressInv(s: System) {
    s.shared.cause.None? ==>
      && (forall i :: 0 <= i < s.shared.next && i < |s.shared.results| ==> s.shared.results[i].Set? || AtWork(s, i))
      && (forall w :: 0 <= w < |s.workers| && s.workers[w].Finished? ==> s.shared.next == |s.shared.results|)
      && (|s.workers| == 0 ==> |s.shared.results| == 0)
  }

  ghost predicate CauseInv(job: DiscoverySections.Job, s: System)
    requires |job.servers| == |job.prefixes|
  {
    match s.shared.cause
    case None => !s.callerCanceled
    case Some(ByCaller) => s.callerCanceled
    case Some(ByWorker(e)) => exists i :: 0 <= i < |job.servers| && Failure(job, i) == Some(e)
  }

  ghost predicate Inv(job: DiscoverySections.Job, s: System) {
    Sized(job, s.shared) && ClaimInv(s) && WorkInv(s) && ResultInv(job, s) && ProgressInv(s) && CauseInv(job, s)
  }

  lemma ClaimKeeps(job: DiscoverySections.Job, s: System, a: Action)
    requires Inv(job, s) && Enabled(job, s, a) && a.DoClaim?
    ensures Inv(job, Next(job, s, a))
  {
    hide Justified, Failure;
    var s' := Next(job, s, a);
    if s'.shared.cause.None? {
      forall i | 0 <= i < s'.shared.next ensures s'.shared.results[i].Set? || AtWork(s', i) {
        if i < s.shared.next && s.shared.results[i].Unset? {
          var w :| 0 <= w < |s.workers| && s.workers[w] == Working(i);
          assert s'.workers[w] == Working(i);
        } else if i == s.shared.next {
          assert s'.workers[a.w] == Working(i);
        }
      }
    }
  }

  lemma ReportKeeps(job: DiscoverySections.Job, s: System, a: Action)
    requires Inv(job, s) && Enabled(job, s, a) && a.DoReport?
    ensures Inv(job, Next(job, s, a))
  {
    var s' := Next(job, s, a);
    var i := s.workers[a.w].i;
    ReportExactly(job, s.shared, i, a.outcome);
    hide Failure, Report;
    if s'.shared.cause.None? {
      forall j | 0 <= j < s'.shared.next ensures s'.shared.results[j].Set? || AtWork(s', j) {
        if j != i && s.shared.results[j].Unset? {
          var w :| 0 <= w < |s.workers| && s.workers[w] == Working(j);
          assert s'.workers[w] == Working(j);
        }
      }
    }
  }

  lemma ReportExactly(job: DiscoverySections.Job, s: Shared, i: nat, outcome: Discovered)
    requires Sized(job, s) && i < |s.results|
    requires outcome == job.env.discover(job.servers[i]) || (s.cause.Some? && outcome.Failed?)
    ensures var (s', goesOn) := Report(job, s, i, outcome);
      if goesOn then
        (exists slot: Slot :: slot.Set? && s' == s.(results := s.results[i := slot]) && Justified(job, i, slot))
      else
        s' == s
        || (s.cause.None? && Failure(job, i).Some? && s' == s.(cause := Some(ByWorker(Failure(job, i).value))))
    ensures !Report(job, s, i, outcome).1 ==> Report(job, s, i, outcome).0.cause.Some?
  {
    hide CompileComponent;
    var (s', goesOn) := Report(job, s, i, outcome);
    if goesOn {
      var slot :=
        if outcome.Challenged? then Set(Found(NOTHING, true), true)
        else Set(Found(outcome.features.value, false), false);
      assert s' == s.(results := s.results[i := slot]) && Justified(job, i, slot);
    }
  }

  lemma {:induction false} RunInv(job: DiscoverySections.Job, actions: seq<Action>)
    requires |job.servers| == |job.prefixes|
    ensures Inv(job, Run(job, actions))
  {
    if |actions| > 0 {
      var s, a := Run(job, actions[..|actions| - 1]), actions[|actions| - 1];
      RunInv(job, actions[..|actions| - 1]);
      if Enabled(job, s, a) {
        match a
        case DoClaim(_) => ClaimKeeps(job, s, a);
        case DoReport(_, _) => ReportKeeps(job, s, a);
        case DoCancel => CancelKeeps(job, s);
      }
    }
  }

  lemma CancelKeeps(job: DiscoverySections.Job, s: System)
    requires Inv(job, s)
    ensures Inv(job, Next(job, s, DoCancel))
  {
    hide Justified, Failure;
  }

  // ---- Main results ----

  /** At most eight components are discovered at a time, and as many as there are workers:
      one for each component up to that number. */
  lemma {:induction false} ParallelExactly(job: DiscoverySections.Job, actions: seq<Action>)
    ensures |Run(job, actions).workers| == if |job.servers| < 8 then |job.servers| else 8
  {
    if |actions| > 0 { ParallelExactly(job, actions[..|actions| - 1]); }
  }

  /** Components are taken in configuration order, each at most once. */
  lemma ClaimedOnce(job: DiscoverySections.Job, actions: seq<Action>)
    requires |job.servers| == |job.prefixes|
    ensures var s := Run(job, actions);
      s.claims == seq(s.shared.next, i => i) && s.shared.next <= |job.servers|
  {
    RunInv(job, actions);
  }

  function ChallengedOf(job: DiscoverySections.Job, n: nat): seq<nat>
    requires n <= |job.servers|
  {
    if n == 0 then []
    else if job.env.discover(job.servers[n - 1]).Challenged? then ChallengedOf(job, n - 1) + [n - 1]
    else ChallengedOf(job, n - 1)
  }

  lemma {:induction false} JoinedChallenged(job: DiscoverySections.Job, results: seq<Slot>)
    requires |results| <= |job.servers| == |job.prefixes|
    requires forall i :: 0 <= i < |results| ==> results[i].Set? && Justified(job, i, results[i])
    ensures Joined(results) == ChallengedOf(job, |results|)
  {
    hide Failure;
    if |results| > 0 { JoinedChallenged(job, results[..|results| - 1]); }
  }

  /** Without a cause to cancel, everything was attempted and has its result. */
  lemma AllAttempted(job: DiscoverySections.Job, actions: seq<Action>)
    requires |job.servers| == |job.prefixes| && Over(Run(job, actions)) && Run(job, actions).shared.cause.None?
    ensures var s := Run(job, actions);
      && s.shared.next == |job.servers| == |s.shared.results|
      && forall i :: 0 <= i < |s.shared.results| ==> s.shared.results[i].Set? && Justified(job, i, s.shared.results[i])
  {
    RunInv(job, actions);
    hide Justified;
    var s := Run(job, actions);
    if |s.workers| > 0 { assert s.workers[0].Finished?; }
    forall i | 0 <= i < |s.shared.results| ensures s.shared.results[i].Set? {
      assert !AtWork(s, i);
    }
  }

  /** Main result. Whatever the interleaving, a pool that ends without error has found
      exactly what discovering one component after the other finds, and in the same
      order. */
  lemma SuccessIsSequential(job: DiscoverySections.Job, actions: seq<Action>)
    requires |job.servers| == |job.prefixes| && Over(Run(job, actions))
    ensures match Collected(job, Run(job, actions).shared)
            case Discoveries(found) => FindAll(job.env, job.servers, job.prefixes, job.deferAuthorization) == Ok(found)
            case _ => true
  {
    hide Run, FindAll, Joined;
    RunInv(job, actions);
    var s := Run(job, actions).shared;
    if s.cause.None? {
      AllAttempted(job, actions);
      if job.deferAuthorization || Joined(s.results) == [] { AllFoundSequentially(job, s.results); }
    }
  }

  lemma AllFoundSequentially(job: DiscoverySections.Job, results: seq<Slot>)
    requires |results| == |job.servers| == |job.prefixes| && (job.deferAuthorization || Joined(results) == [])
    requires forall i :: 0 <= i < |results| ==> results[i].Set? && Justified(job, i, results[i])
    ensures FindAll(job.env, job.servers, job.prefixes, job.deferAuthorization)
         == Ok(AllFound(results))
  {
    hide Find, FindAll, Justified;
    JoinedChallenged(job, results);
    FindAllExactly(job.env, job.servers, job.prefixes, job.deferAuthorization);
    forall i | 0 <= i < |results|
      ensures Find(job.env, job.servers[i], job.prefixes[i], job.deferAuthorization) == Ok(FoundIn(results[i]))
    {
      SlotIsFind(job, results, i);
    }
    assert FindAll(job.env, job.servers, job.prefixes, job.deferAuthorization).value == AllFound(results);
  }

  lemma SlotIsFind(job: DiscoverySections.Job, results: seq<Slot>, i: nat)
    requires i < |results| == |job.servers| == |job.prefixes| && results[i].Set? && Justified(job, i, results[i])
    requires Joined(results) == ChallengedOf(job, |results|) && (job.deferAuthorization || Joined(results) == [])
    ensures Find(job.env, job.servers[i], job.prefixes[i], job.deferAuthorization) == Ok(FoundIn(results[i]))
  {
    hide CompileComponent;
    if results[i].challenged { ChallengedListed(job, |results|, i); }
  }

  lemma {:induction false} ChallengedListed(job: DiscoverySections.Job, n: nat, i: nat)
    requires i < n <= |job.servers|
    ensures i in ChallengedOf(job, n) <==> job.env.discover(job.servers[i]).Challenged?
  {
    if i < n - 1 {
      ChallengedListed(job, n - 1, i);
    } else {
      ChallengedBelow(job, n - 1);
    }
  }

  lemma {:induction false} ChallengedBelow(job: DiscoverySections.Job, n: nat)
    requires n <= |job.servers|
    ensures forall i :: i in ChallengedOf(job, n) ==> i < n
  {
    if n > 0 { ChallengedBelow(job, n - 1); }
  }

  /** Main result. Unless the caller cancels, the pool fails exactly when some component
      fails. A challenge cancels no other component: if nothing else is wrong, every
      component is attempted, and without deferral all challenges are returned, in
      configuration order. */
  lemma OutcomeExactly(job: DiscoverySections.Job, actions: seq<Action>)
    requires |job.servers| == |job.prefixes| && Over(Run(job, actions)) && !Run(job, actions).callerCanceled
    ensures var s := Run(job, actions); var result := Collected(job, s.shared);
      && (result.Canceled? <==> exists i :: 0 <= i < |job.servers| && Failure(job, i).Some?)
      && (!result.Canceled? ==> s.shared.next == |job.servers|)
      && (result.Challenges? <==>
        !result.Canceled? && !job.deferAuthorization && ChallengedOf(job, |job.servers|) != [])
      && (result.Challenges? ==> result.servers == ChallengedOf(job, |job.servers|))
  {
    RunInv(job, actions);
    CanceledExactly(job, actions);
    hide Failure, Run, Joined, ChallengedOf, Inv;
    var s := Run(job, actions);
    if s.shared.cause.None? {
      AllAttempted(job, actions);
      JoinedChallenged(job, s.shared.results);
    }
  }

  lemma CanceledExactly(job: DiscoverySections.Job, actions: seq<Action>)
    requires |job.servers| == |job.prefixes| && Over(Run(job, actions)) && !Run(job, actions).callerCanceled
    ensures Run(job, actions).shared.cause.Some? <==> exists i :: 0 <= i < |job.servers| && Failure(job, i).Some?
  {
    hide Failure, Run;
    RunInv(job, actions);
    var s := Run(job, actions);
    if s.shared.cause.None? {
      AllAttempted(job, actions);
      forall i | 0 <= i < |job.servers| ensures Failure(job, i).None? {
        assert Justified(job, i, s.shared.results[i]);
      }
    }
  }

  // ---- Termination ----

  function Load(workers: seq<Worker>): nat {
    if |workers| == 0 then 0
    else
      var last := match workers[|workers| - 1] case Ready => 1 case Working(_) => 2 case Finished => 0;
      Load(workers[..|workers| - 1]) + last
  }

  lemma {:induction false} LoadUpdate(workers: seq<Worker>, w: nat, worker: Worker)
    requires w < |workers|
    ensures Load(workers[w := worker]) - Load(workers)
         == (match worker case Ready => 1 case Working(_) => 2 case Finished => 0)
          - (match workers[w] case Ready => 1 case Working(_) => 2 case Finished => 0)
  {
    var n := |workers| - 1;
    if w < n {
      LoadUpdate(workers[..n], w, worker);
      assert workers[w := worker][..n] == workers[..n][w := worker];
    } else {
      assert workers[w := worker][..n] == workers[..n];
    }
  }

  /** The steps that are left at most. */
  function StepsLeft(job: DiscoverySections.Job, s: System): int {
    2 * (|s.shared.results| - s.shared.next) + Load(s.workers)
  }

  /** Every worker that has not returned can act, and each act brings the end closer. */
  lemma WorkersFinish(job: DiscoverySections.Job, actions: seq<Action>, a: Action)
    requires |job.servers| == |job.prefixes|
    ensures var s := Run(job, actions);
      && (!Over(s) ==> exists b: Action :: !b.DoCancel? && Enabled(job, s, b))
      && (Enabled(job, s, a) && !a.DoCancel? ==> 0 <= StepsLeft(job, Next(job, s, a)) < StepsLeft(job, s))
  {
    RunInv(job, actions);
    var s := Run(job, actions);
    if !Over(s) {
      var w :| 0 <= w < |s.workers| && !s.workers[w].Finished?;
      var b := if s.workers[w].Ready? then DoClaim(w) else DoReport(w, job.env.discover(job.servers[s.workers[w].i]));
      assert Enabled(job, s, b);
    }
    if Enabled(job, s, a) && !a.DoCancel? {
      if a.DoReport? { ReportExactly(job, s.shared, s.workers[a.w].i, a.outcome); }
      LoadUpdate(s.workers, a.w, Next(job, s, a).workers[a.w]);
    }
  }
}

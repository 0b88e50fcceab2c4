/** All interleavings of acquirers, openers, closers and timer callbacks. */
module ManagerRuns {
  import opened Wrappers
  import opened ManagerSections

  type ThreadId = nat

  datatype Thread =
    | Waiting(channel: Channel)                            // for another thread's open
    | Opening(channel: Channel)
    | Opened(channel: Channel, outcome: Option<Runtime>)    // open returned, not yet published
    | Holding(runtime: Runtime)
    | Closing(runtime: Runtime)                            // about to close it, outside the mutex

  /** `callbacks` holds the generation of every timer ever armed: a callback may run
      at any later time, also after its timer was stopped. `reported` is the activity
      that the frontend reported last. */
  datatype System = System(
    m: State,
    threads: map<ThreadId, Thread>,
    callbacks: set<nat>,
    reported: int,
    closedChannels: set<Channel>,
    nextChannel: Channel,
    nextRuntime: Runtime,
    closes: multiset<Runtime>)

  datatype Action =
    | DoEnter(t: ThreadId)
    | DoAbandon(t: ThreadId)                   // the waiter's context ends
    | DoOpenReturn(t: ThreadId, ok: bool)
    | DoPublish(t: ThreadId)
    | DoRelease(t: ThreadId)
    | DoActivity(active: int)
    | DoFire(generation: nat, t: ThreadId)     // t is the callback's own thread
    | DoClose(t: ThreadId)
    | DoFinishClose(t: ThreadId)

  const START := System(INITIAL, map[], {}, 0, {}, 0, 0, multiset{})

  predicate Enabled(s: System, a: Action) {
    match a
    case DoEnter(t) => t !in s.threads || (s.threads[t].Waiting? && s.threads[t].channel in s.closedChannels)
    case DoAbandon(t) => t in s.threads && s.threads[t].Waiting?
    case DoOpenReturn(t, _) => t in s.threads && s.threads[t].Opening?
    case DoPublish(t) => t in s.threads && s.threads[t].Opened?
    case DoRelease(t) => t in s.threads && s.threads[t].Holding?
    case DoActivity(_) => true
    case DoFire(g, t) => g in s.callbacks && t !in s.threads
    case DoClose(t) => t !in s.threads
    case DoFinishClose(t) => t in s.threads && s.threads[t].Closing?
  }

  function Armed(m: State): set<nat> {
    if m.idleTimer.Some? then {m.idleTimer.value} else {}
  }

  function After(s: System, m: State): System {
    s.(m := m, callbacks := s.callbacks + Armed(m))
  }

  function Handing(threads: map<ThreadId, Thread>, t: ThreadId, toClose: Option<Runtime>): map<ThreadId, Thread> {
    match toClose
    case None => threads - {t}
    case Some(r) => threads[t := Closing(r)]
  }

  function Next(s: System, a: Action): System
    requires Enabled(s, a)
  {
    match a
    case DoEnter(t) =>
      var (m, entered) := Enter(s.m, s.nextChannel);
      var s' := After(s, m);
      (match entered
       case Refused => s'.(threads := s.threads - {t})
       case Joined(r) => s'.(threads := s.threads[t := Holding(r)])
       case MustWait(c) => s'.(threads := s.threads[t := Waiting(c)])
       case MustOpen(c) => s'.(threads := s.threads[t := Opening(c)], nextChannel := s.nextChannel + 1))
    case DoAbandon(t) => s.(threads := s.threads - {t})
    case DoOpenReturn(t, ok) =>
      if ok
      then s.(threads := s.threads[t := Opened(s.threads[t].channel, Some(s.nextRuntime))],
              nextRuntime := s.nextRuntime + 1)
      else s.(threads := s.threads[t := Opened(s.threads[t].channel, None)])
    case DoPublish(t) =>
      var (m, published) := Publish(s.m, s.threads[t].outcome);
      var s' := After(s, m).(closedChannels := s.closedChannels + {s.threads[t].channel});
      (match published
       case OpenFailed => s'.(threads := s.threads - {t})
       case Installed(r) => s'.(threads := s.threads[t := Holding(r)])
       case Discarded(r) => s'.(threads := s.threads[t := Closing(r)]))
    case DoRelease(t) => After(s, Release(s.m)).(threads := s.threads - {t})
    case DoActivity(active) => After(s, SetFrontendActivity(s.m, active)).(reported := active)
    case DoFire(g, t) =>
      var (m, toClose) := Retire(s.m, g);
      After(s, m).(threads := Handing(s.threads, t, toClose))
    case DoClose(t) =>
      var (m, toClose) := Close(s.m);
      After(s, m).(threads := Handing(s.threads, t, toClose))
    case DoFinishClose(t) =>
      s.(threads := s.threads - {t}, closes := s.closes + multiset{s.threads[t].runtime})
  }

  /** Actions that are not enabled are skipped, so every reachable state is `Run` of
      some sequence of actions. */
  function Run(actions: seq<Action>): System {
    if |actions| == 0 then START
    else
      var s := Run(actions[..|actions| - 1]);
      var a := actions[|actions| - 1];
      if Enabled(s, a) then Next(s, a) else s
  }

  // ---- Invariants ----

  function Holders(threads: map<ThreadId, Thread>): set<ThreadId> {
    set t | t in threads && threads[t].Holding?
  }

  predicate IsOpener(thread: Thread) {
    thread.Opening? || thread.Opened?
  }

  /** The runtime that this thread alone must still install or close. */
  function Owned(thread: Thread): Option<Runtime> {
    match thread
    case Closing(r) => Some(r)
    case Opened(_, outcome) => outcome
    case _ => None
  }

  predicate TimerInv(s: System) {
    && s.m.activeOperations >= 0 && s.m.frontendActivity == (if s.reported < 0 then 0 else s.reported)
    && (s.m.idleTimer.Some? <==> Idle(s.m))
    && (s.m.idleTimer.Some? ==> s.m.idleTimer.value == s.m.generation)
    && (s.m.generation in s.callbacks <==> s.m.idleTimer.Some?)
    && forall g :: g in s.callbacks ==> g <= s.m.generation
  }

  ghost predicate CountInv(s: System) {
    s.m.activeOperations == |Holders(s.threads)|
  }

  ghost predicate OpenerInv(s: System) {
    && (forall t :: t in s.threads && IsOpener(s.threads[t]) ==> s.m.starting == Some(s.threads[t].channel))
    && (forall t, u :: t in s.threads && u in s.threads && IsOpener(s.threads[t]) && IsOpener(s.threads[u]) ==> t == u)
    && (s.m.starting.Some? ==> s.m.runtime.None? && exists t :: t in s.threads && IsOpener(s.threads[t]))
  }

  ghost predicate ChannelInv(s: System) {
    && (forall t :: t in s.threads && s.threads[t].Waiting? ==>
          s.threads[t].channel in s.closedChannels || s.m.starting == Some(s.threads[t].channel))
    && (s.m.starting.Some? ==> s.m.starting.value < s.nextChannel && s.m.starting.value !in s.closedChannels)
    && (forall c :: c in s.closedChannels ==> c < s.nextChannel)
  }

  ghost predicate HolderInv(s: System) {
    && (s.m.closed ==> s.m.runtime.None?)
    && (!s.m.closed ==> forall t :: t in s.threads && s.threads[t].Holding? ==>
      s.m.runtime == Some(s.threads[t].runtime))
  }

  /** A runtime is installed, or one thread owns it, or it has been closed once. */
  ghost predicate OwnedOnce(s: System) {
    && (forall t, u :: OwnedAt(s, t).Some? && OwnedAt(s, t) == OwnedAt(s, u) ==> t == u)
    && (forall t :: OwnedAt(s, t).Some? ==> s.m.runtime != OwnedAt(s, t) && Unclosed(s, OwnedAt(s, t).value))
    && (s.m.runtime.Some? ==> Unclosed(s, s.m.runtime.value))
    && (forall r: Runtime :: s.closes[r] <= 1)
    && (forall r: Runtime :: r in s.closes ==> r < s.nextRuntime)
  }

  predicate Unclosed(s: System, r: Runtime) {
    s.closes[r] == 0 && r < s.nextRuntime
  }

  ghost predicate HasOwner(s: System, r: Runtime) {
    exists t :: t in s.threads && OwnedAt(s, t) == Some(r)
  }

  ghost predicate NoneLost(s: System) {
    forall r: Runtime :: r < s.nextRuntime ==> s.m.runtime == Some(r) || s.closes[r] == 1 || HasOwner(s, r)
  }

  ghost predicate Inv(s: System) {
    && TimerInv(s) && CountInv(s) && OpenerInv(s) && ChannelInv(s)
    && HolderInv(s) && OwnedOnce(s) && NoneLost(s)
  }

  lemma TimerKept(s: System, a: Action)
    requires TimerInv(s) && OpenerInv(s) && Enabled(s, a)
    ensures TimerInv(Next(s, a))
  {
  }

  lemma HolderLeaves(threads: map<ThreadId, Thread>, t: ThreadId)
    ensures |Holders(threads - {t})| == |Holders(threads)| - (if t in Holders(threads) then 1 else 0)
  {
    assert Holders(threads - {t}) == Holders(threads) - {t};
  }

  lemma ThreadMoves(threads: map<ThreadId, Thread>, t: ThreadId, thread: Thread)
    ensures |Holders(threads[t := thread])| == |Holders(threads - {t})| + (if thread.Holding? then 1 else 0)
  {
    assert Holders(threads[t := thread]) == Holders(threads - {t}) + (if thread.Holding? then {t} else {});
  }

  lemma CountKept(s: System, a: Action)
    requires CountInv(s) && Enabled(s, a)
    ensures CountInv(Next(s, a))
  {
    if a.DoEnter? {
      CountEntered(s, a.t);
    } else if !a.DoActivity? {
      hide Enter;
      var s' := Next(s, a);
      HolderLeaves(s.threads, a.t);
      if a.t in s'.threads { ThreadMoves(s.threads, a.t, s'.threads[a.t]); }
    }
  }

  lemma CountEntered(s: System, t: ThreadId)
    requires CountInv(s) && Enabled(s, DoEnter(t))
    ensures CountInv(Next(s, DoEnter(t)))
  {
    var s' := Next(s, DoEnter(t));
    HolderLeaves(s.threads, t);
    if t in s'.threads { ThreadMoves(s.threads, t, s'.threads[t]); }
  }

  lemma OpenerKept(s: System, a: Action)
    requires OpenerInv(s) && Enabled(s, a)
    ensures OpenerInv(Next(s, a))
  {
    var s' := Next(s, a);
    if s'.m.starting.Some? {
      if s.m.starting.Some? {
        var u :| u in s.threads && IsOpener(s.threads[u]);
        assert u in s'.threads && IsOpener(s'.threads[u]);
      } else {
        assert a.t in s'.threads && IsOpener(s'.threads[a.t]);
      }
    }
  }

  lemma ChannelKept(s: System, a: Action)
    requires ChannelInv(s) && OpenerInv(s) && Enabled(s, a)
    ensures ChannelInv(Next(s, a))
  {
  }

  lemma NoHoldersWhenIdle(s: System)
    requires CountInv(s)
    ensures s.m.activeOperations == 0 ==> forall t :: t in s.threads ==> !s.threads[t].Holding?
  {
    if s.m.activeOperations == 0 {
      assert Holders(s.threads) == {};
      forall t | t in s.threads ensures !s.threads[t].Holding? {
        assert t !in Holders(s.threads);
      }
    }
  }

  function Actor(a: Action): ThreadId {
    if a.DoActivity? then 0 else a.t
  }

  function At(s: System, t: ThreadId): Option<Thread> {
    if t in s.threads then Some(s.threads[t]) else None
  }

  function OwnedAt(s: System, t: ThreadId): Option<Runtime> {
    match At(s, t)
    case None => None
    case Some(thread) => Owned(thread)
  }

  ghost predicate OthersStay(s: System, s': System, t: ThreadId) {
    forall u :: u != t ==> At(s', u) == At(s, u)
  }

  lemma OnlyActorMoves(s: System, a: Action)
    requires Enabled(s, a)
    ensures OthersStay(s, Next(s, a), Actor(a))
  {
  }

  /** How one action can move responsibility for a runtime. */
  predicate Transfer(s: System, s': System, t: ThreadId) {
    || (Places(s, t) == Places(s', t))
    // opened
    || (&& OwnedAt(s, t).None? && OwnedAt(s', t) == Some(s.nextRuntime) && s'.nextRuntime == s.nextRuntime + 1
        && s'.m.runtime == s.m.runtime && s'.closes == s.closes)
    // installed
    || (&& OwnedAt(s, t).Some? && OwnedAt(s', t).None? && s'.nextRuntime == s.nextRuntime
        && s.m.runtime.None? && s'.m.runtime == OwnedAt(s, t) && s'.closes == s.closes)
    // taken away to be closed
    || (&& OwnedAt(s, t).None? && OwnedAt(s', t) == s.m.runtime && s'.nextRuntime == s.nextRuntime
        && s.m.runtime.Some? && s'.m.runtime.None? && s'.closes == s.closes)
    // closed
    || (&& OwnedAt(s, t).Some? && OwnedAt(s', t).None? && s'.nextRuntime == s.nextRuntime
        && s'.m.runtime == s.m.runtime && s'.closes == s.closes + multiset{OwnedAt(s, t).value})
  }

  function Places(s: System, t: ThreadId): (Option<Runtime>, Option<Runtime>, multiset<Runtime>, Runtime) {
    (s.m.runtime, OwnedAt(s, t), s.closes, s.nextRuntime)
  }

  lemma ActionTransfers(s: System, a: Action)
    requires OpenerInv(s) && HolderInv(s) && Enabled(s, a)
    ensures Transfer(s, Next(s, a), Actor(a))
  {
  }

  lemma OwnedOnceKept(s: System, s': System, t: ThreadId)
    requires OwnedOnce(s) && OthersStay(s, s', t) && Transfer(s, s', t)
    ensures OwnedOnce(s')
  {
    forall u | u != t ensures OwnedAt(s', u) == OwnedAt(s, u) {
      assert At(s', u) == At(s, u);
    }
  }

  lemma NoneLostKept(s: System, s': System, t: ThreadId)
    requires NoneLost(s) && OwnedOnce(s) && OthersStay(s, s', t) && Transfer(s, s', t)
    ensures NoneLost(s')
  {
    forall r: Runtime | r < s'.nextRuntime && s'.m.runtime != Some(r) && s'.closes[r] != 1
      ensures HasOwner(s', r)
    {
      if r < s.nextRuntime && HasOwner(s, r) {
        var u :| u in s.threads && OwnedAt(s, u) == Some(r);
        assert At(s', u) == At(s, u) || u == t;
        assert OwnedAt(s', u) == Some(r);
      } else {
        assert OwnedAt(s', t) == Some(r);
      }
    }
  }

  /** The installed runtime changes only while nobody holds it. */
  lemma ActionRespectsHolders(s: System, a: Action)
    requires HolderInv(s) && TimerInv(s) && OpenerInv(s) && Enabled(s, a)
    ensures var s' := Next(s, a);
      && (s'.m.closed ==> s'.m.runtime.None?)
      && (!s'.m.closed ==> !s.m.closed)
      && (!s'.m.closed && HoldingAt(s', Actor(a)) ==> s'.m.runtime == Some(s'.threads[Actor(a)].runtime))
      && (!s'.m.closed && s'.m.runtime != s.m.runtime ==> s.m.runtime.None? || s.m.activeOperations == 0)
  {
  }

  lemma HolderKept(s: System, a: Action)
    requires HolderInv(s) && CountInv(s) && TimerInv(s) && OpenerInv(s) && Enabled(s, a)
    ensures HolderInv(Next(s, a))
  {
    NoHoldersWhenIdle(s);
    OnlyActorMoves(s, a);
    ActionRespectsHolders(s, a);
    OthersStillHold(s, Next(s, a), Actor(a));
  }

  predicate HoldingAt(s: System, t: ThreadId) {
    t in s.threads && s.threads[t].Holding?
  }

  lemma OthersStillHold(s: System, s': System, t: ThreadId)
    requires HolderInv(s) && OthersStay(s, s', t)
    requires s'.m.closed ==> s'.m.runtime.None?
    requires !s'.m.closed ==> !s.m.closed
    requires !s'.m.closed && HoldingAt(s', t) ==> s'.m.runtime == Some(s'.threads[t].runtime)
    requires !s'.m.closed && s'.m.runtime != s.m.runtime ==> forall u :: !HoldingAt(s, u)
    ensures HolderInv(s')
  {
    forall u | !s'.m.closed && u in s'.threads && s'.threads[u].Holding? && u != t
      ensures s'.m.runtime == Some(s'.threads[u].runtime)
    {
      assert At(s', u) == At(s, u);
      assert HoldingAt(s, u);
    }
  }

  lemma {:induction false} RunInv(actions: seq<Action>)
    ensures Inv(Run(actions))
  {
    if |actions| > 0 {
      var s, a := Run(actions[..|actions| - 1]), actions[|actions| - 1];
      RunInv(actions[..|actions| - 1]);
      if Enabled(s, a) {
        TimerKept(s, a);
        CountKept(s, a);
        OpenerKept(s, a);
        ChannelKept(s, a);
        HolderKept(s, a);
        OnlyActorMoves(s, a);
        ActionTransfers(s, a);
        OwnedOnceKept(s, Next(s, a), Actor(a));
        NoneLostKept(s, Next(s, a), Actor(a));
      }
    }
  }

  // ---- Main results ----

  /** The idle timer is armed exactly while the manager is open, has a runtime, nobody
      holds it, and the frontend last reported no activity. A callback that was ever
      armed retires the runtime exactly when it carries the current generation, and then
      the manager is idle: stale callbacks change nothing, and no callback ever finds its
      own generation without a runtime. */
  lemma IdleTimerExact(actions: seq<Action>, g: nat)
    ensures var s := Run(actions);
      s.m.idleTimer.Some? <==>
        && !s.m.closed && s.m.runtime.Some? && s.reported <= 0
        && forall t :: t in s.threads ==> !s.threads[t].Holding?
    ensures g in Run(actions).callbacks ==>
      var m := Run(actions).m;
      && (g == m.generation ==> Idle(m) && Retire(m, g).1 == m.runtime && m.runtime.Some?)
      && (g != m.generation ==> Retire(m, g) == (m, None))
  {
    RunInv(actions);
    NoHoldersWhenIdle(Run(actions));
    if forall t :: t in Run(actions).threads ==> !Run(actions).threads[t].Holding? {
      assert Holders(Run(actions).threads) == {};
    }
  }

  /** The manager's activity is the last report, clamped at zero; and while the frontend
      is active no callback takes the runtime. */
  lemma ActivityExact(actions: seq<Action>, g: nat)
    ensures var s := Run(actions); s.m.frontendActivity == if s.reported < 0 then 0 else s.reported
    ensures var s := Run(actions); g in s.callbacks && s.reported > 0 ==> Retire(s.m, g) == (s.m, None)
  {
    RunInv(actions);
  }

  /** Operations in progress are counted exactly, at most one open is in flight, and
      none while a runtime is installed. */
  lemma AcquisitionsExact(actions: seq<Action>)
    ensures var s := Run(actions);
      && s.m.activeOperations == |Holders(s.threads)|
      && (forall t, u :: t in s.threads && u in s.threads && IsOpener(s.threads[t]) && IsOpener(s.threads[u]) ==>
        t == u)
      && ((exists t :: t in s.threads && IsOpener(s.threads[t])) <==> s.m.starting.Some?)
      && (s.m.starting.Some? ==> s.m.runtime.None?)
  {
    RunInv(actions);
  }

  /** The idle timer never takes a runtime from under an operation. */
  lemma RetireSparesHolders(actions: seq<Action>, g: nat, t: ThreadId)
    requires var s := Run(actions); g in s.callbacks && t in s.threads && s.threads[t].Holding?
    ensures Retire(Run(actions).m, g) == (Run(actions).m, None)
    ensures !Run(actions).m.closed ==> Run(actions).m.runtime == Some(Run(actions).threads[t].runtime)
  {
    RunInv(actions);
    NoHoldersWhenIdle(Run(actions));
  }

  /** No runtime is closed twice. Once the manager is closed and no open or close is
      still in flight, every runtime ever opened has been closed exactly once. */
  lemma NoRuntimeLeaks(actions: seq<Action>, r: Runtime)
    ensures Run(actions).closes[r] <= 1
    ensures var s := Run(actions);
      r < s.nextRuntime && s.m.closed
        && (forall t :: t in s.threads ==> !IsOpener(s.threads[t]) && !s.threads[t].Closing?)
      ==> s.closes[r] == 1
  {
    RunInv(actions);
  }

  /** Every waiter's channel is closed already or belongs to an open in flight. */
  lemma WaitersWake(actions: seq<Action>, t: ThreadId)
    requires t in Run(actions).threads && Run(actions).threads[t].Waiting?
    ensures var s := Run(actions);
      || s.threads[t].channel in s.closedChannels
      || exists u :: u in s.threads && IsOpener(s.threads[u]) && s.threads[u].channel == s.threads[t].channel
  {
    RunInv(actions);
  }

  // ---- What each section answers ----

  ghost predicate OpenerAt(s: System, u: ThreadId, c: Channel) {
    u in s.threads && IsOpener(s.threads[u]) && s.threads[u].channel == c
  }

  /** Main result. In every run, an acquire is refused exactly by a closed manager, joins
      exactly the runtime that is installed, waits exactly for an open in flight, and
      otherwise opens. */
  lemma AcquireExactly(actions: seq<Action>, t: ThreadId)
    requires Enabled(Run(actions), DoEnter(t))
    ensures var s := Run(actions); var thread := At(Next(s, DoEnter(t)), t);
      && (thread == None <==> s.m.closed)
      && (forall r: Runtime :: thread == Some(Holding(r)) <==> !s.m.closed && s.m.runtime == Some(r))
      && (forall c: Channel :: thread == Some(Waiting(c)) <==> !s.m.closed && exists u :: OpenerAt(s, u, c))
      && ((exists c: Channel :: thread == Some(Opening(c))) <==>
            !s.m.closed && s.m.runtime.None? && !exists u, c :: OpenerAt(s, u, c))
  {
    RunInv(actions);
    var s := Run(actions);
    hide Run;
    if s.m.starting.Some? {
      var u :| u in s.threads && IsOpener(s.threads[u]);
      assert OpenerAt(s, u, s.m.starting.value);
    }
    if s.m.runtime.None? && s.m.starting.None? && !s.m.closed {
      assert At(Next(s, DoEnter(t)), t) == Some(Opening(s.nextChannel));
    }
  }

  /** Main result. When an open returns, its runtime is installed and held exactly if the
      open succeeded and the manager is still open; a runtime that comes too late is
      closed by the opener; and whoever waits for the open is released. */
  lemma PublishExactly(actions: seq<Action>, t: ThreadId)
    requires Enabled(Run(actions), DoPublish(t))
    ensures var s := Run(actions); var s' := Next(s, DoPublish(t)); var thread := s.threads[t];
      && thread.channel in s'.closedChannels && s'.m.starting.None? && s'.m.closed == s.m.closed
      && s'.m.runtime == (if s.m.closed then None else thread.outcome)
      && At(s', t) ==
         (if thread.outcome.None? then None
          else if s.m.closed then Some(Closing(thread.outcome.value))
          else Some(Holding(thread.outcome.value)))
  {
    RunInv(actions);
  }

  /** Main result. The manager closes exactly when it is told to, and for good. An
      installed runtime is taken away exactly by that, or by the callback of the armed
      timer, and whoever takes it goes on to close it. */
  lemma RuntimeTakenExactly(actions: seq<Action>, a: Action)
    requires Enabled(Run(actions), a)
    ensures var s := Run(actions); var s' := Next(s, a);
      && (s'.m.closed <==> s.m.closed || a.DoClose?)
      && (s.m.runtime.Some? ==>
            (s'.m.runtime != s.m.runtime <==> a.DoClose? || (a.DoFire? && s.m.idleTimer == Some(a.generation)))
            && (s'.m.runtime != s.m.runtime ==>
                  s'.m.runtime.None? && At(s', a.t) == Some(Closing(s.m.runtime.value))))
      && ((a.DoClose? || a.DoFire?) && s'.m.runtime == s.m.runtime ==> At(s', a.t) == None)
  {
    RunInv(actions);
    hide Run, CountInv, OwnedOnce, NoneLost, ChannelInv;
    if a.DoFire? { FireTakes(Run(actions), a); } else { OthersTake(Run(actions), a); }
    hide Next;
  }

  lemma FireTakes(s: System, a: Action)
    requires TimerInv(s) && Enabled(s, a) && a.DoFire?
    ensures var s' := Next(s, a);
      && s'.m.closed == s.m.closed
      && (if s.m.idleTimer == Some(a.generation)
          then s.m.runtime.Some? && s'.m.runtime.None? && At(s', a.t) == Some(Closing(s.m.runtime.value))
          else s'.m.runtime == s.m.runtime && At(s', a.t) == None)
  {
  }

  lemma OthersTake(s: System, a: Action)
    requires OpenerInv(s) && HolderInv(s) && Enabled(s, a) && !a.DoFire?
    ensures var s' := Next(s, a);
      && (s'.m.closed <==> s.m.closed || a.DoClose?)
      && (a.DoClose? ==>
            s'.m.runtime.None? && At(s', a.t) == if s.m.runtime.Some? then Some(Closing(s.m.runtime.value)) else None)
      && (!a.DoClose? && s.m.runtime.Some? ==> s'.m.runtime == s.m.runtime)
  {
  }
}

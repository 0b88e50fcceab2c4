/** The manager itself: the sections run on its fields. */
module StdioManager {
  import opened Wrappers
  import opened ManagerSections

  class Manager {
    var runtime: Option<Runtime>
    var starting: Option<Channel>
    var activeOperations: int
    var frontendActivity: int
    var idleTimer: Option<nat>
    var generation: nat
    var closed: bool

    ghost function View(): State
      reads this
    {
      State(runtime, starting, activeOperations, frontendActivity, idleTimer, generation, closed)
    }

    constructor ()
      ensures View() == INITIAL
    {
      runtime, starting, idleTimer := None, None, None;
      activeOperations, frontendActivity, generation, closed := 0, 0, 0, false;
    }

    /** One pass of acquire's loop up to the point where it blocks or returns. */
    method Enter(channel: Channel) returns (entered: Entered)
      modifies this
      ensures (View(), entered) == ManagerSections.Enter(old(View()), channel)
    {
      if closed {
        return Refused;
      }
      StopTimer();
      if runtime.Some? {
        activeOperations := activeOperations + 1;
        return Joined(runtime.value);
      }
      if starting.Some? {
        return MustWait(starting.value);
      }
      starting := Some(channel);
      return MustOpen(channel);
    }

    /** The section after `open` returns. Its caller closes a discarded runtime. */
    method Publish(outcome: Option<Runtime>) returns (published: Published)
      modifies this
      ensures (View(), published) == ManagerSections.Publish(old(View()), outcome)
    {
      starting := None;
      if outcome.Some? && !closed {
        runtime := outcome;
        activeOperations := activeOperations + 1;
      }
      if outcome.None? {
        return OpenFailed;
      }
      if closed {
        return Discarded(outcome.value);
      }
      return Installed(outcome.value);
    }

    method Release()
      modifies this
      ensures View() == ManagerSections.Release(old(View()))
    {
      if activeOperations > 0 {
        activeOperations := activeOperations - 1;
      }
      ArmTimer();
    }

    method SetFrontendActivity(active: int)
      modifies this
      ensures View() == ManagerSections.SetFrontendActivity(old(View()), active)
    {
      frontendActivity := if active < 0 then 0 else active;
      if active > 0 {
        StopTimer();
      } else {
        ArmTimer();
      }
    }

    method StopTimer()
      modifies this`idleTimer, this`generation
      ensures View() == ManagerSections.StopTimer(old(View()))
    {
      idleTimer := None;
      generation := generation + 1;
    }

    method ArmTimer()
      modifies this`idleTimer, this`generation
      ensures View() == ManagerSections.ArmTimer(old(View()))
    {
      if closed || runtime.None? || activeOperations != 0 || frontendActivity != 0 || idleTimer.Some? {
        return;
      }
      generation := generation + 1;
      idleTimer := Some(generation);
    }

    method Retire(fired: nat) returns (toClose: Option<Runtime>)
      modifies this
      ensures (View(), toClose) == ManagerSections.Retire(old(View()), fired)
    {
      if closed || fired != generation || activeOperations != 0 || frontendActivity != 0 {
        return None;
      }
      toClose := runtime;
      if toClose.None? {
        idleTimer := None;
        return;
      }
      runtime := None;
      idleTimer := None;
      generation := generation + 1;
    }

    method Close() returns (toClose: Option<Runtime>)
      modifies this
      ensures (View(), toClose) == ManagerSections.Close(old(View()))
    {
      if closed {
        return None;
      }
      closed := true;
      StopTimer();
      toClose := runtime;
      runtime := None;
    }
  }
}

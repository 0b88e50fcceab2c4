/** The lifetime of one stdio component runtime: opened on first use, retired by an
    idle timer, closed with its frontend.

    Each critical section under the manager's mutex is one function on `State`. */
module ManagerSections {
  import opened Wrappers

  type Runtime = nat
  type Channel = nat

  datatype State = State(
    runtime: Option<Runtime>,
    starting: Option<Channel>,
    activeOperations: int,
    frontendActivity: int,
    idleTimer: Option<nat>,      // the generation its callback carries
    generation: nat,
    closed: bool)

  const INITIAL := State(None, None, 0, 0, None, 0, false)

  datatype Entered = Refused | Joined(runtime: Runtime) | MustWait(channel: Channel) | MustOpen(channel: Channel)

  datatype Published = OpenFailed | Installed(runtime: Runtime) | Discarded(runtime: Runtime)

  function StopTimer(m: State): State {
    m.(idleTimer := None, generation := m.generation + 1)
  }

  predicate Idle(m: State) {
    !m.closed && m.runtime.Some? && m.activeOperations == 0 && m.frontendActivity == 0
  }

  function ArmTimer(m: State): State {
    if !Idle(m) || m.idleTimer.Some? then m
    else m.(generation := m.generation + 1, idleTimer := Some(m.generation + 1))
  }

  function Enter(m: State, channel: Channel): (State, Entered) {
    if m.closed then (m, Refused)
    else
      var m' := StopTimer(m);
      if m'.runtime.Some? then (m'.(activeOperations := m'.activeOperations + 1), Joined(m'.runtime.value))
      else if m'.starting.Some? then (m', MustWait(m'.starting.value))
      else (m'.(starting := Some(channel)), MustOpen(channel))
  }

  function Publish(m: State, outcome: Option<Runtime>): (State, Published) {
    var m' := m.(starting := None);
    match outcome
    case None => (m', OpenFailed)
    case Some(r) =>
      if m.closed then (m', Discarded(r))
      else (m'.(runtime := outcome, activeOperations := m'.activeOperations + 1), Installed(r))
  }

  function Release(m: State): State {
    ArmTimer(m.(activeOperations := if m.activeOperations > 0 then m.activeOperations - 1 else m.activeOperations))
  }

  function SetFrontendActivity(m: State, active: int): State {
    var m' := m.(frontendActivity := if active < 0 then 0 else active);
    if active > 0 then StopTimer(m') else ArmTimer(m')
  }

  /** The second component is the runtime that the caller must close. */
  function Retire(m: State, generation: nat): (State, Option<Runtime>) {
    if m.closed || generation != m.generation || m.activeOperations != 0 || m.frontendActivity != 0 then (m, None)
    else if m.runtime.None? then (m.(idleTimer := None), None)
    else (m.(runtime := None, idleTimer := None, generation := m.generation + 1), m.runtime)
  }

  function Close(m: State): (State, Option<Runtime>) {
    if m.closed then (m, None)
    else (StopTimer(m.(closed := true)).(runtime := None), m.runtime)
  }
}

/**
 * Executing a decision against ports that may fail, as a function of the
 * stored state of the controller, the supervisor, the timer and the sinks.
 *
 * Like the output driver, the timer and the vehicle gateway follow scripts that
 * fix the outcome of every call in advance.
 */
module RuntimeSpec {
  import opened ControllerSpec
  import opened SafetyPolicy
  import opened SupervisorSpec
  import opened Vehicle

  /** How a timer call ends; a refused call leaves the timer in any state. */
  datatype TimerOutcome = TimerOutcome(ok: bool, armed: bool, dueMs: nat)

  datatype TimerState = TimerState(nowMs: nat, armed: bool, dueMs: nat, calls: nat)

  type TimerScript = nat -> TimerOutcome
  type GatewayScript = nat -> bool

  datatype Ports = Ports(driver: DriverScript, timer: TimerScript, gateway: GatewayScript)

  datatype Notice = Notice(kind: ActionType, state: ControllerState, fault: FaultCode, safety: SafetyAssessment)

  /** Everything behind the controller. */
  datatype Plant = Plant(guarded: Guarded, timer: TimerState, gatewayCalls: nat, notices: seq<Notice>)

  datatype World = World(control: Control, plant: Plant)

  /** What is fixed while the system runs. */
  datatype Setup = Setup(controller: ControllerConfig, supervisor: SafetyConfig, ports: Ports)

  function ArmTimerPort(script: TimerScript, t: TimerState, durationMs: nat): TimerState {
    var outcome := script(t.calls);
    if outcome.ok then TimerState(t.nowMs, true, t.nowMs + durationMs, t.calls + 1)
    else TimerState(t.nowMs, outcome.armed, outcome.dueMs, t.calls + 1)
  }

  function CancelTimerPort(script: TimerScript, t: TimerState): TimerState {
    var outcome := script(t.calls);
    if outcome.ok then TimerState(t.nowMs, false, t.dueMs, t.calls + 1)
    else TimerState(t.nowMs, outcome.armed, outcome.dueMs, t.calls + 1)
  }

  /** The state of the plant after an attempt, and the fault code it is reported with. */
  datatype Attempt = Attempt(plant: Plant, fault: FaultCode)

  function Command1(s: Setup, p: Plant, command: Command): Attempt {
    Attempt(
      p.(guarded := Perform(Wrapping, s.supervisor, s.ports.driver, p.guarded, command)),
      if CommandSucceeds(Wrapping, s.supervisor, s.ports.driver, p.guarded, command) then NoFault else ActuatorFailure)
  }

  function ExecuteAction(s: Setup, p: Plant, action: Action, d: Decision): Attempt {
    match action.kind
    case RequestVehicleState =>
      Attempt(p.(gatewayCalls := p.gatewayCalls + 1),
              if s.ports.gateway(p.gatewayCalls) then NoFault else VehicleCommunication)
    case EnableIgnition => Command1(s, p, Enable)
    case EngageStarter => Command1(s, p, Engage)
    case DisengageStarter => Command1(s, p, Disengage)
    case ReleaseRemoteControl => Command1(s, p, Release)
    case SecureOutputs => Command1(s, p, Secure)
    case ArmTimer =>
      Attempt(p.(timer := ArmTimerPort(s.ports.timer, p.timer, action.durationMs)),
              if s.ports.timer(p.timer.calls).ok then NoFault else TimerFailure)
    case CancelTimer =>
      Attempt(p.(timer := CancelTimerPort(s.ports.timer, p.timer)),
              if s.ports.timer(p.timer.calls).ok then NoFault else TimerFailure)
    case _ => Attempt(p.(notices := p.notices + [Notice(action.kind, d.state, d.fault, d.safety)]), NoFault)
  }

  /** Runs the actions from i on; the first failure stops the rest. */
  function Execute(s: Setup, p: Plant, d: Decision, i: nat): Attempt
    requires i <= |d.actions|
    decreases |d.actions| - i
  {
    if i == |d.actions| then Attempt(p, NoFault)
    else
      var attempt := ExecuteAction(s, p, d.actions[i], d);
      if attempt.fault != NoFault then attempt else Execute(s, attempt.plant, d, i + 1)
  }

  predicate SafingAction(kind: ActionType) {
    kind == CancelTimer || kind == DisengageStarter || kind == SecureOutputs || kind == NotifyFault
  }

  /** Runs the safing actions from i on, whatever fails. */
  function ExecuteSafing(s: Setup, p: Plant, d: Decision, i: nat): Plant
    requires i <= |d.actions|
    decreases |d.actions| - i
  {
    if i == |d.actions| then p
    else if SafingAction(d.actions[i].kind) then
      ExecuteSafing(s, ExecuteAction(s, p, d.actions[i], d).plant, d, i + 1)
    else ExecuteSafing(s, p, d, i + 1)
  }

  datatype Dispatched = Dispatched(world: World, decision: Decision)

  /** One event: decide, execute, and on a failed action decide again and make everything safe. */
  function Dispatch(s: Setup, w: World, event: Event, v: VehicleState): Dispatched {
    var decision := Handle(s.controller, w.control, event, v);
    var executed := Execute(s, w.plant, decision, 0);
    if executed.fault == NoFault then Dispatched(World(After(decision), executed.plant), decision)
    else
      var safing := Handle(s.controller, After(decision), Event(InfrastructureFailure, executed.fault), v);
      Dispatched(World(After(safing), ExecuteSafing(s, executed.plant, safing, 0)), safing)
  }
}

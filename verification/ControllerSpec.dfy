/**
 * The nine-state session controller as a function of its stored state.
 *
 * React names what an event makes the controller do; NextState, NextFault and
 * Actions say what each of those reactions means.
 */
module ControllerSpec {
  import opened Clock32
  import opened SafetyPolicy
  import opened Vehicle

  datatype ControllerState =
    | Idle | Authorizing | Preparing | Cranking | Running | AwaitingTakeover | DriverControl | Stopping | Fault

  datatype FaultCode =
    | NoFault
    | SafetyInterlock
    | VehicleCommunication
    | AuthorizationTimeout
    | CrankTimeout
    | StopTimeout
    | ActuatorFailure
    | TimerFailure
    | InternalError

  datatype EventType =
    | RemoteStartRequested
    | RemoteStopRequested
    | VehicleStateUpdated
    | TimerElapsed
    | DriverTakeoverConfirmed
    | InfrastructureFailure
    | ResetRequested

  datatype Event = Event(kind: EventType, fault: FaultCode)

  datatype ActionType =
    | RequestVehicleState
    | EnableIgnition
    | EngageStarter
    | DisengageStarter
    | ReleaseRemoteControl
    | SecureOutputs
    | ArmTimer
    | CancelTimer
    | NotifyProfileRejected
    | NotifyRemoteStartDisabled
    | NotifyStartAccepted
    | NotifyStartRejected
    | NotifyRunning
    | NotifyTakeoverPending
    | NotifyTakeoverComplete
    | NotifyStopping
    | NotifyStopped
    | NotifyFault
    | NotifyReady
    | NotifyRequestIgnored
    | NotifyResetRejected

  datatype Action = Action(kind: ActionType, durationMs: u32)

  const MAXIMUM_ACTIONS: nat := 8

  datatype Decision = Decision(
    previousState: ControllerState,
    state: ControllerState,
    previousFault: FaultCode,
    fault: FaultCode,
    safety: SafetyAssessment,
    actions: seq<Action>)
  {
    /** Appends an action; a full decision silently keeps what it has. */
    function Add(kind: ActionType, durationMs: u32): Decision {
      if |actions| < MAXIMUM_ACTIONS then this.(actions := actions + [Action(kind, durationMs)]) else this
    }

    predicate Contains(kind: ActionType) {
      exists i :: 0 <= i < |actions| && actions[i].kind == kind
    }
  }

  datatype DriverEntryMode = RequireTakeover | StopImmediately

  datatype ControllerConfig = ControllerConfig(
    safety: SafetyPolicyConfig,
    profileReady: bool,
    remoteStartEnabled: bool,
    driverEntryMode: DriverEntryMode,
    authorizationTimeoutMs: u32,
    preparationDelayMs: u32,
    maximumCrankTimeMs: u32,
    maximumRemoteRunTimeMs: u32,
    driverTakeoverTimeoutMs: u32,
    stopConfirmationTimeoutMs: u32)

  /** The controller's stored state. */
  datatype Control = Control(state: ControllerState, fault: FaultCode)

  const INITIAL_CONTROL := Control(Idle, NoFault)

  predicate EngineIsRunning(config: ControllerConfig, v: VehicleState) {
    v.engineRpm.IsFresh() && v.engineRpm.value >= config.safety.runningRpmThreshold
  }

  predicate EngineIsStopped(config: ControllerConfig, v: VehicleState) {
    v.engineRpm.IsFresh() && v.engineRpm.value < config.safety.runningRpmThreshold
  }

  predicate DoorIsOpen(v: VehicleState) {
    Shows(v.doorsClosed, false)
  }

  predicate Approves(config: ControllerConfig, purpose: Purpose, v: VehicleState) {
    Assess(config.safety, purpose, v).Approved()
  }

  /** What an event makes the controller do. */
  datatype Reaction =
    | Quiet
    | Ignore
    | RefuseDisabled
    | RefuseProfile
    | RefuseStart
    | RefuseReset
    | SecureAndIgnore
    | AcknowledgeStop
    | BeginAuthorizing
    | BeginPreparing
    | BeginCranking
    | BeginRunning
    | BeginAwaitingTakeover
    | CompleteTakeover
    | BeginStopping
    | CompleteStop
    | EndDriverControl
    | CompleteReset
    | EnterFault(code: FaultCode)

  function InterlockUnless(approved: bool, otherwise: Reaction): Reaction {
    if approved then otherwise else EnterFault(SafetyInterlock)
  }

  function ReactToStart(config: ControllerConfig, state: ControllerState): Reaction {
    if state != Idle then Ignore
    else if !config.remoteStartEnabled then RefuseDisabled
    else if !config.profileReady then RefuseProfile
    else BeginAuthorizing
  }

  function ReactToStop(state: ControllerState): Reaction {
    match state
    case Authorizing => CompleteStop
    case Preparing => CompleteStop
    case Cranking => CompleteStop
    case Running => BeginStopping
    case AwaitingTakeover => BeginStopping
    case DriverControl => Ignore
    case Stopping => Ignore
    case Fault => SecureAndIgnore
    case Idle => AcknowledgeStop
  }

  function ReactToVehicle(config: ControllerConfig, state: ControllerState, v: VehicleState): Reaction {
    match state
    case Authorizing => if Approves(config, ForStart, v) then BeginPreparing else RefuseStart
    case Preparing => InterlockUnless(Approves(config, ForStart, v), Quiet)
    case Cranking =>
      InterlockUnless(Approves(config, ForCranking, v), if EngineIsRunning(config, v) then BeginRunning else Quiet)
    case Running =>
      if !DoorIsOpen(v) then InterlockUnless(Approves(config, ForRemoteRun, v), Quiet)
      else if config.driverEntryMode == StopImmediately then BeginStopping
      else InterlockUnless(Approves(config, ForTakeover, v), BeginAwaitingTakeover)
    case AwaitingTakeover => InterlockUnless(Approves(config, ForTakeover, v), Quiet)
    case DriverControl => if EngineIsStopped(config, v) then EndDriverControl else Quiet
    case Stopping => if EngineIsStopped(config, v) then CompleteStop else Quiet
    case Idle => Quiet
    case Fault => Quiet
  }

  function ReactToTimer(config: ControllerConfig, state: ControllerState, v: VehicleState): Reaction {
    match state
    case Authorizing => EnterFault(AuthorizationTimeout)
    case Preparing => InterlockUnless(Approves(config, ForStart, v), BeginCranking)
    case Cranking => EnterFault(CrankTimeout)
    case Running => BeginStopping
    case AwaitingTakeover => BeginStopping
    case Stopping => EnterFault(StopTimeout)
    case DriverControl => Quiet
    case Idle => Quiet
    case Fault => Quiet
  }

  function ReactToTakeover(config: ControllerConfig, state: ControllerState, v: VehicleState): Reaction {
    if state != AwaitingTakeover then Ignore
    else InterlockUnless(Approves(config, ForTakeover, v), CompleteTakeover)
  }

  function ReactToReset(config: ControllerConfig, state: ControllerState, v: VehicleState): Reaction {
    if state != Fault then Ignore
    else if EngineIsStopped(config, v) && Shows(v.criticalFaultPresent, false) then CompleteReset
    else RefuseReset
  }

  function React(config: ControllerConfig, state: ControllerState, event: Event, v: VehicleState): Reaction {
    match event.kind
    case RemoteStartRequested => ReactToStart(config, state)
    case RemoteStopRequested => ReactToStop(state)
    case VehicleStateUpdated => ReactToVehicle(config, state, v)
    case TimerElapsed => ReactToTimer(config, state, v)
    case DriverTakeoverConfirmed => ReactToTakeover(config, state, v)
    case InfrastructureFailure => EnterFault(if event.fault == NoFault then InternalError else event.fault)
    case ResetRequested => ReactToReset(config, state, v)
  }

  function NextState(state: ControllerState, r: Reaction): ControllerState {
    match r
    case BeginAuthorizing => Authorizing
    case BeginPreparing => Preparing
    case BeginCranking => Cranking
    case BeginRunning => Running
    case BeginAwaitingTakeover => AwaitingTakeover
    case CompleteTakeover => DriverControl
    case BeginStopping => Stopping
    case CompleteStop => Idle
    case EndDriverControl => Idle
    case CompleteReset => Idle
    case RefuseStart => Idle
    case EnterFault(_) => Fault
    case _ => state
  }

  function NextFault(fault: FaultCode, r: Reaction): FaultCode {
    match r
    case EnterFault(code) => code
    case CompleteStop => NoFault
    case CompleteReset => NoFault
    case RefuseStart => NoFault
    case _ => fault
  }

  function Do(kind: ActionType): Action {
    Action(kind, 0)
  }

  function Actions(config: ControllerConfig, r: Reaction): seq<Action> {
    match r
    case Quiet => []
    case Ignore => [Do(NotifyRequestIgnored)]
    case RefuseDisabled => [Do(SecureOutputs), Do(NotifyRemoteStartDisabled)]
    case RefuseProfile => [Do(SecureOutputs), Do(NotifyProfileRejected)]
    case RefuseStart => [Do(CancelTimer), Do(SecureOutputs), Do(NotifyStartRejected)]
    case RefuseReset => [Do(SecureOutputs), Do(NotifyResetRejected)]
    case SecureAndIgnore => [Do(SecureOutputs), Do(NotifyRequestIgnored)]
    case AcknowledgeStop => [Do(NotifyStopped)]
    case BeginAuthorizing => [Do(RequestVehicleState), Action(ArmTimer, config.authorizationTimeoutMs)]
    case BeginPreparing =>
      [Do(CancelTimer), Do(EnableIgnition), Do(NotifyStartAccepted), Action(ArmTimer, config.preparationDelayMs)]
    case BeginCranking => [Do(CancelTimer), Do(EngageStarter), Action(ArmTimer, config.maximumCrankTimeMs)]
    case BeginRunning =>
      [Do(CancelTimer), Do(DisengageStarter), Do(NotifyRunning), Action(ArmTimer, config.maximumRemoteRunTimeMs)]
    case BeginAwaitingTakeover =>
      [Do(CancelTimer), Do(NotifyTakeoverPending), Action(ArmTimer, config.driverTakeoverTimeoutMs)]
    case CompleteTakeover =>
      [Do(CancelTimer), Do(DisengageStarter), Do(ReleaseRemoteControl), Do(NotifyTakeoverComplete)]
    case BeginStopping =>
      [Do(CancelTimer), Do(DisengageStarter), Do(SecureOutputs), Do(NotifyStopping),
       Action(ArmTimer, config.stopConfirmationTimeoutMs)]
    case CompleteStop => [Do(CancelTimer), Do(DisengageStarter), Do(SecureOutputs), Do(NotifyStopped)]
    case EndDriverControl => [Do(NotifyReady)]
    case CompleteReset => [Do(CancelTimer), Do(SecureOutputs), Do(NotifyReady)]
    case EnterFault(_) => [Do(CancelTimer), Do(DisengageStarter), Do(SecureOutputs), Do(NotifyFault)]
  }

  /** The assessment a decision carries: the one made on the way to it, if any. */
  function Assessed(config: ControllerConfig, state: ControllerState, event: Event, v: VehicleState): SafetyAssessment {
    match (event.kind, state)
    case (VehicleStateUpdated, Authorizing) => Assess(config.safety, ForStart, v)
    case (VehicleStateUpdated, Preparing) => Assess(config.safety, ForStart, v)
    case (VehicleStateUpdated, Cranking) => Assess(config.safety, ForCranking, v)
    case (VehicleStateUpdated, Running) =>
      if !DoorIsOpen(v) then Assess(config.safety, ForRemoteRun, v)
      else if config.driverEntryMode == RequireTakeover then Assess(config.safety, ForTakeover, v)
      else NO_REASON
    case (VehicleStateUpdated, AwaitingTakeover) => Assess(config.safety, ForTakeover, v)
    case (TimerElapsed, Preparing) => Assess(config.safety, ForStart, v)
    case (DriverTakeoverConfirmed, AwaitingTakeover) => Assess(config.safety, ForTakeover, v)
    case _ => NO_REASON
  }

  function Handle(config: ControllerConfig, control: Control, event: Event, v: VehicleState): Decision {
    var r := React(config, control.state, event, v);
    Decision(control.state, NextState(control.state, r), control.fault, NextFault(control.fault, r),
             Assessed(config, control.state, event, v), Actions(config, r))
  }

  function After(d: Decision): Control {
    Control(d.state, d.fault)
  }

  /** The stored state after a reaction. */
  function Apply(was: Control, r: Reaction): Control {
    Control(NextState(was.state, r), NextFault(was.fault, r))
  }
}

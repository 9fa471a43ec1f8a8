/**
 * The controller object: fields updated by handlers that append, action by
 * action, to a bounded decision. Every call is proved to produce exactly the
 * decision and the stored state the specification names.
 */
module Controller {
  import opened ControllerSpec
  import opened SafetyPolicy
  import opened Vehicle

  class Controller {
    const config: ControllerConfig
    var state: ControllerState
    var fault: FaultCode

    constructor (config: ControllerConfig)
      ensures this.config == config && Stored() == INITIAL_CONTROL
    {
      this.config := config;
      state, fault := Idle, NoFault;
    }

    function Stored(): Control
      reads this
    {
      Control(state, fault)
    }

    method Handle(event: Event, vehicle: VehicleState) returns (d: Decision)
      modifies this
      ensures d == ControllerSpec.Handle(config, old(Stored()), event, vehicle)
      ensures Stored() == After(d)
    {
      d := Decision(state, state, fault, fault, NO_REASON, []);
      match event.kind {
        case RemoteStartRequested => d := HandleStartRequest(d);
        case RemoteStopRequested => d := HandleStopRequest(d);
        case VehicleStateUpdated => d := HandleVehicleUpdate(d, vehicle);
        case TimerElapsed => d := HandleTimer(d, vehicle);
        case DriverTakeoverConfirmed => d := HandleDriverTakeover(d, vehicle);
        case InfrastructureFailure =>
          d := FallIntoFault(d, if event.fault == NoFault then InternalError else event.fault);
        case ResetRequested => d := HandleReset(d, vehicle);
      }
      d := d.(state := state, fault := fault);
    }

    method HandleStartRequest(d: Decision) returns (d': Decision)
      requires d.state == state && d.safety == NO_REASON && d.actions == []
      modifies this
      ensures Stored() == Apply(old(Stored()), ReactToStart(config, old(state)))
      ensures d' == d.(state := state, safety := NO_REASON, actions := Actions(config, ReactToStart(config, old(state))))
    {
      d' := d;
      if state != Idle {
        d' := d'.Add(NotifyRequestIgnored, 0);
        return;
      }
      if !config.remoteStartEnabled {
        d' := d'.Add(SecureOutputs, 0);
        d' := d'.Add(NotifyRemoteStartDisabled, 0);
        return;
      }
      if !config.profileReady {
        d' := d'.Add(SecureOutputs, 0);
        d' := d'.Add(NotifyProfileRejected, 0);
        return;
      }
      d' := Transition(d', Authorizing);
      d' := d'.Add(RequestVehicleState, 0);
      d' := d'.Add(ArmTimer, config.authorizationTimeoutMs);
    }

    method HandleStopRequest(d: Decision) returns (d': Decision)
      requires d.state == state && d.safety == NO_REASON && d.actions == []
      modifies this
      ensures Stored() == Apply(old(Stored()), ReactToStop(old(state)))
      ensures d' == d.(state := state, safety := NO_REASON, actions := Actions(config, ReactToStop(old(state))))
    {
      d' := d;
      match state {
        case Authorizing => d' := FinishStop(d');
        case Preparing => d' := FinishStop(d');
        case Cranking => d' := FinishStop(d');
        case Running => d' := StartStopping(d');
        case AwaitingTakeover => d' := StartStopping(d');
        case DriverControl => d' := d'.Add(NotifyRequestIgnored, 0);
        case Fault =>
          d' := d'.Add(SecureOutputs, 0);
          d' := d'.Add(NotifyRequestIgnored, 0);
        case Idle => d' := d'.Add(NotifyStopped, 0);
        case Stopping => d' := d'.Add(NotifyRequestIgnored, 0);
      }
    }

    method HandleVehicleUpdate(d: Decision, vehicle: VehicleState) returns (d': Decision)
      requires d.state == state && d.safety == NO_REASON && d.actions == []
      modifies this
      ensures Stored() == Apply(old(Stored()), ReactToVehicle(config, old(state), vehicle))
      ensures d' == d.(state := state, safety := Assessed(config, old(state), Event(VehicleStateUpdated, NoFault), vehicle),
                       actions := Actions(config, ReactToVehicle(config, old(state), vehicle)))
    {
      hide Assess;
      d' := d;
      match state {
        case Authorizing =>
          d' := d'.(safety := Assess(config.safety, ForStart, vehicle));
          if d'.safety.Approved() {
            d' := StartPreparing(d');
          } else {
            d' := Transition(d', Idle);
            fault := NoFault;
            d' := d'.Add(CancelTimer, 0);
            d' := d'.Add(SecureOutputs, 0);
            d' := d'.Add(NotifyStartRejected, 0);
          }
        case Preparing =>
          d' := d'.(safety := Assess(config.safety, ForStart, vehicle));
          if !d'.safety.Approved() {
            d' := FallIntoFault(d', SafetyInterlock);
          }
        case Cranking =>
          d' := d'.(safety := Assess(config.safety, ForCranking, vehicle));
          if !d'.safety.Approved() {
            d' := FallIntoFault(d', SafetyInterlock);
          } else if EngineIsRunning(config, vehicle) {
            d' := StartRunning(d');
          }
        case Running =>
          if DoorIsOpen(vehicle) {
            if config.driverEntryMode == RequireTakeover {
              d' := d'.(safety := Assess(config.safety, ForTakeover, vehicle));
              if d'.safety.Approved() {
                d' := StartAwaitingTakeover(d');
              } else {
                d' := FallIntoFault(d', SafetyInterlock);
              }
            } else {
              d' := StartStopping(d');
            }
          } else {
            d' := d'.(safety := Assess(config.safety, ForRemoteRun, vehicle));
            if !d'.safety.Approved() {
              d' := FallIntoFault(d', SafetyInterlock);
            }
          }
        case AwaitingTakeover =>
          d' := d'.(safety := Assess(config.safety, ForTakeover, vehicle));
          if !d'.safety.Approved() {
            d' := FallIntoFault(d', SafetyInterlock);
          }
        case DriverControl =>
          if vehicle.engineRpm.IsFresh() && !EngineIsRunning(config, vehicle) {
            d' := Transition(d', Idle);
            d' := d'.Add(NotifyReady, 0);
          }
        case Stopping =>
          if vehicle.engineRpm.IsFresh() && !EngineIsRunning(config, vehicle) {
            d' := FinishStop(d');
          }
        case Idle =>
        case Fault =>
      }
    }

    method HandleTimer(d: Decision, vehicle: VehicleState) returns (d': Decision)
      requires d.state == state && d.safety == NO_REASON && d.actions == []
      modifies this
      ensures Stored() == Apply(old(Stored()), ReactToTimer(config, old(state), vehicle))
      ensures d' == d.(state := state, safety := Assessed(config, old(state), Event(TimerElapsed, NoFault), vehicle),
                       actions := Actions(config, ReactToTimer(config, old(state), vehicle)))
    {
      d' := d;
      match state {
        case Authorizing => d' := FallIntoFault(d', AuthorizationTimeout);
        case Preparing =>
          d' := d'.(safety := Assess(config.safety, ForStart, vehicle));
          if d'.safety.Approved() {
            d' := StartCranking(d');
          } else {
            d' := FallIntoFault(d', SafetyInterlock);
          }
        case Cranking => d' := FallIntoFault(d', CrankTimeout);
        case Running => d' := StartStopping(d');
        case AwaitingTakeover => d' := StartStopping(d');
        case DriverControl =>
        case Stopping => d' := FallIntoFault(d', StopTimeout);
        case Idle =>
        case Fault =>
      }
    }

    method HandleDriverTakeover(d: Decision, vehicle: VehicleState) returns (d': Decision)
      requires d.state == state && d.safety == NO_REASON && d.actions == []
      modifies this
      ensures Stored() == Apply(old(Stored()), ReactToTakeover(config, old(state), vehicle))
      ensures d' == d.(state := state, safety := Assessed(config, old(state), Event(DriverTakeoverConfirmed, NoFault), vehicle),
                       actions := Actions(config, ReactToTakeover(config, old(state), vehicle)))
    {
      d' := d;
      if state != AwaitingTakeover {
        d' := d'.Add(NotifyRequestIgnored, 0);
        return;
      }
      d' := d'.(safety := Assess(config.safety, ForTakeover, vehicle));
      if !d'.safety.Approved() {
        d' := FallIntoFault(d', SafetyInterlock);
        return;
      }
      d' := FinishTakeover(d');
    }

    method HandleReset(d: Decision, vehicle: VehicleState) returns (d': Decision)
      requires d.state == state && d.safety == NO_REASON && d.actions == []
      modifies this
      ensures Stored() == Apply(old(Stored()), ReactToReset(config, old(state), vehicle))
      ensures d' == d.(state := state, safety := NO_REASON, actions := Actions(config, ReactToReset(config, old(state), vehicle)))
    {
      d' := d;
      if state != Fault {
        d' := d'.Add(NotifyRequestIgnored, 0);
        return;
      }
      var engineStopped := vehicle.engineRpm.IsFresh() && !EngineIsRunning(config, vehicle);
      var noCriticalFault := vehicle.criticalFaultPresent.IsFresh() && !vehicle.criticalFaultPresent.value;
      if !engineStopped || !noCriticalFault {
        d' := d'.Add(SecureOutputs, 0);
        d' := d'.Add(NotifyResetRejected, 0);
        return;
      }
      d' := Transition(d', Idle);
      fault := NoFault;
      d' := d'.Add(CancelTimer, 0);
      d' := d'.Add(SecureOutputs, 0);
      d' := d'.Add(NotifyReady, 0);
    }

    method StartPreparing(d: Decision) returns (d': Decision)
      requires d.actions == []
      modifies this
      ensures Stored() == Apply(old(Stored()), BeginPreparing)
      ensures d' == d.(state := state, actions := Actions(config, BeginPreparing))
    {
      d' := Transition(d, Preparing);
      d' := d'.Add(CancelTimer, 0);
      d' := d'.Add(EnableIgnition, 0);
      d' := d'.Add(NotifyStartAccepted, 0);
      d' := d'.Add(ArmTimer, config.preparationDelayMs);
    }

    method StartCranking(d: Decision) returns (d': Decision)
      requires d.actions == []
      modifies this
      ensures Stored() == Apply(old(Stored()), BeginCranking)
      ensures d' == d.(state := state, actions := Actions(config, BeginCranking))
    {
      d' := Transition(d, Cranking);
      d' := d'.Add(CancelTimer, 0);
      d' := d'.Add(EngageStarter, 0);
      d' := d'.Add(ArmTimer, config.maximumCrankTimeMs);
    }

    method StartRunning(d: Decision) returns (d': Decision)
      requires d.actions == []
      modifies this
      ensures Stored() == Apply(old(Stored()), BeginRunning)
      ensures d' == d.(state := state, actions := Actions(config, BeginRunning))
    {
      d' := Transition(d, Running);
      d' := d'.Add(CancelTimer, 0);
      d' := d'.Add(DisengageStarter, 0);
      d' := d'.Add(NotifyRunning, 0);
      d' := d'.Add(ArmTimer, config.maximumRemoteRunTimeMs);
    }

    method StartAwaitingTakeover(d: Decision) returns (d': Decision)
      requires d.actions == []
      modifies this
      ensures Stored() == Apply(old(Stored()), BeginAwaitingTakeover)
      ensures d' == d.(state := state, actions := Actions(config, BeginAwaitingTakeover))
    {
      d' := Transition(d, AwaitingTakeover);
      d' := d'.Add(CancelTimer, 0);
      d' := d'.Add(NotifyTakeoverPending, 0);
      d' := d'.Add(ArmTimer, config.driverTakeoverTimeoutMs);
    }

    method FinishTakeover(d: Decision) returns (d': Decision)
      requires d.actions == []
      modifies this
      ensures Stored() == Apply(old(Stored()), CompleteTakeover)
      ensures d' == d.(state := state, actions := Actions(config, CompleteTakeover))
    {
      d' := Transition(d, DriverControl);
      d' := d'.Add(CancelTimer, 0);
      d' := d'.Add(DisengageStarter, 0);
      d' := d'.Add(ReleaseRemoteControl, 0);
      d' := d'.Add(NotifyTakeoverComplete, 0);
    }

    method StartStopping(d: Decision) returns (d': Decision)
      requires d.actions == []
      modifies this
      ensures Stored() == Apply(old(Stored()), BeginStopping)
      ensures d' == d.(state := state, actions := Actions(config, BeginStopping))
    {
      d' := Transition(d, Stopping);
      d' := d'.Add(CancelTimer, 0);
      d' := d'.Add(DisengageStarter, 0);
      d' := d'.Add(SecureOutputs, 0);
      d' := d'.Add(NotifyStopping, 0);
      d' := d'.Add(ArmTimer, config.stopConfirmationTimeoutMs);
    }

    method FinishStop(d: Decision) returns (d': Decision)
      requires d.actions == []
      modifies this
      ensures Stored() == Apply(old(Stored()), CompleteStop)
      ensures d' == d.(state := state, actions := Actions(config, CompleteStop))
    {
      d' := Transition(d, Idle);
      fault := NoFault;
      d' := d'.Add(CancelTimer, 0);
      d' := d'.Add(DisengageStarter, 0);
      d' := d'.Add(SecureOutputs, 0);
      d' := d'.Add(NotifyStopped, 0);
    }

    method FallIntoFault(d: Decision, code: FaultCode) returns (d': Decision)
      requires d.actions == []
      modifies this
      ensures Stored() == Apply(old(Stored()), EnterFault(code))
      ensures d' == d.(state := state, actions := Actions(config, EnterFault(code)))
    {
      d' := Transition(d, Fault);
      fault := code;
      d' := d'.Add(CancelTimer, 0);
      d' := d'.Add(DisengageStarter, 0);
      d' := d'.Add(SecureOutputs, 0);
      d' := d'.Add(NotifyFault, 0);
    }

    method Transition(d: Decision, next: ControllerState) returns (d': Decision)
      modifies this
      ensures state == next && fault == old(fault)
      ensures d' == d.(state := next)
    {
      state := next;
      d' := d.(state := next);
    }
  }
}

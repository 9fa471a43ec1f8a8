/** The runtime object and the ports it drives. */
module Runtime {
  import opened ActuatorSupervisor
  import opened Clock32
  import opened Controller
  import opened ControllerSpec
  import opened DiagnosticJournal
  import opened DispatchJournal
  import opened RuntimeSpec
  import opened SupervisorSpec
  import opened Vehicle

  class TimerPort {
    const script: TimerScript
    var nowMs: nat
    var armed: bool
    var dueMs: nat
    var calls: nat

    constructor (script: TimerScript)
      ensures this.script == script && State() == TimerState(0, false, 0, 0)
    {
      this.script := script;
      nowMs, armed, dueMs, calls := 0, false, 0, 0;
    }

    function State(): TimerState
      reads this
    {
      TimerState(nowMs, armed, dueMs, calls)
    }

    method Arm(durationMs: u32) returns (ok: bool)
      modifies this
      ensures ok == script(old(calls)).ok && State() == ArmTimerPort(script, old(State()), durationMs)
    {
      var outcome := script(calls);
      calls := calls + 1;
      ok := outcome.ok;
      if ok {
        armed, dueMs := true, nowMs + durationMs;
      } else {
        armed, dueMs := outcome.armed, outcome.dueMs;
      }
    }

    method Cancel() returns (ok: bool)
      modifies this
      ensures ok == script(old(calls)).ok && State() == CancelTimerPort(script, old(State()))
    {
      var outcome := script(calls);
      calls := calls + 1;
      ok := outcome.ok;
      armed := !ok && outcome.armed;
      dueMs := if ok then dueMs else outcome.dueMs;
    }
  }

  class VehicleGateway {
    const script: GatewayScript
    var calls: nat

    constructor (script: GatewayScript)
      ensures this.script == script && calls == 0
    {
      this.script := script;
      calls := 0;
    }

    method RequestState() returns (ok: bool)
      modifies this
      ensures ok == script(old(calls)) && calls == old(calls) + 1
    {
      ok := script(calls);
      calls := calls + 1;
    }
  }

  class NotificationSink {
    var notices: seq<Notice>

    constructor ()
      ensures notices == []
    {
      notices := [];
    }

    method Publish(notice: Notice)
      modifies this
      ensures notices == old(notices) + [notice]
    {
      notices := notices + [notice];
    }
  }

  class Runtime {
    const controller: Controller
    const gateway: VehicleGateway
    const actuators: ActuatorSafetySupervisor
    const timer: TimerPort
    const notifications: NotificationSink
    const journal: DiagnosticJournal?

    constructor (controller: Controller, gateway: VehicleGateway, actuators: ActuatorSafetySupervisor,
                 timer: TimerPort, notifications: NotificationSink, journal: DiagnosticJournal?)
      ensures this.controller == controller && this.gateway == gateway && this.actuators == actuators
      ensures this.timer == timer && this.notifications == notifications && this.journal == journal
    {
      this.controller, this.gateway, this.actuators := controller, gateway, actuators;
      this.timer, this.notifications, this.journal := timer, notifications, journal;
    }

    function Configured(): Setup {
      Setup(controller.config, actuators.config, Ports(actuators.driver.script, timer.script, gateway.script))
    }

    function Behind(): Plant
      reads gateway, actuators, actuators.driver, timer, notifications
    {
      Plant(actuators.State(), timer.State(), gateway.calls, notifications.notices)
    }

    function State(): World
      reads controller, gateway, actuators, actuators.driver, timer, notifications
    {
      World(controller.Stored(), Behind())
    }

    /** What the journal, if there is one, is stored in. */
    ghost function Paper(): set<object> {
      if journal == null then {} else {journal, journal.records}
    }

    /** The journal, if there is one, is in order. */
    ghost predicate Kept()
      reads Paper()
    {
      journal != null ==> journal.Valid()
    }

    /** The log of the journal, if there is one. */
    ghost function Log(): seq<DiagnosticRecord>
      reads Paper()
    {
      if journal == null then [] else journal.log
    }

    /** A log with records appended, if there is one. */
    ghost function Noted(log: seq<DiagnosticRecord>, records: seq<DiagnosticRecord>): seq<DiagnosticRecord> {
      if journal == null then [] else Appended(log, records)
    }

    method Dispatch(event: Event, vehicle: VehicleState, timestampMs: u32) returns (decision: Decision)
      requires Kept()
      modifies controller, gateway, actuators, actuators.driver, timer, notifications, Paper()
      ensures Dispatched(State(), decision) == RuntimeSpec.Dispatch(Configured(), old(State()), event, vehicle)
      ensures Kept()
      ensures Log() == Noted(old(Log()), DispatchRecords(Configured(), old(State()), event, vehicle, timestampMs))
    {
      hide ControllerSpec.Handle;
      hide RuntimeSpec.Execute;
      hide RuntimeSpec.ExecuteSafing;
      hide Appended;
      hide RecordsOf;
      hide SafingRecords;
      hide DispatchRecords;
      hide DiagnosticJournal.Valid;
      DispatchLog(Configured(), State(), event, vehicle, timestampMs, Log());
      decision := controller.Handle(event, vehicle);
      if journal != null {
        journal.Observe(event, decision, timestampMs);
      }
      var executionFault := Execute(decision);
      if executionFault == NoFault {
        return;
      }
      if journal != null {
        journal.RecordInfrastructureFailure(event.kind, decision.state, executionFault, timestampMs);
      }
      var failureEvent := Event(InfrastructureFailure, executionFault);
      decision := controller.Handle(failureEvent, vehicle);
      if journal != null {
        journal.Observe(failureEvent, decision, timestampMs);
      }
      ExecuteSafing(decision, timestampMs);
    }

    method Execute(decision: Decision) returns (fault: FaultCode)
      modifies gateway, actuators, actuators.driver, timer, notifications
      ensures Attempt(Behind(), fault) == RuntimeSpec.Execute(Configured(), old(Behind()), decision, 0)
    {
      hide RuntimeSpec.ExecuteAction;
      for index := 0 to |decision.actions|
        invariant RuntimeSpec.Execute(Configured(), Behind(), decision, index)
               == RuntimeSpec.Execute(Configured(), old(Behind()), decision, 0)
      {
        fault := ExecuteAction(decision.actions[index], decision);
        if fault != NoFault {
          return;
        }
      }
      fault := NoFault;
    }

    method ExecuteAction(action: Action, decision: Decision) returns (fault: FaultCode)
      modifies gateway, actuators, actuators.driver, timer, notifications
      ensures Attempt(Behind(), fault) == RuntimeSpec.ExecuteAction(Configured(), old(Behind()), action, decision)
    {
      hide Perform;
      hide CommandSucceeds;
      var ok := true;
      fault := NoFault;
      match action.kind {
        case RequestVehicleState =>
          ok := gateway.RequestState();
          fault := if ok then NoFault else VehicleCommunication;
        case EnableIgnition =>
          ok := actuators.EnableIgnition();
          fault := if ok then NoFault else ActuatorFailure;
        case EngageStarter =>
          ok := actuators.EngageStarter();
          fault := if ok then NoFault else ActuatorFailure;
        case DisengageStarter =>
          ok := actuators.DisengageStarter();
          fault := if ok then NoFault else ActuatorFailure;
        case ReleaseRemoteControl =>
          ok := actuators.ReleaseRemoteControl();
          fault := if ok then NoFault else ActuatorFailure;
        case SecureOutputs =>
          ok := actuators.SecureOutputs();
          fault := if ok then NoFault else ActuatorFailure;
        case ArmTimer =>
          ok := timer.Arm(action.durationMs);
          fault := if ok then NoFault else TimerFailure;
        case CancelTimer =>
          ok := timer.Cancel();
          fault := if ok then NoFault else TimerFailure;
        case _ =>
          notifications.Publish(Notice(action.kind, decision.state, decision.fault, decision.safety));
      }
    }

    method ExecuteSafing(decision: Decision, timestampMs: u32)
      requires Kept()
      modifies gateway, actuators, actuators.driver, timer, notifications, Paper()
      ensures Behind() == RuntimeSpec.ExecuteSafing(Configured(), old(Behind()), decision, 0)
      ensures Kept()
      ensures Log() == Noted(old(Log()), SafingRecords(Configured(), old(Behind()), decision, 0, timestampMs))
    {
      hide RuntimeSpec.ExecuteAction;
      hide RuntimeSpec.ExecuteSafing;
      hide Appended;
      hide SafingRecords;
      hide DiagnosticJournal.Valid;
      for index := 0 to |decision.actions|
        invariant RuntimeSpec.ExecuteSafing(Configured(), Behind(), decision, index)
               == RuntimeSpec.ExecuteSafing(Configured(), old(Behind()), decision, 0)
        invariant Kept()
        invariant Noted(Log(), SafingRecords(Configured(), Behind(), decision, index, timestampMs))
               == Noted(old(Log()), SafingRecords(Configured(), old(Behind()), decision, 0, timestampMs))
      {
        var action := decision.actions[index];
        ghost var p, log := Behind(), Log();
        SafingStep(Configured(), p, decision, index, timestampMs, log);
        if action.kind == CancelTimer || action.kind == DisengageStarter ||
           action.kind == SecureOutputs || action.kind == NotifyFault
        {
          var fault := ExecuteAction(action, decision);
          if fault != NoFault && journal != null {
            journal.RecordSafingFailure(decision.state, fault, timestampMs);
          }
        }
      }
      SafingEnds(Configured(), Behind(), decision, timestampMs, Log());
    }
  }
}

/** What a remote request makes of the whole running system, whatever its ports do. */
module StartControlOutcomes {
  import opened ControllerSpec
  import opened ControllerTransitions
  import opened RuntimeSpec
  import opened StartControl
  import opened SupervisorRuns
  import opened SupervisorSpec
  import opened Vehicle

  /** The controller after a dispatch: where its first decision lands, or the fault of a failed action. */
  lemma DispatchLands(s: Setup, w: World, event: Event, v: VehicleState)
    ensures var d := Handle(s.controller, w.control, event, v);
            var code, after := Execute(s, w.plant, d, 0).fault, Dispatch(s, w, event, v);
            after.world.control == (if code == NoFault then After(d) else Control(Fault, code))
  {
    hide Handle;
    hide Execute;
    hide ExecuteSafing;
    var d := Handle(s.controller, w.control, event, v);
    var code := Execute(s, w.plant, d, 0).fault;
    if code != NoFault {
      FailureReaction(s.controller, After(d), code, v);
    }
  }

  // ---------- a remote stop ----------

  function StopAt(v: VehicleState): Occurrence {
    Deliver(Event(RemoteStopRequested, NoFault), v)
  }

  /**
   * In every reachable system a remote stop leaves nothing commanded, whatever
   * state it finds and whatever its ports do, and no session going on: one that
   * had not reached running is over, one that had is stopping with the timer
   * armed for its confirmation, or an action failed and the system is in fault.
   */
  lemma StopRequestStops(s: Setup, physical: DriverState, run: seq<Occurrence>, v: VehicleState)
    ensures var y := SystemAt(s, physical, run, |run|);
            var after := Next(s, y, StopAt(v));
            && !after.Sup().OutputsCommanded()
            && match after.State()
               case Fault => true
               case Idle => y.State() == Idle || y.State() == Authorizing || y.State() == Preparing || y.State() == Cranking
               case Stopping =>
                 || y.State() == Stopping
                 || ((y.State() == Running || y.State() == AwaitingTakeover)
                     && after.Timer().armed && after.Timer().dueMs == y.Now() + s.controller.stopConfirmationTimeoutMs)
               case DriverControl => y.State() == DriverControl
               case _ => false
  {
    var y := SystemAt(s, physical, run, |run|);
    var after := Next(s, y, StopAt(v));
    AlwaysSafe(s, physical, run, |run|);
    HappenIsSafe(s, y, StopAt(v));
    assert after.world == Dispatch(s, y.world, Event(RemoteStopRequested, NoFault), v).world;
    hide Next;
    hide Sound;
    StopOutputs(s, y.world, v);
  }

  lemma StopOutputs(s: Setup, w: World, v: VehicleState)
    requires Sound(w.plant.guarded)
    ensures var to := Dispatch(s, w, Event(RemoteStopRequested, NoFault), v).world;
            || to.control.state == Fault
            || (match w.control.state
                case Authorizing | Preparing | Cranking => to.control.state == Idle
                case Running | AwaitingTakeover =>
                  && to.control.state == Stopping && to.plant.timer.armed
                  && to.plant.timer.dueMs == w.plant.timer.nowMs + s.controller.stopConfirmationTimeoutMs
                case _ => to.control.state == w.control.state)
  {
    var stop := Event(RemoteStopRequested, NoFault);
    var d := Handle(s.controller, w.control, stop, v);
    DispatchLands(s, w, stop, v);
    StopLands(s.controller, w.control, v);
    DispatchEffect(s, w, stop, v);
    OutputsByLanding(s.controller, w.control, stop, v, OutputsOf(w.plant), w.plant.timer.nowMs);
    hide Handle;
    hide Dispatch;
    hide Execute;
    hide IntendAll;
    hide Sound;
  }

  /** A dispatch whose actions all succeed leaves the outputs its decision intends. */
  lemma DispatchEffect(s: Setup, w: World, event: Event, v: VehicleState)
    requires Sound(w.plant.guarded)
    ensures Execute(s, w.plant, Handle(s.controller, w.control, event, v), 0).fault == NoFault ==>
              OutputsOf(Dispatch(s, w, event, v).world.plant)
              == ControllerTransitions.Intended(s.controller, w.control, event, v, OutputsOf(w.plant), w.plant.timer.nowMs)
  {
    ExecuteEffect(s, w.plant, Handle(s.controller, w.control, event, v), 0);
    hide Handle;
    hide Execute;
    hide ExecuteSafing;
    hide IntendAll;
    hide Sound;
  }

  // ---------- a remote start ----------

  function StartAt(v: VehicleState): Occurrence {
    Deliver(Event(RemoteStartRequested, NoFault), v)
  }

  /**
   * A start request that finds an enabled, ready controller idle asks the
   * vehicle and waits for its answer under a timer; a refusal of the gateway or
   * of the timer ends in the fault that names it, with nothing commanded.
   */
  lemma StartRequestAsks(s: Setup, physical: DriverState, run: seq<Occurrence>, v: VehicleState)
    requires SystemAt(s, physical, run, |run|).State() == Idle
    requires s.controller.remoteStartEnabled && s.controller.profileReady
    ensures var y := SystemAt(s, physical, run, |run|);
            var after := Next(s, y, StartAt(v));
            var asked, timed := s.ports.gateway(y.world.plant.gatewayCalls), s.ports.timer(y.Timer().calls).ok;
            && !after.Sup().OutputsCommanded()
            && after.world.plant.gatewayCalls == y.world.plant.gatewayCalls + 1
            && (asked && timed ==>
                  && after.State() == Authorizing && after.Timer().armed
                  && after.Timer().dueMs == y.Now() + s.controller.authorizationTimeoutMs)
            && (!asked ==> after.world.control == Control(Fault, VehicleCommunication))
            && (asked && !timed ==> after.world.control == Control(Fault, TimerFailure))
  {
    var y, start := SystemAt(s, physical, run, |run|), Event(RemoteStartRequested, NoFault);
    var after := Next(s, y, StartAt(v));
    AlwaysSafe(s, physical, run, |run|);
    HappenIsSafe(s, y, StartAt(v));
    assert after.world == Dispatch(s, y.world, start, v).world;
    hide Next;
    StartExecution(s, y.world.plant, y.world.control, v);
    DispatchLands(s, y.world, start, v);
    DispatchEffect(s, y.world, start, v);
    OutputsByLanding(s.controller, y.world.control, start, v, OutputsOf(y.world.plant), y.Now());
    LandsExactly(s.controller, y.world.control, start, v, Authorizing);
    SafingAsksNothing(s, y.world, start, v);
    hide Handle;
    hide Dispatch;
    hide Execute;
    hide IntendAll;
    hide Sound;
  }

  lemma StartExecution(s: Setup, p: Plant, control: Control, v: VehicleState)
    requires control.state == Idle && s.controller.remoteStartEnabled && s.controller.profileReady
    ensures var executed := Execute(s, p, Handle(s.controller, control, Event(RemoteStartRequested, NoFault), v), 0);
            var asked, timed := s.ports.gateway(p.gatewayCalls), s.ports.timer(p.timer.calls).ok;
            && executed.plant.gatewayCalls == p.gatewayCalls + 1
            && executed.fault == (if !asked then VehicleCommunication else if !timed then TimerFailure else NoFault)
  {
    var d := Handle(s.controller, control, Event(RemoteStartRequested, NoFault), v);
    assert d.actions == [Do(RequestVehicleState), Action(ArmTimer, s.controller.authorizationTimeoutMs)];
    hide Handle;
    var first := ExecuteAction(s, p, d.actions[0], d);
    assert first.fault == NoFault ==> Execute(s, p, d, 0) == Execute(s, first.plant, d, 1);
    var second := ExecuteAction(s, first.plant, d.actions[1], d);
    assert second.fault == NoFault ==> Execute(s, first.plant, d, 1) == Execute(s, second.plant, d, 2);
    assert Execute(s, second.plant, d, 2) == Attempt(second.plant, NoFault);
  }

  lemma {:induction false} SafingGateway(s: Setup, p: Plant, d: Decision, i: nat)
    requires i <= |d.actions|
    ensures ExecuteSafing(s, p, d, i).gatewayCalls == p.gatewayCalls
    decreases |d.actions| - i
  {
    hide Perform;
    hide CommandSucceeds;
    if i < |d.actions| {
      SafingGateway(s, ExecuteAction(s, p, d.actions[i], d).plant, d, i + 1);
      SafingGateway(s, p, d, i + 1);
    }
  }

  /** Making safe asks the vehicle nothing. */
  lemma SafingAsksNothing(s: Setup, w: World, event: Event, v: VehicleState)
    ensures Dispatch(s, w, event, v).world.plant.gatewayCalls
            == Execute(s, w.plant, Handle(s.controller, w.control, event, v), 0).plant.gatewayCalls
  {
    hide Handle;
    hide Execute;
    var d := Handle(s.controller, w.control, event, v);
    var executed := Execute(s, w.plant, d, 0);
    if executed.fault != NoFault {
      SafingGateway(s, executed.plant, Handle(s.controller, After(d), Event(InfrastructureFailure, executed.fault), v), 0);
    }
  }

  // ---------- which port a fault names ----------

  /** A failed action is reported with the code of the port that refused it, exactly when it did. */
  lemma CodeNamesPort(s: Setup, p: Plant, action: Action, d: Decision)
    ensures var code := ExecuteAction(s, p, action, d).fault;
            && (code == VehicleCommunication <==> action.kind == RequestVehicleState && !s.ports.gateway(p.gatewayCalls))
            && (code == TimerFailure <==>
                  (action.kind == ArmTimer || action.kind == CancelTimer) && !s.ports.timer(p.timer.calls).ok)
            && (code == ActuatorFailure ==>
                  action.kind == EnableIgnition || action.kind == EngageStarter || action.kind == DisengageStarter
                  || action.kind == ReleaseRemoteControl || action.kind == SecureOutputs)
            && (code == NoFault || code == VehicleCommunication || code == TimerFailure || code == ActuatorFailure)
  {
    hide Perform;
    hide CommandSucceeds;
  }
}

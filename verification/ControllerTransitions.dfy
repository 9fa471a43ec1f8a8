/**
 * The controller's transition table, read by where a decision lands: which
 * states, events and snapshots lead to each state and fault code, what the
 * outputs and the timer become on the way, and what is announced.
 */
module ControllerTransitions {
  import opened ControllerSpec
  import opened SafetyPolicy
  import opened StartControl
  import opened Vehicle

  // ---------- what a snapshot shows ----------

  predicate Turning(config: ControllerConfig, v: VehicleState) {
    v.engineRpm.quality == Fresh && v.engineRpm.value >= config.safety.runningRpmThreshold
  }

  predicate Stopped(config: ControllerConfig, v: VehicleState) {
    v.engineRpm.quality == Fresh && v.engineRpm.value < config.safety.runningRpmThreshold
  }

  predicate DoorOpen(v: VehicleState) {
    v.doorsClosed.quality == Fresh && !v.doorsClosed.value
  }

  predicate NoCriticalFault(v: VehicleState) {
    v.criticalFaultPresent.quality == Fresh && !v.criticalFaultPresent.value
  }

  predicate Meets(config: ControllerConfig, purpose: Purpose, v: VehicleState) {
    MeetsMatrix(config.safety, purpose, v)
  }

  // ---------- where a decision lands ----------

  /** The events that leave every session state but the one they are for alone. */
  predicate Idles(kind: EventType) {
    kind == RemoteStartRequested || kind == DriverTakeoverConfirmed || kind == ResetRequested
  }

  /** A session goes on in its state, or is there for the first time, exactly here. */
  predicate ToSession(config: ControllerConfig, from: ControllerState, kind: EventType, v: VehicleState, to: ControllerState) {
    match to
    case Authorizing =>
      || (from == Idle && kind == RemoteStartRequested && config.remoteStartEnabled && config.profileReady)
      || (from == Authorizing && Idles(kind))
    case Preparing =>
      || (from == Authorizing && kind == VehicleStateUpdated && Meets(config, ForStart, v))
      || (from == Preparing && (Idles(kind) || (kind == VehicleStateUpdated && Meets(config, ForStart, v))))
    case Cranking =>
      || (from == Preparing && kind == TimerElapsed && Meets(config, ForStart, v))
      || (from == Cranking && (Idles(kind) || (kind == VehicleStateUpdated && Meets(config, ForCranking, v) && !Turning(config, v))))
    case Running =>
      || (from == Cranking && kind == VehicleStateUpdated && Meets(config, ForCranking, v) && Turning(config, v))
      || (from == Running && (Idles(kind) || (kind == VehicleStateUpdated && !DoorOpen(v) && Meets(config, ForRemoteRun, v))))
    case AwaitingTakeover =>
      || (from == Running && kind == VehicleStateUpdated && DoorOpen(v) && config.driverEntryMode == RequireTakeover
          && Meets(config, ForTakeover, v))
      || (from == AwaitingTakeover && (kind == RemoteStartRequested || kind == ResetRequested
                                       || (kind == VehicleStateUpdated && Meets(config, ForTakeover, v))))
    case DriverControl =>
      || (from == AwaitingTakeover && kind == DriverTakeoverConfirmed && Meets(config, ForTakeover, v))
      || (from == DriverControl && kind != InfrastructureFailure && !(kind == VehicleStateUpdated && Stopped(config, v)))
    case Stopping =>
      || ((from == Running || from == AwaitingTakeover) && (kind == RemoteStopRequested || kind == TimerElapsed))
      || (from == Running && kind == VehicleStateUpdated && DoorOpen(v) && config.driverEntryMode == StopImmediately)
      || (from == Stopping && kind != InfrastructureFailure && kind != TimerElapsed
          && !(kind == VehicleStateUpdated && Stopped(config, v)))
    case _ => false
  }

  predicate ToIdle(config: ControllerConfig, from: ControllerState, kind: EventType, v: VehicleState) {
    || (kind == RemoteStopRequested && (from == Authorizing || from == Preparing || from == Cranking))
    || (kind == VehicleStateUpdated && from == Authorizing && !Meets(config, ForStart, v))
    || (kind == VehicleStateUpdated && (from == Stopping || from == DriverControl) && Stopped(config, v))
    || (kind == ResetRequested && from == Fault && Stopped(config, v) && NoCriticalFault(v))
    || (from == Idle && kind != InfrastructureFailure
        && !(kind == RemoteStartRequested && config.remoteStartEnabled && config.profileReady))
  }

  /** The purpose a session is judged by when an event has a snapshot judged. */
  predicate Forbidden(config: ControllerConfig, from: ControllerState, kind: EventType, v: VehicleState) {
    || (from == Preparing && (kind == VehicleStateUpdated || kind == TimerElapsed) && !Meets(config, ForStart, v))
    || (from == Cranking && kind == VehicleStateUpdated && !Meets(config, ForCranking, v))
    || (from == Running && kind == VehicleStateUpdated && !DoorOpen(v) && !Meets(config, ForRemoteRun, v))
    || (from == Running && kind == VehicleStateUpdated && DoorOpen(v) && config.driverEntryMode == RequireTakeover
        && !Meets(config, ForTakeover, v))
    || (from == AwaitingTakeover && (kind == VehicleStateUpdated || kind == DriverTakeoverConfirmed)
        && !Meets(config, ForTakeover, v))
  }

  /** The fault code an event raises, NoFault if none. */
  function Raised(config: ControllerConfig, from: ControllerState, event: Event, v: VehicleState): FaultCode {
    if event.kind == InfrastructureFailure then if event.fault == NoFault then InternalError else event.fault
    else if event.kind == TimerElapsed && from == Authorizing then AuthorizationTimeout
    else if event.kind == TimerElapsed && from == Cranking then CrankTimeout
    else if event.kind == TimerElapsed && from == Stopping then StopTimeout
    else if Forbidden(config, from, event.kind, v) then SafetyInterlock
    else NoFault
  }

  lemma MatrixApproves(config: ControllerConfig, v: VehicleState)
    ensures forall purpose :: Approves(config, purpose, v) <==> Meets(config, purpose, v)
  {
    hide Assess;
    hide MeetsMatrix;
    forall purpose
      ensures Approves(config, purpose, v) <==> Meets(config, purpose, v)
    {
      ApprovedExactly(config.safety, purpose, v);
    }
  }

  /** Every decision lands in a session state, in idle or in fault exactly as the table says. */
  lemma LandsExactly(config: ControllerConfig, control: Control, event: Event, v: VehicleState, to: ControllerState)
    ensures var lands := Handle(config, control, event, v).state == to;
            match to
            case Idle => lands <==> ToIdle(config, control.state, event.kind, v)
            case Fault =>
              lands <==> Raised(config, control.state, event, v) != NoFault
                         || (control.state == Fault && !ToIdle(config, Fault, event.kind, v))
            case _ => lands <==> ToSession(config, control.state, event.kind, v, to)
  {
    MatrixApproves(config, v);
    hide Meets;
    hide Approves;
    hide Actions;
    hide Assessed;
  }

  /** A decision raises exactly the code of the table, and otherwise keeps the stored code or clears it on the way to idle. */
  lemma FaultCodeExactly(config: ControllerConfig, control: Control, event: Event, v: VehicleState)
    ensures var d, raised := Handle(config, control, event, v), Raised(config, control.state, event, v);
            && (raised != NoFault ==> d.fault == raised && d.state == Fault)
            && (raised == NoFault ==> d.fault == control.fault || (d.fault == NoFault && d.state == Idle && control.state != Idle))
            && (control.state == Fault && d.state == Idle ==> d.fault == NoFault)
  {
    MatrixApproves(config, v);
    hide Meets;
    hide Approves;
    hide Actions;
    hide Assessed;
  }

  /**
   * A remote stop ends a session that has not reached running at once, and
   * begins stopping one that has; it changes no other state.
   */
  lemma StopLands(config: ControllerConfig, control: Control, v: VehicleState)
    ensures var to := Handle(config, control, Event(RemoteStopRequested, NoFault), v).state;
            match control.state
            case Authorizing | Preparing | Cranking => to == Idle
            case Running | AwaitingTakeover => to == Stopping
            case _ => to == control.state
  {
    LandsExactly(config, control, Event(RemoteStopRequested, NoFault), v, Idle);
    LandsExactly(config, control, Event(RemoteStopRequested, NoFault), v, Stopping);
    LandsExactly(config, control, Event(RemoteStopRequested, NoFault), v, DriverControl);
    LandsExactly(config, control, Event(RemoteStopRequested, NoFault), v, Fault);
    hide Handle;
    hide Meets;
  }

  // ---------- what the outputs and the timer become ----------

  /** The outputs once every action of a decision has been carried out. */
  function Intended(config: ControllerConfig, control: Control, event: Event, v: VehicleState, o: Outputs, nowMs: nat): Outputs {
    IntendAll(o, Handle(config, control, event, v).actions, nowMs, 0)
  }

  function Off(o: Outputs): Outputs {
    o.(ignition := false, starter := false)
  }

  function ArmedFor(o: Outputs, dueMs: nat): Outputs {
    o.(armed := true, dueMs := dueMs)
  }

  /** The outputs on entering a state from another. */
  function OnEntry(config: ControllerConfig, from: ControllerState, to: ControllerState, o: Outputs, nowMs: nat): Outputs {
    match to
    case Authorizing => ArmedFor(o, nowMs + config.authorizationTimeoutMs)
    case Preparing => ArmedFor(o.(ignition := true), nowMs + config.preparationDelayMs)
    case Cranking => ArmedFor(o.(starter := true), nowMs + config.maximumCrankTimeMs)
    case Running => ArmedFor(o.(starter := false), nowMs + config.maximumRemoteRunTimeMs)
    case AwaitingTakeover => ArmedFor(o, nowMs + config.driverTakeoverTimeoutMs)
    case Stopping => ArmedFor(Off(o), nowMs + config.stopConfirmationTimeoutMs)
    case Idle => if from == DriverControl then o else Off(o).(armed := false)
    case DriverControl => Off(o).(armed := false)
    case Fault => Off(o).(armed := false)
  }

  /** What a decision that stays in its state does to the outputs. */
  function OnStay(state: ControllerState, kind: EventType, o: Outputs): Outputs {
    if state == Fault && kind == InfrastructureFailure then Off(o).(armed := false)
    else if state == Fault && (kind == RemoteStopRequested || kind == ResetRequested) then Off(o)
    else if state == Idle && kind == RemoteStartRequested then Off(o)
    else o
  }

  /** A decision changes the outputs and the timer by the states it leads from and to, and hardly otherwise. */
  lemma OutputsByLanding(config: ControllerConfig, control: Control, event: Event, v: VehicleState, o: Outputs, nowMs: nat)
    ensures var to := Handle(config, control, event, v).state;
            Intended(config, control, event, v, o, nowMs)
            == if to == control.state then OnStay(control.state, event.kind, o) else OnEntry(config, control.state, to, o, nowMs)
  {
    hide Approves;
    hide EngineIsRunning;
    hide EngineIsStopped;
    hide DoorIsOpen;
    hide IntendAll;
    hide Actions;
    hide Assessed;
    ReactionEffect(config, React(config, control.state, event, v), o, nowMs);
  }

  // ---------- what is announced ----------

  predicate Announced(kind: ActionType) {
    kind != EnableIgnition && kind != EngageStarter && kind != DisengageStarter && kind != ReleaseRemoteControl
    && kind != SecureOutputs && kind != ArmTimer && kind != CancelTimer
  }

  /** What is asked or announced on the way from one state to another. */
  predicate Announces(config: ControllerConfig, from: ControllerState, event: EventType, to: ControllerState, kind: ActionType) {
    match kind
    case RequestVehicleState => from == Idle && to == Authorizing
    case NotifyProfileRejected => from == Idle && event == RemoteStartRequested && config.remoteStartEnabled && !config.profileReady
    case NotifyRemoteStartDisabled => from == Idle && event == RemoteStartRequested && !config.remoteStartEnabled
    case NotifyStartAccepted => from == Authorizing && to == Preparing
    case NotifyStartRejected => from == Authorizing && to == Idle && event == VehicleStateUpdated
    case NotifyRunning => from == Cranking && to == Running
    case NotifyTakeoverPending => from != AwaitingTakeover && to == AwaitingTakeover
    case NotifyTakeoverComplete => from != DriverControl && to == DriverControl
    case NotifyStopping => from != Stopping && to == Stopping
    case NotifyStopped => to == Idle && (event == RemoteStopRequested || from == Stopping)
    case NotifyFault => to == Fault && (from != Fault || event == InfrastructureFailure)
    case NotifyReady => to == Idle && (from == DriverControl || from == Fault)
    case NotifyResetRejected => from == Fault && to == Fault && event == ResetRequested
    case NotifyRequestIgnored =>
      || (event == RemoteStartRequested && from != Idle)
      || (event == DriverTakeoverConfirmed && from != AwaitingTakeover)
      || (event == ResetRequested && from != Fault)
      || (event == RemoteStopRequested && (from == DriverControl || from == Stopping || from == Fault))
    case _ => false
  }

  /** The one question or announcement among the actions of a reaction. */
  predicate Voices(r: Reaction, kind: ActionType) {
    match r
    case Quiet => false
    case Ignore | SecureAndIgnore => kind == NotifyRequestIgnored
    case RefuseDisabled => kind == NotifyRemoteStartDisabled
    case RefuseProfile => kind == NotifyProfileRejected
    case RefuseStart => kind == NotifyStartRejected
    case RefuseReset => kind == NotifyResetRejected
    case AcknowledgeStop | CompleteStop => kind == NotifyStopped
    case BeginAuthorizing => kind == RequestVehicleState
    case BeginPreparing => kind == NotifyStartAccepted
    case BeginCranking => false
    case BeginRunning => kind == NotifyRunning
    case BeginAwaitingTakeover => kind == NotifyTakeoverPending
    case CompleteTakeover => kind == NotifyTakeoverComplete
    case BeginStopping => kind == NotifyStopping
    case EndDriverControl | CompleteReset => kind == NotifyReady
    case EnterFault(_) => kind == NotifyFault
  }

  lemma VoicesOf(config: ControllerConfig, r: Reaction, kind: ActionType)
    requires Announced(kind)
    ensures (exists i :: 0 <= i < |Actions(config, r)| && Actions(config, r)[i].kind == kind) <==> Voices(r, kind)
  {
    var actions := Actions(config, r);
    assert |actions| > 0 ==> actions[0].kind == actions[0].kind;
    assert |actions| > 1 ==> actions[1].kind == actions[1].kind;
    assert |actions| > 2 ==> actions[2].kind == actions[2].kind;
    assert |actions| > 3 ==> actions[3].kind == actions[3].kind;
  }

  lemma VoicesByLanding(config: ControllerConfig, from: ControllerState, event: Event, v: VehicleState, kind: ActionType)
    requires Announced(kind)
    ensures var r := React(config, from, event, v);
            Voices(r, kind) <==> Announces(config, from, event.kind, NextState(from, r), kind)
  {
    hide Approves;
    hide EngineIsRunning;
    hide EngineIsStopped;
    hide DoorIsOpen;
  }

  /** Every question and announcement of a decision is that of its landing, and none is missing. */
  lemma AnnouncesExactly(config: ControllerConfig, control: Control, event: Event, v: VehicleState, kind: ActionType)
    requires Announced(kind)
    ensures var d := Handle(config, control, event, v);
            d.Contains(kind) <==> Announces(config, control.state, event.kind, d.state, kind)
  {
    hide React;
    hide NextState;
    hide Voices;
    hide Announces;
    hide Announced;
    hide Actions;
    hide Assessed;
    VoicesOf(config, React(config, control.state, event, v), kind);
    VoicesByLanding(config, control.state, event, v, kind);
  }

  // ---------- why ----------

  /** The purpose an event has a snapshot judged by, if any. */
  predicate JudgedBy(config: ControllerConfig, from: ControllerState, kind: EventType, v: VehicleState, purpose: Purpose) {
    match purpose
    case ForStart =>
      || (kind == VehicleStateUpdated && (from == Authorizing || from == Preparing))
      || (kind == TimerElapsed && from == Preparing)
    case ForCranking => kind == VehicleStateUpdated && from == Cranking
    case ForRemoteRun => kind == VehicleStateUpdated && from == Running && !DoorOpen(v)
    case ForTakeover =>
      || (kind == VehicleStateUpdated && from == Running && DoorOpen(v) && config.driverEntryMode == RequireTakeover)
      || (kind == VehicleStateUpdated && from == AwaitingTakeover)
      || (kind == DriverTakeoverConfirmed && from == AwaitingTakeover)
  }

  /** A decision carries a reason exactly when its snapshot was judged and shows that reason. */
  lemma ReasonsCarried(config: ControllerConfig, control: Control, event: Event, v: VehicleState, reason: SafetyReason)
    ensures Handle(config, control, event, v).safety.Contains(reason)
            <==> exists purpose ::
                   JudgedBy(config, control.state, event.kind, v, purpose) && Reported(config.safety, purpose, v, reason)
  {
    ReasonsAreExact(config.safety, ForStart, v, reason);
    ReasonsAreExact(config.safety, ForCranking, v, reason);
    ReasonsAreExact(config.safety, ForRemoteRun, v, reason);
    ReasonsAreExact(config.safety, ForTakeover, v, reason);
    hide Assess;
    hide Reported;
    hide React;
    hide Actions;
    OnePurpose(config, control.state, event.kind, v, reason);
  }

  /** At most four purposes to look at. */
  lemma OnePurpose(config: ControllerConfig, from: ControllerState, kind: EventType, v: VehicleState, reason: SafetyReason)
    ensures (exists purpose :: JudgedBy(config, from, kind, v, purpose) && Reported(config.safety, purpose, v, reason))
            <==>
              || (JudgedBy(config, from, kind, v, ForStart) && Reported(config.safety, ForStart, v, reason))
              || (JudgedBy(config, from, kind, v, ForCranking) && Reported(config.safety, ForCranking, v, reason))
              || (JudgedBy(config, from, kind, v, ForRemoteRun) && Reported(config.safety, ForRemoteRun, v, reason))
              || (JudgedBy(config, from, kind, v, ForTakeover) && Reported(config.safety, ForTakeover, v, reason))
  {
    hide JudgedBy;
    hide Reported;
    if purpose :| JudgedBy(config, from, kind, v, purpose) && Reported(config.safety, purpose, v, reason) {
      match purpose
      case ForStart =>
      case ForCranking =>
      case ForRemoteRun =>
      case ForTakeover =>
    }
  }

  // ---------- the order of the actions ----------

  /** The vehicle is asked or the timer cancelled first; announcements wait for the outputs, and the timer for them. */
  function Place(kind: ActionType): nat {
    match kind
    case RequestVehicleState | CancelTimer => 0
    case EnableIgnition | EngageStarter | DisengageStarter => 1
    case ReleaseRemoteControl | SecureOutputs => 2
    case ArmTimer => 4
    case _ => 3
  }

  lemma PlacesOf(config: ControllerConfig, r: Reaction)
    ensures var actions := Actions(config, r);
            && |actions| <= 5
            && (forall i, j :: 0 <= i < j < |actions| ==> Place(actions[i].kind) < Place(actions[j].kind))
            && forall i :: 0 <= i < |actions| && actions[i].kind != ArmTimer ==> actions[i].durationMs == 0
  {
  }

  /**
   * Every decision acts in one order: the old timer goes first, then the
   * starter and the ignition, then letting go; only after them is anything
   * announced, and the new timer is armed last. Only that carries a duration.
   */
  lemma ActionsInOrder(config: ControllerConfig, control: Control, event: Event, v: VehicleState)
    ensures var actions := Handle(config, control, event, v).actions;
            && |actions| <= 5
            && (forall i, j :: 0 <= i < j < |actions| ==> Place(actions[i].kind) < Place(actions[j].kind))
            && forall i :: 0 <= i < |actions| && actions[i].kind != ArmTimer ==> actions[i].durationMs == 0
  {
    PlacesOf(config, React(config, control.state, event, v));
    hide React;
    hide Actions;
    hide Place;
  }
}

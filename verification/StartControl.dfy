/**
 * The whole start-control system: controller, runtime, supervisor, driver and
 * timer, under every interleaving of events, heartbeats, polls, supervisor
 * resets and passing time, and under every pattern of port failures.
 */
module StartControl {
  import opened Clock32
  import opened ControllerSpec
  import opened RuntimeSpec
  import opened SafetyPolicy
  import opened SupervisorRuns
  import opened SupervisorSpec
  import opened Vehicle

  /** What can happen to the running system. */
  datatype Occurrence =
    | Deliver(event: Event, vehicle: VehicleState)
    | Expire(vehicle: VehicleState)                    // the armed timer fires, once, and its event is delivered
    | Beat
    | Supervise(permitted: bool, feedback: Feedback)
    | Rearm(feedback: Feedback)
    | Pass(ms: nat)

  /** The running system, and the real time at which ignition was last commanded. */
  datatype System = System(world: World, ignitionSinceMs: nat)
  {
    function Sup(): Supervisor {
      world.plant.guarded.sup
    }

    function Drv(): DriverState {
      world.plant.guarded.drv
    }

    function Timer(): TimerState {
      world.plant.timer
    }

    function State(): ControllerState {
      world.control.state
    }

    function Now(): nat {
      world.plant.timer.nowMs
    }
  }

  function Initial(s: Setup, physical: DriverState): World {
    World(INITIAL_CONTROL,
          Plant(Construct(s.supervisor, s.ports.driver, physical), TimerState(0, false, 0, 0), 0, []))
  }

  function Supervised(s: Setup, w: World, input: Input): World {
    w.(plant := w.plant.(guarded := Step(Wrapping, s.supervisor, s.ports.driver, w.plant.guarded, input)))
  }

  function Happen(s: Setup, w: World, o: Occurrence): World {
    var now := Wrap(w.plant.timer.nowMs);
    match o
    case Deliver(event, v) => Dispatch(s, w, event, v).world
    case Expire(v) =>
      if w.plant.timer.armed then
        Dispatch(s, w.(plant := w.plant.(timer := w.plant.timer.(armed := false))), Event(TimerElapsed, NoFault), v).world
      else w
    case Beat => Supervised(s, w, HeartbeatInput(now))
    case Supervise(permitted, feedback) => Supervised(s, w, PollInput(now, permitted, feedback))
    case Rearm(feedback) => Supervised(s, w, ResetInput(now, feedback))
    case Pass(ms) => w.(plant := w.plant.(timer := w.plant.timer.(nowMs := w.plant.timer.nowMs + ms)))
  }

  function Next(s: Setup, y: System, o: Occurrence): System {
    var w := Happen(s, y.world, o);
    var turnedOn := !y.Sup().ignitionCommanded && w.plant.guarded.sup.ignitionCommanded;
    System(w, if turnedOn then w.plant.timer.nowMs else y.ignitionSinceMs)
  }

  function SystemAt(s: Setup, physical: DriverState, run: seq<Occurrence>, n: nat): System
    requires n <= |run|
  {
    if n == 0 then System(Initial(s, physical), 0)
    else Next(s, SystemAt(s, physical, run, n - 1), run[n - 1])
  }

  // ---------- what executed actions do to the commanded outputs and the timer ----------

  datatype Outputs = Outputs(ignition: bool, starter: bool, armed: bool, dueMs: nat)

  function OutputsOf(p: Plant): Outputs {
    Outputs(p.guarded.sup.ignitionCommanded, p.guarded.sup.starterCommanded, p.timer.armed, p.timer.dueMs)
  }

  /** The outputs an action is meant to produce at a given time. */
  function Intend(o: Outputs, action: Action, nowMs: nat): Outputs {
    match action.kind
    case EnableIgnition => o.(ignition := true)
    case EngageStarter => o.(starter := true)
    case DisengageStarter => o.(starter := false)
    case ReleaseRemoteControl => o.(ignition := false, starter := false)
    case SecureOutputs => o.(ignition := false, starter := false)
    case ArmTimer => o.(armed := true, dueMs := nowMs + action.durationMs)
    case CancelTimer => o.(armed := false)
    case _ => o
  }

  function IntendAll(o: Outputs, actions: seq<Action>, nowMs: nat, i: nat): Outputs
    requires i <= |actions|
    decreases |actions| - i
  {
    if i == |actions| then o else IntendAll(Intend(o, actions[i], nowMs), actions, nowMs, i + 1)
  }

  lemma CommandEffect(s: Setup, p: Plant, command: Command)
    requires Sound(p.guarded)
    ensures var a := Command1(s, p, command);
            var (ignition, starter) := Intended(command, p.guarded.sup.ignitionCommanded, p.guarded.sup.starterCommanded);
            && Sound(a.plant.guarded)
            && a.plant.timer == p.timer
            && (a.fault == NoFault ==> OutputsOf(a.plant) == OutputsOf(p).(ignition := ignition, starter := starter))
            && (a.fault != NoFault ==> !a.plant.guarded.sup.OutputsCommanded())
  {
    PerformIsSound(Wrapping, s.supervisor, s.ports.driver, p.guarded, command);
    CommandOutcome(Wrapping, s.supervisor, s.ports.driver, p.guarded, command);
    hide Perform;
    hide CommandSucceeds;
    hide Sound;
  }

  lemma ActionEffect(s: Setup, p: Plant, action: Action, d: Decision)
    requires Sound(p.guarded)
    ensures var a := ExecuteAction(s, p, action, d);
            && Sound(a.plant.guarded)
            && a.plant.timer.nowMs == p.timer.nowMs
            && (a.fault == NoFault ==> OutputsOf(a.plant) == Intend(OutputsOf(p), action, p.timer.nowMs))
            && ((SafingAction(action.kind) && !p.guarded.sup.OutputsCommanded()) || action.kind == SecureOutputs ==>
                  !a.plant.guarded.sup.OutputsCommanded())
  {
    hide Command1;
    hide Sound;
    match action.kind
    case EnableIgnition => CommandEffect(s, p, Enable);
    case EngageStarter => CommandEffect(s, p, Engage);
    case DisengageStarter => CommandEffect(s, p, Disengage);
    case ReleaseRemoteControl => CommandEffect(s, p, Release);
    case SecureOutputs => CommandEffect(s, p, Secure);
    case _ =>
  }

  lemma {:induction false} ExecuteEffect(s: Setup, p: Plant, d: Decision, i: nat)
    requires i <= |d.actions| && Sound(p.guarded)
    ensures var a := Execute(s, p, d, i);
            && Sound(a.plant.guarded)
            && a.plant.timer.nowMs == p.timer.nowMs
            && (a.fault == NoFault ==> OutputsOf(a.plant) == IntendAll(OutputsOf(p), d.actions, p.timer.nowMs, i))
    decreases |d.actions| - i
  {
    hide ExecuteAction;
    hide Sound;
    if i < |d.actions| {
      ActionEffect(s, p, d.actions[i], d);
      var a := ExecuteAction(s, p, d.actions[i], d);
      if a.fault == NoFault {
        ExecuteEffect(s, a.plant, d, i + 1);
      }
    }
  }

  /** Safing ends with nothing commanded if a SecureOutputs is still to come, or if nothing is commanded already. */
  lemma {:induction false} SafingEffect(s: Setup, p: Plant, d: Decision, i: nat)
    requires i <= |d.actions| && Sound(p.guarded)
    requires !p.guarded.sup.OutputsCommanded() || exists k :: i <= k < |d.actions| && d.actions[k].kind == SecureOutputs
    ensures var q := ExecuteSafing(s, p, d, i);
            && Sound(q.guarded)
            && q.timer.nowMs == p.timer.nowMs
            && !q.guarded.sup.OutputsCommanded()
    decreases |d.actions| - i
  {
    hide ExecuteAction;
    hide Sound;
    if i < |d.actions| {
      ActionEffect(s, p, d.actions[i], d);
      if SafingAction(d.actions[i].kind) {
        SafingEffect(s, ExecuteAction(s, p, d.actions[i], d).plant, d, i + 1);
      } else {
        SafingEffect(s, p, d, i + 1);
      }
    }
  }

  /** A dispatch either carries out its reaction in full or ends in Fault with nothing commanded. */
  lemma DispatchOutcome(s: Setup, w: World, event: Event, v: VehicleState)
    requires Sound(w.plant.guarded)
    ensures var r := React(s.controller, w.control.state, event, v);
            var after := Dispatch(s, w, event, v).world;
            && Sound(after.plant.guarded)
            && after.plant.timer.nowMs == w.plant.timer.nowMs
            && (|| (after.control == Apply(w.control, r) &&
                    OutputsOf(after.plant)
                      == IntendAll(OutputsOf(w.plant), Actions(s.controller, r), w.plant.timer.nowMs, 0))
                || (after.control.state == Fault && !after.plant.guarded.sup.OutputsCommanded()))
  {
    hide ExecuteAction;
    hide Sound;
    hide React;
    hide Assessed;
    var decision := Handle(s.controller, w.control, event, v);
    ExecuteEffect(s, w.plant, decision, 0);
    var executed := Execute(s, w.plant, decision, 0);
    if executed.fault != NoFault {
      FailureReaction(s.controller, After(decision), executed.fault, v);
      SafingEffect(s, executed.plant, Handle(s.controller, After(decision), Event(InfrastructureFailure, executed.fault), v), 0);
    }
  }

  /** Safing a fall into Fault, from action i on, announces the fault exactly once. */
  lemma {:induction false} SafingAnnounces(s: Setup, p: Plant, d: Decision, i: nat)
    requires i <= 4 && d.actions == Actions(s.controller, EnterFault(d.fault))
    ensures ExecuteSafing(s, p, d, i).notices
         == p.notices + (if i < 4 then [Notice(NotifyFault, d.state, d.fault, d.safety)] else [])
    decreases 4 - i
  {
    hide Perform;
    hide CommandSucceeds;
    if i < 4 {
      SafingAnnounces(s, ExecuteAction(s, p, d.actions[i], d).plant, d, i + 1);
    }
  }

  /** No notice of a fault among those from the first index on. */
  predicate NoFaultNotice(notices: seq<Notice>, first: nat) {
    forall i :: first <= i < |notices| ==> notices[i].kind != NotifyFault
  }

  /** An execution that fails has not come to announce a fault, which every reaction does last. */
  lemma {:induction false} FailureBeforeNotice(s: Setup, p: Plant, d: Decision, i: nat, first: nat)
    requires i <= |d.actions| && first <= |p.notices| && NoFaultNotice(p.notices, first)
    requires forall k :: 0 <= k < |d.actions| - 1 ==> d.actions[k].kind != NotifyFault
    requires Execute(s, p, d, i).fault != NoFault
    ensures p.notices <= Execute(s, p, d, i).plant.notices && NoFaultNotice(Execute(s, p, d, i).plant.notices, first)
    decreases |d.actions| - i
  {
    hide Perform;
    hide CommandSucceeds;
    if i < |d.actions| {
      var attempt := ExecuteAction(s, p, d.actions[i], d);
      if attempt.fault == NoFault && i + 1 < |d.actions| {
        FailureBeforeNotice(s, attempt.plant, d, i + 1, first);
      }
    }
  }

  lemma FaultNoticeIsLast(config: ControllerConfig, r: Reaction, k: nat)
    requires k + 1 < |Actions(config, r)|
    ensures Actions(config, r)[k].kind != NotifyFault
  {
  }

  /**
   * An action that fails ends the dispatch in Fault with its code and nothing
   * commanded, and of the notices the dispatch leaves, the last and no other
   * announces a fault.
   */
  lemma FailedDispatchIsSafed(s: Setup, w: World, event: Event, v: VehicleState)
    requires Sound(w.plant.guarded)
    requires Execute(s, w.plant, Handle(s.controller, w.control, event, v), 0).fault != NoFault
    ensures var code := Execute(s, w.plant, Handle(s.controller, w.control, event, v), 0).fault;
            var after := Dispatch(s, w, event, v);
            var notices := after.world.plant.notices;
            && after.world.control == Control(Fault, code)
            && after.decision.state == Fault && after.decision.fault == code
            && !after.world.plant.guarded.sup.OutputsCommanded()
            && |notices| > |w.plant.notices| && w.plant.notices <= notices
            && notices[|notices| - 1] == Notice(NotifyFault, Fault, code, NO_REASON)
            && NoFaultNotice(notices[..|notices| - 1], |w.plant.notices|)
  {
    hide ExecuteAction;
    hide Sound;
    hide React;
    var decision := Handle(s.controller, w.control, event, v);
    ExecuteEffect(s, w.plant, decision, 0);
    var executed := Execute(s, w.plant, decision, 0);
    var safing := Handle(s.controller, After(decision), Event(InfrastructureFailure, executed.fault), v);
    FailureReaction(s.controller, After(decision), executed.fault, v);
    SafingEffect(s, executed.plant, safing, 0);
    SafingAnnounces(s, executed.plant, safing, 0);
    FailedNotices(s, w, event, v);
    hide Handle;
    hide Execute;
    var noticed := executed.plant.notices;
    assert (noticed + [Notice(NotifyFault, Fault, executed.fault, NO_REASON)])[..|noticed|] == noticed;
  }

  lemma FailedNotices(s: Setup, w: World, event: Event, v: VehicleState)
    requires Execute(s, w.plant, Handle(s.controller, w.control, event, v), 0).fault != NoFault
    ensures var notices := Execute(s, w.plant, Handle(s.controller, w.control, event, v), 0).plant.notices;
            w.plant.notices <= notices && NoFaultNotice(notices, |w.plant.notices|)
  {
    hide React;
    hide Assessed;
    hide Actions;
    var decision, r := Handle(s.controller, w.control, event, v), React(s.controller, w.control.state, event, v);
    forall k | 0 <= k < |decision.actions| - 1
      ensures decision.actions[k].kind != NotifyFault
    {
      FaultNoticeIsLast(s.controller, r, k);
    }
    hide Handle;
    hide Execute;
    FailureBeforeNotice(s, w.plant, decision, 0, |w.plant.notices|);
  }

  lemma FailureReaction(config: ControllerConfig, control: Control, code: FaultCode, v: VehicleState)
    requires code != NoFault
    ensures var d := Handle(config, control, Event(InfrastructureFailure, code), v);
            && After(d) == Control(Fault, code)
            && d.actions == Actions(config, EnterFault(code))
            && |d.actions| == 4 && d.actions[2].kind == SecureOutputs
            && d.safety == NO_REASON
  {
  }

  // ---------- the safety property ----------

  /** States in which the controller wants ignition on. */
  predicate Powered(state: ControllerState) {
    state == Preparing || state == Cranking || state == Running || state == AwaitingTakeover
  }

  /** The starter is commanded only while cranking, ignition only in a powered state with the timer armed. */
  predicate Linked(o: Outputs, state: ControllerState) {
    && (o.starter ==> state == Cranking)
    && (o.ignition ==> Powered(state) && o.armed)
  }

  /** Longest time a session may have had ignition on when it leaves a state. */
  function Budget(config: ControllerConfig, state: ControllerState): nat {
    match state
    case Preparing => config.preparationDelayMs
    case Cranking => config.preparationDelayMs + config.maximumCrankTimeMs
    case Running => config.preparationDelayMs + config.maximumCrankTimeMs + config.maximumRemoteRunTimeMs
    case AwaitingTakeover => SessionBound(config)
    case _ => 0
  }

  function SessionBound(config: ControllerConfig): nat {
    config.preparationDelayMs + config.maximumCrankTimeMs + config.maximumRemoteRunTimeMs + config.driverTakeoverTimeoutMs
  }

  /** Ignition commanded since sinceMs is within what the state allows, and so is the time the timer is due. */
  predicate WithinBudget(config: ControllerConfig, o: Outputs, state: ControllerState, sinceMs: nat, nowMs: nat) {
    o.ignition ==> sinceMs <= nowMs <= o.dueMs <= sinceMs + Budget(config, state)
  }

  function FirstFive(o: Outputs, actions: seq<Action>, nowMs: nat): Outputs
    requires |actions| <= 5
  {
    var o := if |actions| > 0 then Intend(o, actions[0], nowMs) else o;
    var o := if |actions| > 1 then Intend(o, actions[1], nowMs) else o;
    var o := if |actions| > 2 then Intend(o, actions[2], nowMs) else o;
    var o := if |actions| > 3 then Intend(o, actions[3], nowMs) else o;
    if |actions| > 4 then Intend(o, actions[4], nowMs) else o
  }

  lemma AtMostFive(o: Outputs, actions: seq<Action>, nowMs: nat)
    requires |actions| <= 5
    ensures IntendAll(o, actions, nowMs, 0) == FirstFive(o, actions, nowMs)
  {
    hide Intend;
    var n := |actions|;
    var o1 := if n > 0 then Intend(o, actions[0], nowMs) else o;
    var o2 := if n > 1 then Intend(o1, actions[1], nowMs) else o1;
    var o3 := if n > 2 then Intend(o2, actions[2], nowMs) else o2;
    var o4 := if n > 3 then Intend(o3, actions[3], nowMs) else o3;
    var o5 := if n > 4 then Intend(o4, actions[4], nowMs) else o4;
    assert IntendAll(o5, actions, nowMs, n) == o5;
    assert n >= 4 ==> IntendAll(o4, actions, nowMs, 4) == o5;
    assert n >= 3 ==> IntendAll(o3, actions, nowMs, 3) == o5;
    assert n >= 2 ==> IntendAll(o2, actions, nowMs, 2) == o5;
    assert n >= 1 ==> IntendAll(o1, actions, nowMs, 1) == o5;
  }

  /** What carrying out a reaction in full does to the outputs. */
  function Effect(config: ControllerConfig, r: Reaction, o: Outputs, nowMs: nat): Outputs {
    var off := o.(ignition := false, starter := false);
    match r
    case RefuseDisabled => off
    case RefuseProfile => off
    case RefuseReset => off
    case SecureAndIgnore => off
    case RefuseStart => off.(armed := false)
    case CompleteTakeover => off.(armed := false)
    case CompleteStop => off.(armed := false)
    case CompleteReset => off.(armed := false)
    case EnterFault(_) => off.(armed := false)
    case BeginStopping => off.(armed := true, dueMs := nowMs + config.stopConfirmationTimeoutMs)
    case BeginAuthorizing => o.(armed := true, dueMs := nowMs + config.authorizationTimeoutMs)
    case BeginPreparing => o.(ignition := true, armed := true, dueMs := nowMs + config.preparationDelayMs)
    case BeginCranking => o.(starter := true, armed := true, dueMs := nowMs + config.maximumCrankTimeMs)
    case BeginRunning => o.(starter := false, armed := true, dueMs := nowMs + config.maximumRemoteRunTimeMs)
    case BeginAwaitingTakeover => o.(armed := true, dueMs := nowMs + config.driverTakeoverTimeoutMs)
    case _ => o
  }

  lemma ReactionEffect(config: ControllerConfig, r: Reaction, o: Outputs, nowMs: nat)
    ensures IntendAll(o, Actions(config, r), nowMs, 0) == Effect(config, r, o, nowMs)
  {
    hide IntendAll;
    assert |Actions(config, r)| <= 5;
    AtMostFive(o, Actions(config, r), nowMs);
  }

  /** Every reaction, carried out in full, keeps outputs, state, timer and session time in step. */
  lemma ReactionKeepsLink(config: ControllerConfig, control: Control, event: Event, v: VehicleState,
                          o: Outputs, sinceMs: nat, nowMs: nat)
    requires Linked(o.(armed := o.armed || event.kind == TimerElapsed), control.state)
    ensures var r := React(config, control.state, event, v);
            var o' := IntendAll(o, Actions(config, r), nowMs, 0);
            var state' := NextState(control.state, r);
            && Linked(o', state')
            && (WithinBudget(config, o, control.state, sinceMs, nowMs) ==>
                  WithinBudget(config, o', state', if o.ignition then sinceMs else nowMs, nowMs))
  {
    hide Approves;
    hide EngineIsRunning;
    hide EngineIsStopped;
    hide IntendAll;
    hide Actions;
    ReactionEffect(config, React(config, control.state, event, v), o, nowMs);
  }

  // ---------- every step of every run ----------

  predicate Safe(y: System) {
    Sound(y.world.plant.guarded) && Linked(OutputsOf(y.world.plant), y.State())
  }

  lemma HappenIsSafe(s: Setup, y: System, o: Occurrence)
    requires Safe(y)
    ensures Safe(Next(s, y, o))
  {
    hide Dispatch;
    hide Step;
    hide Sound;
    var w := y.world;
    match o
    case Deliver(event, v) => DispatchIsSafe(s, w, event, v);
    case Expire(v) =>
      if w.plant.timer.armed {
        DispatchIsSafe(s, w.(plant := w.plant.(timer := w.plant.timer.(armed := false))), Event(TimerElapsed, NoFault), v);
      }
    case Pass(_) =>
    case Beat => SupervisionIsSafe(s, w.plant.guarded, HeartbeatInput(Wrap(y.Now())));
    case Supervise(permitted, feedback) =>
      SupervisionIsSafe(s, w.plant.guarded, PollInput(Wrap(y.Now()), permitted, feedback));
    case Rearm(feedback) => SupervisionIsSafe(s, w.plant.guarded, ResetInput(Wrap(y.Now()), feedback));
  }

  lemma TripReleases(script: DriverScript, g: Guarded, reason: SupervisorFault)
    ensures !Trip(script, g, reason).sup.OutputsCommanded()
  {
    hide SupervisorSpec.Drive;
  }

  /** Heartbeats, polls and supervisor resets never command an output. */
  lemma SupervisionIsSafe(s: Setup, g: Guarded, input: Input)
    requires Sound(g) && !input.CommandInput?
    ensures var after := Step(Wrapping, s.supervisor, s.ports.driver, g, input);
            && Sound(after)
            && (after.sup.ignitionCommanded ==> g.sup.ignitionCommanded)
            && (after.sup.starterCommanded ==> g.sup.starterCommanded)
  {
    StepIsSound(Wrapping, s.supervisor, s.ports.driver, g, input);
    hide Sound;
    hide PollVerdict;
    hide ClockAccepted;
    hide HeartbeatSucceeds;
    hide Trip;
    hide SafingSucceeds;
    hide SupervisorSpec.Drive;
    TripReleases(s.ports.driver, g, ClockRegression);
    match input
    case HeartbeatInput(now) => TripReleases(s.ports.driver, Observe(g, now), WatchdogExpired);
    case PollInput(now, permitted, feedback) =>
      TripReleases(s.ports.driver, Permit(Observe(g, now), permitted),
                   PollVerdict(Wrapping, s.supervisor, g.sup, now, permitted, feedback));
    case ResetInput(_, _) =>
  }

  lemma DispatchIsSafe(s: Setup, w: World, event: Event, v: VehicleState)
    requires Sound(w.plant.guarded)
    requires Linked(OutputsOf(w.plant).(armed := w.plant.timer.armed || event.kind == TimerElapsed), w.control.state)
    ensures var after := Dispatch(s, w, event, v).world;
            Sound(after.plant.guarded) && Linked(OutputsOf(after.plant), after.control.state)
  {
    DispatchOutcome(s, w, event, v);
    ReactionKeepsLink(s.controller, w.control, event, v, OutputsOf(w.plant), 0, w.plant.timer.nowMs);
    hide Dispatch;
    hide Sound;
    hide React;
    hide IntendAll;
  }

  /**
   * In every reachable state the supervisor commands the starter only while the
   * controller is cranking, and ignition only in a powered state and with the
   * timer armed; unless safing has failed, the physical outputs are no freer.
   */
  lemma {:induction false} AlwaysSafe(s: Setup, physical: DriverState, run: seq<Occurrence>, n: nat)
    requires n <= |run|
    ensures var y := SystemAt(s, physical, run, n);
            && Safe(y)
            && (y.Sup().starterCommanded ==> y.State() == Cranking && y.Sup().ignitionCommanded)
            && (y.Sup().ignitionCommanded ==> Powered(y.State()) && y.Timer().armed)
            && (y.Drv().starter && !y.Sup().safingFailed ==> y.State() == Cranking)
            && (y.Drv().ignition && !y.Sup().safingFailed ==> Powered(y.State()) && y.Timer().armed)
  {
    hide Next;
    if n == 0 {
      ConstructIsSound(s.supervisor, s.ports.driver, physical);
    } else {
      AlwaysSafe(s, physical, run, n - 1);
      HappenIsSafe(s, SystemAt(s, physical, run, n - 1), run[n - 1]);
    }
  }

  // ---------- how long a session can keep ignition on ----------

  /** While ignition is commanded, time does not run past an armed timer that has not been delivered. */
  ghost predicate TimerDelivered(s: Setup, physical: DriverState, run: seq<Occurrence>) {
    forall k :: 0 <= k < |run| && run[k].Pass? ==>
      var y := SystemAt(s, physical, run, k);
      y.Sup().ignitionCommanded && y.Timer().armed ==> y.Now() + run[k].ms <= y.Timer().dueMs
  }

  predicate OnBudget(s: Setup, y: System) {
    WithinBudget(s.controller, OutputsOf(y.world.plant), y.State(), y.ignitionSinceMs, y.Now())
  }

  lemma DispatchKeepsBudget(s: Setup, w: World, event: Event, v: VehicleState, sinceMs: nat)
    requires Sound(w.plant.guarded)
    requires Linked(OutputsOf(w.plant).(armed := w.plant.timer.armed || event.kind == TimerElapsed), w.control.state)
    requires WithinBudget(s.controller, OutputsOf(w.plant), w.control.state, sinceMs, w.plant.timer.nowMs)
    ensures var after := Dispatch(s, w, event, v).world;
            && after.plant.timer.nowMs == w.plant.timer.nowMs
            && WithinBudget(s.controller, OutputsOf(after.plant), after.control.state,
                            if w.plant.guarded.sup.ignitionCommanded then sinceMs else w.plant.timer.nowMs,
                            w.plant.timer.nowMs)
  {
    DispatchOutcome(s, w, event, v);
    ReactionKeepsLink(s.controller, w.control, event, v, OutputsOf(w.plant), sinceMs, w.plant.timer.nowMs);
    hide Dispatch;
    hide Sound;
    hide React;
    hide IntendAll;
    hide Budget;
  }

  lemma HappenKeepsBudget(s: Setup, y: System, o: Occurrence)
    requires Safe(y) && OnBudget(s, y)
    requires o.Pass? && y.Sup().ignitionCommanded && y.Timer().armed ==> y.Now() + o.ms <= y.Timer().dueMs
    ensures OnBudget(s, Next(s, y, o)) && Next(s, y, o).Now() >= y.Now()
  {
    hide Dispatch;
    hide Step;
    hide Sound;
    hide Budget;
    var w := y.world;
    match o
    case Deliver(event, v) => DispatchKeepsBudget(s, w, event, v, y.ignitionSinceMs);
    case Expire(v) =>
      if w.plant.timer.armed {
        DispatchKeepsBudget(s, w.(plant := w.plant.(timer := w.plant.timer.(armed := false))),
                            Event(TimerElapsed, NoFault), v, y.ignitionSinceMs);
      }
    case Pass(_) =>
    case Beat => SupervisionIsSafe(s, w.plant.guarded, HeartbeatInput(Wrap(y.Now())));
    case Supervise(permitted, feedback) =>
      SupervisionIsSafe(s, w.plant.guarded, PollInput(Wrap(y.Now()), permitted, feedback));
    case Rearm(feedback) => SupervisionIsSafe(s, w.plant.guarded, ResetInput(Wrap(y.Now()), feedback));
  }

  lemma {:induction false} AlwaysOnBudget(s: Setup, physical: DriverState, run: seq<Occurrence>, n: nat)
    requires TimerDelivered(s, physical, run) && n <= |run|
    ensures OnBudget(s, SystemAt(s, physical, run, n))
  {
    hide Next;
    hide OnBudget;
    hide Safe;
    if n == 0 {
      ConstructIsSound(s.supervisor, s.ports.driver, physical);
      InitialOnBudget(s, physical);
    } else {
      AlwaysOnBudget(s, physical, run, n - 1);
      AlwaysSafe(s, physical, run, n - 1);
      HappenKeepsBudget(s, SystemAt(s, physical, run, n - 1), run[n - 1]);
    }
  }

  lemma InitialOnBudget(s: Setup, physical: DriverState)
    ensures OnBudget(s, System(Initial(s, physical), 0))
  {
    hide SupervisorSpec.Drive;
  }

  /** Ignition is commanded at every point from the j-th to the n-th. */
  ghost predicate IgnitionHeld(s: Setup, physical: DriverState, run: seq<Occurrence>, j: nat, n: nat)
    requires j <= n <= |run|
  {
    forall m :: j <= m <= n ==> SystemAt(s, physical, run, m).Sup().ignitionCommanded
  }

  lemma HeldKeepsStart(s: Setup, y: System, o: Occurrence)
    requires y.Sup().ignitionCommanded
    ensures Next(s, y, o).ignitionSinceMs == y.ignitionSinceMs
  {
    hide Happen;
  }

  lemma {:induction false} SameSession(s: Setup, physical: DriverState, run: seq<Occurrence>, j: nat, n: nat)
    requires TimerDelivered(s, physical, run)
    requires j <= n <= |run| && IgnitionHeld(s, physical, run, j, n)
    ensures SystemAt(s, physical, run, n).ignitionSinceMs == SystemAt(s, physical, run, j).ignitionSinceMs
    decreases n
  {
    hide Next;
    if j < n {
      SameSession(s, physical, run, j, n - 1);
      var y := SystemAt(s, physical, run, n - 1);
      assert y.Sup().ignitionCommanded;
      HeldKeepsStart(s, y, run[n - 1]);
    }
  }

  /**
   * However events, failures and supervision interleave, one stretch of commanded
   * ignition lasts at most the sum of the four session timeouts.
   */
  lemma SessionTimeBound(s: Setup, physical: DriverState, run: seq<Occurrence>, j: nat, n: nat)
    requires TimerDelivered(s, physical, run)
    requires j <= n <= |run| && IgnitionHeld(s, physical, run, j, n)
    ensures SystemAt(s, physical, run, n).Now() - SystemAt(s, physical, run, j).Now() <= SessionBound(s.controller)
  {
    hide Next;
    SameSession(s, physical, run, j, n);
    AlwaysOnBudget(s, physical, run, j);
    AlwaysOnBudget(s, physical, run, n);
    assert SystemAt(s, physical, run, n).Sup().ignitionCommanded;
    assert SystemAt(s, physical, run, j).Sup().ignitionCommanded;
  }

  // ---------- how long the starter can be held ----------

  /** The timer runs out while a commanded starter may still be held. */
  predicate StarterTimed(config: ControllerConfig, o: Outputs, nowMs: nat) {
    o.starter ==> nowMs <= o.dueMs <= nowMs + config.maximumCrankTimeMs
  }

  /** The starter stays commanded under the due time it has, or starts with a full one. */
  predicate KeepsStarterDue(config: ControllerConfig, before: Outputs, after: Outputs, nowMs: nat) {
    after.starter ==> after.dueMs == if before.starter then before.dueMs else nowMs + config.maximumCrankTimeMs
  }

  lemma ReactionKeepsStarterDue(config: ControllerConfig, control: Control, event: Event, v: VehicleState, o: Outputs, nowMs: nat)
    requires Linked(o.(armed := o.armed || event.kind == TimerElapsed), control.state)
    ensures KeepsStarterDue(config, o, IntendAll(o, Actions(config, React(config, control.state, event, v)), nowMs, 0), nowMs)
  {
    hide Approves;
    hide EngineIsRunning;
    hide EngineIsStopped;
    hide IntendAll;
    hide Actions;
    ReactionEffect(config, React(config, control.state, event, v), o, nowMs);
  }

  lemma DispatchKeepsStarterDue(s: Setup, w: World, event: Event, v: VehicleState)
    requires Sound(w.plant.guarded)
    requires Linked(OutputsOf(w.plant).(armed := w.plant.timer.armed || event.kind == TimerElapsed), w.control.state)
    ensures var after := Dispatch(s, w, event, v).world;
            && after.plant.timer.nowMs == w.plant.timer.nowMs
            && KeepsStarterDue(s.controller, OutputsOf(w.plant), OutputsOf(after.plant), w.plant.timer.nowMs)
  {
    DispatchOutcome(s, w, event, v);
    ReactionKeepsStarterDue(s.controller, w.control, event, v, OutputsOf(w.plant), w.plant.timer.nowMs);
    hide Dispatch;
    hide Sound;
    hide React;
    hide IntendAll;
  }

  lemma HappenKeepsStarterDue(s: Setup, y: System, o: Occurrence)
    requires Safe(y)
    ensures var n := Next(s, y, o);
            && KeepsStarterDue(s.controller, OutputsOf(y.world.plant), OutputsOf(n.world.plant), y.Now())
            && n.Now() == (if o.Pass? then y.Now() + o.ms else y.Now())
            && (o.Pass? ==> OutputsOf(n.world.plant) == OutputsOf(y.world.plant))
  {
    hide Dispatch;
    hide Step;
    hide Sound;
    hide Powered;
    var w := y.world;
    match o
    case Deliver(event, v) => DispatchKeepsStarterDue(s, w, event, v);
    case Expire(v) =>
      if w.plant.timer.armed {
        DispatchKeepsStarterDue(s, w.(plant := w.plant.(timer := w.plant.timer.(armed := false))), Event(TimerElapsed, NoFault), v);
      }
    case Pass(_) =>
    case Beat => SupervisionIsSafe(s, w.plant.guarded, HeartbeatInput(Wrap(y.Now())));
    case Supervise(permitted, feedback) =>
      SupervisionIsSafe(s, w.plant.guarded, PollInput(Wrap(y.Now()), permitted, feedback));
    case Rearm(feedback) => SupervisionIsSafe(s, w.plant.guarded, ResetInput(Wrap(y.Now()), feedback));
  }

  lemma {:induction false} StarterAlwaysTimed(s: Setup, physical: DriverState, run: seq<Occurrence>, n: nat)
    requires TimerDelivered(s, physical, run) && n <= |run|
    ensures StarterTimed(s.controller, OutputsOf(SystemAt(s, physical, run, n).world.plant), SystemAt(s, physical, run, n).Now())
  {
    hide Next;
    hide Safe;
    if n == 0 {
      InitialStarterOff(s, physical);
    } else {
      var y := SystemAt(s, physical, run, n - 1);
      StarterAlwaysTimed(s, physical, run, n - 1);
      AlwaysSafe(s, physical, run, n - 1);
      HappenKeepsStarterDue(s, y, run[n - 1]);
    }
  }

  lemma InitialStarterOff(s: Setup, physical: DriverState)
    ensures !OutputsOf(Initial(s, physical).plant).starter
  {
    hide SupervisorSpec.Drive;
  }

  /** The starter is commanded at every point from the j-th to the n-th. */
  ghost predicate StarterHeld(s: Setup, physical: DriverState, run: seq<Occurrence>, j: nat, n: nat)
    requires j <= n <= |run|
  {
    forall m :: j <= m <= n ==> SystemAt(s, physical, run, m).Sup().starterCommanded
  }

  lemma {:induction false} SameCrank(s: Setup, physical: DriverState, run: seq<Occurrence>, j: nat, n: nat)
    requires j <= n <= |run| && StarterHeld(s, physical, run, j, n)
    ensures SystemAt(s, physical, run, n).Timer().dueMs == SystemAt(s, physical, run, j).Timer().dueMs
    decreases n
  {
    hide Next;
    hide Safe;
    if j < n {
      SameCrank(s, physical, run, j, n - 1);
      var y := SystemAt(s, physical, run, n - 1);
      assert y.Sup().starterCommanded && SystemAt(s, physical, run, n).Sup().starterCommanded;
      AlwaysSafe(s, physical, run, n - 1);
      HappenKeepsStarterDue(s, y, run[n - 1]);
    }
  }

  /** However events, failures and supervision interleave, one stretch of commanded starter lasts at most the crank time. */
  lemma StarterTimeBound(s: Setup, physical: DriverState, run: seq<Occurrence>, j: nat, n: nat)
    requires TimerDelivered(s, physical, run)
    requires j <= n <= |run| && StarterHeld(s, physical, run, j, n)
    ensures SystemAt(s, physical, run, n).Now() - SystemAt(s, physical, run, j).Now() <= s.controller.maximumCrankTimeMs
  {
    hide Next;
    SameCrank(s, physical, run, j, n);
    StarterAlwaysTimed(s, physical, run, j);
    StarterAlwaysTimed(s, physical, run, n);
    assert SystemAt(s, physical, run, n).Sup().starterCommanded;
    assert SystemAt(s, physical, run, j).Sup().starterCommanded;
  }
}

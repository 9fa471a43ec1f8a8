/**
 * The controller inside the whole system goes through a controller run: the
 * delivered events, with a failure event after every failed execution. What is
 * proved of all controller runs therefore holds inside the system, and the
 * supervisor's starter command inherits the approval it needs.
 */
module StartControlTrace {
  import Clock32
  import opened ControllerRuns
  import opened ControllerSpec
  import opened RuntimeSpec
  import opened SafetyPolicy
  import opened StartControl
  import opened SupervisorRuns
  import opened SupervisorSpec
  import opened Vehicle

  /** The stimuli the controller handles while one event is dispatched. */
  function Handled(s: Setup, w: World, event: Event, v: VehicleState): seq<Stimulus> {
    var fault := Execute(s, w.plant, Handle(s.controller, w.control, event, v), 0).fault;
    [Stimulus(event, v)] + (if fault == NoFault then [] else [Stimulus(Event(InfrastructureFailure, fault), v)])
  }

  function Stimuli(s: Setup, y: System, o: Occurrence): seq<Stimulus> {
    match o
    case Deliver(event, v) => Handled(s, y.world, event, v)
    case Expire(v) =>
      if y.Timer().armed then
        Handled(s, y.world.(plant := y.world.plant.(timer := y.Timer().(armed := false))), Event(TimerElapsed, NoFault), v)
      else []
    case _ => []
  }

  /** Everything the controller has handled after n occurrences. */
  function History(s: Setup, physical: DriverState, run: seq<Occurrence>, n: nat): seq<Stimulus>
    requires n <= |run|
  {
    if n == 0 then []
    else History(s, physical, run, n - 1) + Stimuli(s, SystemAt(s, physical, run, n - 1), run[n - 1])
  }

  /** Later stimuli do not change earlier states. */
  lemma {:induction false} PrefixDecides(config: ControllerConfig, a: seq<Stimulus>, b: seq<Stimulus>, n: nat)
    requires n <= |a|
    ensures ControlAt(config, a + b, n) == ControlAt(config, a, n)
  {
    hide Handle;
    if n > 0 {
      PrefixDecides(config, a, b, n - 1);
      StepOf(config, a + b, n - 1);
      StepOf(config, a, n - 1);
    }
  }

  lemma HandledMoves(s: Setup, w: World, event: Event, v: VehicleState, past: seq<Stimulus>)
    requires ControlAt(s.controller, past, |past|) == w.control
    ensures var all := past + Handled(s, w, event, v);
            ControlAt(s.controller, all, |all|) == Dispatch(s, w, event, v).world.control
  {
    hide Handle;
    hide Execute;
    var all := past + Handled(s, w, event, v);
    PrefixDecides(s.controller, past, Handled(s, w, event, v), |past|);
    StepOf(s.controller, all, |past|);
    if |Handled(s, w, event, v)| == 2 {
      StepOf(s.controller, all, |past| + 1);
    }
  }

  /** The controller's state in the system is its state after the history it has handled. */
  lemma {:induction false} SystemRunsController(s: Setup, physical: DriverState, run: seq<Occurrence>, n: nat)
    requires n <= |run|
    ensures var h := History(s, physical, run, n);
            ControlAt(s.controller, h, |h|) == SystemAt(s, physical, run, n).world.control
  {
    hide Dispatch;
    hide Handled;
    hide Step;
    if n > 0 {
      SystemRunsController(s, physical, run, n - 1);
      var y, past := SystemAt(s, physical, run, n - 1), History(s, physical, run, n - 1);
      match run[n - 1]
      case Deliver(event, v) => HandledMoves(s, y.world, event, v, past);
      case Expire(v) =>
        if y.Timer().armed {
          HandledMoves(s, y.world.(plant := y.world.plant.(timer := y.Timer().(armed := false))),
                       Event(TimerElapsed, NoFault), v, past);
        } else {
          assert past + [] == past;
        }
      case _ => assert past + [] == past;
    }
  }

  lemma CrankingIsApproved(config: ControllerConfig, state: ControllerState, event: Event, v: VehicleState)
    requires React(config, state, event, v) == BeginCranking
    ensures state == Preparing && event.kind == TimerElapsed && MeetsMatrix(config.safety, ForStart, v)
  {
    hide Assess;
    hide MeetsMatrix;
    ApprovedExactly(config.safety, ForStart, v);
  }

  lemma StarterTurnsOnByCranking(s: Setup, w: World, event: Event, v: VehicleState)
    requires Sound(w.plant.guarded)
    requires !w.plant.guarded.sup.starterCommanded
    requires Dispatch(s, w, event, v).world.plant.guarded.sup.starterCommanded
    ensures w.control.state == Preparing && event.kind == TimerElapsed && MeetsMatrix(s.controller.safety, ForStart, v)
  {
    hide Dispatch;
    hide Sound;
    hide React;
    hide IntendAll;
    hide Actions;
    hide MeetsMatrix;
    DispatchOutcome(s, w, event, v);
    var r := React(s.controller, w.control.state, event, v);
    ReactionEffect(s.controller, r, OutputsOf(w.plant), w.plant.timer.nowMs);
    CrankingIsApproved(s.controller, w.control.state, event, v);
  }

  /**
   * Whenever the supervisor starts commanding the starter, the controller's own
   * history shows an accepted request, an approved enabling of ignition and an
   * unbroken, continuously approved preparation up to that moment.
   */
  lemma StarterCommandWasPrepared(s: Setup, physical: DriverState, run: seq<Occurrence>, n: nat)
    returns (asked: nat, enabled: nat)
    requires n < |run|
    requires !SystemAt(s, physical, run, n).Sup().starterCommanded
    requires SystemAt(s, physical, run, n + 1).Sup().starterCommanded
    ensures var h := History(s, physical, run, n);
            && asked < enabled < |h|
            && RequestedSince(s.controller, h, asked, enabled)
            && PreparedSince(s.controller, h, enabled, |h|)
    ensures run[n].Expire? || (run[n].Deliver? && run[n].event.kind == TimerElapsed)
    ensures MeetsMatrix(s.controller.safety, ForStart, run[n].vehicle)
  {
    hide Dispatch;
    hide Step;
    hide MeetsMatrix;
    hide Sound;
    var y := SystemAt(s, physical, run, n);
    AlwaysSafe(s, physical, run, n);
    assert SystemAt(s, physical, run, n + 1) == Next(s, y, run[n]);
    match run[n] {
      case Deliver(event, v) => StarterTurnsOnByCranking(s, y.world, event, v);
      case Expire(v) =>
        StarterTurnsOnByCranking(s, y.world.(plant := y.world.plant.(timer := y.Timer().(armed := false))),
                                 Event(TimerElapsed, NoFault), v);
      case Pass(_) =>
      case Beat => SupervisionIsSafe(s, y.world.plant.guarded, HeartbeatInput(Clock32.Wrap(y.Now())));
      case Supervise(permitted, feedback) =>
        SupervisionIsSafe(s, y.world.plant.guarded, PollInput(Clock32.Wrap(y.Now()), permitted, feedback));
      case Rearm(feedback) => SupervisionIsSafe(s, y.world.plant.guarded, ResetInput(Clock32.Wrap(y.Now()), feedback));
    }
    SystemRunsController(s, physical, run, n);
    var h := History(s, physical, run, n);
    enabled := PreparingWasApproved(s.controller, h, |h|);
    asked := AuthorizingWasRequested(s.controller, h, enabled);
  }
}

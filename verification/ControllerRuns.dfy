/**
 * What the controller guarantees over whole runs: every sequence of events and
 * vehicle snapshots, from the initial state.
 */
module ControllerRuns {
  import opened ControllerSpec
  import opened SafetyPolicy
  import opened Vehicle

  datatype Stimulus = Stimulus(event: Event, vehicle: VehicleState)

  /** The stored state after the first n stimuli. */
  function ControlAt(config: ControllerConfig, run: seq<Stimulus>, n: nat): Control
    requires n <= |run|
    decreases n, 0
  {
    if n == 0 then INITIAL_CONTROL else After(DecisionAt(config, run, n - 1))
  }

  function DecisionAt(config: ControllerConfig, run: seq<Stimulus>, i: nat): Decision
    requires i < |run|
    decreases i, 1
  {
    Handle(config, ControlAt(config, run, i), run[i].event, run[i].vehicle)
  }

  lemma StepOf(config: ControllerConfig, run: seq<Stimulus>, i: nat)
    requires i < |run|
    ensures ControlAt(config, run, i + 1)
         == After(Handle(config, ControlAt(config, run, i), run[i].event, run[i].vehicle))
  {
  }

  function StateAt(config: ControllerConfig, run: seq<Stimulus>, n: nat): ControllerState
    requires n <= |run|
  {
    ControlAt(config, run, n).state
  }

  predicate Emits(config: ControllerConfig, run: seq<Stimulus>, i: nat, kind: ActionType)
    requires i < |run|
  {
    DecisionAt(config, run, i).Contains(kind)
  }

  /** The stored fault is set in the fault state and nowhere else. */
  lemma {:induction false} FaultCodeExactlyInFault(config: ControllerConfig, run: seq<Stimulus>, n: nat)
    requires n <= |run|
    ensures ControlAt(config, run, n).fault != NoFault <==> StateAt(config, run, n) == Fault
  {
    hide Handle;
    if n > 0 {
      StepOf(config, run, n - 1);
      FaultCodeExactlyInFault(config, run, n - 1);
      FaultCodeStep(config, ControlAt(config, run, n - 1), run[n - 1].event, run[n - 1].vehicle);
    }
  }

  lemma FaultCodeStep(config: ControllerConfig, control: Control, event: Event, v: VehicleState)
    requires control.fault != NoFault <==> control.state == Fault
    ensures Handle(config, control, event, v).fault != NoFault <==> Handle(config, control, event, v).state == Fault
  {
    hide Actions;
    hide Assess;
    hide Assessed;
  }

  // ---------- which reaction emits what ----------

  /** Energising actions belong to one transition each. */
  lemma EmitterOf(config: ControllerConfig, control: Control, event: Event, v: VehicleState)
    ensures var d := Handle(config, control, event, v);
            && (d.Contains(EngageStarter) <==>
                  control.state == Preparing && event.kind == TimerElapsed && Approves(config, ForStart, v))
            && (d.Contains(EnableIgnition) <==>
                  control.state == Authorizing && event.kind == VehicleStateUpdated && Approves(config, ForStart, v))
  {
    var r := React(config, control.state, event, v);
    assert Handle(config, control, event, v).actions == Actions(config, r);
    OnlyEmitter(config, r);
    hide Actions;
    hide Assess;
    hide NextState;
    hide NextFault;
    hide Assessed;
  }

  lemma OnlyEmitter(config: ControllerConfig, r: Reaction)
    ensures (exists i :: 0 <= i < |Actions(config, r)| && Actions(config, r)[i].kind == EngageStarter) <==> r == BeginCranking
    ensures (exists i :: 0 <= i < |Actions(config, r)| && Actions(config, r)[i].kind == EnableIgnition) <==> r == BeginPreparing
  {
    assert Actions(config, BeginCranking)[1].kind == EngageStarter;
    assert Actions(config, BeginPreparing)[1].kind == EnableIgnition;
  }

  // ---------- the starter is engaged only after an approved preparation ----------

  /**
   * Step j enabled ignition on an approved snapshot, the run has been in
   * Preparing ever since, and every snapshot delivered meanwhile was approved.
   */
  ghost predicate PreparedSince(config: ControllerConfig, run: seq<Stimulus>, j: nat, n: nat)
    requires j < n <= |run|
  {
    && Emits(config, run, j, EnableIgnition)
    && MeetsMatrix(config.safety, ForStart, run[j].vehicle)
    && (forall k :: j < k <= n ==> StateAt(config, run, k) == Preparing)
    && (forall k :: j < k < n && run[k].event.kind == VehicleStateUpdated ==>
          MeetsMatrix(config.safety, ForStart, run[k].vehicle))
  }

  /** Step s asked for a start in Idle and the run has been Authorizing ever since. */
  ghost predicate RequestedSince(config: ControllerConfig, run: seq<Stimulus>, s: nat, n: nat)
    requires s < n <= |run|
  {
    && StateAt(config, run, s) == Idle
    && run[s].event.kind == RemoteStartRequested
    && config.remoteStartEnabled && config.profileReady
    && forall k :: s < k <= n ==> StateAt(config, run, k) == Authorizing
  }

  /** Authorizing is entered only by a permitted start request in Idle. */
  lemma WayIntoAuthorizing(config: ControllerConfig, control: Control, event: Event, v: VehicleState)
    requires Handle(config, control, event, v).state == Authorizing
    ensures control.state == Authorizing
            || (control.state == Idle && event.kind == RemoteStartRequested && config.remoteStartEnabled && config.profileReady)
  {
    hide Actions;
    hide Assess;
    hide Assessed;
  }

  lemma {:induction false} AuthorizingWasRequested(config: ControllerConfig, run: seq<Stimulus>, n: nat) returns (s: nat)
    requires n <= |run| && StateAt(config, run, n) == Authorizing
    ensures s < n && RequestedSince(config, run, s, n)
  {
    StepOf(config, run, n - 1);
    WayIntoAuthorizing(config, ControlAt(config, run, n - 1), run[n - 1].event, run[n - 1].vehicle);
    hide Handle;
    if StateAt(config, run, n - 1) == Authorizing {
      s := AuthorizingWasRequested(config, run, n - 1);
    } else {
      s := n - 1;
    }
  }

  /** Preparing is entered on an approved snapshot with ignition enabled, and kept only by approved ones. */
  lemma WaysIntoPreparing(config: ControllerConfig, control: Control, event: Event, v: VehicleState)
    requires Handle(config, control, event, v).state == Preparing
    ensures
      || (control.state == Preparing &&
          (event.kind == VehicleStateUpdated ==> MeetsMatrix(config.safety, ForStart, v)))
      || (control.state == Authorizing && MeetsMatrix(config.safety, ForStart, v) &&
          Handle(config, control, event, v).Contains(EnableIgnition))
  {
    ApprovedExactly(config.safety, ForStart, v);
    EmitterOf(config, control, event, v);
    hide MeetsMatrix;
    hide Assess;
    hide Actions;
    hide Assessed;
  }

  lemma {:induction false} PreparedLonger(config: ControllerConfig, run: seq<Stimulus>, j: nat, n: nat)
    requires j < n < |run| && PreparedSince(config, run, j, n) && StateAt(config, run, n + 1) == Preparing
    requires run[n].event.kind == VehicleStateUpdated ==> MeetsMatrix(config.safety, ForStart, run[n].vehicle)
    ensures PreparedSince(config, run, j, n + 1)
  {
    hide MeetsMatrix;
    hide Emits;
    hide StateAt;
  }

  lemma {:induction false} PreparedFrom(config: ControllerConfig, run: seq<Stimulus>, j: nat)
    requires j < |run| && Emits(config, run, j, EnableIgnition)
    requires MeetsMatrix(config.safety, ForStart, run[j].vehicle) && StateAt(config, run, j + 1) == Preparing
    ensures PreparedSince(config, run, j, j + 1)
  {
    hide MeetsMatrix;
    hide Emits;
    hide StateAt;
  }

  lemma {:induction false} PreparingWasApproved(config: ControllerConfig, run: seq<Stimulus>, n: nat) returns (j: nat)
    requires n <= |run| && StateAt(config, run, n) == Preparing
    ensures j < n && StateAt(config, run, j) == Authorizing && PreparedSince(config, run, j, n)
  {
    StepOf(config, run, n - 1);
    WaysIntoPreparing(config, ControlAt(config, run, n - 1), run[n - 1].event, run[n - 1].vehicle);
    hide Handle;
    hide MeetsMatrix;
    hide PreparedSince;
    hide Decision.Contains;
    if StateAt(config, run, n - 1) == Preparing {
      j := PreparingWasApproved(config, run, n - 1);
      PreparedLonger(config, run, j, n - 1);
    } else {
      j := n - 1;
      PreparedFrom(config, run, j);
    }
  }

  /**
   * Whenever the starter is engaged, an accepted start request was followed by
   * an approved enabling of ignition and an unbroken, continuously approved
   * preparation, and the engaging snapshot itself meets the matrix.
   */
  lemma StarterFollowsApprovedPreparation(config: ControllerConfig, run: seq<Stimulus>, i: nat) returns (s: nat, j: nat)
    requires i < |run| && Emits(config, run, i, EngageStarter)
    ensures s < j < i
    ensures RequestedSince(config, run, s, j)
    ensures PreparedSince(config, run, j, i)
    ensures run[i].event.kind == TimerElapsed && MeetsMatrix(config.safety, ForStart, run[i].vehicle)
  {
    EmitterOf(config, ControlAt(config, run, i), run[i].event, run[i].vehicle);
    ApprovedExactly(config.safety, ForStart, run[i].vehicle);
    j := PreparingWasApproved(config, run, i);
    s := AuthorizingWasRequested(config, run, j);
  }

  // ---------- a session only moves forward ----------

  /** How far a session still has to go. */
  function Rank(state: ControllerState): nat {
    match state
    case Authorizing => 6
    case Preparing => 5
    case Cranking => 4
    case Running => 3
    case AwaitingTakeover => 2
    case DriverControl => 1
    case Stopping => 1
    case Idle => 0
    case Fault => 0
  }

  /** Every change of state lowers the rank, except a start, a fall into Fault and a reset. */
  lemma RankDecreases(config: ControllerConfig, control: Control, event: Event, v: VehicleState)
    ensures var next := Handle(config, control, event, v).state;
            || next == control.state
            || Rank(next) < Rank(control.state)
            || (control.state == Idle && next == Authorizing)
            || next == Fault
            || (control.state == Fault && next == Idle)
  {
  }

  /** Number of state changes between two points of a run. */
  function Changes(config: ControllerConfig, run: seq<Stimulus>, first: nat, last: nat): nat
    requires first <= last <= |run|
    decreases last
  {
    if first == last then 0
    else Changes(config, run, first, last - 1) +
         (if StateAt(config, run, last) == StateAt(config, run, last - 1) then 0 else 1)
  }

  lemma LeavesIdleOnlyBySteps(config: ControllerConfig, run: seq<Stimulus>, first: nat, last: nat)
    requires first < last <= |run|
    requires forall k :: first <= k <= last ==> StateAt(config, run, k) != Idle && StateAt(config, run, k) != Fault
    ensures StateAt(config, run, last - 1) != Idle && StateAt(config, run, last - 1) != Fault
    ensures StateAt(config, run, last) != Idle && StateAt(config, run, last) != Fault
    ensures Rank(StateAt(config, run, first)) <= 6 && Rank(StateAt(config, run, last)) >= 1
  {
    hide Handle;
    assert StateAt(config, run, first) != Idle;
  }

  /** While a session stays out of Idle and Fault it uses up its rank: at most five changes, whatever arrives. */
  lemma {:induction false} SessionMovesForward(config: ControllerConfig, run: seq<Stimulus>, first: nat, last: nat)
    requires first <= last <= |run|
    requires forall k :: first <= k <= last ==> StateAt(config, run, k) != Idle && StateAt(config, run, k) != Fault
    ensures Rank(StateAt(config, run, last)) + Changes(config, run, first, last) <= Rank(StateAt(config, run, first))
    ensures Changes(config, run, first, last) <= 5
    decreases last
  {
    hide Handle;
    if first < last {
      var before := ControlAt(config, run, last - 1);
      StepOf(config, run, last - 1);
      RankDecreases(config, before, run[last - 1].event, run[last - 1].vehicle);
      LeavesIdleOnlyBySteps(config, run, first, last);
      SessionMovesForward(config, run, first, last - 1);
    }
  }

  lemma EngagementCranks(config: ControllerConfig, control: Control, event: Event, v: VehicleState)
    requires Handle(config, control, event, v).Contains(EngageStarter)
    ensures Handle(config, control, event, v).state == Cranking
  {
    EmitterOf(config, control, event, v);
    hide Actions;
    hide Assess;
    hide Assessed;
  }

  /** Two engagements of the starter are always separated by a return to Idle. */
  lemma OneCrankPerSession(config: ControllerConfig, run: seq<Stimulus>, i: nat, k: nat)
    requires i < k < |run|
    requires Emits(config, run, i, EngageStarter) && Emits(config, run, k, EngageStarter)
    ensures exists m :: i < m < k && StateAt(config, run, m) == Idle
  {
    hide Handle;
    StepOf(config, run, i);
    EngagementCranks(config, ControlAt(config, run, i), run[i].event, run[i].vehicle);
    EmitterOf(config, ControlAt(config, run, k), run[k].event, run[k].vehicle);
    if forall m :: i < m <= k ==> StateAt(config, run, m) != Idle {
      PastPreparation(config, run, i, k);
      assert false;
    }
  }

  /** From beyond preparation no single event leads back to it. */
  lemma NoWayBack(config: ControllerConfig, control: Control, event: Event, v: VehicleState)
    requires control.state != Idle && control.state != Preparing && control.state != Authorizing
    ensures var next := Handle(config, control, event, v).state; next != Preparing && next != Authorizing
  {
    hide Actions;
    hide Assess;
    hide Assessed;
  }

  lemma {:induction false} PastPreparation(config: ControllerConfig, run: seq<Stimulus>, i: nat, k: nat)
    requires i < k <= |run|
    requires StateAt(config, run, i + 1) == Cranking
    requires forall m :: i < m <= k ==> StateAt(config, run, m) != Idle
    ensures StateAt(config, run, k) != Preparing && StateAt(config, run, k) != Authorizing
    decreases k
  {
    if i + 1 < k {
      StepOf(config, run, k - 1);
      PastPreparation(config, run, i, k - 1);
      NoWayBack(config, ControlAt(config, run, k - 1), run[k - 1].event, run[k - 1].vehicle);
      hide Handle;
    }
  }

  // ---------- a fault stays until a justified reset ----------

  /** Leaving Fault takes a reset request on a fresh stopped engine and a fresh absence of critical faults. */
  lemma {:induction false} FaultNeedsJustifiedReset(config: ControllerConfig, run: seq<Stimulus>, n: nat, m: nat) returns (k: nat)
    requires n < m <= |run|
    requires StateAt(config, run, n) == Fault && StateAt(config, run, m) != Fault
    ensures n <= k < m
    ensures run[k].event.kind == ResetRequested
    ensures EngineIsStopped(config, run[k].vehicle) && Shows(run[k].vehicle.criticalFaultPresent, false)
    ensures StateAt(config, run, k) == Fault && StateAt(config, run, k + 1) == Idle
    decreases m - n
  {
    StepOf(config, run, n);
    hide Actions;
    hide Assess;
    hide Assessed;
    if StateAt(config, run, n + 1) == Fault {
      k := FaultNeedsJustifiedReset(config, run, n + 1, m);
    } else {
      k := n;
    }
  }
  // ---------- what speed a completed reset finds ----------

  predicate ResetCompletesAt(config: ControllerConfig, run: seq<Stimulus>, i: nat) {
    && i < |run| && run[i].event.kind == ResetRequested
    && StateAt(config, run, i) == Fault && StateAt(config, run, i + 1) == Idle
  }

  /** Every completed reset of every run finds a fresh engine speed of zero, as docs/safety.md asks. */
  ghost predicate ResetsFindZeroSpeed(config: ControllerConfig) {
    forall run: seq<Stimulus>, i: nat | ResetCompletesAt(config, run, i) ::
      run[i].vehicle.engineRpm.IsFresh() && run[i].vehicle.engineRpm.value == 0
  }

  /** A vehicle without a critical fault whose engine turns at the given speed. */
  function Turning(rpm: u16): VehicleState {
    VehicleState(Observed(0, Unavailable), Observed(rpm, Fresh), Observed(false, Unavailable),
                 Observed(false, Unavailable), Observed(false, Unavailable), Observed(false, Unavailable),
                 Observed(false, Unavailable), Observed(UnknownTransmission, Unavailable),
                 Observed(UnknownGear, Unavailable), Observed(false, Fresh))
  }

  /** A failure and then a reset, at the given speed. */
  function FaultAndReset(rpm: u16): seq<Stimulus> {
    [Stimulus(Event(InfrastructureFailure, InternalError), Turning(rpm)),
     Stimulus(Event(ResetRequested, NoFault), Turning(rpm))]
  }

  /** The engine may turn at any speed below the running threshold when a reset completes. */
  lemma ResetWhileTurning(config: ControllerConfig, rpm: u16)
    requires rpm < config.safety.runningRpmThreshold
    ensures ResetCompletesAt(config, FaultAndReset(rpm), 1)
  {
    var run := FaultAndReset(rpm);
    StepOf(config, run, 0);
    StepOf(config, run, 1);
    hide Actions;
    hide Assess;
    hide Assessed;
    assert ControlAt(config, run, 1) == Control(Fault, InternalError);
  }

  /** Completed resets find zero speed exactly under configurations whose running threshold is at most one. */
  lemma ZeroSpeedExactly(config: ControllerConfig)
    ensures ResetsFindZeroSpeed(config) <==> config.safety.runningRpmThreshold <= 1
  {
    if config.safety.runningRpmThreshold <= 1 {
      forall run: seq<Stimulus>, i: nat | ResetCompletesAt(config, run, i)
        ensures run[i].vehicle.engineRpm.IsFresh() && run[i].vehicle.engineRpm.value == 0
      {
        var k := FaultNeedsJustifiedReset(config, run, i, i + 1);
      }
    } else {
      ResetWhileTurning(config, 1);
    }
  }
}

/**
 * What the supervisor guarantees in every reachable state, whatever the clock
 * does, whatever is commanded, and whichever driver calls fail.
 */
module SupervisorRuns {
  import opened SupervisorSpec

  /** A latched fault means nothing is commanded, and the physical outputs are those commanded unless a safing has failed. */
  predicate Sound(g: Guarded) {
    && (!g.sup.fault.NoSupervisorFault? ==> !g.sup.OutputsCommanded())
    && (g.sup.starterCommanded ==> g.sup.ignitionCommanded)
    && (g.sup.safingFailed || !g.sup.initialized ==> !g.sup.fault.NoSupervisorFault?)
    && (g.sup.safingFailed
        || (g.drv.ignition == g.sup.ignitionCommanded && g.drv.starter == g.sup.starterCommanded))
    && (g.sup.OutputsCommanded() ==>
          g.sup.clockInitialized && g.sup.heartbeatInitialized && g.sup.hardwareStartPermitted)
  }

  lemma SafingIsSound(script: DriverScript, g: Guarded)
    ensures var s := SafeDownstream(script, g);
            && !s.sup.OutputsCommanded()
            && (!s.sup.safingFailed ==> !s.drv.ignition && !s.drv.starter)
            && (s.sup.safingFailed <==> g.sup.safingFailed || !SafingSucceeds(script, g.drv))
            && s.sup.fault == g.sup.fault && s.sup.initialized == g.sup.initialized
  {
  }

  lemma TripIsSound(script: DriverScript, g: Guarded, reason: SupervisorFault)
    requires reason != NoSupervisorFault
    ensures Sound(Trip(script, g, reason)) && !Trip(script, g, reason).sup.fault.NoSupervisorFault?
  {
    hide SafeDownstream;
    SafingIsSound(script,
      g.(sup := g.sup.(fault := if g.sup.fault.NoSupervisorFault? then reason else g.sup.fault)));
  }

  lemma ConstructIsSound(config: SafetyConfig, script: DriverScript, physical: DriverState)
    ensures Sound(Construct(config, script, physical))
  {
    hide SafeDownstream;
    SafingIsSound(script, Guarded(UNCONSTRUCTED, physical));
  }

  lemma CommandedIsSound(config: SafetyConfig, script: DriverScript, g: Guarded, command: Command)
    requires Sound(g) && !command.Secure? && Accepts(script, g.drv)
    requires command != Disengage ==> CanEnergize(Wrapping, config, g.sup) || CanEnergize(Unbounded, config, g.sup)
    requires command == Engage ==> g.sup.ignitionCommanded
    ensures Sound(Guarded(Commanded(config, g.sup, command), Drive(script, g.drv, CallOf(command))))
  {
    hide HeartbeatTooOld;
    match command
    case Enable =>
    case Engage =>
    case Disengage =>
    case Release =>
  }

  lemma PerformIsSound(clock: Clock, config: SafetyConfig, script: DriverScript, g: Guarded, command: Command)
    requires Sound(g)
    ensures Sound(Perform(clock, config, script, g, command))
  {
    hide Trip;
    hide SafeDownstream;
    hide Commanded;
    hide Drive;
    hide CanEnergize;
    assert clock == Wrapping || clock == Unbounded;
    if command == Secure {
      SafingIsSound(script, g);
    } else if command != Disengage && !CanEnergize(clock, config, g.sup) {
      RefusalIsSound(clock, config, script, g);
    } else if (command == Engage && !StarterMayEngage(config, g.sup)) || (command == Release && g.sup.starterCommanded) {
      TripIsSound(script, g, CommandSequence);
    } else if Accepts(script, g.drv) {
      CommandedIsSound(config, script, g, command);
    } else {
      TripIsSound(script, g.(drv := Drive(script, g.drv, CallOf(command))), DriverFailure);
    }
  }

  lemma RefusalIsSound(clock: Clock, config: SafetyConfig, script: DriverScript, g: Guarded)
    requires Sound(g) && !CanEnergize(clock, config, g.sup)
    ensures Sound(RefuseEnergize(clock, config, script, g))
  {
    hide Trip;
    TripIsSound(script, g, EnergizeObjection(clock, config, g.sup));
  }

  lemma HeartbeatIsSound(clock: Clock, config: SafetyConfig, script: DriverScript, g: Guarded, now: nat)
    requires Sound(g)
    ensures Sound(Heartbeat(clock, config, script, g, now))
  {
    hide Trip;
    TripIsSound(script, g, ClockRegression);
    TripIsSound(script, Observe(g, now), WatchdogExpired);
  }

  lemma ResetIsSound(clock: Clock, config: SafetyConfig, script: DriverScript, g: Guarded, now: nat, feedback: Feedback)
    requires Sound(g)
    ensures Sound(ResetFault(clock, config, script, g, now, feedback))
  {
    hide Trip;
    TripIsSound(script, g, ClockRegression);
  }

  lemma PollIsSound(clock: Clock, config: SafetyConfig, script: DriverScript, g: Guarded, now: nat,
                    permitted: bool, feedback: Feedback)
    requires Sound(g)
    ensures Sound(Poll(clock, config, script, g, now, permitted, feedback))
  {
    hide Trip;
    TripIsSound(script, g, ClockRegression);
    var verdict := PollVerdict(clock, config, g.sup, now, permitted, feedback);
    if verdict != NoSupervisorFault {
      TripIsSound(script, Permit(Observe(g, now), permitted), verdict);
    }
  }

  lemma StepIsSound(clock: Clock, config: SafetyConfig, script: DriverScript, g: Guarded, input: Input)
    requires Sound(g)
    ensures Sound(Step(clock, config, script, g, input))
  {
    hide Sound;
    hide Perform;
    hide Heartbeat;
    hide Poll;
    hide ResetFault;
    match input
    case CommandInput(command) => PerformIsSound(clock, config, script, g, command);
    case HeartbeatInput(now) => HeartbeatIsSound(clock, config, script, g, now);
    case PollInput(now, permitted, feedback) => PollIsSound(clock, config, script, g, now, permitted, feedback);
    case ResetInput(now, feedback) => ResetIsSound(clock, config, script, g, now, feedback);
  }

  /** Every reachable state is sound. */
  lemma {:induction false} AlwaysSound(clock: Clock, config: SafetyConfig, script: DriverScript, physical: DriverState,
                                       run: seq<Input>, n: nat)
    requires n <= |run|
    ensures Sound(GuardedAt(clock, config, script, physical, run, n))
  {
    hide Sound;
    if n == 0 {
      ConstructIsSound(config, script, physical);
    } else {
      AlwaysSound(clock, config, script, physical, run, n - 1);
      StepIsSound(clock, config, script, GuardedAt(clock, config, script, physical, run, n - 1), run[n - 1]);
    }
  }

  // ---------- the latch ----------

  /** Only a successful reset clears a fault, and it leaves both outputs physically off. */
  lemma OnlyResetClears(clock: Clock, config: SafetyConfig, script: DriverScript, g: Guarded, input: Input)
    requires Sound(g) && !g.sup.fault.NoSupervisorFault?
    ensures var after := Step(clock, config, script, g, input);
            && (after.sup.fault.NoSupervisorFault? <==>
                  input.ResetInput? && ResetSucceeds(clock, config, script, g, input.nowMs, input.feedback))
            && (after.sup.fault.NoSupervisorFault? ==> !after.drv.ignition && !after.drv.starter)
  {
    hide PollVerdict;
    hide HeartbeatTooOld;
    hide Regressed;
    match input
    case ResetInput(now, feedback) => SafingIsSound(script, Observe(g, now));
    case CommandInput(command) =>
    case HeartbeatInput(_) =>
    case PollInput(_, _, _) =>
  }

  /** The inputs that leave a latched fault as it is. */
  predicate KeepsFault(clock: Clock, config: SafetyConfig, script: DriverScript, g: Guarded, input: Input) {
    match input
    case CommandInput(command) => command.Secure? ==> SafingSucceeds(script, g.drv) || g.sup.fault == SafingFailure
    case ResetInput(now, feedback) =>
      !ClockAccepted(clock, g.sup, now) || ResetVerdict(config, script, g.drv, feedback) == g.sup.fault
    case HeartbeatInput(_) => true
    case PollInput(_, _, _) => true
  }

  /**
   * Which fault is remembered: the first one, exactly until a failing
   * secureOutputs or a refused reset with another verdict overwrites it, or a
   * successful reset clears it.
   */
  lemma FirstFaultKeptExactly(clock: Clock, config: SafetyConfig, script: DriverScript, g: Guarded, input: Input)
    requires Sound(g) && !g.sup.fault.NoSupervisorFault?
    ensures var after := Step(clock, config, script, g, input).sup.fault;
            && (after == g.sup.fault <==> KeepsFault(clock, config, script, g, input))
            && (after == NoSupervisorFault <==>
                  input.ResetInput? && ResetSucceeds(clock, config, script, g, input.nowMs, input.feedback))
  {
    OnlyResetClears(clock, config, script, g, input);
    hide PollVerdict;
    hide ClockAccepted;
    hide HeartbeatSucceeds;
    match input
    case CommandInput(command) => CommandKeepsFault(clock, config, script, g, command);
    case ResetInput(now, feedback) => SafingIsSound(script, Observe(g, now));
    case HeartbeatInput(_) =>
    case PollInput(_, _, _) =>
  }

  /** A driver that carries out so many calls and then refuses, with both outputs off. */
  function AcceptsUntil(limit: nat): DriverScript {
    n => DriverOutcome(n < limit, false, false)
  }

  /** Ignition asked for without a heartbeat latches an expired watchdog. */
  lemma WatchdogLatched(clock: Clock, config: SafetyConfig, physical: DriverState, limit: nat, run: seq<Input>)
    requires config.Valid() && limit >= physical.calls + 4 && run != [] && run[0] == CommandInput(Enable)
    ensures var g := GuardedAt(clock, config, AcceptsUntil(limit), physical, run, 1);
            && g.sup.fault == WatchdogExpired && !g.sup.clockInitialized
            && g.drv == DriverState(false, false, physical.calls + 4)
  {
    var built := GuardedAt(clock, config, AcceptsUntil(limit), physical, run, 0);
    assert built.sup.initialized && built.sup.fault.NoSupervisorFault? && !built.sup.clockInitialized;
    assert built.drv == DriverState(false, false, physical.calls + 2);
  }

  /** In a reachable state: a refused reset replaces an expired watchdog by a feedback mismatch. */
  lemma ResetOverwrites(clock: Clock, config: SafetyConfig, physical: DriverState, now: nat)
    requires config.Valid()
    ensures var run := [CommandInput(Enable), ResetInput(now, Feedback(true, true, false))];
            var script := AcceptsUntil(physical.calls + 6);
            && GuardedAt(clock, config, script, physical, run, 1).sup.fault == WatchdogExpired
            && GuardedAt(clock, config, script, physical, run, 2).sup.fault == FeedbackMismatch
  {
    var run := [CommandInput(Enable), ResetInput(now, Feedback(true, true, false))];
    WatchdogLatched(clock, config, physical, physical.calls + 6, run);
    hide Perform;
    hide SafeDownstream;
  }

  /** In a reachable state: a failing secureOutputs replaces an expired watchdog by a safing failure. */
  lemma SecureOverwrites(clock: Clock, config: SafetyConfig, physical: DriverState)
    requires config.Valid()
    ensures var run := [CommandInput(Enable), CommandInput(Secure)];
            var script := AcceptsUntil(physical.calls + 4);
            && GuardedAt(clock, config, script, physical, run, 1).sup.fault == WatchdogExpired
            && GuardedAt(clock, config, script, physical, run, 2).sup.fault == SafingFailure
  {
    var run := [CommandInput(Enable), CommandInput(Secure)];
    WatchdogLatched(clock, config, physical, physical.calls + 4, run);
    hide SafeDownstream;
  }

  lemma CommandKeepsFault(clock: Clock, config: SafetyConfig, script: DriverScript, g: Guarded, command: Command)
    requires Sound(g) && !g.sup.fault.NoSupervisorFault?
    ensures Perform(clock, config, script, g, command).sup.fault == g.sup.fault <==>
              !(command.Secure? && !SafingSucceeds(script, g.drv) && g.sup.fault != SafingFailure)
  {
    hide HeartbeatTooOld;
    hide SupervisorSpec.Drive;
  }

  /** No successful reset among inputs first .. last - 1. */
  ghost predicate NoReset(clock: Clock, config: SafetyConfig, script: DriverScript, physical: DriverState,
                          run: seq<Input>, first: nat, last: nat)
    requires first <= last <= |run|
  {
    forall k :: first <= k < last && run[k].ResetInput? ==>
      !ResetSucceeds(clock, config, script, GuardedAt(clock, config, script, physical, run, k),
                     run[k].nowMs, run[k].feedback)
  }

  lemma {:induction false} FaultHeld(clock: Clock, config: SafetyConfig, script: DriverScript, physical: DriverState,
                                     run: seq<Input>, first: nat, last: nat)
    requires first <= last <= |run|
    requires !GuardedAt(clock, config, script, physical, run, first).sup.fault.NoSupervisorFault?
    requires NoReset(clock, config, script, physical, run, first, last)
    ensures !GuardedAt(clock, config, script, physical, run, last).sup.fault.NoSupervisorFault?
    decreases last - first
  {
    hide Step;
    hide Sound;
    hide ResetSucceeds;
    if first < last {
      FaultHeld(clock, config, script, physical, run, first, last - 1);
      AlwaysSound(clock, config, script, physical, run, last - 1);
      OnlyResetClears(clock, config, script, GuardedAt(clock, config, script, physical, run, last - 1), run[last - 1]);
    }
  }

  /** From a fault until a successful reset nothing is commanded and no energising or release command succeeds. */
  lemma LatchHolds(clock: Clock, config: SafetyConfig, script: DriverScript, physical: DriverState,
                   run: seq<Input>, first: nat, last: nat)
    requires first <= last <= |run|
    requires !GuardedAt(clock, config, script, physical, run, first).sup.fault.NoSupervisorFault?
    requires NoReset(clock, config, script, physical, run, first, last)
    ensures var g := GuardedAt(clock, config, script, physical, run, last);
            && !g.sup.fault.NoSupervisorFault?
            && !g.sup.OutputsCommanded()
            && (forall command | command == Enable || command == Engage || command == Release ::
                  !CommandSucceeds(clock, config, script, g, command))
            && (g.drv.ignition || g.drv.starter ==> g.sup.safingFailed)
  {
    hide Step;
    FaultHeld(clock, config, script, physical, run, first, last);
    AlwaysSound(clock, config, script, physical, run, last);
  }

  // ---------- what a successful command means ----------

  /** The commands the outputs answer to after a command reported as done. */
  function Intended(command: Command, ignition: bool, starter: bool): (bool, bool) {
    match command
    case Enable => (true, starter)
    case Engage => (ignition, true)
    case Disengage => (ignition, false)
    case Release => (false, false)
    case Secure => (false, false)
  }

  /** A successful command commands exactly what it names; a failed one commands nothing. */
  lemma CommandOutcome(clock: Clock, config: SafetyConfig, script: DriverScript, g: Guarded, command: Command)
    requires Sound(g)
    ensures var after := Perform(clock, config, script, g, command);
            if CommandSucceeds(clock, config, script, g, command)
            then (after.sup.ignitionCommanded, after.sup.starterCommanded)
                   == Intended(command, g.sup.ignitionCommanded, g.sup.starterCommanded)
            else !after.sup.OutputsCommanded() && !after.sup.fault.NoSupervisorFault?
  {
  }

  /** Energising needs a recent heartbeat, a permission and, for the starter, confirmed ignition. */
  lemma EnergizingNeedsEvidence(clock: Clock, config: SafetyConfig, script: DriverScript, g: Guarded, command: Command)
    requires command == Enable || command == Engage
    requires CommandSucceeds(clock, config, script, g, command)
    ensures Operational(g.sup) && g.sup.heartbeatInitialized && g.sup.hardwareStartPermitted
    ensures Age(clock, g.sup.lastObservedMs, g.sup.lastHeartbeatMs) <= config.watchdogTimeoutMs
    ensures command == Engage ==>
              g.sup.ignitionCommanded && (config.requireFeedback ==> g.sup.ignitionFeedbackConfirmed)
  {
  }
}

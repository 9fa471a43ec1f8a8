/**
 * The supervisor on its wrapping clock against the supervisor on an ideal one.
 *
 * Inputs here carry real, unbounded instants. The wrapping decisions only look
 * at differences modulo 2^32, so they can be followed on real instants too
 * (WrappingLooksOnlyAtDifferences); comparing them with the unbounded decisions
 * on the same instants shows what the 32-bit counter costs.
 */
module SupervisorClock {
  import opened Clock32
  import opened SupervisorSpec

  // ---------- the wrapped view of a real run ----------

  function WrapSupervisor(sup: Supervisor): Supervisor {
    sup.(lastObservedMs := Wrap(sup.lastObservedMs),
         lastHeartbeatMs := Wrap(sup.lastHeartbeatMs),
         starterEngagedAtMs := Wrap(sup.starterEngagedAtMs),
         lastOutputChangeMs := Wrap(sup.lastOutputChangeMs))
  }

  function WrapGuarded(g: Guarded): Guarded {
    g.(sup := WrapSupervisor(g.sup))
  }

  function WrapInput(input: Input): Input {
    match input
    case HeartbeatInput(now) => HeartbeatInput(Wrap(now))
    case PollInput(now, permitted, feedback) => PollInput(Wrap(now), permitted, feedback)
    case ResetInput(now, feedback) => ResetInput(Wrap(now), feedback)
    case CommandInput(_) => input
  }

  predicate Timed(input: Input) {
    !input.CommandInput?
  }

  lemma AgeOfWrapped(now: nat, past: nat)
    ensures Age(Wrapping, Wrap(now), Wrap(past)) == Age(Wrapping, now, past)
  {
  }

  lemma RegressedOfWrapped(now: nat, last: nat)
    requires last <= now < last + TWO32
    ensures Regressed(Wrapping, Wrap(now), Wrap(last)) <==> Regressed(Wrapping, now, last)
  {
    SubOfWrapped(now, last);
    var distance := now - last;
    assert distance % TWO32 == distance;
    assert (Wrap(now) - Wrap(last)) % TWO32 == distance;
    hide Wrap;
  }

  lemma TripOfWrapped(script: DriverScript, g: Guarded, reason: SupervisorFault)
    ensures Trip(script, WrapGuarded(g), reason) == WrapGuarded(Trip(script, g, reason))
    ensures SafeDownstream(script, WrapGuarded(g)) == WrapGuarded(SafeDownstream(script, g))
  {
  }

  predicate NextInstant(sup: Supervisor, now: nat) {
    sup.clockInitialized ==> sup.lastObservedMs <= now < sup.lastObservedMs + TWO32
  }

  lemma ObserveOfWrapped(g: Guarded, now: nat)
    requires NextInstant(g.sup, now)
    ensures ClockAccepted(Wrapping, WrapSupervisor(g.sup), Wrap(now)) <==> ClockAccepted(Wrapping, g.sup, now)
    ensures Observe(WrapGuarded(g), Wrap(now)) == WrapGuarded(Observe(g, now))
  {
    hide Regressed;
    hide Wrap;
    if g.sup.clockInitialized {
      RegressedOfWrapped(now, g.sup.lastObservedMs);
    }
  }

  lemma PermitOfWrapped(g: Guarded, permitted: bool, feedback: Feedback)
    ensures Permit(WrapGuarded(g), permitted) == WrapGuarded(Permit(g, permitted))
    ensures Confirm(WrapGuarded(Permit(g, permitted)), feedback) == WrapGuarded(Confirm(Permit(g, permitted), feedback))
  {
  }

  lemma RearmOfWrapped(g: Guarded, verdict: SupervisorFault)
    ensures Rearm(WrapGuarded(g), verdict) == WrapGuarded(Rearm(g, verdict))
  {
  }

  lemma HeartbeatOfWrapped(config: SafetyConfig, script: DriverScript, g: Guarded, now: nat)
    requires NextInstant(g.sup, now)
    ensures Heartbeat(Wrapping, config, script, WrapGuarded(g), Wrap(now))
         == WrapGuarded(Heartbeat(Wrapping, config, script, g, now))
  {
    hide Age;
    hide Wrap;
    hide Trip;
    hide ClockAccepted;
    AgeOfWrapped(now, g.sup.lastHeartbeatMs);
    ObserveOfWrapped(g, now);
    TripOfWrapped(script, g, ClockRegression);
    TripOfWrapped(script, Observe(g, now), WatchdogExpired);
  }

  lemma PollOfWrapped(config: SafetyConfig, script: DriverScript, g: Guarded, now: nat, permitted: bool, feedback: Feedback)
    requires NextInstant(g.sup, now)
    ensures Poll(Wrapping, config, script, WrapGuarded(g), Wrap(now), permitted, feedback)
         == WrapGuarded(Poll(Wrapping, config, script, g, now, permitted, feedback))
  {
    hide Wrap;
    hide Trip;
    hide ClockAccepted;
    hide PollVerdict;
    hide Permit;
    hide Confirm;
    hide Observe;
    ObserveOfWrapped(g, now);
    TripOfWrapped(script, g, ClockRegression);
    VerdictOfWrapped(config, g.sup, now, permitted, feedback);
    var verdict := PollVerdict(Wrapping, config, g.sup, now, permitted, feedback);
    PermitOfWrapped(Observe(g, now), permitted, feedback);
    TripOfWrapped(script, Permit(Observe(g, now), permitted), verdict);
  }

  lemma VerdictOfWrapped(config: SafetyConfig, sup: Supervisor, now: nat, permitted: bool, feedback: Feedback)
    ensures PollVerdict(Wrapping, config, WrapSupervisor(sup), Wrap(now), permitted, feedback)
         == PollVerdict(Wrapping, config, sup, now, permitted, feedback)
  {
    hide Age;
    hide Wrap;
    AgeOfWrapped(now, sup.lastHeartbeatMs);
    AgeOfWrapped(now, sup.starterEngagedAtMs);
    AgeOfWrapped(now, sup.lastOutputChangeMs);
  }

  lemma ResetOfWrapped(config: SafetyConfig, script: DriverScript, g: Guarded, now: nat, feedback: Feedback)
    requires NextInstant(g.sup, now)
    ensures ResetFault(Wrapping, config, script, WrapGuarded(g), Wrap(now), feedback)
         == WrapGuarded(ResetFault(Wrapping, config, script, g, now, feedback))
  {
    hide Wrap;
    hide Trip;
    hide SafeDownstream;
    hide ResetVerdict;
    hide Rearm;
    hide ClockAccepted;
    ObserveOfWrapped(g, now);
    TripOfWrapped(script, g, ClockRegression);
    TripOfWrapped(script, Observe(g, now), SafingFailure);
    RearmOfWrapped(SafeDownstream(script, Observe(g, now)), ResetVerdict(config, script, g.drv, feedback));
  }

  lemma ObjectionOfWrapped(config: SafetyConfig, sup: Supervisor)
    ensures EnergizeObjection(Wrapping, config, WrapSupervisor(sup)) == EnergizeObjection(Wrapping, config, sup)
    ensures CanEnergize(Wrapping, config, WrapSupervisor(sup)) <==> CanEnergize(Wrapping, config, sup)
    ensures StarterMayEngage(config, WrapSupervisor(sup)) <==> StarterMayEngage(config, sup)
  {
    AgeOfWrapped(sup.lastObservedMs, sup.lastHeartbeatMs);
    hide Age;
    hide Wrap;
  }

  lemma CommandedOfWrapped(config: SafetyConfig, sup: Supervisor, command: Command)
    ensures Commanded(config, WrapSupervisor(sup), command) == WrapSupervisor(Commanded(config, sup, command))
  {
    hide Wrap;
    match command
    case Enable =>
    case Engage =>
    case Disengage =>
    case Release =>
    case Secure =>
  }

  lemma SafedOfWrapped(script: DriverScript, g: Guarded)
    ensures SafeDownstream(script, WrapGuarded(g)) == WrapGuarded(SafeDownstream(script, g))
  {
    hide Wrap;
    hide Drive;
    hide SafingSucceeds;
  }

  lemma CommandOfWrapped(config: SafetyConfig, script: DriverScript, g: Guarded, command: Command)
    ensures Perform(Wrapping, config, script, WrapGuarded(g), command)
         == WrapGuarded(Perform(Wrapping, config, script, g, command))
  {
    hide Wrap;
    hide Trip;
    hide SafeDownstream;
    hide SafingSucceeds;
    hide Drive;
    hide EnergizeObjection;
    hide CanEnergize;
    hide StarterMayEngage;
    hide Commanded;
    ObjectionOfWrapped(config, g.sup);
    CommandedOfWrapped(config, g.sup, command);
    SafedOfWrapped(script, g);
    TripOfWrapped(script, g, EnergizeObjection(Wrapping, config, g.sup));
    TripOfWrapped(script, g, CommandSequence);
    TripOfWrapped(script, g.(drv := Drive(script, g.drv, CallOf(command))), DriverFailure);
  }

  /** The firmware's counter never sees more than the wrapped instants, and decides the same. */
  lemma WrappingLooksOnlyAtDifferences(config: SafetyConfig, script: DriverScript, g: Guarded, input: Input)
    requires Timed(input) ==> NextInstant(g.sup, input.nowMs)
    ensures Step(Wrapping, config, script, WrapGuarded(g), WrapInput(input))
         == WrapGuarded(Step(Wrapping, config, script, g, input))
  {
    hide Heartbeat;
    hide Poll;
    hide ResetFault;
    hide Perform;
    hide WrapGuarded;
    match input
    case HeartbeatInput(now) => HeartbeatOfWrapped(config, script, g, now);
    case PollInput(now, permitted, feedback) => PollOfWrapped(config, script, g, now, permitted, feedback);
    case ResetInput(now, feedback) => ResetOfWrapped(config, script, g, now, feedback);
    case CommandInput(command) => CommandOfWrapped(config, script, g, command);
  }

  // ---------- one step: where the two clocks differ ----------

  /** The real ages the supervisor is about to look at all fit the counter. */
  predicate AgesFit(sup: Supervisor, now: nat) {
    && (sup.clockInitialized ==> sup.lastObservedMs <= now < sup.lastObservedMs + HALF_RANGE)
    && (Operational(sup) && sup.heartbeatInitialized ==> sup.lastHeartbeatMs <= now < sup.lastHeartbeatMs + TWO32)
    && (sup.starterCommanded ==> sup.starterEngagedAtMs <= now < sup.starterEngagedAtMs + TWO32)
  }

  /** The poll complains about nothing that does not depend on the grace period. */
  predicate NoEarlierObjection(config: SafetyConfig, sup: Supervisor, now: nat, permitted: bool) {
    && !(sup.OutputsCommanded() && !permitted)
    && !(sup.OutputsCommanded() && (!sup.heartbeatInitialized || HeartbeatTooOld(Unbounded, config, sup, now)))
    && !(sup.starterCommanded && now - sup.starterEngagedAtMs > config.maximumStarterActiveMs)
  }

  /** The feedback is one the supervisor objects to outside the grace period. */
  predicate FeedbackIsWrong(config: SafetyConfig, sup: Supervisor, feedback: Feedback) {
    if feedback.available then !FeedbackAgrees(sup, feedback)
    else config.requireFeedback && sup.OutputsCommanded()
  }

  /**
   * The counter has gone round since the last output change and shows an age
   * inside the grace period again.
   */
  predicate GraceReopened(config: SafetyConfig, sup: Supervisor, now: nat) {
    now - sup.lastOutputChangeMs >= TWO32 && (now - sup.lastOutputChangeMs) % TWO32 <= config.feedbackGraceMs
  }

  /** A poll that wrongly lets a bad feedback pass. */
  predicate PollSlips(config: SafetyConfig, sup: Supervisor, now: nat, permitted: bool, feedback: Feedback) {
    && Operational(sup)
    && NoEarlierObjection(config, sup, now, permitted)
    && GraceReopened(config, sup, now)
    && FeedbackIsWrong(config, sup, feedback)
  }

  /**
   * A poll decides as on an ideal clock exactly when it does not fall into a
   * grace period that reopened after 2^32 ms without an output change.
   */
  lemma VerdictAgreesExactly(config: SafetyConfig, sup: Supervisor, now: nat, permitted: bool, feedback: Feedback)
    requires Operational(sup) && AgesFit(sup, now) && sup.lastOutputChangeMs <= now
    ensures PollVerdict(Wrapping, config, sup, now, permitted, feedback)
         == PollVerdict(Unbounded, config, sup, now, permitted, feedback)
       <==> !PollSlips(config, sup, now, permitted, feedback)
  {
  }

  predicate Slips(config: SafetyConfig, sup: Supervisor, input: Input) {
    input.PollInput? && PollSlips(config, sup, input.nowMs, input.permitted, input.feedback)
  }

  predicate InputFits(sup: Supervisor, input: Input) {
    if Timed(input) then AgesFit(sup, input.nowMs) && sup.lastOutputChangeMs <= input.nowMs
    else AgesFit(sup, sup.lastObservedMs)
  }

  lemma StepAgrees(config: SafetyConfig, script: DriverScript, g: Guarded, input: Input)
    requires InputFits(g.sup, input) && !Slips(config, g.sup, input)
    ensures Step(Wrapping, config, script, g, input) == Step(Unbounded, config, script, g, input)
  {
    hide Trip;
    hide SafeDownstream;
    hide Drive;
    match input
    case PollInput(now, permitted, feedback) =>
      if Operational(g.sup) {
        VerdictAgreesExactly(config, g.sup, now, permitted, feedback);
      }
      hide PollVerdict;
    case HeartbeatInput(now) =>
    case ResetInput(now, feedback) =>
    case CommandInput(command) =>
  }
}

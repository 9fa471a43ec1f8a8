/**
 * The actuator supervisor and the driver behind it, as functions of their
 * stored state.
 *
 * The driver may refuse any call. A call it reports as done has the effect its
 * name says; a call it reports as refused leaves the physical outputs in any
 * state at all. A script fixes both choices for every call in advance, so a
 * statement about all scripts is a statement about every pattern of failures.
 *
 * Every instant is read through a Clock: Wrapping is the 32-bit counter of the
 * firmware, Unbounded is the ideal clock it is compared with.
 */
module SupervisorSpec {
  import opened Clock32

  // ---------- the driver ----------

  /** How one driver call ends; the outputs are those left behind by a refused call. */
  datatype DriverOutcome = DriverOutcome(ok: bool, ignition: bool, starter: bool)
  type DriverScript = nat -> DriverOutcome

  /** Physical outputs, and how many calls the driver has received. */
  datatype DriverState = DriverState(ignition: bool, starter: bool, calls: nat)

  datatype DriverCall = EnableIgnitionCall | EngageStarterCall | DisengageStarterCall | ReleaseCall | SecureCall

  function Drive(script: DriverScript, drv: DriverState, call: DriverCall): DriverState {
    var outcome := script(drv.calls);
    var calls := drv.calls + 1;
    if !outcome.ok then DriverState(outcome.ignition, outcome.starter, calls)
    else match call
      case EnableIgnitionCall => DriverState(true, drv.starter, calls)
      case EngageStarterCall => DriverState(drv.ignition, true, calls)
      case DisengageStarterCall => DriverState(drv.ignition, false, calls)
      case ReleaseCall => DriverState(false, false, calls)
      case SecureCall => DriverState(false, false, calls)
  }

  predicate Accepts(script: DriverScript, drv: DriverState) {
    script(drv.calls).ok
  }

  // ---------- the supervisor's state ----------

  datatype SupervisorFault =
    | NoSupervisorFault
    | InvalidConfiguration
    | InitializationFailure
    | ClockRegression
    | WatchdogExpired
    | HardwareInterlockLost
    | StarterTimeout
    | CommandSequence
    | DriverFailure
    | FeedbackUnavailable
    | FeedbackMismatch
    | SafingFailure

  datatype Feedback = Feedback(available: bool, ignitionActive: bool, starterActive: bool)

  datatype SafetyConfig = SafetyConfig(
    watchdogTimeoutMs: u32,
    maximumStarterActiveMs: u32,
    feedbackGraceMs: u32,
    requireFeedback: bool)
  {
    predicate Valid() {
      && watchdogTimeoutMs != 0 && watchdogTimeoutMs <= 5_000
      && maximumStarterActiveMs != 0 && maximumStarterActiveMs <= 10_000
      && feedbackGraceMs <= 1_000 && feedbackGraceMs <= watchdogTimeoutMs
    }
  }

  datatype Supervisor = Supervisor(
    fault: SupervisorFault,
    lastObservedMs: nat,
    lastHeartbeatMs: nat,
    starterEngagedAtMs: nat,
    lastOutputChangeMs: nat,
    initialized: bool,
    clockInitialized: bool,
    heartbeatInitialized: bool,
    hardwareStartPermitted: bool,
    ignitionCommanded: bool,
    starterCommanded: bool,
    ignitionFeedbackConfirmed: bool,
    safingFailed: bool)
  {
    predicate OutputsCommanded() {
      ignitionCommanded || starterCommanded
    }
  }

  const UNCONSTRUCTED := Supervisor(NoSupervisorFault, 0, 0, 0, 0, false, false, false, false, false, false, false, false)

  /** The supervisor together with the driver it owns. */
  datatype Guarded = Guarded(sup: Supervisor, drv: DriverState)

  // ---------- clocks ----------

  datatype Clock = Wrapping | Unbounded

  function Age(clock: Clock, now: nat, past: nat): int {
    match clock
    case Wrapping => (now - past) % TWO32
    case Unbounded => now - past
  }

  predicate Regressed(clock: Clock, now: nat, last: nat) {
    match clock
    case Wrapping => now != last && !(0 < (now - last) % TWO32 < HALF_RANGE)
    case Unbounded => now < last
  }

  // ---------- safing ----------

  predicate SafingSucceeds(script: DriverScript, drv: DriverState) {
    Accepts(script, drv) && Accepts(script, Drive(script, drv, DisengageStarterCall))
  }

  function SafeDownstream(script: DriverScript, g: Guarded): Guarded {
    Guarded(
      g.sup.(ignitionCommanded := false, starterCommanded := false, ignitionFeedbackConfirmed := false,
             lastOutputChangeMs := g.sup.lastObservedMs,
             safingFailed := g.sup.safingFailed || !SafingSucceeds(script, g.drv)),
      Drive(script, Drive(script, g.drv, DisengageStarterCall), SecureCall))
  }

  function Trip(script: DriverScript, g: Guarded, fault: SupervisorFault): Guarded {
    SafeDownstream(script, g.(sup := g.sup.(fault := if g.sup.fault.NoSupervisorFault? then fault else g.sup.fault)))
  }

  function Construct(config: SafetyConfig, script: DriverScript, drv: DriverState): Guarded {
    var secured := SafeDownstream(script, Guarded(UNCONSTRUCTED, drv));
    if !config.Valid() then secured.(sup := secured.sup.(fault := InvalidConfiguration))
    else if !SafingSucceeds(script, drv) then secured.(sup := secured.sup.(fault := InitializationFailure))
    else secured.(sup := secured.sup.(initialized := true))
  }

  // ---------- supervision calls ----------

  function Observe(g: Guarded, now: nat): Guarded {
    g.(sup := g.sup.(lastObservedMs := now, clockInitialized := true))
  }

  predicate ClockAccepted(clock: Clock, sup: Supervisor, now: nat) {
    !(sup.clockInitialized && Regressed(clock, now, sup.lastObservedMs))
  }

  /** Operational: initialized and without a latched fault. */
  predicate Operational(sup: Supervisor) {
    sup.initialized && sup.fault.NoSupervisorFault?
  }

  predicate HeartbeatTooOld(clock: Clock, config: SafetyConfig, sup: Supervisor, now: nat) {
    Age(clock, now, sup.lastHeartbeatMs) > config.watchdogTimeoutMs
  }

  predicate HeartbeatSucceeds(clock: Clock, config: SafetyConfig, sup: Supervisor, now: nat) {
    && ClockAccepted(clock, sup, now)
    && Operational(sup)
    && !(sup.heartbeatInitialized && sup.OutputsCommanded() && HeartbeatTooOld(clock, config, sup, now))
  }

  function Heartbeat(clock: Clock, config: SafetyConfig, script: DriverScript, g: Guarded, now: nat): Guarded {
    if !ClockAccepted(clock, g.sup, now) then Trip(script, g, ClockRegression)
    else
      var o := Observe(g, now);
      if !Operational(o.sup) then o
      else if !HeartbeatSucceeds(clock, config, g.sup, now) then Trip(script, o, WatchdogExpired)
      else o.(sup := o.sup.(lastHeartbeatMs := now, heartbeatInitialized := true))
  }

  predicate FeedbackAgrees(sup: Supervisor, feedback: Feedback) {
    feedback.ignitionActive == sup.ignitionCommanded && feedback.starterActive == sup.starterCommanded
  }

  predicate GraceElapsed(clock: Clock, config: SafetyConfig, sup: Supervisor, now: nat) {
    Age(clock, now, sup.lastOutputChangeMs) > config.feedbackGraceMs
  }

  /** What a poll of an operational supervisor objects to, in the order it looks. */
  function PollVerdict(clock: Clock, config: SafetyConfig, sup: Supervisor, now: nat,
                       permitted: bool, feedback: Feedback): SupervisorFault
  {
    if sup.OutputsCommanded() && !permitted then HardwareInterlockLost
    else if sup.OutputsCommanded() && (!sup.heartbeatInitialized || HeartbeatTooOld(clock, config, sup, now)) then
      WatchdogExpired
    else if sup.starterCommanded && Age(clock, now, sup.starterEngagedAtMs) > config.maximumStarterActiveMs then
      StarterTimeout
    else if GraceElapsed(clock, config, sup, now) && feedback.available && !FeedbackAgrees(sup, feedback) then
      FeedbackMismatch
    else if GraceElapsed(clock, config, sup, now) && config.requireFeedback && sup.OutputsCommanded() &&
            !feedback.available then
      FeedbackUnavailable
    else NoSupervisorFault
  }

  /** Agreeing feedback confirms the ignition as it is commanded. */
  function Confirm(g: Guarded, feedback: Feedback): Guarded {
    if feedback.available && FeedbackAgrees(g.sup, feedback) then
      g.(sup := g.sup.(ignitionFeedbackConfirmed := g.sup.ignitionCommanded))
    else g
  }

  function Permit(g: Guarded, permitted: bool): Guarded {
    g.(sup := g.sup.(hardwareStartPermitted := permitted))
  }

  function Poll(clock: Clock, config: SafetyConfig, script: DriverScript, g: Guarded, now: nat,
                permitted: bool, feedback: Feedback): Guarded
  {
    if !ClockAccepted(clock, g.sup, now) then Trip(script, g, ClockRegression)
    else if !Operational(g.sup) then Observe(g, now)
    else
      var verdict := PollVerdict(clock, config, g.sup, now, permitted, feedback);
      var p := Permit(Observe(g, now), permitted);
      if verdict.NoSupervisorFault? then Confirm(p, feedback) else Trip(script, p, verdict)
  }

  predicate FeedbackShowsIdle(config: SafetyConfig, feedback: Feedback) {
    if feedback.available then !feedback.ignitionActive && !feedback.starterActive else !config.requireFeedback
  }

  /** Why a reset is refused, if it is. */
  function ResetVerdict(config: SafetyConfig, script: DriverScript, drv: DriverState, feedback: Feedback): SupervisorFault {
    if !config.Valid() then InvalidConfiguration
    else if !SafingSucceeds(script, drv) then SafingFailure
    else if FeedbackShowsIdle(config, feedback) then NoSupervisorFault
    else if feedback.available then FeedbackMismatch
    else FeedbackUnavailable
  }

  predicate ResetSucceeds(clock: Clock, config: SafetyConfig, script: DriverScript, g: Guarded, now: nat, feedback: Feedback) {
    ClockAccepted(clock, g.sup, now) && ResetVerdict(config, script, g.drv, feedback).NoSupervisorFault?
  }

  function Rearm(g: Guarded, verdict: SupervisorFault): Guarded {
    if verdict.NoSupervisorFault? then
      g.(sup := g.sup.(fault := NoSupervisorFault, safingFailed := false, heartbeatInitialized := false,
                       hardwareStartPermitted := false, initialized := true))
    else g.(sup := g.sup.(fault := verdict))
  }

  function ResetFault(clock: Clock, config: SafetyConfig, script: DriverScript, g: Guarded, now: nat,
                      feedback: Feedback): Guarded
  {
    if !ClockAccepted(clock, g.sup, now) then Trip(script, g, ClockRegression)
    else Rearm(SafeDownstream(script, Observe(g, now)), ResetVerdict(config, script, g.drv, feedback))
  }

  // ---------- output commands ----------

  /** Why an energising command is refused, if it is; a latched fault refuses without tripping. */
  function EnergizeObjection(clock: Clock, config: SafetyConfig, sup: Supervisor): SupervisorFault {
    if !sup.initialized then InitializationFailure
    else if !sup.fault.NoSupervisorFault? then sup.fault
    else if !sup.clockInitialized || !sup.heartbeatInitialized then WatchdogExpired
    else if !sup.hardwareStartPermitted then HardwareInterlockLost
    else if HeartbeatTooOld(clock, config, sup, sup.lastObservedMs) then WatchdogExpired
    else NoSupervisorFault
  }

  predicate CanEnergize(clock: Clock, config: SafetyConfig, sup: Supervisor) {
    EnergizeObjection(clock, config, sup).NoSupervisorFault?
  }

  /** The state after a refused energising command. */
  function RefuseEnergize(clock: Clock, config: SafetyConfig, script: DriverScript, g: Guarded): Guarded {
    if g.sup.initialized && !g.sup.fault.NoSupervisorFault? then g
    else Trip(script, g, EnergizeObjection(clock, config, g.sup))
  }

  /** One of the five commands, and whether it is reported as done. */
  datatype Command = Enable | Engage | Disengage | Release | Secure

  predicate StarterMayEngage(config: SafetyConfig, sup: Supervisor) {
    && !sup.starterCommanded
    && sup.ignitionCommanded
    && (config.requireFeedback ==> sup.ignitionFeedbackConfirmed)
  }

  predicate CommandSucceeds(clock: Clock, config: SafetyConfig, script: DriverScript, g: Guarded, command: Command) {
    match command
    case Enable => CanEnergize(clock, config, g.sup) && Accepts(script, g.drv)
    case Engage => CanEnergize(clock, config, g.sup) && StarterMayEngage(config, g.sup) && Accepts(script, g.drv)
    case Disengage => Accepts(script, g.drv)
    case Release => CanEnergize(clock, config, g.sup) && !g.sup.starterCommanded && Accepts(script, g.drv)
    case Secure => SafingSucceeds(script, g.drv)
  }

  function CallOf(command: Command): DriverCall {
    match command
    case Enable => EnableIgnitionCall
    case Engage => EngageStarterCall
    case Disengage => DisengageStarterCall
    case Release => ReleaseCall
    case Secure => SecureCall
  }

  /** The supervisor after a command that the driver carried out. */
  function Commanded(config: SafetyConfig, sup: Supervisor, command: Command): Supervisor {
    var changed := sup.(lastOutputChangeMs := sup.lastObservedMs);
    match command
    case Enable => changed.(ignitionCommanded := true, ignitionFeedbackConfirmed := !config.requireFeedback)
    case Engage => changed.(starterCommanded := true, starterEngagedAtMs := sup.lastObservedMs)
    case Disengage => changed.(starterCommanded := false)
    case Release | Secure =>
      changed.(ignitionCommanded := false, starterCommanded := false, ignitionFeedbackConfirmed := false)
  }

  function Perform(clock: Clock, config: SafetyConfig, script: DriverScript, g: Guarded, command: Command): Guarded {
    if command.Secure? then
      var secured := SafeDownstream(script, g);
      if SafingSucceeds(script, g.drv) then secured
      else secured.(sup := secured.sup.(fault := SafingFailure))
    else if !command.Disengage? && !CanEnergize(clock, config, g.sup) then RefuseEnergize(clock, config, script, g)
    else if (command.Engage? && !StarterMayEngage(config, g.sup)) || (command.Release? && g.sup.starterCommanded) then
      Trip(script, g, CommandSequence)
    else
      var driven := Drive(script, g.drv, CallOf(command));
      if Accepts(script, g.drv) then Guarded(Commanded(config, g.sup, command), driven)
      else Trip(script, g.(drv := driven), DriverFailure)
  }

  // ---------- every input the supervisor can receive ----------

  datatype Input =
    | HeartbeatInput(nowMs: nat)
    | PollInput(nowMs: nat, permitted: bool, feedback: Feedback)
    | ResetInput(nowMs: nat, feedback: Feedback)
    | CommandInput(command: Command)

  function Step(clock: Clock, config: SafetyConfig, script: DriverScript, g: Guarded, input: Input): Guarded {
    match input
    case HeartbeatInput(now) => Heartbeat(clock, config, script, g, now)
    case PollInput(now, permitted, feedback) => Poll(clock, config, script, g, now, permitted, feedback)
    case ResetInput(now, feedback) => ResetFault(clock, config, script, g, now, feedback)
    case CommandInput(command) => Perform(clock, config, script, g, command)
  }

  /** The state after n inputs, from construction over any physical outputs. */
  function GuardedAt(clock: Clock, config: SafetyConfig, script: DriverScript, physical: DriverState,
                     run: seq<Input>, n: nat): Guarded
    requires n <= |run|
  {
    if n == 0 then Construct(config, script, physical)
    else Step(clock, config, script, GuardedAt(clock, config, script, physical, run, n - 1), run[n - 1])
  }
}

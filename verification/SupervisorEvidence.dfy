/**
 * What stands behind a command that energises an output: the polls, heartbeats
 * and feedback of the run before it; and what each input of the supervisor
 * decides, stated on the signals it is given.
 */
module SupervisorEvidence {
  import opened Clock32
  import opened SupervisorRuns
  import opened SupervisorSpec

  // ---------- what a poll decides ----------

  /** The supervisor is up, without a fault, and the instant is not before the last one. */
  predicate Listening(clock: Clock, sup: Supervisor, nowMs: nat) {
    && sup.initialized && sup.fault == NoSupervisorFault
    && (sup.clockInitialized ==>
          match clock
          case Unbounded => sup.lastObservedMs <= nowMs
          case Wrapping => nowMs == sup.lastObservedMs || 0 < (nowMs - sup.lastObservedMs) % TWO32 < HALF_RANGE)
  }

  function Elapsed(clock: Clock, nowMs: nat, pastMs: nat): int {
    match clock
    case Unbounded => nowMs - pastMs
    case Wrapping => (nowMs - pastMs) % TWO32
  }

  /** What a poll objects to, in order of precedence. */
  function Objections(clock: Clock, c: SafetyConfig, sup: Supervisor, nowMs: nat, permitted: bool, feedback: Feedback): seq<(bool, SupervisorFault)> {
    var commanded := sup.ignitionCommanded || sup.starterCommanded;
    var settled := Elapsed(clock, nowMs, sup.lastOutputChangeMs) > c.feedbackGraceMs;
    [(commanded && !permitted, HardwareInterlockLost),
     (commanded && !sup.heartbeatInitialized, WatchdogExpired),
     (commanded && Elapsed(clock, nowMs, sup.lastHeartbeatMs) > c.watchdogTimeoutMs, WatchdogExpired),
     (sup.starterCommanded && Elapsed(clock, nowMs, sup.starterEngagedAtMs) > c.maximumStarterActiveMs, StarterTimeout),
     (settled && feedback.available && feedback.ignitionActive != sup.ignitionCommanded, FeedbackMismatch),
     (settled && feedback.available && feedback.starterActive != sup.starterCommanded, FeedbackMismatch),
     (settled && c.requireFeedback && commanded && !feedback.available, FeedbackUnavailable)]
  }

  /** The code of the first objection that holds. */
  function FirstOf(objections: seq<(bool, SupervisorFault)>): SupervisorFault {
    if objections == [] then NoSupervisorFault
    else if objections[0].0 then objections[0].1
    else FirstOf(objections[1..])
  }

  lemma FirstOfSeven(o: seq<(bool, SupervisorFault)>)
    requires |o| == 7
    ensures FirstOf(o) == if o[0].0 then o[0].1 else if o[1].0 then o[1].1 else if o[2].0 then o[2].1 else if o[3].0 then o[3].1
                          else if o[4].0 then o[4].1 else if o[5].0 then o[5].1 else if o[6].0 then o[6].1 else NoSupervisorFault
  {
    assert o[1..][1..][1..][1..][1..][1..][1..] == [];
    assert FirstOf(o[1..][1..][1..][1..][1..][1..]) == if o[6].0 then o[6].1 else NoSupervisorFault;
    assert FirstOf(o[1..][1..][1..][1..][1..]) == if o[5].0 then o[5].1 else FirstOf(o[1..][1..][1..][1..][1..][1..]);
    assert FirstOf(o[1..][1..][1..][1..]) == if o[4].0 then o[4].1 else FirstOf(o[1..][1..][1..][1..][1..]);
    assert FirstOf(o[1..][1..][1..]) == if o[3].0 then o[3].1 else FirstOf(o[1..][1..][1..][1..]);
    assert FirstOf(o[1..][1..]) == if o[2].0 then o[2].1 else FirstOf(o[1..][1..][1..]);
    assert FirstOf(o[1..]) == if o[1].0 then o[1].1 else FirstOf(o[1..][1..]);
  }

  /** Nothing is commanded, and the driver was told twice to let go; a refusal of either call is remembered. */
  predicate SafedFrom(script: DriverScript, g: Guarded, after: Guarded) {
    && !after.sup.ignitionCommanded && !after.sup.starterCommanded && !after.sup.ignitionFeedbackConfirmed
    && after.drv.calls == g.drv.calls + 2
    && (after.sup.safingFailed <==> g.sup.safingFailed || !script(g.drv.calls).ok || !script(g.drv.calls + 1).ok)
    && (script(g.drv.calls + 1).ok ==> !after.drv.ignition && !after.drv.starter)
  }

  lemma TripSafes(script: DriverScript, g: Guarded, fault: SupervisorFault)
    ensures var after := Trip(script, g, fault);
            && SafedFrom(script, g, after)
            && after.sup.fault == (if g.sup.fault == NoSupervisorFault then fault else g.sup.fault)
            && after.sup.lastObservedMs == g.sup.lastObservedMs && after.sup.clockInitialized == g.sup.clockInitialized
            && after.sup.hardwareStartPermitted == g.sup.hardwareStartPermitted && after.sup.initialized == g.sup.initialized
            && after.sup.heartbeatInitialized == g.sup.heartbeatInitialized && after.sup.lastHeartbeatMs == g.sup.lastHeartbeatMs
  {
  }

  lemma SafingSafes(script: DriverScript, g: Guarded)
    ensures var after := SafeDownstream(script, g);
            && SafedFrom(script, g, after) && after.sup.fault == g.sup.fault
            && after.sup.hardwareStartPermitted == g.sup.hardwareStartPermitted && after.sup.initialized == g.sup.initialized
            && after.sup.heartbeatInitialized == g.sup.heartbeatInitialized && after.sup.lastHeartbeatMs == g.sup.lastHeartbeatMs
    ensures SafingSucceeds(script, g.drv) <==> script(g.drv.calls).ok && script(g.drv.calls + 1).ok
  {
  }

  lemma ListeningIs(clock: Clock, sup: Supervisor, nowMs: nat)
    ensures Listening(clock, sup, nowMs) <==> Operational(sup) && ClockAccepted(clock, sup, nowMs)
  {
  }

  lemma ElapsedIs(clock: Clock, nowMs: nat, pastMs: nat)
    ensures Elapsed(clock, nowMs, pastMs) == Age(clock, nowMs, pastMs)
  {
  }

  lemma VerdictIs(clock: Clock, c: SafetyConfig, sup: Supervisor, nowMs: nat, permitted: bool, feedback: Feedback)
    ensures PollVerdict(clock, c, sup, nowMs, permitted, feedback) == FirstOf(Objections(clock, c, sup, nowMs, permitted, feedback))
  {
    FirstOfSeven(Objections(clock, c, sup, nowMs, permitted, feedback));
    ElapsedIs(clock, nowMs, sup.lastHeartbeatMs);
    ElapsedIs(clock, nowMs, sup.starterEngagedAtMs);
    ElapsedIs(clock, nowMs, sup.lastOutputChangeMs);
    hide FirstOf;
    hide Elapsed;
    hide Age;
  }

  /**
   * A poll heard by a supervisor without a fault latches exactly the first
   * objection. Without one it leaves the outputs as commanded and remembers the
   * permission, and confirms the ignition only on feedback that is available
   * and agrees with both commands.
   */
  lemma PollDecides(clock: Clock, c: SafetyConfig, script: DriverScript, g: Guarded, nowMs: nat, permitted: bool, feedback: Feedback)
    requires Listening(clock, g.sup, nowMs)
    ensures var after := Poll(clock, c, script, g, nowMs, permitted, feedback);
            var fault := FirstOf(Objections(clock, c, g.sup, nowMs, permitted, feedback));
            && after.sup.fault == fault
            && after.sup.lastObservedMs == nowMs && after.sup.clockInitialized
            && (fault == NoSupervisorFault ==>
                  && after.drv == g.drv && after.sup.hardwareStartPermitted == permitted
                  && after.sup == g.sup.(lastObservedMs := nowMs, clockInitialized := true, hardwareStartPermitted := permitted,
                                         ignitionFeedbackConfirmed := after.sup.ignitionFeedbackConfirmed)
                  && after.sup.ignitionFeedbackConfirmed
                     == if feedback.available && feedback.ignitionActive == g.sup.ignitionCommanded
                           && feedback.starterActive == g.sup.starterCommanded
                        then g.sup.ignitionCommanded else g.sup.ignitionFeedbackConfirmed)
            && (fault != NoSupervisorFault ==> SafedFrom(script, g, after))
  {
    ListeningIs(clock, g.sup, nowMs);
    VerdictIs(clock, c, g.sup, nowMs, permitted, feedback);
    TripSafes(script, Permit(Observe(g, nowMs), permitted), PollVerdict(clock, c, g.sup, nowMs, permitted, feedback));
    hide Listening;
    hide ClockAccepted;
    hide Objections;
    hide PollVerdict;
    hide FirstOf;
    hide Trip;
  }

  /** The instant lies before the last one observed. */
  predicate RunsBack(clock: Clock, sup: Supervisor, nowMs: nat) {
    && sup.clockInitialized
    && match clock
       case Unbounded => nowMs < sup.lastObservedMs
       case Wrapping => (nowMs - sup.lastObservedMs) % TWO32 >= HALF_RANGE
  }

  lemma RunsBackIs(clock: Clock, sup: Supervisor, nowMs: nat)
    requires clock == Wrapping ==> nowMs < TWO32 && sup.lastObservedMs < TWO32
    ensures RunsBack(clock, sup, nowMs) <==> !ClockAccepted(clock, sup, nowMs)
  {
  }

  /** A clock running back makes the outputs safe and latches; an input that finds a fault only notes the time. */
  predicate Unheard(clock: Clock, script: DriverScript, g: Guarded, nowMs: nat, after: Guarded) {
    if RunsBack(clock, g.sup, nowMs) then
      && SafedFrom(script, g, after) && after.sup.lastObservedMs == g.sup.lastObservedMs
      && after.sup.fault == if g.sup.fault == NoSupervisorFault then ClockRegression else g.sup.fault
    else after == g.(sup := g.sup.(lastObservedMs := nowMs, clockInitialized := true))
  }

  lemma PollUnheard(clock: Clock, c: SafetyConfig, script: DriverScript, g: Guarded, nowMs: nat, permitted: bool, feedback: Feedback)
    requires !Listening(clock, g.sup, nowMs) && (clock == Wrapping ==> nowMs < TWO32 && g.sup.lastObservedMs < TWO32)
    ensures Unheard(clock, script, g, nowMs, Poll(clock, c, script, g, nowMs, permitted, feedback))
  {
    ListeningIs(clock, g.sup, nowMs);
    RunsBackIs(clock, g.sup, nowMs);
    TripSafes(script, g, ClockRegression);
    hide Listening;
    hide RunsBack;
    hide ClockAccepted;
    hide PollVerdict;
    hide Trip;
  }

  // ---------- what a heartbeat decides ----------

  /** A heartbeat heard in time is the last one; one that finds outputs commanded under an old one latches. */
  lemma HeartbeatDecides(clock: Clock, c: SafetyConfig, script: DriverScript, g: Guarded, nowMs: nat)
    requires Listening(clock, g.sup, nowMs)
    ensures var after := Heartbeat(clock, c, script, g, nowMs);
            var late := (g.sup.ignitionCommanded || g.sup.starterCommanded) && g.sup.heartbeatInitialized
                        && Elapsed(clock, nowMs, g.sup.lastHeartbeatMs) > c.watchdogTimeoutMs;
            && (HeartbeatSucceeds(clock, c, g.sup, nowMs) <==> !late)
            && if late then after.sup.fault == WatchdogExpired && SafedFrom(script, g, after)
            else
              && after.drv == g.drv
              && after.sup == g.sup.(lastObservedMs := nowMs, clockInitialized := true, lastHeartbeatMs := nowMs, heartbeatInitialized := true)
  {
    ListeningIs(clock, g.sup, nowMs);
    ElapsedIs(clock, nowMs, g.sup.lastHeartbeatMs);
    TripSafes(script, Observe(g, nowMs), WatchdogExpired);
    hide Listening;
    hide ClockAccepted;
    hide Elapsed;
    hide Age;
    hide Trip;
  }

  lemma HeartbeatUnheard(clock: Clock, c: SafetyConfig, script: DriverScript, g: Guarded, nowMs: nat)
    requires !Listening(clock, g.sup, nowMs) && (clock == Wrapping ==> nowMs < TWO32 && g.sup.lastObservedMs < TWO32)
    ensures Unheard(clock, script, g, nowMs, Heartbeat(clock, c, script, g, nowMs))
    ensures !HeartbeatSucceeds(clock, c, g.sup, nowMs)
  {
    ListeningIs(clock, g.sup, nowMs);
    RunsBackIs(clock, g.sup, nowMs);
    TripSafes(script, g, ClockRegression);
    hide Listening;
    hide RunsBack;
    hide ClockAccepted;
    hide HeartbeatTooOld;
    hide Trip;
  }

  // ---------- what construction and a reset decide ----------

  /** The watchdog within five seconds, the starter within ten, the grace within one and within the watchdog. */
  predicate WithinLimits(c: SafetyConfig) {
    && 1 <= c.watchdogTimeoutMs <= 5_000
    && 1 <= c.maximumStarterActiveMs <= 10_000
    && c.feedbackGraceMs <= 1_000
    && c.feedbackGraceMs <= c.watchdogTimeoutMs
  }

  lemma WithinLimitsIs(c: SafetyConfig)
    ensures c.Valid() <==> WithinLimits(c)
  {
  }

  /** A supervisor starts with its outputs made safe, and without a fault exactly within the limits and when that succeeded. */
  lemma ConstructDecides(c: SafetyConfig, script: DriverScript, physical: DriverState)
    ensures var after := Construct(c, script, physical);
            var secured := script(physical.calls).ok && script(physical.calls + 1).ok;
            && after.sup.fault
               == (if !WithinLimits(c) then InvalidConfiguration else if !secured then InitializationFailure else NoSupervisorFault)
            && (after.sup.initialized <==> WithinLimits(c) && secured)
            && !after.sup.ignitionCommanded && !after.sup.starterCommanded && !after.sup.clockInitialized
            && !after.sup.heartbeatInitialized && !after.sup.hardwareStartPermitted && !after.sup.ignitionFeedbackConfirmed
            && after.drv.calls == physical.calls + 2 && (after.sup.safingFailed <==> !secured)
  {
    WithinLimitsIs(c);
    hide SafetyConfig.Valid;
    hide WithinLimits;
  }

  /** A reset that is heard clears the fault exactly when nothing stands against it, and always secures the outputs. */
  lemma ResetDecides(clock: Clock, c: SafetyConfig, script: DriverScript, g: Guarded, nowMs: nat, feedback: Feedback)
    requires Listening(clock, g.sup.(initialized := true, fault := NoSupervisorFault), nowMs)
    ensures var after := ResetFault(clock, c, script, g, nowMs, feedback);
            var secured := script(g.drv.calls).ok && script(g.drv.calls + 1).ok;
            && !after.sup.ignitionCommanded && !after.sup.starterCommanded && after.drv.calls == g.drv.calls + 2
            && after.sup.fault
               == (if !WithinLimits(c) then InvalidConfiguration
                   else if !secured then SafingFailure
                   else if feedback.available && (feedback.ignitionActive || feedback.starterActive) then FeedbackMismatch
                   else if c.requireFeedback && !feedback.available then FeedbackUnavailable
                   else NoSupervisorFault)
            && (after.sup.fault == NoSupervisorFault ==>
                  && after.sup.initialized && !after.sup.safingFailed
                  && !after.sup.heartbeatInitialized && !after.sup.hardwareStartPermitted
                  && !after.drv.ignition && !after.drv.starter)
            && (after.sup.fault != NoSupervisorFault ==> SafedFrom(script, g, after))
  {
    ListeningIs(clock, g.sup.(initialized := true, fault := NoSupervisorFault), nowMs);
    SafingSafes(script, Observe(g, nowMs));
    WithinLimitsIs(c);
    hide WithinLimits;
    hide Listening;
    hide SafingSucceeds;
    hide SafeDownstream;
    hide SafetyConfig.Valid;
  }

  // ---------- what a command decides ----------

  /** Why an energising or releasing command is refused, in order of precedence, before the driver is asked. */
  function Refusals(clock: Clock, c: SafetyConfig, sup: Supervisor, command: Command): seq<(bool, SupervisorFault)> {
    [(!sup.initialized, InitializationFailure),
     (!sup.clockInitialized, WatchdogExpired),
     (!sup.heartbeatInitialized, WatchdogExpired),
     (!sup.hardwareStartPermitted, HardwareInterlockLost),
     (Elapsed(clock, sup.lastObservedMs, sup.lastHeartbeatMs) > c.watchdogTimeoutMs, WatchdogExpired),
     (command == Engage && (sup.starterCommanded || !sup.ignitionCommanded), CommandSequence),
     ((command == Engage && c.requireFeedback && !sup.ignitionFeedbackConfirmed)
      || (command == Release && sup.starterCommanded), CommandSequence)]
  }

  lemma {:induction false} ObjectionIs(clock: Clock, c: SafetyConfig, sup: Supervisor, command: Command)
    requires command == Enable || command == Engage || command == Release
    requires sup.fault == NoSupervisorFault
    ensures var refusal := FirstOf(Refusals(clock, c, sup, command));
            if !CanEnergize(clock, c, sup) then refusal == EnergizeObjection(clock, c, sup)
            else if (command == Engage && !StarterMayEngage(c, sup)) || (command == Release && sup.starterCommanded)
            then refusal == CommandSequence
            else refusal == NoSupervisorFault
  {
    FirstOfSeven(Refusals(clock, c, sup, command));
    ElapsedIs(clock, sup.lastObservedMs, sup.lastHeartbeatMs);
    hide Elapsed;
    hide Age;
    hide FirstOf;
  }

  /**
   * An energising or releasing command finds a fault and is refused without a
   * change, or latches exactly its first refusal, or the driver's; only then
   * does it command what it names.
   */
  lemma CommandDecides(clock: Clock, c: SafetyConfig, script: DriverScript, g: Guarded, command: Command)
    requires command == Enable || command == Engage || command == Release
    requires Sound(g) && g.sup.fault == NoSupervisorFault
    ensures var after := Perform(clock, c, script, g, command);
            var refusal := FirstOf(Refusals(clock, c, g.sup, command));
            && (CommandSucceeds(clock, c, script, g, command) <==> refusal == NoSupervisorFault && script(g.drv.calls).ok)
            && after.sup.fault
               == (if refusal != NoSupervisorFault then refusal
                   else if !script(g.drv.calls).ok then DriverFailure
                   else NoSupervisorFault)
            && (refusal != NoSupervisorFault ==> SafedFrom(script, g, after))
            && (after.sup.fault == NoSupervisorFault ==>
                  && after.sup.lastOutputChangeMs == g.sup.lastObservedMs && after.drv.calls == g.drv.calls + 1
                  && (command == Enable ==> after.sup.ignitionFeedbackConfirmed == !c.requireFeedback)
                  && (command == Engage ==> after.sup.starterEngagedAtMs == g.sup.lastObservedMs)
                  && after.drv.ignition == after.sup.ignitionCommanded == (command != Release)
                  && after.drv.starter == after.sup.starterCommanded == (command == Engage || (command == Enable && g.drv.starter))
                  && after.sup.hardwareStartPermitted && after.sup.heartbeatInitialized)
  {
    ObjectionIs(clock, c, g.sup, command);
    EnergizedIsSupervised(clock, c, g.sup);
    hide Elapsed;
    hide FirstOf;
    hide Refusals;
    hide Sound;
    hide Trip;
    hide EnergizeObjection;
    hide StarterMayEngage;
    hide CanEnergize;
    hide SupervisorSpec.Drive;
    if !CanEnergize(clock, c, g.sup) {
      TripSafes(script, g, EnergizeObjection(clock, c, g.sup));
      ObjectionIsFault(clock, c, g.sup);
    } else if (command == Engage && !StarterMayEngage(c, g.sup)) || (command == Release && g.sup.starterCommanded) {
      TripSafes(script, g, CommandSequence);
    } else if !Accepts(script, g.drv) {
      TripSafes(script, g.(drv := Drive(script, g.drv, CallOf(command))), DriverFailure);
    } else {
      DriveObeys(script, g, command);
    }
  }

  lemma DriveObeys(script: DriverScript, g: Guarded, command: Command)
    requires command == Enable || command == Engage || command == Release
    requires Sound(g) && g.sup.fault == NoSupervisorFault && script(g.drv.calls).ok && (command == Engage ==> g.sup.ignitionCommanded)
    ensures var drv := Drive(script, g.drv, CallOf(command));
            && drv.calls == g.drv.calls + 1 && drv.ignition == (command != Release)
            && drv.starter == (command == Engage || (command == Enable && g.drv.starter))
    ensures g.drv.ignition == g.sup.ignitionCommanded && g.drv.starter == g.sup.starterCommanded
  {
  }

  lemma ObjectionIsFault(clock: Clock, c: SafetyConfig, sup: Supervisor)
    ensures CanEnergize(clock, c, sup) <==> EnergizeObjection(clock, c, sup) == NoSupervisorFault
  {
  }

  lemma EnergizedIsSupervised(clock: Clock, c: SafetyConfig, sup: Supervisor)
    requires sup.fault == NoSupervisorFault
    ensures CanEnergize(clock, c, sup) ==> sup.initialized && sup.hardwareStartPermitted && sup.heartbeatInitialized
    ensures !sup.initialized ==> !CanEnergize(clock, c, sup)
    ensures sup.initialized || EnergizeObjection(clock, c, sup) == InitializationFailure
  {
  }

  lemma FaultRefuses(clock: Clock, c: SafetyConfig, script: DriverScript, g: Guarded, command: Command)
    requires command == Enable || command == Engage || command == Release
    requires g.sup.initialized && g.sup.fault != NoSupervisorFault
    ensures !CommandSucceeds(clock, c, script, g, command) && Perform(clock, c, script, g, command) == g
  {
  }

  /** Letting go is never refused by the supervisor: the driver is always told, and a refusal of it latches. */
  lemma LettingGoDecides(clock: Clock, c: SafetyConfig, script: DriverScript, g: Guarded)
    requires g.sup.fault == NoSupervisorFault
    ensures var let := Perform(clock, c, script, g, Disengage);
            && let.sup.fault == (if script(g.drv.calls).ok then NoSupervisorFault else DriverFailure)
            && (script(g.drv.calls).ok ==>
                  && let.sup == g.sup.(starterCommanded := false, lastOutputChangeMs := g.sup.lastObservedMs)
                  && let.drv == DriverState(g.drv.ignition, false, g.drv.calls + 1))
    ensures var secured := Perform(clock, c, script, g, Secure);
            && SafedFrom(script, g, secured)
            && secured.sup.fault
               == (if script(g.drv.calls).ok && script(g.drv.calls + 1).ok then NoSupervisorFault else SafingFailure)
  {
    SafingSafes(script, g);
    TripSafes(script, g.(drv := Drive(script, g.drv, DisengageStarterCall)), DriverFailure);
    hide SafingSucceeds;
    hide SafeDownstream;
    hide Trip;
  }

  // ---------- the history behind an energising command ----------

  function At(clock: Clock, c: SafetyConfig, script: DriverScript, physical: DriverState, run: seq<Input>, n: nat): Supervisor
    requires n <= |run|
  {
    GuardedAt(clock, c, script, physical, run, n).sup
  }

  /** Input k is a poll that was heard and found nothing to object to. */
  predicate CleanPoll(clock: Clock, c: SafetyConfig, script: DriverScript, physical: DriverState, run: seq<Input>, k: nat)
    requires k < |run|
  {
    && run[k].PollInput?
    && Listening(clock, At(clock, c, script, physical, run, k), run[k].nowMs)
    && At(clock, c, script, physical, run, k + 1).fault == NoSupervisorFault
  }

  /** Input k is a poll whose feedback showed the ignition on as commanded and the starter as commanded, and the ignition was held since. */
  ghost predicate ConfirmedSince(clock: Clock, c: SafetyConfig, script: DriverScript, physical: DriverState, run: seq<Input>, k: nat, n: nat)
    requires k < n <= |run|
  {
    && CleanPoll(clock, c, script, physical, run, k)
    && run[k].feedback.available && run[k].feedback.ignitionActive
    && run[k].feedback.starterActive == At(clock, c, script, physical, run, k).starterCommanded
    && forall m :: k <= m <= n ==> At(clock, c, script, physical, run, m).ignitionCommanded
  }

  /** What no input but a poll, a heartbeat or a reset touches, and what becomes of the confirmation. */
  lemma PerformKeeps(clock: Clock, c: SafetyConfig, script: DriverScript, g: Guarded, command: Command)
    ensures var after := Perform(clock, c, script, g, command).sup;
            && after.hardwareStartPermitted == g.sup.hardwareStartPermitted
            && after.heartbeatInitialized == g.sup.heartbeatInitialized && after.lastHeartbeatMs == g.sup.lastHeartbeatMs
            && (after.ignitionFeedbackConfirmed && c.requireFeedback ==>
                  g.sup.ignitionFeedbackConfirmed && after.ignitionCommanded == g.sup.ignitionCommanded)
  {
    hide Trip;
    hide SafeDownstream;
    hide SafingSucceeds;
    hide SupervisorSpec.Drive;
    hide CanEnergize;
    hide EnergizeObjection;
    hide StarterMayEngage;
    hide Commanded;
    if command == Secure {
      SafingSafes(script, g);
    } else if command != Disengage && !CanEnergize(clock, c, g.sup) {
      TripSafes(script, g, EnergizeObjection(clock, c, g.sup));
    } else if (command == Engage && !StarterMayEngage(c, g.sup)) || (command == Release && g.sup.starterCommanded) {
      TripSafes(script, g, CommandSequence);
    } else if Accepts(script, g.drv) {
      CommandedKeeps(c, g.sup, command);
    } else {
      TripSafes(script, g.(drv := Drive(script, g.drv, CallOf(command))), DriverFailure);
    }
  }

  lemma CommandedKeeps(c: SafetyConfig, sup: Supervisor, command: Command)
    ensures var after := Commanded(c, sup, command);
            && after.hardwareStartPermitted == sup.hardwareStartPermitted
            && after.heartbeatInitialized == sup.heartbeatInitialized && after.lastHeartbeatMs == sup.lastHeartbeatMs
            && (after.ignitionFeedbackConfirmed && c.requireFeedback ==>
                  sup.ignitionFeedbackConfirmed && after.ignitionCommanded == sup.ignitionCommanded)
  {
    match command
    case Enable =>
    case Engage =>
    case Disengage =>
    case Release =>
    case Secure =>
  }

  lemma PollKeeps(clock: Clock, c: SafetyConfig, script: DriverScript, g: Guarded, nowMs: nat, permitted: bool, feedback: Feedback)
    ensures var after, heard := Poll(clock, c, script, g, nowMs, permitted, feedback).sup, Listening(clock, g.sup, nowMs);
            && (after.hardwareStartPermitted ==> if heard then permitted else g.sup.hardwareStartPermitted)
            && after.heartbeatInitialized == g.sup.heartbeatInitialized && after.lastHeartbeatMs == g.sup.lastHeartbeatMs
            && (after.ignitionFeedbackConfirmed ==>
                  || (g.sup.ignitionFeedbackConfirmed && after.ignitionCommanded == g.sup.ignitionCommanded)
                  || (heard && after.fault == NoSupervisorFault && feedback.available && feedback.ignitionActive
                      && feedback.starterActive == g.sup.starterCommanded && g.sup.ignitionCommanded && after.ignitionCommanded))
  {
    ListeningIs(clock, g.sup, nowMs);
    TripSafes(script, g, ClockRegression);
    TripSafes(script, Permit(Observe(g, nowMs), permitted), PollVerdict(clock, c, g.sup, nowMs, permitted, feedback));
    hide Listening;
    hide ClockAccepted;
    hide PollVerdict;
    hide Trip;
  }

  lemma HeartbeatKeeps(clock: Clock, c: SafetyConfig, script: DriverScript, g: Guarded, nowMs: nat)
    ensures var after := Heartbeat(clock, c, script, g, nowMs).sup;
            && after.hardwareStartPermitted == g.sup.hardwareStartPermitted
            && (after.heartbeatInitialized ==>
                  || (g.sup.heartbeatInitialized && after.lastHeartbeatMs == g.sup.lastHeartbeatMs)
                  || (nowMs == after.lastHeartbeatMs && Listening(clock, g.sup, nowMs)))
            && (after.ignitionFeedbackConfirmed ==>
                  g.sup.ignitionFeedbackConfirmed && after.ignitionCommanded == g.sup.ignitionCommanded)
  {
    ListeningIs(clock, g.sup, nowMs);
    TripSafes(script, g, ClockRegression);
    TripSafes(script, Observe(g, nowMs), WatchdogExpired);
    hide Listening;
    hide ClockAccepted;
    hide HeartbeatTooOld;
    hide Trip;
  }

  lemma ResetKeeps(clock: Clock, c: SafetyConfig, script: DriverScript, g: Guarded, nowMs: nat, feedback: Feedback)
    ensures var after := ResetFault(clock, c, script, g, nowMs, feedback).sup;
            && !after.ignitionFeedbackConfirmed
            && (after.hardwareStartPermitted ==> g.sup.hardwareStartPermitted)
            && (after.heartbeatInitialized ==> g.sup.heartbeatInitialized && after.lastHeartbeatMs == g.sup.lastHeartbeatMs)
  {
    TripSafes(script, g, ClockRegression);
    SafingSafes(script, Observe(g, nowMs));
    hide ClockAccepted;
    hide ResetVerdict;
    hide Trip;
    hide SafeDownstream;
  }

  /** How the confirmation can hold after an input: it held before, or the input is the poll that confirms. */
  lemma FlagStep(clock: Clock, c: SafetyConfig, script: DriverScript, g: Guarded, input: Input)
    requires c.requireFeedback && (g.sup.ignitionFeedbackConfirmed ==> g.sup.ignitionCommanded)
    requires Step(clock, c, script, g, input).sup.ignitionFeedbackConfirmed
    ensures g.sup.ignitionCommanded && Step(clock, c, script, g, input).sup.ignitionCommanded
    ensures g.sup.ignitionFeedbackConfirmed
            || (&& input.PollInput? && Listening(clock, g.sup, input.nowMs)
                && Step(clock, c, script, g, input).sup.fault == NoSupervisorFault
                && input.feedback.available && input.feedback.ignitionActive
                && input.feedback.starterActive == g.sup.starterCommanded)
  {
    hide Listening;
    hide Perform;
    hide Poll;
    hide Heartbeat;
    hide ResetFault;
    match input
    case HeartbeatInput(now) => HeartbeatKeeps(clock, c, script, g, now);
    case PollInput(now, permitted, feedback) => PollKeeps(clock, c, script, g, now, permitted, feedback);
    case ResetInput(now, feedback) => ResetKeeps(clock, c, script, g, now, feedback);
    case CommandInput(command) => PerformKeeps(clock, c, script, g, command);
  }

  /** The confirmation is never set by feedback that is missing or disagrees. */
  lemma NeverConfirmsOnDisagreement(clock: Clock, c: SafetyConfig, script: DriverScript, g: Guarded, nowMs: nat, permitted: bool, feedback: Feedback)
    requires !feedback.available || feedback.ignitionActive != g.sup.ignitionCommanded || feedback.starterActive != g.sup.starterCommanded
    ensures Poll(clock, c, script, g, nowMs, permitted, feedback).sup.ignitionFeedbackConfirmed ==> g.sup.ignitionFeedbackConfirmed
  {
    hide SupervisorSpec.Drive;
    hide PollVerdict;
  }

  lemma {:induction false} FlagIsCommanded(clock: Clock, c: SafetyConfig, script: DriverScript, physical: DriverState, run: seq<Input>, n: nat)
    requires n <= |run| && c.requireFeedback
    ensures var sup := At(clock, c, script, physical, run, n); sup.ignitionFeedbackConfirmed ==> sup.ignitionCommanded
  {
    hide Step;
    if n == 0 {
      hide SupervisorSpec.Drive;
    } else {
      FlagIsCommanded(clock, c, script, physical, run, n - 1);
      if At(clock, c, script, physical, run, n).ignitionFeedbackConfirmed {
        FlagStep(clock, c, script, GuardedAt(clock, c, script, physical, run, n - 1), run[n - 1]);
      }
    }
  }

  lemma NotConfirmedAtStart(clock: Clock, c: SafetyConfig, script: DriverScript, physical: DriverState, run: seq<Input>)
    ensures !At(clock, c, script, physical, run, 0).ignitionFeedbackConfirmed
  {
    hide SupervisorSpec.Drive;
  }

  lemma {:induction false} FlagWasConfirmed(clock: Clock, c: SafetyConfig, script: DriverScript, physical: DriverState, run: seq<Input>, n: nat)
    returns (k: nat)
    requires n <= |run| && c.requireFeedback && At(clock, c, script, physical, run, n).ignitionFeedbackConfirmed
    ensures k < n && ConfirmedSince(clock, c, script, physical, run, k, n)
  {
    hide Step;
    hide Listening;
    hide Construct;
    NotConfirmedAtStart(clock, c, script, physical, run);
    FlagIsCommanded(clock, c, script, physical, run, n - 1);
    FlagStep(clock, c, script, GuardedAt(clock, c, script, physical, run, n - 1), run[n - 1]);
    if At(clock, c, script, physical, run, n - 1).ignitionFeedbackConfirmed {
      k := FlagWasConfirmed(clock, c, script, physical, run, n - 1);
    } else {
      k := n - 1;
    }
  }

  /**
   * Where feedback is required, the starter is engaged only after a poll whose
   * feedback showed the ignition on and the starter as commanded, with the
   * ignition commanded ever since.
   */
  lemma EngageWasConfirmed(clock: Clock, c: SafetyConfig, script: DriverScript, physical: DriverState, run: seq<Input>, n: nat)
    returns (k: nat)
    requires n < |run| && run[n] == CommandInput(Engage) && c.requireFeedback
    requires CommandSucceeds(clock, c, script, GuardedAt(clock, c, script, physical, run, n), Engage)
    ensures k < n && ConfirmedSince(clock, c, script, physical, run, k, n)
  {
    EnergizingNeedsEvidence(clock, c, script, GuardedAt(clock, c, script, physical, run, n), Engage);
    hide CommandSucceeds;
    hide GuardedAt;
    k := FlagWasConfirmed(clock, c, script, physical, run, n);
  }

  // ---------- permission and heartbeat ----------

  /** Input k is a poll that permits the start, and none since withdrew it. */
  ghost predicate PermittedSince(clock: Clock, c: SafetyConfig, script: DriverScript, physical: DriverState, run: seq<Input>, k: nat, n: nat)
    requires k < n <= |run|
  {
    && run[k].PollInput? && run[k].permitted && Listening(clock, At(clock, c, script, physical, run, k), run[k].nowMs)
    && forall m :: k < m < n && run[m].PollInput? && Listening(clock, At(clock, c, script, physical, run, m), run[m].nowMs) ==>
         run[m].permitted
  }

  lemma PermissionStep(clock: Clock, c: SafetyConfig, script: DriverScript, g: Guarded, input: Input)
    requires Step(clock, c, script, g, input).sup.hardwareStartPermitted
    ensures if input.PollInput? && Listening(clock, g.sup, input.nowMs) then input.permitted else g.sup.hardwareStartPermitted
  {
    hide Listening;
    hide Perform;
    hide Poll;
    hide Heartbeat;
    hide ResetFault;
    match input
    case HeartbeatInput(now) => HeartbeatKeeps(clock, c, script, g, now);
    case PollInput(now, permitted, feedback) => PollKeeps(clock, c, script, g, now, permitted, feedback);
    case ResetInput(now, feedback) => ResetKeeps(clock, c, script, g, now, feedback);
    case CommandInput(command) => PerformKeeps(clock, c, script, g, command);
  }

  lemma NotPermittedAtStart(clock: Clock, c: SafetyConfig, script: DriverScript, physical: DriverState, run: seq<Input>)
    ensures !At(clock, c, script, physical, run, 0).hardwareStartPermitted && !At(clock, c, script, physical, run, 0).heartbeatInitialized
  {
    hide SupervisorSpec.Drive;
  }

  lemma {:induction false} WasPermitted(clock: Clock, c: SafetyConfig, script: DriverScript, physical: DriverState, run: seq<Input>, n: nat)
    returns (k: nat)
    requires n <= |run| && At(clock, c, script, physical, run, n).hardwareStartPermitted
    ensures k < n && PermittedSince(clock, c, script, physical, run, k, n)
  {
    hide Step;
    hide Listening;
    hide Construct;
    NotPermittedAtStart(clock, c, script, physical, run);
    var g, input := GuardedAt(clock, c, script, physical, run, n - 1), run[n - 1];
    PermissionStep(clock, c, script, g, input);
    if input.PollInput? && Listening(clock, g.sup, input.nowMs) {
      k := n - 1;
    } else {
      k := WasPermitted(clock, c, script, physical, run, n - 1);
    }
  }

  /** Input j is a heartbeat that was heard at the instant the supervisor remembers. */
  predicate HeardAt(clock: Clock, c: SafetyConfig, script: DriverScript, physical: DriverState, run: seq<Input>, j: nat, atMs: nat)
    requires j < |run|
  {
    run[j].HeartbeatInput? && run[j].nowMs == atMs && Listening(clock, At(clock, c, script, physical, run, j), atMs)
  }

  lemma HeartbeatStep(clock: Clock, c: SafetyConfig, script: DriverScript, g: Guarded, input: Input)
    requires Step(clock, c, script, g, input).sup.heartbeatInitialized
    ensures var after := Step(clock, c, script, g, input).sup;
            || (g.sup.heartbeatInitialized && after.lastHeartbeatMs == g.sup.lastHeartbeatMs)
            || (input.HeartbeatInput? && input.nowMs == after.lastHeartbeatMs && Listening(clock, g.sup, input.nowMs))
  {
    hide Listening;
    hide Perform;
    hide Poll;
    hide Heartbeat;
    hide ResetFault;
    match input
    case HeartbeatInput(now) => HeartbeatKeeps(clock, c, script, g, now);
    case PollInput(now, permitted, feedback) => PollKeeps(clock, c, script, g, now, permitted, feedback);
    case ResetInput(now, feedback) => ResetKeeps(clock, c, script, g, now, feedback);
    case CommandInput(command) => PerformKeeps(clock, c, script, g, command);
  }

  lemma {:induction false} WasHeard(clock: Clock, c: SafetyConfig, script: DriverScript, physical: DriverState, run: seq<Input>, n: nat)
    returns (j: nat)
    requires n <= |run| && At(clock, c, script, physical, run, n).heartbeatInitialized
    ensures j < n && HeardAt(clock, c, script, physical, run, j, At(clock, c, script, physical, run, n).lastHeartbeatMs)
  {
    hide Step;
    hide Listening;
    hide Construct;
    NotPermittedAtStart(clock, c, script, physical, run);
    var g, input := GuardedAt(clock, c, script, physical, run, n - 1), run[n - 1];
    HeartbeatStep(clock, c, script, g, input);
    if input.HeartbeatInput? && input.nowMs == At(clock, c, script, physical, run, n).lastHeartbeatMs && Listening(clock, g.sup, input.nowMs) {
      j := n - 1;
    } else {
      j := WasHeard(clock, c, script, physical, run, n - 1);
    }
  }

  /**
   * An output is energised only after a heartbeat heard no longer ago than the
   * watchdog allows, and a poll that permits it with none since withdrawing it.
   */
  lemma EnergizingWasSupervised(clock: Clock, c: SafetyConfig, script: DriverScript, physical: DriverState, run: seq<Input>, n: nat, command: Command)
    returns (j: nat, k: nat)
    requires n < |run| && run[n] == CommandInput(command) && (command == Enable || command == Engage)
    requires CommandSucceeds(clock, c, script, GuardedAt(clock, c, script, physical, run, n), command)
    ensures j < n && k < n
    ensures run[j].HeartbeatInput? && HeardAt(clock, c, script, physical, run, j, run[j].nowMs)
    ensures Elapsed(clock, At(clock, c, script, physical, run, n).lastObservedMs, run[j].nowMs) <= c.watchdogTimeoutMs
    ensures PermittedSince(clock, c, script, physical, run, k, n)
  {
    EnergizingNeedsEvidence(clock, c, script, GuardedAt(clock, c, script, physical, run, n), command);
    ElapsedIs(clock, At(clock, c, script, physical, run, n).lastObservedMs, At(clock, c, script, physical, run, n).lastHeartbeatMs);
    hide CommandSucceeds;
    hide GuardedAt;
    hide PermittedSince;
    hide Listening;
    hide Elapsed;
    hide Age;
    j := WasHeard(clock, c, script, physical, run, n);
    k := WasPermitted(clock, c, script, physical, run, n);
  }
}

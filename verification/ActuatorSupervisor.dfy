/**
 * The supervisor object and the driver object it guards. Each method changes
 * its fields step by step and is proved to leave exactly the state, and to
 * report exactly the verdict, that the specification names.
 */
module ActuatorSupervisor {
  import opened Clock32
  import opened SupervisorSpec

  /** A concrete output driver; its script says how each call ends. */
  class ActuatorDriver {
    const script: DriverScript
    var ignition: bool
    var starter: bool
    var calls: nat

    constructor (script: DriverScript, ignition: bool, starter: bool)
      ensures this.script == script && State() == DriverState(ignition, starter, 0)
    {
      this.script := script;
      this.ignition, this.starter, calls := ignition, starter, 0;
    }

    function State(): DriverState
      reads this
    {
      DriverState(ignition, starter, calls)
    }

    method EnableIgnition() returns (ok: bool)
      modifies this
      ensures ok == Accepts(script, old(State())) && State() == Drive(script, old(State()), EnableIgnitionCall)
    {
      ok := Answer();
      if ok {
        ignition := true;
      }
    }

    method EngageStarter() returns (ok: bool)
      modifies this
      ensures ok == Accepts(script, old(State())) && State() == Drive(script, old(State()), EngageStarterCall)
    {
      ok := Answer();
      if ok {
        starter := true;
      }
    }

    method DisengageStarter() returns (ok: bool)
      modifies this
      ensures ok == Accepts(script, old(State())) && State() == Drive(script, old(State()), DisengageStarterCall)
    {
      ok := Answer();
      if ok {
        starter := false;
      }
    }

    method ReleaseRemoteControl() returns (ok: bool)
      modifies this
      ensures ok == Accepts(script, old(State())) && State() == Drive(script, old(State()), ReleaseCall)
    {
      ok := Answer();
      if ok {
        ignition, starter := false, false;
      }
    }

    method SecureOutputs() returns (ok: bool)
      modifies this
      ensures ok == Accepts(script, old(State())) && State() == Drive(script, old(State()), SecureCall)
    {
      ok := Answer();
      if ok {
        ignition, starter := false, false;
      }
    }

    /** Takes the next outcome; a refusal leaves the outputs as the outcome says. */
    method Answer() returns (ok: bool)
      modifies this
      ensures ok == script(old(calls)).ok && calls == old(calls) + 1
      ensures ok ==> ignition == old(ignition) && starter == old(starter)
      ensures !ok ==> ignition == script(old(calls)).ignition && starter == script(old(calls)).starter
    {
      var outcome := script(calls);
      calls := calls + 1;
      ok := outcome.ok;
      if !ok {
        ignition, starter := outcome.ignition, outcome.starter;
      }
    }
  }

  class ActuatorSafetySupervisor {
    const driver: ActuatorDriver
    const config: SafetyConfig
    var fault: SupervisorFault
    var lastObservedMs: u32
    var lastHeartbeatMs: u32
    var starterEngagedAtMs: u32
    var lastOutputChangeMs: u32
    var initialized: bool
    var clockInitialized: bool
    var heartbeatInitialized: bool
    var hardwareStartPermitted: bool
    var ignitionCommanded: bool
    var starterCommanded: bool
    var ignitionFeedbackConfirmed: bool
    var safingFailed: bool

    function Own(): Supervisor
      reads this
    {
      Supervisor(fault, lastObservedMs, lastHeartbeatMs, starterEngagedAtMs, lastOutputChangeMs, initialized,
                 clockInitialized, heartbeatInitialized, hardwareStartPermitted, ignitionCommanded, starterCommanded,
                 ignitionFeedbackConfirmed, safingFailed)
    }

    function State(): Guarded
      reads this, driver
    {
      Guarded(Own(), driver.State())
    }

    constructor (driver: ActuatorDriver, config: SafetyConfig)
      modifies driver
      ensures this.driver == driver && this.config == config
      ensures State() == Construct(config, driver.script, old(driver.State()))
    {
      this.driver, this.config := driver, config;
      fault := NoSupervisorFault;
      lastObservedMs, lastHeartbeatMs, starterEngagedAtMs, lastOutputChangeMs := 0, 0, 0, 0;
      initialized, clockInitialized, heartbeatInitialized, hardwareStartPermitted := false, false, false, false;
      ignitionCommanded, starterCommanded, ignitionFeedbackConfirmed, safingFailed := false, false, false, false;
      new;
      if !config.Valid() {
        fault := InvalidConfiguration;
        var _ := SafeDownstream();
        return;
      }
      var secured := SafeDownstream();
      if !secured {
        fault := InitializationFailure;
        return;
      }
      initialized := true;
    }

    method Heartbeat(nowMs: u32) returns (ok: bool)
      modifies this, driver
      ensures ok == HeartbeatSucceeds(Wrapping, config, old(State()).sup, nowMs)
      ensures State() == SupervisorSpec.Heartbeat(Wrapping, config, driver.script, old(State()), nowMs)
    {
      ok := ObserveClock(nowMs);
      if !ok {
        return false;
      }
      if !initialized || fault != NoSupervisorFault {
        return false;
      }
      if heartbeatInitialized && (ignitionCommanded || starterCommanded) &&
         Sub(nowMs, lastHeartbeatMs) > config.watchdogTimeoutMs
      {
        Trip(WatchdogExpired);
        return false;
      }
      lastHeartbeatMs := nowMs;
      heartbeatInitialized := true;
      return true;
    }

    method Poll(nowMs: u32, permitted: bool, feedback: Feedback)
      modifies this, driver
      ensures State() == SupervisorSpec.Poll(Wrapping, config, driver.script, old(State()), nowMs, permitted, feedback)
    {
      hide SupervisorSpec.Trip;
      hide ClockAccepted;
      hide Drive;
      var accepted := ObserveClock(nowMs);
      if !accepted {
        return;
      }
      if !initialized || fault != NoSupervisorFault {
        return;
      }
      hardwareStartPermitted := permitted;
      var outputsActive := ignitionCommanded || starterCommanded;
      if outputsActive && !hardwareStartPermitted {
        Trip(HardwareInterlockLost);
        return;
      }
      if outputsActive &&
         (!heartbeatInitialized || Sub(nowMs, lastHeartbeatMs) > config.watchdogTimeoutMs)
      {
        Trip(WatchdogExpired);
        return;
      }
      if starterCommanded && Sub(nowMs, starterEngagedAtMs) > config.maximumStarterActiveMs {
        Trip(StarterTimeout);
        return;
      }
      var graceElapsed := Sub(nowMs, lastOutputChangeMs) > config.feedbackGraceMs;
      if graceElapsed && feedback.available &&
         (feedback.ignitionActive != ignitionCommanded || feedback.starterActive != starterCommanded)
      {
        Trip(FeedbackMismatch);
        return;
      }
      if graceElapsed && config.requireFeedback && outputsActive && !feedback.available {
        Trip(FeedbackUnavailable);
        return;
      }
      if feedback.available && feedback.ignitionActive == ignitionCommanded &&
         feedback.starterActive == starterCommanded
      {
        ignitionFeedbackConfirmed := ignitionCommanded;
      }
    }

    method ResetFault(nowMs: u32, feedback: Feedback) returns (ok: bool)
      modifies this, driver
      ensures ok == ResetSucceeds(Wrapping, config, driver.script, old(State()), nowMs, feedback)
      ensures State() == SupervisorSpec.ResetFault(Wrapping, config, driver.script, old(State()), nowMs, feedback)
    {
      hide SupervisorSpec.Trip;
      hide ClockAccepted;
      hide SafingSucceeds;
      hide Drive;
      hide SafetyConfig.Valid;
      ok := ObserveClock(nowMs);
      if !ok {
        return false;
      }
      if !config.Valid() {
        fault := InvalidConfiguration;
        var _ := SafeDownstream();
        return false;
      }
      var secured := SafeDownstream();
      if !secured {
        fault := SafingFailure;
        return false;
      }
      if (config.requireFeedback && !feedback.available) ||
         (feedback.available && (feedback.ignitionActive || feedback.starterActive))
      {
        fault := if feedback.available then FeedbackMismatch else FeedbackUnavailable;
        return false;
      }
      fault := NoSupervisorFault;
      safingFailed := false;
      heartbeatInitialized := false;
      hardwareStartPermitted := false;
      initialized := true;
      return true;
    }

    method EnableIgnition() returns (ok: bool)
      modifies this, driver
      ensures ok == CommandSucceeds(Wrapping, config, driver.script, old(State()), Enable)
      ensures State() == Perform(Wrapping, config, driver.script, old(State()), Enable)
    {
      ok := MayEnergize();
      if !ok {
        return false;
      }
      ok := driver.EnableIgnition();
      if !ok {
        Trip(DriverFailure);
        return false;
      }
      ignitionCommanded := true;
      ignitionFeedbackConfirmed := !config.requireFeedback;
      lastOutputChangeMs := lastObservedMs;
    }

    method EngageStarter() returns (ok: bool)
      modifies this, driver
      ensures ok == CommandSucceeds(Wrapping, config, driver.script, old(State()), Engage)
      ensures State() == Perform(Wrapping, config, driver.script, old(State()), Engage)
    {
      ok := MayEnergize();
      if !ok {
        return false;
      }
      if starterCommanded || !ignitionCommanded || (config.requireFeedback && !ignitionFeedbackConfirmed) {
        Trip(CommandSequence);
        return false;
      }
      ok := driver.EngageStarter();
      if !ok {
        Trip(DriverFailure);
        return false;
      }
      starterCommanded := true;
      starterEngagedAtMs := lastObservedMs;
      lastOutputChangeMs := lastObservedMs;
    }

    method DisengageStarter() returns (ok: bool)
      modifies this, driver
      ensures ok == CommandSucceeds(Wrapping, config, driver.script, old(State()), Disengage)
      ensures State() == Perform(Wrapping, config, driver.script, old(State()), Disengage)
    {
      ok := driver.DisengageStarter();
      if !ok {
        Trip(DriverFailure);
        return false;
      }
      starterCommanded := false;
      lastOutputChangeMs := lastObservedMs;
    }

    method ReleaseRemoteControl() returns (ok: bool)
      modifies this, driver
      ensures ok == CommandSucceeds(Wrapping, config, driver.script, old(State()), Release)
      ensures State() == Perform(Wrapping, config, driver.script, old(State()), Release)
    {
      ok := MayEnergize();
      if !ok {
        return false;
      }
      if starterCommanded {
        Trip(CommandSequence);
        return false;
      }
      ok := driver.ReleaseRemoteControl();
      if !ok {
        Trip(DriverFailure);
        return false;
      }
      ignitionCommanded := false;
      starterCommanded := false;
      ignitionFeedbackConfirmed := false;
      lastOutputChangeMs := lastObservedMs;
    }

    method SecureOutputs() returns (ok: bool)
      modifies this, driver
      ensures ok == CommandSucceeds(Wrapping, config, driver.script, old(State()), Secure)
      ensures State() == Perform(Wrapping, config, driver.script, old(State()), Secure)
    {
      ok := SafeDownstream();
      if !ok {
        fault := SafingFailure;
      }
    }

    method ObserveClock(nowMs: u32) returns (ok: bool)
      modifies this, driver
      ensures ok == ClockAccepted(Wrapping, old(State()).sup, nowMs)
      ensures State() == if ok then Observe(old(State()), nowMs)
                               else SupervisorSpec.Trip(driver.script, old(State()), ClockRegression)
    {
      if clockInitialized && nowMs != lastObservedMs && !StrictlyNewer(nowMs, lastObservedMs) {
        Trip(ClockRegression);
        return false;
      }
      lastObservedMs := nowMs;
      clockInitialized := true;
      return true;
    }

    method MayEnergize() returns (ok: bool)
      modifies this, driver
      ensures ok == CanEnergize(Wrapping, config, old(State()).sup)
      ensures State() == if ok then old(State())
                               else RefuseEnergize(Wrapping, config, driver.script, old(State()))
    {
      if !initialized {
        Trip(InitializationFailure);
        return false;
      }
      if fault != NoSupervisorFault {
        return false;
      }
      if !clockInitialized || !heartbeatInitialized {
        Trip(WatchdogExpired);
        return false;
      }
      if !hardwareStartPermitted {
        Trip(HardwareInterlockLost);
        return false;
      }
      if Sub(lastObservedMs, lastHeartbeatMs) > config.watchdogTimeoutMs {
        Trip(WatchdogExpired);
        return false;
      }
      return true;
    }

    method SafeDownstream() returns (ok: bool)
      modifies this, driver
      ensures ok == SafingSucceeds(driver.script, old(driver.State()))
      ensures State() == SupervisorSpec.SafeDownstream(driver.script, old(State()))
    {
      var starterReleased := driver.DisengageStarter();
      var outputsSecured := driver.SecureOutputs();
      ignitionCommanded := false;
      starterCommanded := false;
      ignitionFeedbackConfirmed := false;
      lastOutputChangeMs := lastObservedMs;
      if !starterReleased || !outputsSecured {
        safingFailed := true;
        return false;
      }
      return true;
    }

    method Trip(reason: SupervisorFault)
      modifies this, driver
      ensures State() == SupervisorSpec.Trip(driver.script, old(State()), reason)
    {
      if fault == NoSupervisorFault {
        fault := reason;
      }
      var _ := SafeDownstream();
    }
  }
}

/**
 * Whole runs of the supervisor on real time, when heartbeats and polls each
 * recur within 2^31 ms of a clock that never goes back.
 */
module SupervisorClockRuns {
  import opened Clock32
  import opened SupervisorClock
  import opened SupervisorSpec

  // ---------- the inputs of a run, in real time ----------

  /** Real time of the latest timed input among the first n; -1 if there is none. */
  function LastObservation(run: seq<Input>, n: nat): int
    requires n <= |run|
  {
    if n == 0 then -1 else if Timed(run[n - 1]) then run[n - 1].nowMs else LastObservation(run, n - 1)
  }

  function LastHeartbeat(run: seq<Input>, n: nat): int
    requires n <= |run|
  {
    if n == 0 then -1 else if run[n - 1].HeartbeatInput? then run[n - 1].nowMs else LastHeartbeat(run, n - 1)
  }

  function LastPoll(run: seq<Input>, n: nat): int
    requires n <= |run|
  {
    if n == 0 then -1 else if run[n - 1].PollInput? then run[n - 1].nowMs else LastPoll(run, n - 1)
  }

  /** Times of the latest observation, heartbeat and poll. */
  datatype History = History(observed: int, heartbeat: int, poll: int)

  function HistoryAt(run: seq<Input>, n: nat): History
    requires n <= |run|
  {
    History(LastObservation(run, n), LastHeartbeat(run, n), LastPoll(run, n))
  }

  predicate Spaced(h: History) {
    && h.heartbeat <= h.observed && h.poll <= h.observed
    && (h.heartbeat >= 0 ==> h.observed < h.heartbeat + HALF_RANGE)
    && (h.poll >= 0 ==> h.observed < h.poll + HALF_RANGE)
  }

  /** The next observation, at a time that keeps the recurrence. */
  predicate Recurs(h: History, now: nat) {
    && h.observed <= now
    && (h.observed >= 0 ==> now < h.observed + HALF_RANGE)
    && (h.heartbeat >= 0 ==> now < h.heartbeat + HALF_RANGE)
    && (h.poll >= 0 ==> now < h.poll + HALF_RANGE)
  }

  ghost predicate Recurring(run: seq<Input>) {
    forall k :: 0 <= k < |run| && Timed(run[k]) ==> Recurs(HistoryAt(run, k), run[k].nowMs)
  }

  lemma {:induction false} HistoryIsSpaced(run: seq<Input>, n: nat)
    requires Recurring(run) && n <= |run|
    ensures Spaced(HistoryAt(run, n))
  {
    if n > 0 {
      HistoryIsSpaced(run, n - 1);
    }
  }

  // ---------- what the recurrence keeps true of the stored instants ----------

  /** The stored instants are the real ones, and the running starter was polled in time. */
  predicate Stamped(config: SafetyConfig, h: History, s: Supervisor) {
    && (s.clockInitialized <==> h.observed >= 0)
    && s.lastObservedMs == (if h.observed >= 0 then h.observed else 0)
    && s.lastOutputChangeMs <= s.lastObservedMs
    && (Operational(s) ==> config.Valid())
    && (s.OutputsCommanded() ==> Operational(s) && s.heartbeatInitialized)
    && (Operational(s) && s.heartbeatInitialized ==> 0 <= h.heartbeat == s.lastHeartbeatMs)
    && (s.starterCommanded ==>
          0 <= h.poll <= s.starterEngagedAtMs + config.maximumStarterActiveMs &&
          s.starterEngagedAtMs <= s.lastObservedMs)
    && (Operational(s) && s.hardwareStartPermitted ==> 0 <= h.poll)
    && s.fault != ClockRegression
  }

  lemma StampedFits(config: SafetyConfig, h: History, s: Supervisor, now: nat)
    requires Spaced(h) && Stamped(config, h, s) && Recurs(h, now)
    ensures AgesFit(s, now) && s.lastOutputChangeMs <= now
    ensures ClockAccepted(Wrapping, s, now) && ClockAccepted(Unbounded, s, now)
  {
  }

  lemma CommandFits(config: SafetyConfig, h: History, s: Supervisor)
    requires Spaced(h) && Stamped(config, h, s)
    ensures AgesFit(s, s.lastObservedMs)
  {
  }

  lemma TripIsStamped(config: SafetyConfig, script: DriverScript, h: History, g: Guarded, reason: SupervisorFault)
    requires Stamped(config, h, g.sup) && reason != NoSupervisorFault && reason != ClockRegression
    ensures Stamped(config, h, Trip(script, g, reason).sup)
  {
  }

  lemma HeartbeatIsStamped(config: SafetyConfig, script: DriverScript, h: History, g: Guarded, now: nat)
    requires Spaced(h) && Stamped(config, h, g.sup) && Recurs(h, now)
    ensures Stamped(config, h.(observed := now, heartbeat := now), Heartbeat(Wrapping, config, script, g, now).sup)
  {
    StampedFits(config, h, g.sup, now);
    hide Regressed;
  }

  lemma {:induction false} PollIsStamped(config: SafetyConfig, script: DriverScript, h: History, g: Guarded, now: nat,
                      permitted: bool, feedback: Feedback)
    requires Spaced(h) && Stamped(config, h, g.sup) && Recurs(h, now)
    ensures var after := Poll(Wrapping, config, script, g, now, permitted, feedback).sup;
            && Stamped(config, h.(observed := now, poll := now), after)
            && (after.OutputsCommanded() ==>
                  0 <= now - h.heartbeat <= config.watchdogTimeoutMs && permitted &&
                  (after.starterCommanded ==> 0 <= now - after.starterEngagedAtMs <= config.maximumStarterActiveMs))
  {
    StampedFits(config, h, g.sup, now);
    hide Regressed;
    hide Trip;
    var verdict := PollVerdict(Wrapping, config, g.sup, now, permitted, feedback);
    if Operational(g.sup) && verdict != NoSupervisorFault {
      assert Stamped(config, h, g.sup);
      PollTripIsStamped(config, script, h, g, now, permitted, verdict);
    }
  }

  lemma PollTripIsStamped(config: SafetyConfig, script: DriverScript, h: History, g: Guarded, now: nat,
                          permitted: bool, reason: SupervisorFault)
    requires Stamped(config, h, g.sup) && reason != NoSupervisorFault && reason != ClockRegression && h.observed <= now
    ensures Stamped(config, h.(observed := now, poll := now), Trip(script, Permit(Observe(g, now), permitted), reason).sup)
    ensures !Trip(script, Permit(Observe(g, now), permitted), reason).sup.OutputsCommanded()
  {
  }

  lemma ResetIsStamped(config: SafetyConfig, script: DriverScript, h: History, g: Guarded, now: nat, feedback: Feedback)
    requires Spaced(h) && Stamped(config, h, g.sup) && Recurs(h, now)
    ensures Stamped(config, h.(observed := now), ResetFault(Wrapping, config, script, g, now, feedback).sup)
  {
    StampedFits(config, h, g.sup, now);
    hide Regressed;
    hide Drive;
  }

  lemma CommandIsStamped(config: SafetyConfig, script: DriverScript, h: History, g: Guarded, command: Command)
    requires Spaced(h) && Stamped(config, h, g.sup)
    ensures Stamped(config, h, Perform(Wrapping, config, script, g, command).sup)
  {
    hide Trip;
    hide Drive;
    TripIsStamped(config, script, h, g, CommandSequence);
    TripIsStamped(config, script, h, g.(drv := Drive(script, g.drv, CallOf(command))), DriverFailure);
    var objection := EnergizeObjection(Wrapping, config, g.sup);
    if objection != NoSupervisorFault {
      TripIsStamped(config, script, h, g, objection);
    }
  }

  lemma {:induction false} AlwaysStamped(config: SafetyConfig, script: DriverScript, physical: DriverState,
                                         run: seq<Input>, n: nat)
    requires Recurring(run) && n <= |run|
    ensures Stamped(config, HistoryAt(run, n), GuardedAt(Wrapping, config, script, physical, run, n).sup)
  {
    hide Heartbeat;
    hide Poll;
    hide ResetFault;
    hide Perform;
    if n > 0 {
      AlwaysStamped(config, script, physical, run, n - 1);
      HistoryIsSpaced(run, n - 1);
      var h, g := HistoryAt(run, n - 1), GuardedAt(Wrapping, config, script, physical, run, n - 1);
      hide Stamped;
      match run[n - 1]
      case HeartbeatInput(now) => HeartbeatIsStamped(config, script, h, g, now);
      case PollInput(now, permitted, feedback) => PollIsStamped(config, script, h, g, now, permitted, feedback);
      case ResetInput(now, feedback) => ResetIsStamped(config, script, h, g, now, feedback);
      case CommandInput(command) => CommandIsStamped(config, script, h, g, command);
    }
  }

  // ---------- main results ----------

  /** The inputs as the firmware receives them. */
  function WrapRun(run: seq<Input>): seq<Input> {
    seq(|run|, i requires 0 <= i < |run| => WrapInput(run[i]))
  }

  /** The firmware, fed wrapped instants, goes through the wrapped states of the real-time run. */
  lemma {:induction false} FirmwareFollowsRealRun(config: SafetyConfig, script: DriverScript, physical: DriverState,
                                                  run: seq<Input>, n: nat)
    requires Recurring(run) && n <= |run|
    ensures GuardedAt(Wrapping, config, script, physical, WrapRun(run), n)
         == WrapGuarded(GuardedAt(Wrapping, config, script, physical, run, n))
  {
    if n == 0 {
      hide Drive;
    } else {
      FirmwareFollowsRealRun(config, script, physical, run, n - 1);
      AlwaysStamped(config, script, physical, run, n - 1);
      var g := GuardedAt(Wrapping, config, script, physical, run, n - 1);
      assert Timed(run[n - 1]) ==> NextInstant(g.sup, run[n - 1].nowMs);
      hide Stamped;
      hide Step;
      hide WrapGuarded;
      hide WrapInput;
      WrappingLooksOnlyAtDifferences(config, script, g, run[n - 1]);
    }
  }

  /** Wrap-around of the counter is never mistaken for a clock that goes back. */
  lemma NeverClockRegression(config: SafetyConfig, script: DriverScript, physical: DriverState, run: seq<Input>, n: nat)
    requires Recurring(run) && n <= |run|
    ensures GuardedAt(Wrapping, config, script, physical, WrapRun(run), n).sup.fault != ClockRegression
  {
    hide Step;
    AlwaysStamped(config, script, physical, run, n);
    FirmwareFollowsRealRun(config, script, physical, run, n);
  }

  /**
   * A poll that leaves outputs commanded was permitted, found the last heartbeat
   * at most watchdogTimeoutMs of real time old, and found a starter engaged for
   * at most maximumStarterActiveMs of real time.
   */
  lemma PollBoundsRealAges(config: SafetyConfig, script: DriverScript, physical: DriverState, run: seq<Input>, k: nat)
    requires Recurring(run) && k < |run| && run[k].PollInput?
    ensures var after := GuardedAt(Wrapping, config, script, physical, run, k + 1).sup;
            var firmware := GuardedAt(Wrapping, config, script, physical, WrapRun(run), k + 1).sup;
            && firmware == WrapSupervisor(after)
            && (firmware.OutputsCommanded() ==>
                  && run[k].permitted
                  && 0 <= run[k].nowMs - LastHeartbeat(run, k) <= config.watchdogTimeoutMs
                  && (firmware.starterCommanded ==>
                        0 <= run[k].nowMs - after.starterEngagedAtMs <= config.maximumStarterActiveMs))
  {
    FirmwareFollowsRealRun(config, script, physical, run, k + 1);
    AlwaysStamped(config, script, physical, run, k);
    HistoryIsSpaced(run, k);
    var g := GuardedAt(Wrapping, config, script, physical, run, k);
    hide Stamped;
    hide Poll;
    PollIsStamped(config, script, HistoryAt(run, k), g, run[k].nowMs, run[k].permitted, run[k].feedback);
  }

  /** A recurring input fits the counter, so without a slip both clocks take the same step. */
  lemma SameStepWithoutSlip(config: SafetyConfig, script: DriverScript, physical: DriverState, run: seq<Input>, k: nat)
    requires Recurring(run) && k < |run|
    ensures var g := GuardedAt(Wrapping, config, script, physical, run, k);
            (Step(Wrapping, config, script, g, run[k]) == Step(Unbounded, config, script, g, run[k]))
              <==> !Slips(config, g.sup, run[k])
  {
    AlwaysStamped(config, script, physical, run, k);
    HistoryIsSpaced(run, k);
    var g := GuardedAt(Wrapping, config, script, physical, run, k);
    if Timed(run[k]) {
      StampedFits(config, HistoryAt(run, k), g.sup, run[k].nowMs);
    } else {
      CommandFits(config, HistoryAt(run, k), g.sup);
    }
    hide Stamped;
    if Slips(config, g.sup, run[k]) {
      SlipDiffers(config, script, g, run[k]);
    } else {
      StepAgrees(config, script, g, run[k]);
    }
  }

  lemma SlipDiffers(config: SafetyConfig, script: DriverScript, g: Guarded, input: Input)
    requires InputFits(g.sup, input) && Slips(config, g.sup, input)
    ensures Step(Wrapping, config, script, g, input).sup.fault == NoSupervisorFault
    ensures Step(Unbounded, config, script, g, input).sup.fault
         == (if input.feedback.available then FeedbackMismatch else FeedbackUnavailable)
  {
    VerdictAgreesExactly(config, g.sup, input.nowMs, input.permitted, input.feedback);
  }

  /** Both clocks lead to the same state after every one of the first n inputs. */
  ghost predicate AgreeTo(config: SafetyConfig, script: DriverScript, physical: DriverState, run: seq<Input>, n: nat)
    requires n <= |run|
  {
    forall m :: 0 <= m <= n ==>
      GuardedAt(Wrapping, config, script, physical, run, m) == GuardedAt(Unbounded, config, script, physical, run, m)
  }

  ghost predicate NoSlipsTo(config: SafetyConfig, script: DriverScript, physical: DriverState, run: seq<Input>, n: nat)
    requires n <= |run|
  {
    forall k :: 0 <= k < n ==> !Slips(config, GuardedAt(Unbounded, config, script, physical, run, k).sup, run[k])
  }

  lemma NextAgreement(config: SafetyConfig, script: DriverScript, physical: DriverState, run: seq<Input>, n: nat)
    requires 0 < n <= |run|
    ensures AgreeTo(config, script, physical, run, n) <==>
              && AgreeTo(config, script, physical, run, n - 1)
              && GuardedAt(Wrapping, config, script, physical, run, n) == GuardedAt(Unbounded, config, script, physical, run, n)
    ensures NoSlipsTo(config, script, physical, run, n) <==>
              && NoSlipsTo(config, script, physical, run, n - 1)
              && !Slips(config, GuardedAt(Unbounded, config, script, physical, run, n - 1).sup, run[n - 1])
    ensures AgreeTo(config, script, physical, run, n - 1) ==>
              GuardedAt(Wrapping, config, script, physical, run, n - 1) == GuardedAt(Unbounded, config, script, physical, run, n - 1)
  {
    hide Slips;
    hide GuardedAt;
  }

  /**
   * The firmware decides as on an ideal clock through the whole run exactly when
   * no poll falls, with wrong feedback, into a grace period that reopened after
   * 2^32 ms without an output change.
   */
  lemma {:induction false} ClocksAgreeExactly(config: SafetyConfig, script: DriverScript, physical: DriverState,
                                              run: seq<Input>, n: nat)
    requires Recurring(run) && n <= |run|
    ensures AgreeTo(config, script, physical, run, n) <==> NoSlipsTo(config, script, physical, run, n)
  {
    hide Step;
    hide Slips;
    if n > 0 {
      hide AgreeTo;
      hide NoSlipsTo;
      ClocksAgreeExactly(config, script, physical, run, n - 1);
      NextAgreement(config, script, physical, run, n);
      SameStepWithoutSlip(config, script, physical, run, n - 1);
    }
  }

  // ---------- the slip is reachable ----------

  const DEFAULT_CONFIG := SafetyConfig(500, 5_000, 100, true)

  function Quarter(k: nat): Input {
    PollInput(k * 0x4000_0000, true, Feedback(true, false, false))
  }

  /** Four agreeing polls 2^30 ms apart, then one at 2^32 + 50 ms whose feedback shows a live output. */
  const SLIPPING_RUN := [Quarter(0), Quarter(1), Quarter(2), Quarter(3),
                         PollInput(0x1_0000_0032, true, Feedback(true, true, false))]

  /** Healthy, permitted, nothing commanded since construction, last observed at t. */
  function QuietSince(t: nat): Supervisor {
    Supervisor(NoSupervisorFault, t, 0, 0, 0, true, true, false, true, false, false, false, false)
  }

  lemma QuietPoll(clock: Clock, script: DriverScript, g: Guarded, t: nat, now: nat)
    requires g.sup == QuietSince(t) || g.sup == QuietSince(t).(clockInitialized := false, hardwareStartPermitted := false)
    requires t <= now < t + HALF_RANGE
    ensures Poll(clock, DEFAULT_CONFIG, script, g, now, true, Feedback(true, false, false))
         == Guarded(QuietSince(now), g.drv)
  {
  }

  lemma QuietAfter(clock: Clock, script: DriverScript, physical: DriverState, k: nat)
    requires forall i :: script(i).ok
    requires k < 4
    ensures GuardedAt(clock, DEFAULT_CONFIG, script, physical, SLIPPING_RUN, k + 1).sup == QuietSince(k * 0x4000_0000)
  {
    if k > 0 {
      QuietAfter(clock, script, physical, k - 1);
    }
    var t := if k == 0 then 0 else (k - 1) * 0x4000_0000;
    var g := GuardedAt(clock, DEFAULT_CONFIG, script, physical, SLIPPING_RUN, k);
    QuietPoll(clock, script, g, t, k * 0x4000_0000);
    assert SLIPPING_RUN[k] == Quarter(k);
  }

  lemma SlippingRunRecurs()
    ensures Recurring(SLIPPING_RUN)
  {
    var r := SLIPPING_RUN;
    assert HistoryAt(r, 0) == History(-1, -1, -1);
    assert HistoryAt(r, 1) == History(0, -1, 0);
    assert HistoryAt(r, 2) == History(0x4000_0000, -1, 0x4000_0000);
    assert HistoryAt(r, 3) == History(0x8000_0000, -1, 0x8000_0000);
    assert HistoryAt(r, 4) == History(0xC000_0000, -1, 0xC000_0000);
    assert |r| == 5;
  }

  /** An output stuck on is reported to the supervisor and passes, 2^32 ms after the last output change. */
  lemma StuckOutputCanPass(script: DriverScript, physical: DriverState)
    requires forall k :: script(k).ok
    ensures Recurring(SLIPPING_RUN)
    ensures GuardedAt(Wrapping, DEFAULT_CONFIG, script, physical, SLIPPING_RUN, 5).sup.fault == NoSupervisorFault
    ensures GuardedAt(Unbounded, DEFAULT_CONFIG, script, physical, SLIPPING_RUN, 5).sup.fault == FeedbackMismatch
  {
    SlippingRunRecurs();
    QuietAfter(Wrapping, script, physical, 3);
    QuietAfter(Unbounded, script, physical, 3);
    var g := GuardedAt(Wrapping, DEFAULT_CONFIG, script, physical, SLIPPING_RUN, 4);
    var u := GuardedAt(Unbounded, DEFAULT_CONFIG, script, physical, SLIPPING_RUN, 4);
    SlipDiffers(DEFAULT_CONFIG, script, g, SLIPPING_RUN[4]);
    SlipDiffers(DEFAULT_CONFIG, script, u, SLIPPING_RUN[4]);
  }
}

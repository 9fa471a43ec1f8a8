/** Recognizing a train of presses with bounded gaps, and the gate that admits evidence to it. */
module LockSequence {
  import opened Clock32

  // ---------- the detector ----------

  datatype SequenceConfig = SequenceConfig(requiredPresses: nat, minimumGapMs: u32, maximumGapMs: u32, maximumSequenceMs: u32)
  {
    predicate IsValid() {
      && requiredPresses != 0
      && minimumGapMs <= maximumGapMs <= maximumSequenceMs
      && (requiredPresses - 1) * minimumGapMs <= maximumSequenceMs
    }
  }

  datatype Detector = Detector(firstMs: u32, lastMs: u32, presses: nat)

  const NO_PRESSES := Detector(0, 0, 0)

  datatype PressResult = Accepted | SequenceCompleted | SequenceRestarted | IgnoredDebounce | InvalidConfiguration

  /** The press lies in the gap and window its predecessors allow. */
  predicate Continues(c: SequenceConfig, d: Detector, atMs: u32) {
    && c.minimumGapMs <= Sub(atMs, d.lastMs) <= c.maximumGapMs
    && Sub(atMs, d.firstMs) <= c.maximumSequenceMs
  }

  predicate Debounced(c: SequenceConfig, d: Detector, atMs: u32) {
    d.presses > 0 && Sub(atMs, d.lastMs) < c.minimumGapMs
  }

  /** The presses counted once this one is. */
  function Counting(c: SequenceConfig, d: Detector, atMs: u32): Detector {
    if d.presses > 0 && Continues(c, d, atMs) then Detector(d.firstMs, atMs, d.presses + 1) else Detector(atMs, atMs, 1)
  }

  function Observed(c: SequenceConfig, d: Detector, atMs: u32): PressResult {
    if !c.IsValid() then InvalidConfiguration
    else if Debounced(c, d, atMs) then IgnoredDebounce
    else if Counting(c, d, atMs).presses >= c.requiredPresses then SequenceCompleted
    else if d.presses == 0 || Continues(c, d, atMs) then Accepted
    else SequenceRestarted
  }

  function AfterObserve(c: SequenceConfig, d: Detector, atMs: u32): Detector {
    if !c.IsValid() then NO_PRESSES
    else if Debounced(c, d, atMs) then d
    else if Counting(c, d, atMs).presses >= c.requiredPresses then NO_PRESSES
    else Counting(c, d, atMs)
  }

  class LockSequenceDetector {
    const config: SequenceConfig
    var firstPressTimestampMs: u32
    var lastPressTimestampMs: u32
    var pressCount: nat

    constructor (config: SequenceConfig)
      ensures this.config == config && State() == NO_PRESSES
    {
      this.config := config;
      firstPressTimestampMs, lastPressTimestampMs, pressCount := 0, 0, 0;
    }

    function State(): Detector
      reads this
    {
      Detector(firstPressTimestampMs, lastPressTimestampMs, pressCount)
    }

    method Reset()
      modifies this
      ensures State() == NO_PRESSES
    {
      firstPressTimestampMs, lastPressTimestampMs, pressCount := 0, 0, 0;
    }

    method Observe(timestampMs: u32) returns (result: PressResult)
      modifies this
      ensures result == Observed(config, old(State()), timestampMs)
      ensures State() == AfterObserve(config, old(State()), timestampMs)
    {
      if !config.IsValid() {
        Reset();
        return InvalidConfiguration;
      }
      result := Accepted;
      if pressCount == 0 {
        firstPressTimestampMs, lastPressTimestampMs, pressCount := timestampMs, timestampMs, 1;
      } else {
        var sinceLastPress, sinceFirstPress := Sub(timestampMs, lastPressTimestampMs), Sub(timestampMs, firstPressTimestampMs);
        if sinceLastPress < config.minimumGapMs {
          return IgnoredDebounce;
        }
        if sinceLastPress > config.maximumGapMs || sinceFirstPress > config.maximumSequenceMs {
          firstPressTimestampMs, lastPressTimestampMs, pressCount := timestampMs, timestampMs, 1;
          result := SequenceRestarted;
        } else {
          lastPressTimestampMs := timestampMs;
          pressCount := pressCount + 1;
        }
      }
      if pressCount < config.requiredPresses {
        return;
      }
      Reset();
      return SequenceCompleted;
    }
  }

  // ---------- the gate ----------

  datatype Source = UnspecifiedSource | VehicleAdapter | SyntheticTest
  datatype Trust = Unverified | Candidate | Verified

  datatype Evidence = Evidence(source: Source, trust: Trust, sourceSequence: u32, observedAtMs: u32, vehicleSecured: bool)

  datatype GateStatus =
    | PressAccepted | Restarted | RemoteStartRequested
    | RejectedInvalidConfiguration | RejectedUntrustedSource | RejectedSyntheticSource | RejectedVehicleNotSecured
    | RejectedStaleEvidence | RejectedFutureEvidence | RejectedDuplicateSequence | RejectedOutOfOrderSequence
    | RejectedNonMonotonicEvidence | RejectedClockRegression | RejectedTiming

  const MAXIMUM_EVIDENCE_AGE_LIMIT_MS: nat := 5_000

  datatype GateConfig = GateConfig(sequence: SequenceConfig, maximumEvidenceAgeMs: u32, allowSyntheticSource: bool)
  {
    predicate IsValid() {
      sequence.IsValid() && 0 < maximumEvidenceAgeMs <= MAXIMUM_EVIDENCE_AGE_LIMIT_MS
    }
  }

  datatype Gate = Gate(
    detector: Detector, lastNowMs: u32, lastSequence: u32, lastObservedMs: u32, clockInitialized: bool, evidenceInitialized: bool)

  const CLOSED_GATE := Gate(NO_PRESSES, 0, 0, 0, false, false)

  predicate ClockRegressed(g: Gate, nowMs: u32) {
    g.clockInitialized && nowMs != g.lastNowMs && !StrictlyNewer(nowMs, g.lastNowMs)
  }

  /** The fault of evidence taken on its own, in the order the gate looks. */
  function EvidenceFault(c: GateConfig, e: Evidence, nowMs: u32): (status: GateStatus)
    ensures status == PressAccepted || status == RejectedUntrustedSource || status == RejectedSyntheticSource
            || status == RejectedVehicleNotSecured || status == RejectedFutureEvidence || status == RejectedStaleEvidence
  {
    if e.trust != Verified || e.source == UnspecifiedSource then RejectedUntrustedSource
    else if e.source == SyntheticTest && !c.allowSyntheticSource then RejectedSyntheticSource
    else if !e.vehicleSecured then RejectedVehicleNotSecured
    else if StrictlyNewer(e.observedAtMs, nowMs) then RejectedFutureEvidence
    else if Sub(nowMs, e.observedAtMs) > c.maximumEvidenceAgeMs then RejectedStaleEvidence
    else PressAccepted
  }

  /** The fault of evidence after the evidence before it. */
  function ReplayFault(g: Gate, e: Evidence): (status: GateStatus)
    ensures status == PressAccepted || status == RejectedDuplicateSequence
            || status == RejectedOutOfOrderSequence || status == RejectedNonMonotonicEvidence
  {
    if !g.evidenceInitialized then PressAccepted
    else if e.sourceSequence == g.lastSequence then RejectedDuplicateSequence
    else if !StrictlyNewer(e.sourceSequence, g.lastSequence) then RejectedOutOfOrderSequence
    else if !StrictlyNewer(e.observedAtMs, g.lastObservedMs) then RejectedNonMonotonicEvidence
    else PressAccepted
  }

  /** PressAccepted when the evidence reaches the detector. */
  function Screened(c: GateConfig, g: Gate, e: Evidence, nowMs: u32): GateStatus {
    if !c.IsValid() then RejectedInvalidConfiguration
    else if ClockRegressed(g, nowMs) then RejectedClockRegression
    else if EvidenceFault(c, e, nowMs) != PressAccepted then EvidenceFault(c, e, nowMs)
    else ReplayFault(g, e)
  }

  function Judged(c: GateConfig, g: Gate, e: Evidence, nowMs: u32): GateStatus {
    if Screened(c, g, e, nowMs) != PressAccepted then Screened(c, g, e, nowMs)
    else
      match Observed(c.sequence, g.detector, e.observedAtMs)
      case Accepted => PressAccepted
      case SequenceCompleted => RemoteStartRequested
      case SequenceRestarted => Restarted
      case IgnoredDebounce => RejectedTiming
      case InvalidConfiguration => RejectedInvalidConfiguration
  }

  function AfterProcess(c: GateConfig, g: Gate, e: Evidence, nowMs: u32): Gate {
    var screened := Screened(c, g, e, nowMs);
    if screened == RejectedInvalidConfiguration || screened == RejectedClockRegression then g.(detector := NO_PRESSES)
    else if screened != PressAccepted then g.(detector := NO_PRESSES, lastNowMs := nowMs, clockInitialized := true)
    else Gate(AfterObserve(c.sequence, g.detector, e.observedAtMs), nowMs, e.sourceSequence, e.observedAtMs, true, true)
  }

  lemma NewerIsLater(a: u32, b: u32)
    ensures StrictlyNewer(a, b) ==> a != b
  {
  }

  /** The replay check does not look at the clock. */
  lemma SameReplay(g: Gate, e: Evidence, nowMs: u32)
    ensures ReplayFault(g.(lastNowMs := nowMs, clockInitialized := true), e) == ReplayFault(g, e)
  {
  }

  lemma InvalidForgets(c: SequenceConfig, d: Detector, atMs: u32)
    ensures Observed(c, d, atMs) == InvalidConfiguration ==> AfterObserve(c, d, atMs) == NO_PRESSES
  {
  }

  class LockCommandGate {
    const config: GateConfig
    const detector: LockSequenceDetector
    var lastNowMs: u32
    var lastSourceSequence: u32
    var lastEvidenceTimestampMs: u32
    var clockInitialized: bool
    var evidenceInitialized: bool

    constructor (config: GateConfig)
      ensures fresh(detector) && detector.config == config.sequence && this.config == config && State() == CLOSED_GATE
    {
      this.config := config;
      detector := new LockSequenceDetector(config.sequence);
      lastNowMs, lastSourceSequence, lastEvidenceTimestampMs := 0, 0, 0;
      clockInitialized, evidenceInitialized := false, false;
    }

    function State(): Gate
      reads this, detector
    {
      Gate(detector.State(), lastNowMs, lastSourceSequence, lastEvidenceTimestampMs, clockInitialized, evidenceInitialized)
    }

    method Reset()
      modifies this, detector
      ensures State() == CLOSED_GATE
    {
      detector.Reset();
      lastNowMs, lastSourceSequence, lastEvidenceTimestampMs := 0, 0, 0;
      clockInitialized, evidenceInitialized := false, false;
    }

    method Reject(status: GateStatus) returns (r: GateStatus)
      modifies detector
      ensures r == status && State() == old(State()).(detector := NO_PRESSES)
    {
      detector.Reset();
      return status;
    }

    method CheckEvidence(e: Evidence, nowMs: u32) returns (status: GateStatus)
      ensures status == EvidenceFault(config, e, nowMs)
    {
      NewerIsLater(e.observedAtMs, nowMs);
      if e.trust != Verified || e.source == UnspecifiedSource {
        return RejectedUntrustedSource;
      }
      if e.source == SyntheticTest && !config.allowSyntheticSource {
        return RejectedSyntheticSource;
      }
      if !e.vehicleSecured {
        return RejectedVehicleNotSecured;
      }
      if e.observedAtMs != nowMs && StrictlyNewer(e.observedAtMs, nowMs) {
        return RejectedFutureEvidence;
      }
      if Sub(nowMs, e.observedAtMs) > config.maximumEvidenceAgeMs {
        return RejectedStaleEvidence;
      }
      return PressAccepted;
    }

    method CheckReplay(e: Evidence) returns (status: GateStatus)
      ensures status == ReplayFault(State(), e)
    {
      NewerIsLater(e.observedAtMs, lastEvidenceTimestampMs);
      if evidenceInitialized {
        if e.sourceSequence == lastSourceSequence {
          return RejectedDuplicateSequence;
        }
        if !StrictlyNewer(e.sourceSequence, lastSourceSequence) {
          return RejectedOutOfOrderSequence;
        }
        if e.observedAtMs == lastEvidenceTimestampMs || !StrictlyNewer(e.observedAtMs, lastEvidenceTimestampMs) {
          return RejectedNonMonotonicEvidence;
        }
      }
      return PressAccepted;
    }

    method Process(e: Evidence, nowMs: u32) returns (status: GateStatus)
      requires detector.config == config.sequence
      modifies this, detector
      ensures status == Judged(config, old(State()), e, nowMs)
      ensures State() == AfterProcess(config, old(State()), e, nowMs)
    {
      InvalidForgets(config.sequence, detector.State(), e.observedAtMs);
      SameReplay(State(), e, nowMs);
      hide Observed;
      hide AfterObserve;
      hide Sub;
      hide StrictlyNewer;
      hide EvidenceFault;
      hide ReplayFault;
      if !config.IsValid() {
        status := Reject(RejectedInvalidConfiguration);
        return;
      }
      if clockInitialized && nowMs != lastNowMs && !StrictlyNewer(nowMs, lastNowMs) {
        status := Reject(RejectedClockRegression);
        return;
      }
      lastNowMs, clockInitialized := nowMs, true;
      status := CheckEvidence(e, nowMs);
      if status != PressAccepted {
        status := Reject(status);
        return;
      }
      status := CheckReplay(e);
      if status != PressAccepted {
        status := Reject(status);
        return;
      }
      lastSourceSequence, lastEvidenceTimestampMs, evidenceInitialized := e.sourceSequence, e.observedAtMs, true;
      var result := detector.Observe(e.observedAtMs);
      match result
      case Accepted => return PressAccepted;
      case SequenceCompleted => return RemoteStartRequested;
      case SequenceRestarted => return Restarted;
      case IgnoredDebounce => return RejectedTiming;
      // The detector has reset itself already.
      case InvalidConfiguration => return RejectedInvalidConfiguration;
    }
  }
}

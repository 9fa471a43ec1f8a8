/**
 * Which condition gives each verdict of the adapter and of the gate: the first
 * check that fails decides, and what is remembered follows from the verdict.
 * The adapter's checks are stated on the frames of the run.
 */
module LockVerdicts {
  import opened Bytes
  import opened CanFrames
  import opened Clock32
  import opened CounterField
  import opened LockAdapter
  import opened LockGestureRuns
  import opened LockGestureTime
  import opened LockSequence
  import opened Options

  // ---------- the gate ----------

  predicate WellConfigured(c: GateConfig) {
    && c.sequence.requiredPresses >= 1
    && c.sequence.minimumGapMs <= c.sequence.maximumGapMs
    && c.sequence.maximumGapMs <= c.sequence.maximumSequenceMs
    && c.sequence.minimumGapMs * (c.sequence.requiredPresses - 1) <= c.sequence.maximumSequenceMs
    && 1 <= c.maximumEvidenceAgeMs <= 5_000
  }

  /** The condition on the evidence, the clock and the evidence before that a rejection names. */
  predicate Fails(c: GateConfig, g: Gate, e: Evidence, nowMs: u32, status: GateStatus) {
    match status
    case RejectedInvalidConfiguration => !WellConfigured(c)
    case RejectedClockRegression => g.clockInitialized && (nowMs - g.lastNowMs) % TWO32 >= HALF_RANGE
    case RejectedUntrustedSource => e.trust != Verified || e.source == UnspecifiedSource
    case RejectedSyntheticSource => e.source == SyntheticTest && !c.allowSyntheticSource
    case RejectedVehicleNotSecured => !e.vehicleSecured
    case RejectedFutureEvidence => 0 < (e.observedAtMs - nowMs) % TWO32 < HALF_RANGE
    case RejectedStaleEvidence => (nowMs - e.observedAtMs) % TWO32 > c.maximumEvidenceAgeMs
    case RejectedDuplicateSequence => g.evidenceInitialized && e.sourceSequence == g.lastSequence
    case RejectedOutOfOrderSequence => g.evidenceInitialized && (e.sourceSequence - g.lastSequence) % TWO32 >= HALF_RANGE
    case RejectedNonMonotonicEvidence =>
      && g.evidenceInitialized
      && (e.observedAtMs == g.lastObservedMs || (e.observedAtMs - g.lastObservedMs) % TWO32 >= HALF_RANGE)
    case RejectedTiming => g.detector.presses > 0 && (e.observedAtMs - g.detector.lastMs) % TWO32 < c.sequence.minimumGapMs
    case PressAccepted | Restarted | RemoteStartRequested => true
  }

  /** The order the gate looks in. */
  function Order(status: GateStatus): nat {
    match status
    case RejectedInvalidConfiguration => 0
    case RejectedClockRegression => 1
    case RejectedUntrustedSource => 2
    case RejectedSyntheticSource => 3
    case RejectedVehicleNotSecured => 4
    case RejectedFutureEvidence => 5
    case RejectedStaleEvidence => 6
    case RejectedDuplicateSequence => 7
    case RejectedOutOfOrderSequence => 8
    case RejectedNonMonotonicEvidence => 9
    case RejectedTiming => 10
    case PressAccepted | Restarted | RemoteStartRequested => 11
  }

  predicate Rejects(status: GateStatus) {
    Order(status) < 11
  }

  /** The checks before this one pass. */
  ghost predicate Reached(c: GateConfig, g: Gate, e: Evidence, nowMs: u32, status: GateStatus) {
    forall s :: Order(s) < Order(status) ==> !Fails(c, g, e, nowMs, s)
  }

  /** The press comes too late to continue the train. */
  predicate TooLate(c: GateConfig, g: Gate, e: Evidence) {
    && g.detector.presses > 0
    && ((e.observedAtMs - g.detector.lastMs) % TWO32 > c.sequence.maximumGapMs
        || (e.observedAtMs - g.detector.firstMs) % TWO32 > c.sequence.maximumSequenceMs)
  }

  /** How many presses stand once this one counts. */
  function Standing(c: GateConfig, g: Gate, e: Evidence): nat {
    if TooLate(c, g, e) then 1 else g.detector.presses + 1
  }

  /** What an admitted press is answered. */
  function Answer(c: GateConfig, g: Gate, e: Evidence): GateStatus {
    if Standing(c, g, e) >= c.sequence.requiredPresses then RemoteStartRequested
    else if TooLate(c, g, e) then Restarted
    else PressAccepted
  }

  lemma NotNewer(a: u32, b: u32)
    ensures !StrictlyNewer(a, b) <==> a == b || (a - b) % TWO32 >= HALF_RANGE
    ensures (a - b) % TWO32 == 0 <==> a == b
  {
  }

  lemma WellConfiguredExactly(c: GateConfig)
    ensures c.IsValid() <==> WellConfigured(c)
  {
    assert c.sequence.requiredPresses >= 1 ==>
        (c.sequence.requiredPresses - 1) * c.sequence.minimumGapMs == c.sequence.minimumGapMs * (c.sequence.requiredPresses - 1);
  }

  lemma ScreenedExactly(c: GateConfig, g: Gate, e: Evidence, nowMs: u32)
    ensures Screened(c, g, e, nowMs) != PressAccepted ==>
              && Order(Screened(c, g, e, nowMs)) < 10 && Fails(c, g, e, nowMs, Screened(c, g, e, nowMs))
              && Reached(c, g, e, nowMs, Screened(c, g, e, nowMs))
    ensures Screened(c, g, e, nowMs) == PressAccepted ==> Reached(c, g, e, nowMs, RejectedTiming)
  {
    WellConfiguredExactly(c);
    NotNewer(nowMs, g.lastNowMs);
    NotNewer(e.observedAtMs, nowMs);
    NotNewer(e.sourceSequence, g.lastSequence);
    NotNewer(e.observedAtMs, g.lastObservedMs);
    NewerExactly(e.observedAtMs, nowMs);
    hide StrictlyNewer;
    hide WellConfigured;
    hide GateConfig.IsValid;
  }

  lemma NewerExactly(a: u32, b: u32)
    ensures StrictlyNewer(a, b) <==> 0 < (a - b) % TWO32 < HALF_RANGE
  {
  }

  lemma DetectorAnswers(c: GateConfig, g: Gate, e: Evidence)
    requires WellConfigured(c)
    ensures var result := Observed(c.sequence, g.detector, e.observedAtMs);
            if g.detector.presses > 0 && (e.observedAtMs - g.detector.lastMs) % TWO32 < c.sequence.minimumGapMs
            then result == IgnoredDebounce
            else result == match Answer(c, g, e)
                           case RemoteStartRequested => SequenceCompleted
                           case Restarted => SequenceRestarted
                           case _ => Accepted
  {
    WellConfiguredExactly(c);
    hide WellConfigured;
  }

  /**
   * The gate rejects evidence for the first check that fails, and otherwise
   * answers by how many presses stand: a request when they are enough, a
   * restart when this one came too late, an accepted press otherwise.
   */
  lemma VerdictExactly(c: GateConfig, g: Gate, e: Evidence, nowMs: u32, status: GateStatus)
    ensures Rejects(status) ==>
              (Judged(c, g, e, nowMs) == status <==> Fails(c, g, e, nowMs, status) && Reached(c, g, e, nowMs, status))
    ensures !Rejects(status) ==>
              (Judged(c, g, e, nowMs) == status <==> Reached(c, g, e, nowMs, status) && Answer(c, g, e) == status)
  {
    JudgedIs(c, g, e, nowMs);
    hide Judged;
    hide Fails;
    hide Answer;
  }

  lemma JudgedIs(c: GateConfig, g: Gate, e: Evidence, nowMs: u32)
    ensures var status := Judged(c, g, e, nowMs);
            && Reached(c, g, e, nowMs, status)
            && (if Rejects(status) then Fails(c, g, e, nowMs, status) else status == Answer(c, g, e))
  {
    ScreenedExactly(c, g, e, nowMs);
    hide Screened;
    if Screened(c, g, e, nowMs) == PressAccepted {
      assert !Fails(c, g, e, nowMs, RejectedInvalidConfiguration);
      DetectorAnswers(c, g, e);
      hide Observed;
      hide WellConfigured;
    }
  }

  /**
   * What the gate remembers after a verdict. A debounced press leaves the train
   * alone, every other rejection and a request forget it; the clock is kept
   * unless the configuration or the clock was at fault; the evidence is
   * remembered exactly when it passed every check before its timing.
   */
  lemma MemoryExactly(c: GateConfig, g: Gate, e: Evidence, nowMs: u32)
    ensures var status, n := Judged(c, g, e, nowMs), AfterProcess(c, g, e, nowMs);
            && n.detector == (match status
                              case RejectedTiming => g.detector
                              case PressAccepted =>
                                Detector(if g.detector.presses == 0 then e.observedAtMs else g.detector.firstMs,
                                         e.observedAtMs, g.detector.presses + 1)
                              case Restarted => Detector(e.observedAtMs, e.observedAtMs, 1)
                              case _ => NO_PRESSES)
            && (if status == RejectedInvalidConfiguration || status == RejectedClockRegression
                then n.clockInitialized == g.clockInitialized && n.lastNowMs == g.lastNowMs
                else n.clockInitialized && n.lastNowMs == nowMs)
            && (if Order(status) < 10
                then n.evidenceInitialized == g.evidenceInitialized && n.lastSequence == g.lastSequence
                     && n.lastObservedMs == g.lastObservedMs
                else n.evidenceInitialized && n.lastSequence == e.sourceSequence && n.lastObservedMs == e.observedAtMs)
  {
    ScreenedExactly(c, g, e, nowMs);
    hide Screened;
    hide Fails;
    if Screened(c, g, e, nowMs) == PressAccepted {
      DetectorKeeps(c, g, e);
      PassedIsConfigured(c, g, e, nowMs);
      DetectorAnswers(c, g, e);
    }
    hide Observed;
    hide AfterObserve;
    hide WellConfigured;
    hide TooLate;
    hide Standing;
  }

  lemma PassedIsConfigured(c: GateConfig, g: Gate, e: Evidence, nowMs: u32)
    requires Reached(c, g, e, nowMs, RejectedTiming)
    ensures WellConfigured(c)
  {
    assert !Fails(c, g, e, nowMs, RejectedInvalidConfiguration);
  }

  lemma DetectorKeeps(c: GateConfig, g: Gate, e: Evidence)
    ensures AfterObserve(c.sequence, g.detector, e.observedAtMs)
            == match Observed(c.sequence, g.detector, e.observedAtMs)
               case IgnoredDebounce => g.detector
               case Accepted =>
                 Detector(if g.detector.presses == 0 then e.observedAtMs else g.detector.firstMs,
                          e.observedAtMs, g.detector.presses + 1)
               case SequenceRestarted => Detector(e.observedAtMs, e.observedAtMs, 1)
               case _ => NO_PRESSES
  {
  }

  // ---------- the adapter ----------

  /** The two bytes have a bit in common. */
  predicate Share(a: byte, b: byte) {
    || (a & 1 != 0 && b & 1 != 0) || (a & 2 != 0 && b & 2 != 0) || (a & 4 != 0 && b & 4 != 0) || (a & 8 != 0 && b & 8 != 0)
    || (a & 0x10 != 0 && b & 0x10 != 0) || (a & 0x20 != 0 && b & 0x20 != 0)
    || (a & 0x40 != 0 && b & 0x40 != 0) || (a & 0x80 != 0 && b & 0x80 != 0)
  }

  lemma ShareExactly(a: byte, b: byte)
    ensures Share(a, b) <==> a & b != 0
  {
  }

  /** A field asks only for bits it looks at, in a byte of the frame. */
  predicate FieldPlaced(m: BitMatcher, dataLength: nat) {
    m.byteIndex < dataLength && m.mask != 0 && !Share(m.expectedValue, !m.mask)
  }

  predicate Overlap(i: nat, a: byte, j: nat, b: byte) {
    i == j && Share(a, b)
  }

  /** The command, the security bit and a counter of two bits at least lie in the frame, and no two of them share a bit. */
  predicate WellPlaced(c: AdapterConfig) {
    && c.identifier <= (if c.extended then 0x1FFF_FFFF else 0x7FF)
    && 1 <= c.dataLength <= 8
    && FieldPlaced(c.lockCommand, c.dataLength) && FieldPlaced(c.vehicleSecured, c.dataLength)
    && c.rollingCounter.byteIndex < c.dataLength && BitCount(c.rollingCounter.mask) >= 2
    && !Overlap(c.lockCommand.byteIndex, c.lockCommand.mask, c.rollingCounter.byteIndex, c.rollingCounter.mask)
    && !Overlap(c.vehicleSecured.byteIndex, c.vehicleSecured.mask, c.rollingCounter.byteIndex, c.rollingCounter.mask)
    && !Overlap(c.lockCommand.byteIndex, c.lockCommand.mask, c.vehicleSecured.byteIndex, c.vehicleSecured.mask)
  }

  lemma FieldExactly(m: BitMatcher, dataLength: nat)
    ensures m.IsValid(dataLength) <==> FieldPlaced(m, dataLength)
  {
    ShareExactly(m.expectedValue, !m.mask);
    hide Share;
  }

  lemma OverlapExactly(i: nat, a: byte, j: nat, b: byte)
    ensures Apart(i, a, j, b) <==> !Overlap(i, a, j, b)
  {
    ShareExactly(a, b);
    hide Share;
  }

  lemma ConfigExactly(c: AdapterConfig)
    ensures c.IsValid() <==> WellPlaced(c)
  {
    hide FieldPlaced;
    hide BitMatcher.IsValid;
    hide Apart;
    hide Overlap;
    hide BitCount;
    FieldExactly(c.lockCommand, c.dataLength);
    FieldExactly(c.vehicleSecured, c.dataLength);
    OverlapExactly(c.lockCommand.byteIndex, c.lockCommand.mask, c.rollingCounter.byteIndex, c.rollingCounter.mask);
    OverlapExactly(c.vehicleSecured.byteIndex, c.vehicleSecured.mask, c.rollingCounter.byteIndex, c.rollingCounter.mask);
    OverlapExactly(c.lockCommand.byteIndex, c.lockCommand.mask, c.vehicleSecured.byteIndex, c.vehicleSecured.mask);
  }

  predicate IsFor(c: AdapterConfig, f: CanFrame) {
    f.identifier == c.identifier && f.extended == c.extended
  }

  lemma FrameReadsAs(c: AdapterConfig, f: CanFrame)
    ensures c.Addresses(f) <==> IsFor(c, f)
    ensures f.IsValid() <==> !Malformed(f)
  {
  }

  /** The condition, on this frame and the last one the adapter took, that a status names. */
  predicate Applies(c: AdapterConfig, last: Option<CanFrame>, f: CanFrame, status: DecodeStatus) {
    match status
    case Disabled => !c.enabled
    case InvalidConfig => !WellPlaced(c)
    case InvalidFrame => Malformed(f) || (IsFor(c, f) && f.dataLength != c.dataLength)
    case Ignored => !IsFor(c, f)
    case TimestampRegression => last.Some? && (f.RealMs() - last.value.RealMs()) % TWO32 >= HALF_RANGE
    case Primed => last.None?
    case DuplicateCounter => last.Some? && c.rollingCounter.Of(f) == c.rollingCounter.Of(last.value)
    case OutOfOrderCounter =>
      && last.Some?
      && var m := c.rollingCounter.Modulus();
         (c.rollingCounter.Of(f) - c.rollingCounter.Of(last.value)) % m >= m / 2
    case NoCommand => last.Some? && (!c.lockCommand.Matches(f) || c.lockCommand.Matches(last.value))
    case EvidenceProduced => true
  }

  function Turn(status: DecodeStatus): nat {
    match status
    case Disabled => 0
    case InvalidConfig => 1
    case InvalidFrame => 2
    case Ignored => 3
    case TimestampRegression => 4
    case Primed => 5
    case DuplicateCounter => 6
    case OutOfOrderCounter => 7
    case NoCommand => 8
    case EvidenceProduced => 9
  }

  ghost predicate FirstApplying(c: AdapterConfig, last: Option<CanFrame>, f: CanFrame, status: DecodeStatus) {
    && Applies(c, last, f, status)
    && forall s :: Turn(s) < Turn(status) ==> !Applies(c, last, f, s)
  }

  lemma DistanceIs(c: AdapterConfig, a: Adapter, f: CanFrame)
    requires a.lastRawCounter < c.rollingCounter.Modulus()
    ensures var m := c.rollingCounter.Modulus();
            && Distance(c, a, f) == (c.rollingCounter.Of(f) - a.lastRawCounter) % m
            && (Distance(c, a, f) == 0 <==> c.rollingCounter.Of(f) == a.lastRawCounter)
  {
    CounterBound(c.rollingCounter, f);
    hide Counter.Of;
    hide Counter.Modulus;
    ModularDistance(c.rollingCounter.Of(f), a.lastRawCounter, c.rollingCounter.Modulus());
  }

  lemma ModularDistance(raw: nat, last: nat, m: nat)
    requires raw < m && last < m
    ensures (raw + m - last) % m == (raw - last) % m
    ensures (raw + m - last) % m == 0 <==> raw == last
  {
    if raw >= last {
      RemainderOf(raw + m - last, 1, raw - last, m);
      RemainderOf(raw - last, 0, raw - last, m);
    } else {
      RemainderOf(raw + m - last, 0, raw + m - last, m);
      RemainderOf(raw - last, -1, raw + m - last, m);
    }
  }

  lemma RegressionIs(a: Adapter, last: CanFrame, f: CanFrame)
    requires a.initialized && a.lastTimestampMs == last.TimestampMs()
    ensures TimeRegressed(a, f) <==> (f.RealMs() - last.RealMs()) % TWO32 >= HALF_RANGE
  {
    WrappedDifference(f.RealMs(), last.RealMs());
    NotNewer(f.TimestampMs(), a.lastTimestampMs);
    hide CanFrame.RealMs;
    hide Wrap;
  }

  lemma DecodedIs(c: PipelineConfig, t: Tracked, f: CanFrame)
    requires CounterKept(c, t)
    ensures FirstApplying(c.adapter, t.last, f, Decoded(c.adapter, t.pipeline.adapter, f))
  {
    ConfigExactly(c.adapter);
    FrameReadsAs(c.adapter, f);
    if t.last.Some? {
      RegressionIs(t.pipeline.adapter, t.last.value, f);
      CounterBound(c.adapter.rollingCounter, t.last.value);
      DistanceIs(c.adapter, t.pipeline.adapter, f);
    }
    hide TimeRegressed;
    hide Distance;
    hide Counter.Of;
    hide Counter.Modulus;
    hide BitMatcher.Matches;
    hide AdapterConfig.IsValid;
    hide CanFrame.RealMs;
    hide CanFrame.IsValid;
    hide AdapterConfig.Addresses;
    hide WellPlaced;
    hide Malformed;
    hide IsFor;
  }

  /**
   * In every run the adapter answers a frame by the first condition that
   * applies to it and to the last frame it took, and evidence carries that
   * frame's time, its security bit, the configured trust and the counter's
   * advance since the run was primed.
   */
  lemma DecodedExactly(c: PipelineConfig, inputs: seq<Input>, f: CanFrame, status: DecodeStatus)
    ensures var t := Run(c, inputs);
            && (Decoded(c.adapter, t.pipeline.adapter, f) == status <==> FirstApplying(c.adapter, t.last, f, status))
            && (Decoded(c.adapter, t.pipeline.adapter, f) == EvidenceProduced ==>
                  EvidenceOf(c.adapter, t.pipeline.adapter, f)
                  == Evidence(VehicleAdapter, c.adapter.trust, Wrap(Next(c, t, f, 0).advance), f.TimestampMs(),
                              c.adapter.vehicleSecured.Matches(f)))
  {
    var t := Run(c, inputs);
    AlwaysSound(c, inputs);
    assert CounterKept(c, t);
    assert t.last.None? ==> Decoded(c.adapter, t.pipeline.adapter, f) != EvidenceProduced by {
      FrameKinds(c, t, f);
      hide Decoded;
    }
    hide *;
    DecodedIs(c, t, f);
    FirstIsUnique(c.adapter, t.last, f, status, Decoded(c.adapter, t.pipeline.adapter, f));
    if Decoded(c.adapter, t.pipeline.adapter, f) == EvidenceProduced {
      EvidenceAdvance(c, t, f);
    }
  }

  lemma FirstIsUnique(c: AdapterConfig, last: Option<CanFrame>, f: CanFrame, a: DecodeStatus, b: DecodeStatus)
    requires FirstApplying(c, last, f, b)
    ensures FirstApplying(c, last, f, a) <==> a == b
  {
    hide Applies;
    if FirstApplying(c, last, f, a) {
      assert Turn(a) == Turn(b);
    }
  }

  lemma EvidenceAdvance(c: PipelineConfig, t: Tracked, f: CanFrame)
    requires CounterKept(c, t) && t.last.Some? && Decoded(c.adapter, t.pipeline.adapter, f) == EvidenceProduced
    ensures EvidenceOf(c.adapter, t.pipeline.adapter, f)
            == Evidence(VehicleAdapter, c.adapter.trust, Wrap(Next(c, t, f, 0).advance), f.TimestampMs(), c.adapter.vehicleSecured.Matches(f))
  {
    WrapAdvances(t.advance, Distance(c.adapter, t.pipeline.adapter, f));
    hide Decoded;
    hide Distance;
    hide Wrap;
    hide Counter.Of;
    hide Judged;
    hide AfterProcess;
    hide BitMatcher.Matches;
    hide CanFrame.TimestampMs;
  }

  /**
   * A frame at fault clears the adapter and the gate together; one that is not
   * for the adapter leaves both; the adapter takes every other frame as its
   * last one, and only evidence reaches the gate.
   */
  lemma PipelineExactly(c: PipelineConfig, t: Tracked, f: CanFrame, nowMs: u32)
    ensures var n, status := Next(c, t, f, nowMs), Decoded(c.adapter, t.pipeline.adapter, f);
            match status
            case InvalidConfig | InvalidFrame | DuplicateCounter | OutOfOrderCounter | TimestampRegression =>
              n.last == None && n.pipeline == FRESH_PIPELINE && PipelineResultOf(c, t.pipeline, f, nowMs) == NotEvaluated(status)
            case Disabled | Ignored =>
              n.last == t.last && n.pipeline == t.pipeline && PipelineResultOf(c, t.pipeline, f, nowMs) == NotEvaluated(status)
            case Primed | NoCommand =>
              n.last == Some(f) && n.pipeline.gate == t.pipeline.gate && PipelineResultOf(c, t.pipeline, f, nowMs) == NotEvaluated(status)
            case EvidenceProduced =>
              var e := EvidenceOf(c.adapter, t.pipeline.adapter, f);
              && n.last == Some(f) && n.pipeline.gate == AfterProcess(c.gate, t.pipeline.gate, e, nowMs)
              && PipelineResultOf(c, t.pipeline, f, nowMs) == Evaluated(Judged(c.gate, t.pipeline.gate, e, nowMs))
  {
    hide Judged;
    hide AfterProcess;
    hide Distance;
    hide TimeRegressed;
    hide Counter.Of;
    hide BitMatcher.Matches;
  }

  // ---------- the masked fields ----------

  /** Where the mask has this bit, the byte has it exactly as expected. */
  predicate AgreesAt(mask: byte, expected: byte, x: byte, bit: byte) {
    mask & bit != 0 ==> (x & bit != 0 <==> expected & bit != 0)
  }

  predicate AgreesUnder(mask: byte, expected: byte, x: byte) {
    && AgreesAt(mask, expected, x, 1) && AgreesAt(mask, expected, x, 2)
    && AgreesAt(mask, expected, x, 4) && AgreesAt(mask, expected, x, 8)
    && AgreesAt(mask, expected, x, 0x10) && AgreesAt(mask, expected, x, 0x20)
    && AgreesAt(mask, expected, x, 0x40) && AgreesAt(mask, expected, x, 0x80)
  }

  lemma MaskedExactly(mask: byte, expected: byte, x: byte)
    requires expected & !mask == 0
    ensures x & mask == expected <==> AgreesUnder(mask, expected, x)
  {
  }

  /** On a valid frame long enough a valid matcher asks of each masked bit, and of no other, to be the expected one. */
  lemma MatchesExactly(m: BitMatcher, f: CanFrame)
    requires m.IsValid(f.dataLength) && f.IsValid()
    ensures m.Matches(f) <==> AgreesUnder(m.mask, m.expectedValue, f.data[m.byteIndex])
  {
    hide AgreesUnder;
    MaskedExactly(m.mask, m.expectedValue, f.data[m.byteIndex]);
  }
}

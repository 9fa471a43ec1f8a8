/**
 * What stands behind a remote start request, over every run of frames.
 *
 * Beside the pipeline a run remembers the frames its state came from: the last
 * frame the adapter accepted, the counter value it primed on, the counter's
 * unbounded advance since, and the presses counted so far.
 */
module LockGestureRuns {
  import opened CanFrames
  import opened Clock32
  import opened CounterField
  import opened LockAdapter
  import opened LockSequence
  import opened Options

  /** An inactive-to-active edge: the frame that carried it, the accepted frame before,
   *  the unbounded sequence number, and the time the gate looked at it. */
  datatype Press = Press(index: nat, before: CanFrame, frame: CanFrame, sequence: nat, nowMs: u32)

  datatype Tracked = Tracked(
    pipeline: Pipeline,
    frames: nat,
    last: Option<CanFrame>,
    primedCounter: nat,
    advance: nat,
    counted: seq<Press>,
    undisturbedFrom: nat)

  const START := Tracked(FRESH_PIPELINE, 0, None, 0, 0, [], 0)

  function PressOf(c: PipelineConfig, t: Tracked, f: CanFrame, nowMs: u32): Press
    requires t.last.Some?
  {
    Press(t.frames, t.last.value, f, t.advance + Distance(c.adapter, t.pipeline.adapter, f), nowMs)
  }

  /** The result rejects what was seen: anything but a debounced press. */
  predicate Disturbs(r: PipelineResult) {
    match r
    case NotEvaluated(status) => RequiresGestureReset(status)
    case Evaluated(command) =>
      command != PressAccepted && command != Restarted && command != RemoteStartRequested && command != RejectedTiming
  }

  function CountedAfter(r: PipelineResult, counted: seq<Press>, press: Press): seq<Press> {
    if Disturbs(r) || r == Evaluated(RemoteStartRequested) then []
    else if r == Evaluated(PressAccepted) then counted + [press]
    else if r == Evaluated(Restarted) then [press]
    else counted
  }

  function Next(c: PipelineConfig, t: Tracked, f: CanFrame, nowMs: u32): Tracked {
    var a := t.pipeline.adapter;
    var status := Decoded(c.adapter, a, f);
    var result := PipelineResultOf(c, t.pipeline, f, nowMs);
    var accepted := status == NoCommand || status == EvidenceProduced;
    Tracked(
      AfterFrame(c, t.pipeline, f, nowMs),
      t.frames + 1,
      if accepted || status == Primed then Some(f) else if RequiresGestureReset(status) then None else t.last,
      if status == Primed then c.adapter.rollingCounter.Of(f) else t.primedCounter,
      if accepted then t.advance + Distance(c.adapter, a, f) else if RequiresGestureReset(status) then 0 else t.advance,
      if t.last.None? then [] else CountedAfter(result, t.counted, PressOf(c, t, f, nowMs)),
      if Disturbs(result) then t.frames + 1 else t.undisturbedFrom)
  }

  datatype Input = Input(frame: CanFrame, nowMs: u32)

  function Run(c: PipelineConfig, inputs: seq<Input>): Tracked {
    if inputs == [] then START
    else
      var last := inputs[|inputs| - 1];
      Next(c, Run(c, inputs[..|inputs| - 1]), last.frame, last.nowMs)
  }

  // ---------- what a counted press is, and how presses follow each other ----------

  /** A frame the configuration qualifies, on a rising command edge, from a verified source, with the vehicle secured. */
  predicate Qualified(c: PipelineConfig, p: Press) {
    && c.adapter.enabled && c.adapter.IsValid() && c.adapter.trust == Verified
    && p.frame.IsValid() && c.adapter.Addresses(p.frame) && p.frame.dataLength == c.adapter.dataLength
    && c.adapter.lockCommand.Matches(p.frame) && !c.adapter.lockCommand.Matches(p.before)
    && c.adapter.vehicleSecured.Matches(p.frame)
    && Recent(c.gate, p)
  }

  /** The gate looked at the press soon enough after its frame, and not before it. */
  predicate Recent(c: GateConfig, p: Press) {
    Sub(p.nowMs, p.frame.TimestampMs()) <= c.maximumEvidenceAgeMs && !StrictlyNewer(p.frame.TimestampMs(), p.nowMs)
  }

  function GapMs(p: Press, q: Press): u32 {
    Sub(q.frame.TimestampMs(), p.frame.TimestampMs())
  }

  /** q is a later press at an allowed distance. */
  predicate Follows(s: SequenceConfig, p: Press, q: Press) {
    && p.index < q.index && p.sequence < q.sequence
    && 0 < GapMs(p, q) && s.minimumGapMs <= GapMs(p, q) <= s.maximumGapMs
  }

  ghost predicate Train(c: PipelineConfig, presses: seq<Press>) {
    && (forall i :: 0 <= i < |presses| ==> Qualified(c, presses[i]))
    && (forall i :: 0 < i < |presses| ==> Follows(c.gate.sequence, presses[i - 1], presses[i]))
    && (forall i :: 0 < i < |presses| ==> GapMs(presses[0], presses[i]) <= c.gate.sequence.maximumSequenceMs)
  }

  // ---------- the invariant ----------

  predicate CounterKept(c: PipelineConfig, t: Tracked) {
    var a, m := t.pipeline.adapter, c.adapter.rollingCounter.Modulus();
    if t.last.None? then a == UNPRIMED && t.pipeline.gate == CLOSED_GATE && t.counted == [] && t.advance == 0
    else
      && a.initialized
      && a.lastTimestampMs == t.last.value.TimestampMs()
      && a.lastCommandActive == c.adapter.lockCommand.Matches(t.last.value)
      && a.lastRawCounter == c.adapter.rollingCounter.Of(t.last.value)
      && a.expandedSequence == Wrap(t.advance)
      && (t.primedCounter + t.advance) % m == a.lastRawCounter
  }

  predicate DetectorKept(c: PipelineConfig, t: Tracked) {
    var g := t.pipeline.gate;
    && g.detector.presses == |t.counted|
    && (t.counted != [] ==>
          && c.gate.sequence.IsValid() && |t.counted| < c.gate.sequence.requiredPresses
          && g.detector.firstMs == t.counted[0].frame.TimestampMs()
          && g.detector.lastMs == t.counted[|t.counted| - 1].frame.TimestampMs()
          && g.evidenceInitialized
          && (c.gate.sequence.minimumGapMs == 0 ==> g.lastObservedMs == g.detector.lastMs))
  }

  ghost predicate PressesKept(c: PipelineConfig, t: Tracked) {
    && Train(c, t.counted)
    && t.undisturbedFrom <= t.frames
    && forall i :: 0 <= i < |t.counted| ==>
         t.undisturbedFrom <= t.counted[i].index < t.frames && t.counted[i].sequence <= t.advance
  }

  ghost predicate Sound(c: PipelineConfig, t: Tracked) {
    CounterKept(c, t) && DetectorKept(c, t) && PressesKept(c, t)
  }

  // ---------- the counter stays congruent ----------

  lemma DistanceIsModular(raw: nat, last: nat, m: nat, primed: nat, advance: nat)
    requires 0 < m && raw < m && last < m && (primed + advance) % m == last
    ensures (primed + advance + (raw + m - last) % m) % m == raw
  {
    var d := (raw + m - last) % m;
    assert d == if raw >= last then raw - last else raw + m - last by {
      if raw >= last {
        RemainderOf(raw + m - last, 1, raw - last, m);
      } else {
        RemainderOf(raw + m - last, 0, raw + m - last, m);
      }
    }
    var q := (primed + advance) / m;
    if raw >= last {
      RemainderOf(primed + advance + d, q, raw, m);
    } else {
      RemainderOf(primed + advance + d, q + 1, raw, m);
    }
  }

  lemma RemainderOf(x: int, q: int, r: int, m: int)
    requires 0 <= r < m && x == q * m + r
    ensures x % m == r
  {
    assert (x / m - q) * m == r - x % m;
    FarMultiples(x / m - q, m);
  }

  lemma FarMultiples(k: int, m: int)
    requires 0 < m
    ensures k >= 1 ==> k * m >= m
    ensures k <= -1 ==> k * m <= -m
  {
  }

  lemma WrapAdvances(advance: nat, d: nat)
    ensures Wrap(Wrap(advance) + d) == Wrap(advance + d)
  {
  }

  lemma CounterBound(counter: Counter, f: CanFrame)
    ensures counter.Of(f) < counter.Modulus()
  {
    if counter.byteIndex < f.dataLength && counter.byteIndex < MAXIMUM_DATA_LENGTH {
      ExtractedBound(counter.mask, f.data[counter.byteIndex]);
    }
  }

  /** A rejected frame clears everything. */
  lemma RejectionClears(c: PipelineConfig, t: Tracked, f: CanFrame, nowMs: u32)
    requires RequiresGestureReset(Decoded(c.adapter, t.pipeline.adapter, f))
    ensures var n := Next(c, t, f, nowMs);
            n.pipeline == FRESH_PIPELINE && n.counted == [] && n.last == None && n.advance == 0 && n.undisturbedFrom == n.frames
  {
    hide Judged;
    hide AfterProcess;
    hide Distance;
    hide TimeRegressed;
  }

  /** A frame the adapter passes over changes nothing. */
  lemma IgnoredKeeps(c: PipelineConfig, t: Tracked, f: CanFrame, nowMs: u32)
    requires Decoded(c.adapter, t.pipeline.adapter, f) == Ignored || Decoded(c.adapter, t.pipeline.adapter, f) == Disabled
    requires t.last.None? ==> t.counted == []
    ensures Next(c, t, f, nowMs) == t.(frames := t.frames + 1)
  {
    hide Judged;
    hide AfterProcess;
    hide Distance;
    hide TimeRegressed;
  }

  /** The first frame after a reset only primes the adapter. */
  lemma PrimedKeeps(c: PipelineConfig, t: Tracked, f: CanFrame, nowMs: u32)
    requires Decoded(c.adapter, t.pipeline.adapter, f) == Primed && t.last.None? && t.counted == []
    ensures var n := Next(c, t, f, nowMs);
            && n == Tracked(n.pipeline, t.frames + 1, Some(f), c.adapter.rollingCounter.Of(f), t.advance, [], t.undisturbedFrom)
            && n.pipeline.gate == t.pipeline.gate
            && n.pipeline.adapter
               == Adapter(f.TimestampMs(), t.pipeline.adapter.expandedSequence, c.adapter.rollingCounter.Of(f),
                          c.adapter.lockCommand.Matches(f), true)
  {
    hide Judged;
    hide AfterProcess;
    hide Distance;
    hide TimeRegressed;
    hide Counter.Of;
    hide BitMatcher.Matches;
  }

  predicate FrameAccepted(c: PipelineConfig, t: Tracked, f: CanFrame) {
    Decoded(c.adapter, t.pipeline.adapter, f) == NoCommand || Decoded(c.adapter, t.pipeline.adapter, f) == EvidenceProduced
  }

  lemma AcceptedCounterStep(c: PipelineConfig, t: Tracked, f: CanFrame, nowMs: u32)
    requires CounterKept(c, t) && FrameAccepted(c, t, f) && t.last.Some?
    ensures CounterKept(c, Next(c, t, f, nowMs))
  {
    hide Judged;
    hide AfterProcess;
    hide Extracted;
    hide BitCount;
    hide Pow2;
    hide StrictlyNewer;
    hide CountedAfter;
    hide Disturbs;
    hide PipelineResultOf;
    var a := t.pipeline.adapter;
    CounterBound(c.adapter.rollingCounter, f);
    CounterBound(c.adapter.rollingCounter, t.last.value);
    DistanceIsModular(c.adapter.rollingCounter.Of(f), a.lastRawCounter, c.adapter.rollingCounter.Modulus(), t.primedCounter, t.advance);
    WrapAdvances(t.advance, Distance(c.adapter, a, f));
    hide Distance;
    hide Wrap;
    hide Counter.Of;
  }

  /** Which of the four kinds a frame is, given whether the adapter is primed. */
  lemma FrameKinds(c: PipelineConfig, t: Tracked, f: CanFrame)
    requires CounterKept(c, t)
    ensures var status := Decoded(c.adapter, t.pipeline.adapter, f);
            || RequiresGestureReset(status) || status == Ignored || status == Disabled
            || (status == Primed && t.last.None?) || (FrameAccepted(c, t, f) && t.last.Some?)
  {
    hide Distance;
    hide Counter.Of;
    hide BitMatcher.Matches;
  }

  lemma PrimedCounterStep(c: PipelineConfig, t: Tracked, f: CanFrame, nowMs: u32)
    requires CounterKept(c, t) && Decoded(c.adapter, t.pipeline.adapter, f) == Primed && t.last.None?
    ensures CounterKept(c, Next(c, t, f, nowMs))
  {
    PrimedKeeps(c, t, f, nowMs);
    CounterBound(c.adapter.rollingCounter, f);
    hide Next;
    hide Decoded;
    hide Counter.Of;
    hide Counter.Modulus;
    hide BitMatcher.Matches;
    SmallRemainder(c.adapter.rollingCounter.Of(f), c.adapter.rollingCounter.Modulus());
  }

  lemma OtherCounterStep(c: PipelineConfig, t: Tracked, f: CanFrame, nowMs: u32)
    requires CounterKept(c, t)
    requires var status := Decoded(c.adapter, t.pipeline.adapter, f);
             RequiresGestureReset(status) || status == Ignored || status == Disabled
    ensures CounterKept(c, Next(c, t, f, nowMs))
  {
    hide Next;
    hide Decoded;
    hide Counter.Of;
    hide Counter.Modulus;
    hide BitMatcher.Matches;
    if RequiresGestureReset(Decoded(c.adapter, t.pipeline.adapter, f)) {
      RejectionClears(c, t, f, nowMs);
    } else {
      IgnoredKeeps(c, t, f, nowMs);
    }
  }

  lemma CounterStep(c: PipelineConfig, t: Tracked, f: CanFrame, nowMs: u32)
    requires CounterKept(c, t)
    ensures CounterKept(c, Next(c, t, f, nowMs))
  {
    FrameKinds(c, t, f);
    hide *;
    var status := Decoded(c.adapter, t.pipeline.adapter, f);
    if RequiresGestureReset(status) || status == Ignored || status == Disabled {
      OtherCounterStep(c, t, f, nowMs);
    } else if t.last.None? {
      PrimedCounterStep(c, t, f, nowMs);
    } else {
      AcceptedCounterStep(c, t, f, nowMs);
    }
  }

  lemma SmallRemainder(x: nat, m: nat)
    requires x < m
    ensures x % m == x
  {
  }

  // ---------- the gate and the presses it counts ----------

  /** What a command that is no rejection says about the evidence and the gate. */
  lemma CountedEvidence(c: GateConfig, g: Gate, e: Evidence, nowMs: u32)
    requires !Disturbs(Evaluated(Judged(c, g, e, nowMs)))
    ensures c.IsValid() && e.trust == Verified && e.vehicleSecured
    ensures var n := AfterProcess(c, g, e, nowMs);
            && n.evidenceInitialized && n.lastObservedMs == e.observedAtMs
            && n.detector == AfterObserve(c.sequence, g.detector, e.observedAtMs)
    ensures g.evidenceInitialized ==> Sub(e.observedAtMs, g.lastObservedMs) != 0
    ensures Sub(nowMs, e.observedAtMs) <= c.maximumEvidenceAgeMs && !StrictlyNewer(e.observedAtMs, nowMs)
  {
    hide Observed;
    hide AfterObserve;
    hide ClockRegressed;
  }

  /** What each such command says about the detector. */
  lemma DetectorMoves(c: GateConfig, g: Gate, e: Evidence, nowMs: u32)
    requires !Disturbs(Evaluated(Judged(c, g, e, nowMs)))
    ensures var d, n := g.detector, AfterObserve(c.sequence, g.detector, e.observedAtMs);
            match Judged(c, g, e, nowMs)
            case PressAccepted =>
              && n == Counting(c.sequence, d, e.observedAtMs) && n.presses < c.sequence.requiredPresses
              && (d.presses == 0 || Continues(c.sequence, d, e.observedAtMs))
            case Restarted => n == Detector(e.observedAtMs, e.observedAtMs, 1) && 1 < c.sequence.requiredPresses
            case RemoteStartRequested =>
              n == NO_PRESSES && Counting(c.sequence, d, e.observedAtMs).presses >= c.sequence.requiredPresses
            case _ => n == d && c.sequence.minimumGapMs > 0
  {
    hide EvidenceFault;
    hide ReplayFault;
    hide ClockRegressed;
    hide Sub;
  }

  lemma DisturbedDetector(c: GateConfig, g: Gate, e: Evidence, nowMs: u32)
    requires Disturbs(Evaluated(Judged(c, g, e, nowMs)))
    ensures AfterProcess(c, g, e, nowMs).detector == NO_PRESSES
  {
    hide ClockRegressed;
    hide Sub;
  }

  /** The new press is qualified. */
  lemma NewPressQualifies(c: PipelineConfig, t: Tracked, f: CanFrame, nowMs: u32)
    requires CounterKept(c, t) && t.last.Some? && Decoded(c.adapter, t.pipeline.adapter, f) == EvidenceProduced
    requires !Disturbs(PipelineResultOf(c, t.pipeline, f, nowMs))
    ensures Qualified(c, PressOf(c, t, f, nowMs)) && PressOf(c, t, f, nowMs).sequence > t.advance
    ensures EvidenceOf(c.adapter, t.pipeline.adapter, f).observedAtMs == f.TimestampMs()
  {
    CountedEvidence(c.gate, t.pipeline.gate, EvidenceOf(c.adapter, t.pipeline.adapter, f), nowMs);
    hide Judged;
    hide Distance;
    hide TimeRegressed;
    hide BitMatcher.Matches;
  }

  /** A press the detector lets continue follows the last counted one. */
  lemma NewPressFollows(c: PipelineConfig, t: Tracked, f: CanFrame, nowMs: u32)
    requires Sound(c, t) && t.last.Some? && Decoded(c.adapter, t.pipeline.adapter, f) == EvidenceProduced
    requires !Disturbs(PipelineResultOf(c, t.pipeline, f, nowMs))
    requires t.counted != [] && Continues(c.gate.sequence, t.pipeline.gate.detector, f.TimestampMs())
    ensures Follows(c.gate.sequence, t.counted[|t.counted| - 1], PressOf(c, t, f, nowMs))
    ensures GapMs(t.counted[0], PressOf(c, t, f, nowMs)) <= c.gate.sequence.maximumSequenceMs
  {
    NewPressQualifies(c, t, f, nowMs);
    CountedEvidence(c.gate, t.pipeline.gate, EvidenceOf(c.adapter, t.pipeline.adapter, f), nowMs);
    hide Judged;
    hide AfterProcess;
    hide Decoded;
    hide Distance;
    hide Qualified;
    hide Sub;
  }

  lemma TrainGrows(c: PipelineConfig, presses: seq<Press>, p: Press)
    requires Train(c, presses) && Qualified(c, p)
    requires presses != [] ==>
               && Follows(c.gate.sequence, presses[|presses| - 1], p)
               && GapMs(presses[0], p) <= c.gate.sequence.maximumSequenceMs
    ensures Train(c, presses + [p])
  {
    hide Qualified;
    hide Follows;
    hide GapMs;
  }

  /** The presses once this one is counted, which is what a request is based on. */
  function Counted(c: PipelineConfig, t: Tracked, f: CanFrame, nowMs: u32): seq<Press>
    requires t.last.Some?
  {
    if t.counted != [] && Continues(c.gate.sequence, t.pipeline.gate.detector, f.TimestampMs()) then t.counted + [PressOf(c, t, f, nowMs)]
    else [PressOf(c, t, f, nowMs)]
  }

  lemma CountedIsTrain(c: PipelineConfig, t: Tracked, f: CanFrame, nowMs: u32)
    requires Sound(c, t) && t.last.Some? && Decoded(c.adapter, t.pipeline.adapter, f) == EvidenceProduced
    requires !Disturbs(PipelineResultOf(c, t.pipeline, f, nowMs))
    ensures Train(c, Counted(c, t, f, nowMs))
  {
    NewPressQualifies(c, t, f, nowMs);
    if t.counted != [] && Continues(c.gate.sequence, t.pipeline.gate.detector, f.TimestampMs()) {
      NewPressFollows(c, t, f, nowMs);
      hide *;
      TrainGrows(c, t.counted, PressOf(c, t, f, nowMs));
    }
  }

  /** A frame without a new edge leaves the gate and the presses alone. */
  lemma NoEdgeKeeps(c: PipelineConfig, t: Tracked, f: CanFrame, nowMs: u32)
    requires Decoded(c.adapter, t.pipeline.adapter, f) == NoCommand && t.last.Some?
    ensures var n := Next(c, t, f, nowMs);
            && n.counted == t.counted && n.pipeline.gate == t.pipeline.gate && n.frames == t.frames + 1
            && n.undisturbedFrom == t.undisturbedFrom && n.advance >= t.advance
  {
    hide Judged;
    hide AfterProcess;
    hide Decoded;
    hide Distance;
  }

  lemma EdgeNext(c: PipelineConfig, t: Tracked, f: CanFrame, nowMs: u32)
    requires Decoded(c.adapter, t.pipeline.adapter, f) == EvidenceProduced && t.last.Some?
    ensures var n := Next(c, t, f, nowMs);
            var e := EvidenceOf(c.adapter, t.pipeline.adapter, f);
            var result := PipelineResultOf(c, t.pipeline, f, nowMs);
            && result == Evaluated(Judged(c.gate, t.pipeline.gate, e, nowMs)) && e.observedAtMs == f.TimestampMs()
            && n.pipeline.gate == AfterProcess(c.gate, t.pipeline.gate, e, nowMs)
            && n.counted == CountedAfter(result, t.counted, PressOf(c, t, f, nowMs))
            && n.frames == t.frames + 1 && n.advance == PressOf(c, t, f, nowMs).sequence >= t.advance
            && n.undisturbedFrom == (if Disturbs(result) then n.frames else t.undisturbedFrom)
  {
    hide Judged;
    hide AfterProcess;
    hide Decoded;
    hide Distance;
    hide CountedAfter;
    hide Disturbs;
  }

  lemma EdgeKeepsDetector(c: PipelineConfig, t: Tracked, f: CanFrame, nowMs: u32)
    requires DetectorKept(c, t) && t.last.Some? && Decoded(c.adapter, t.pipeline.adapter, f) == EvidenceProduced
    ensures DetectorKept(c, Next(c, t, f, nowMs))
  {
    hide *;
    EdgeNext(c, t, f, nowMs);
    var e := EvidenceOf(c.adapter, t.pipeline.adapter, f);
    if Disturbs(Evaluated(Judged(c.gate, t.pipeline.gate, e, nowMs))) {
      DisturbedDetector(c.gate, t.pipeline.gate, e, nowMs);
      NothingCounted(c, t, Next(c, t, f, nowMs), Evaluated(Judged(c.gate, t.pipeline.gate, e, nowMs)), PressOf(c, t, f, nowMs));
    } else {
      CountedEvidence(c.gate, t.pipeline.gate, e, nowMs);
      DetectorMoves(c.gate, t.pipeline.gate, e, nowMs);
      PressTime(c, t, f, nowMs);
      CountsAsPresses(c, t, Next(c, t, f, nowMs), e, nowMs, PressOf(c, t, f, nowMs));
    }
  }

  lemma PressTime(c: PipelineConfig, t: Tracked, f: CanFrame, nowMs: u32)
    requires t.last.Some?
    ensures PressOf(c, t, f, nowMs).frame == f
  {
    hide Distance;
  }

  lemma NothingCounted(c: PipelineConfig, t: Tracked, n: Tracked, r: PipelineResult, press: Press)
    requires Disturbs(r) && n.counted == CountedAfter(r, t.counted, press) && n.pipeline.gate.detector == NO_PRESSES
    ensures DetectorKept(c, n)
  {
    hide Disturbs;
  }

  /** The detector and the presses move together. */
  lemma CountsAsPresses(c: PipelineConfig, t: Tracked, n: Tracked, e: Evidence, nowMs: u32, press: Press)
    requires DetectorKept(c, t) && c.gate.IsValid() && press.frame.TimestampMs() == e.observedAtMs
    requires !Disturbs(Evaluated(Judged(c.gate, t.pipeline.gate, e, nowMs)))
    requires n.counted == CountedAfter(Evaluated(Judged(c.gate, t.pipeline.gate, e, nowMs)), t.counted, press)
    requires n.pipeline.gate.evidenceInitialized && n.pipeline.gate.lastObservedMs == e.observedAtMs
    requires var d, after := t.pipeline.gate.detector, n.pipeline.gate.detector;
             match Judged(c.gate, t.pipeline.gate, e, nowMs)
             case PressAccepted =>
               && after == Counting(c.gate.sequence, d, e.observedAtMs) && after.presses < c.gate.sequence.requiredPresses
               && (d.presses == 0 || Continues(c.gate.sequence, d, e.observedAtMs))
             case Restarted => after == Detector(e.observedAtMs, e.observedAtMs, 1) && 1 < c.gate.sequence.requiredPresses
             case RemoteStartRequested => after == NO_PRESSES
             case _ => after == d && c.gate.sequence.minimumGapMs > 0
    ensures DetectorKept(c, n)
  {
    hide Judged;
    hide Continues;
    hide Wrap;
    hide CanFrame.TimestampMs;
  }

  /** The presses kept after an edge are those counted with it, those before it, or none. */
  lemma EdgeCounts(c: PipelineConfig, t: Tracked, f: CanFrame, nowMs: u32)
    requires DetectorKept(c, t) && t.last.Some? && Decoded(c.adapter, t.pipeline.adapter, f) == EvidenceProduced
    ensures var n := Next(c, t, f, nowMs);
            var disturbed := Disturbs(PipelineResultOf(c, t.pipeline, f, nowMs));
            && (n.counted == [] || (!disturbed && n.counted == t.counted) || (!disturbed && n.counted == Counted(c, t, f, nowMs)))
            && n.frames == t.frames + 1 && n.advance == PressOf(c, t, f, nowMs).sequence >= t.advance
            && n.undisturbedFrom == (if disturbed then n.frames else t.undisturbedFrom)
  {
    var e := EvidenceOf(c.adapter, t.pipeline.adapter, f);
    EdgeNext(c, t, f, nowMs);
    if !Disturbs(PipelineResultOf(c, t.pipeline, f, nowMs)) {
      DetectorMoves(c.gate, t.pipeline.gate, e, nowMs);
    }
    hide Next;
    hide Decoded;
    hide PipelineResultOf;
    hide EvidenceOf;
    hide Sub;
    hide Judged;
    hide AfterProcess;
    hide AfterObserve;
    hide Distance;
  }

  lemma {:induction false} CountedBounds(c: PipelineConfig, t: Tracked, f: CanFrame, nowMs: u32)
    requires PressesKept(c, t) && t.last.Some? && t.advance <= PressOf(c, t, f, nowMs).sequence
    ensures forall i :: 0 <= i < |Counted(c, t, f, nowMs)| ==>
              && t.undisturbedFrom <= Counted(c, t, f, nowMs)[i].index <= t.frames
              && Counted(c, t, f, nowMs)[i].sequence <= PressOf(c, t, f, nowMs).sequence
  {
    hide Distance;
    hide Qualified;
    hide Follows;
    hide GapMs;
    hide Continues;
  }

  lemma {:induction false} EdgeKeepsPresses(c: PipelineConfig, t: Tracked, f: CanFrame, nowMs: u32)
    requires Sound(c, t) && t.last.Some? && Decoded(c.adapter, t.pipeline.adapter, f) == EvidenceProduced
    ensures PressesKept(c, Next(c, t, f, nowMs))
  {
    EdgeCounts(c, t, f, nowMs);
    CountedBounds(c, t, f, nowMs);
    if !Disturbs(PipelineResultOf(c, t.pipeline, f, nowMs)) {
      CountedIsTrain(c, t, f, nowMs);
    }
    hide Next;
    hide Decoded;
    hide PipelineResultOf;
    hide CounterKept;
    hide DetectorKept;
    hide Disturbs;
    hide PressOf;
    hide Counted;
    hide Qualified;
    hide Follows;
    hide GapMs;
    assert Train(c, []);
    hide Train;
  }

  lemma Step(c: PipelineConfig, t: Tracked, f: CanFrame, nowMs: u32)
    requires Sound(c, t)
    ensures Sound(c, Next(c, t, f, nowMs))
  {
    CounterStep(c, t, f, nowMs);
    FrameKinds(c, t, f);
    var status := Decoded(c.adapter, t.pipeline.adapter, f);
    if status == EvidenceProduced {
      EdgeKeepsDetector(c, t, f, nowMs);
      EdgeKeepsPresses(c, t, f, nowMs);
    } else {
      QuietStep(c, t, f, nowMs);
    }
    hide *;
    assert Sound(c, Next(c, t, f, nowMs)) by {
      Together(c, Next(c, t, f, nowMs));
    }
  }

  lemma Together(c: PipelineConfig, t: Tracked)
    requires CounterKept(c, t) && DetectorKept(c, t) && PressesKept(c, t)
    ensures Sound(c, t)
  {
  }

  lemma {:induction false} ClearedKept(c: PipelineConfig, n: Tracked)
    requires n.pipeline == FRESH_PIPELINE && n.counted == [] && n.undisturbedFrom == n.frames
    ensures DetectorKept(c, n) && PressesKept(c, n)
  {
  }

  lemma {:induction false} SameKept(c: PipelineConfig, t: Tracked, n: Tracked)
    requires DetectorKept(c, t) && PressesKept(c, t)
    requires n.counted == t.counted && n.pipeline.gate == t.pipeline.gate
    requires n.frames == t.frames + 1 && n.undisturbedFrom == t.undisturbedFrom && n.advance >= t.advance
    ensures DetectorKept(c, n) && PressesKept(c, n)
  {
    hide Train;
  }

  lemma {:induction false} QuietStep(c: PipelineConfig, t: Tracked, f: CanFrame, nowMs: u32)
    requires Sound(c, t) && Decoded(c.adapter, t.pipeline.adapter, f) != EvidenceProduced
    ensures DetectorKept(c, Next(c, t, f, nowMs)) && PressesKept(c, Next(c, t, f, nowMs))
  {
    FrameKinds(c, t, f);
    assert t.last.None? ==> t.counted == [];
    assert FrameAccepted(c, t, f) ==> Decoded(c.adapter, t.pipeline.adapter, f) == NoCommand;
    var status, n := Decoded(c.adapter, t.pipeline.adapter, f), Next(c, t, f, nowMs);
    hide *;
    if RequiresGestureReset(status) {
      RejectionClears(c, t, f, nowMs);
      ClearedKept(c, n);
    } else {
      if status == Ignored || status == Disabled {
        IgnoredKeeps(c, t, f, nowMs);
      } else if t.last.None? {
        PrimedKeeps(c, t, f, nowMs);
      } else {
        NoEdgeKeeps(c, t, f, nowMs);
      }
      SoundKeeps(c, t);
      SameKept(c, t, n);
    }
  }

  lemma SoundKeeps(c: PipelineConfig, t: Tracked)
    requires Sound(c, t)
    ensures DetectorKept(c, t) && PressesKept(c, t)
  {
    hide DetectorKept;
    hide PressesKept;
    hide CounterKept;
  }

  lemma {:induction false} AlwaysSound(c: PipelineConfig, inputs: seq<Input>)
    ensures Sound(c, Run(c, inputs))
  {
    if inputs != [] {
      hide Next;
      hide Sound;
      AlwaysSound(c, inputs[..|inputs| - 1]);
      Step(c, Run(c, inputs[..|inputs| - 1]), inputs[|inputs| - 1].frame, inputs[|inputs| - 1].nowMs);
    }
  }

  // ---------- the expanded counter ----------

  lemma ModulusDividesRange(counter: Counter)
    ensures counter.Modulus() > 0 && TWO32 % counter.Modulus() == 0
  {
    var n := BitCount(counter.mask);
    assert n <= 8;
    hide BitCount;
    if n <= 4 {
      assert Pow2(1) == 2 && Pow2(2) == 4 && Pow2(3) == 8 && Pow2(4) == 16;
    } else {
      assert Pow2(4) == 16;
      assert Pow2(5) == 32 && Pow2(6) == 64;
      assert Pow2(7) == 128 && Pow2(8) == 256;
    }
  }

  lemma WrapKeepsRemainder(primed: nat, advance: nat, m: nat)
    requires 0 < m && TWO32 % m == 0
    ensures (primed + Wrap(advance)) % m == (primed + advance) % m
  {
    var k, q := TWO32 / m, advance / TWO32;
    assert advance == q * TWO32 + Wrap(advance) && TWO32 == k * m;
    assert q * TWO32 == (q * k) * m;
    MultipleVanishes(primed + Wrap(advance), q * k, m);
  }

  lemma MultipleVanishes(x: nat, k: nat, m: nat)
    requires 0 < m
    ensures (x + k * m) % m == x % m
  {
    var q := x / m;
    assert x == q * m + x % m;
    assert (q + k) * m == q * m + k * m;
    RemainderOf(x + k * m, q + k, x % m, m);
  }

  /** In every run the expanded sequence stays congruent to the raw counter minus the one primed on. */
  lemma ExpandedIsCongruent(c: PipelineConfig, inputs: seq<Input>)
    requires Run(c, inputs).last.Some?
    ensures var t := Run(c, inputs);
            (t.primedCounter + t.pipeline.adapter.expandedSequence) % c.adapter.rollingCounter.Modulus()
            == c.adapter.rollingCounter.Of(t.last.value)
  {
    var t := Run(c, inputs);
    AlwaysSound(c, inputs);
    hide Run;
    hide Counter.Of;
    ModulusDividesRange(c.adapter.rollingCounter);
    hide Counter.Modulus;
    WrapKeepsRemainder(t.primedCounter, t.advance, c.adapter.rollingCounter.Modulus());
  }

  // ---------- the presses are frames of the run ----------

  /** The frame is one of the first n inputs. */
  predicate Among(inputs: seq<Input>, n: nat, f: CanFrame) {
    exists k :: 0 <= k < n && k < |inputs| && inputs[k].frame == f
  }

  /** The press is the frame of the run at its index, looked at when it came in, on an edge from an earlier one. */
  predicate IsFrameOf(inputs: seq<Input>, p: Press) {
    p.index < |inputs| && p.frame == inputs[p.index].frame && p.nowMs == inputs[p.index].nowMs
    && Among(inputs, p.index, p.before)
  }

  /** The frames a tracked pipeline remembers are frames of the run. */
  ghost predicate Remembers(inputs: seq<Input>, t: Tracked) {
    && t.frames == |inputs|
    && (t.last.Some? ==> Among(inputs, |inputs|, t.last.value))
    && forall i :: 0 <= i < |t.counted| ==> IsFrameOf(inputs, t.counted[i])
  }

  lemma AmongGrows(inputs: seq<Input>, n: nat, f: CanFrame, last: Input)
    requires Among(inputs, n, f)
    ensures Among(inputs + [last], n, f)
  {
    var k :| 0 <= k < n && k < |inputs| && inputs[k].frame == f;
    assert (inputs + [last])[k].frame == f;
  }

  lemma NewestIsAmong(inputs: seq<Input>, last: Input)
    ensures Among(inputs + [last], |inputs| + 1, last.frame)
    ensures forall f :: Among(inputs, |inputs|, f) ==> Among(inputs + [last], |inputs|, f) && Among(inputs + [last], |inputs| + 1, f)
  {
    assert (inputs + [last])[|inputs|].frame == last.frame;
    forall f | Among(inputs, |inputs|, f)
      ensures Among(inputs + [last], |inputs|, f) && Among(inputs + [last], |inputs| + 1, f)
    {
      AmongGrows(inputs, |inputs|, f, last);
    }
  }

  lemma FramesGrow(inputs: seq<Input>, presses: seq<Press>, last: Input)
    requires forall i :: 0 <= i < |presses| ==> IsFrameOf(inputs, presses[i])
    ensures forall i :: 0 <= i < |presses| ==> IsFrameOf(inputs + [last], presses[i])
  {
    hide Among;
    forall i | 0 <= i < |presses|
      ensures IsFrameOf(inputs + [last], presses[i])
    {
      AmongGrows(inputs, presses[i].index, presses[i].before, last);
    }
  }

  lemma NewPressIsFrame(c: PipelineConfig, t: Tracked, inputs: seq<Input>, last: Input)
    requires Remembers(inputs, t) && t.last.Some?
    ensures IsFrameOf(inputs + [last], PressOf(c, t, last.frame, last.nowMs))
  {
    NewestIsAmong(inputs, last);
    hide Among;
    hide Distance;
  }

  lemma {:induction false} CountedAreFrames(c: PipelineConfig, t: Tracked, inputs: seq<Input>, last: Input)
    requires Remembers(inputs, t) && t.last.Some?
    ensures forall i :: 0 <= i < |Counted(c, t, last.frame, last.nowMs)| ==> IsFrameOf(inputs + [last], Counted(c, t, last.frame, last.nowMs)[i])
  {
    FramesGrow(inputs, t.counted, last);
    NewPressIsFrame(c, t, inputs, last);
    hide IsFrameOf;
    hide PressOf;
    hide Continues;
  }

  lemma {:induction false} NextRemembers(c: PipelineConfig, t: Tracked, inputs: seq<Input>, last: Input)
    requires Remembers(inputs, t)
    ensures Remembers(inputs + [last], Next(c, t, last.frame, last.nowMs))
  {
    NewestIsAmong(inputs, last);
    FramesGrow(inputs, t.counted, last);
    if t.last.Some? {
      NewPressIsFrame(c, t, inputs, last);
    }
    hide Among;
    hide IsFrameOf;
    hide PressOf;
    hide PipelineResultOf;
    hide Decoded;
    hide Distance;
    hide AfterFrame;
    hide Disturbs;
    hide Counter.Of;
  }

  /** Every counted press is the frame of the run at its index, on an edge from an earlier frame of the run. */
  lemma {:induction false} PressesAreFrames(c: PipelineConfig, inputs: seq<Input>)
    ensures Remembers(inputs, Run(c, inputs))
  {
    if inputs == [] {
    } else {
      hide Next;
      hide Remembers;
      var front, last := inputs[..|inputs| - 1], inputs[|inputs| - 1];
      PressesAreFrames(c, front);
      NextRemembers(c, Run(c, front), front, last);
      assert front + [last] == inputs;
    }
  }

  // ---------- the main result ----------

  /**
   * Every remote start request, at any point of any run, is backed by exactly
   * the required number of qualified presses, the last of them this frame: each
   * an inactive-to-active edge in a frame of the run, with a verified source and
   * a secured vehicle, looked at no later than the maximum evidence age after it,
   * at strictly increasing sequence numbers and allowed gaps, all within the
   * window, and nothing but debounced presses rejected since the first of them.
   */
  lemma RequestsAreBacked(c: PipelineConfig, inputs: seq<Input>, f: CanFrame, nowMs: u32)
    requires PipelineResultOf(c, Run(c, inputs).pipeline, f, nowMs) == Evaluated(RemoteStartRequested)
    ensures Run(c, inputs).last.Some?
    ensures var t := Run(c, inputs);
            var presses := Counted(c, t, f, nowMs);
            && Train(c, presses) && |presses| == c.gate.sequence.requiredPresses
            && presses[|presses| - 1].frame == f
            && (forall i :: 0 <= i < |presses| ==> t.undisturbedFrom <= presses[i].index <= t.frames)
            && forall i :: 0 <= i < |presses| ==> IsFrameOf(inputs + [Input(f, nowMs)], presses[i])
  {
    var t := Run(c, inputs);
    AlwaysSound(c, inputs);
    PressesAreFrames(c, inputs);
    hide Run;
    RequestIsBacked(c, t, f, nowMs);
    CountedAreFrames(c, t, inputs, Input(f, nowMs));
    hide Counted;
    hide Train;
    hide IsFrameOf;
    hide PipelineResultOf;
  }

  lemma RequestIsBacked(c: PipelineConfig, t: Tracked, f: CanFrame, nowMs: u32)
    requires Sound(c, t) && PipelineResultOf(c, t.pipeline, f, nowMs) == Evaluated(RemoteStartRequested)
    ensures t.last.Some?
    ensures var presses := Counted(c, t, f, nowMs);
            && Train(c, presses) && |presses| == c.gate.sequence.requiredPresses
            && presses[|presses| - 1].frame == f
            && forall i :: 0 <= i < |presses| ==> t.undisturbedFrom <= presses[i].index <= t.frames
  {
    var e := EvidenceOf(c.adapter, t.pipeline.adapter, f);
    FrameKinds(c, t, f);
    RequestNeedsEdge(c, t.pipeline, f, nowMs);
    CountedIsTrain(c, t, f, nowMs);
    DetectorMoves(c.gate, t.pipeline.gate, e, nowMs);
    CountedEvidence(c.gate, t.pipeline.gate, e, nowMs);
    hide Decoded;
    hide PipelineResultOf;
    hide CounterKept;
    hide Train;
    hide Judged;
    hide AfterProcess;
    hide AfterObserve;
    hide Distance;
    hide Sub;
  }

  lemma RequestNeedsEdge(c: PipelineConfig, p: Pipeline, f: CanFrame, nowMs: u32)
    requires PipelineResultOf(c, p, f, nowMs) == Evaluated(RemoteStartRequested)
    ensures Decoded(c.adapter, p.adapter, f) == EvidenceProduced
    ensures Judged(c.gate, p.gate, EvidenceOf(c.adapter, p.adapter, f), nowMs) == RemoteStartRequested
    ensures EvidenceOf(c.adapter, p.adapter, f).observedAtMs == f.TimestampMs()
  {
    hide Judged;
    hide Decoded;
  }
}

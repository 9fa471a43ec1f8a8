/** Well-timed presses are always recognized: every setting that validates can be met. */
module LockCompleteness {
  import opened CanFrames
  import opened Clock32
  import opened CounterField
  import opened LockAdapter
  import opened LockSequence
  import Settings = UserSettings

  /** A press frame, the real time it is evaluated at, and the release frame after it. */
  datatype Stroke = Stroke(press: CanFrame, evaluatedMs: nat, release: CanFrame)

  /** next carries a fresh counter and is not older than prev. */
  predicate Continuing(c: AdapterConfig, prev: CanFrame, next: CanFrame) {
    && next.IsValid() && c.Addresses(next) && next.dataLength == c.dataLength
    && prev.RealMs() <= next.RealMs() < prev.RealMs() + HALF_RANGE
    && var m := c.rollingCounter.Modulus();
       0 < (c.rollingCounter.Of(next) + m - c.rollingCounter.Of(prev)) % m < m / 2
  }

  predicate GoodStroke(c: PipelineConfig, prev: CanFrame, s: Stroke) {
    && Continuing(c.adapter, prev, s.press) && Continuing(c.adapter, s.press, s.release)
    && c.adapter.lockCommand.Matches(s.press) && !c.adapter.lockCommand.Matches(s.release)
    && c.adapter.vehicleSecured.Matches(s.press)
    && s.press.RealMs() <= s.evaluatedMs <= s.press.RealMs() + c.gate.maximumEvidenceAgeMs
  }

  function Before(prime: CanFrame, strokes: seq<Stroke>, i: nat): CanFrame
    requires i <= |strokes|
  {
    if i == 0 then prime else strokes[i - 1].release
  }

  /** A frame that primes the adapter with the command inactive. */
  predicate Primes(c: PipelineConfig, prime: CanFrame) {
    && prime.IsValid() && c.adapter.Addresses(prime) && prime.dataLength == c.adapter.dataLength
    && !c.adapter.lockCommand.Matches(prime)
  }

  /** A press at an allowed real distance from the previous and the first one. */
  predicate InTrain(c: PipelineConfig, first: Stroke, last: Stroke, s: Stroke) {
    var gap := s.press.RealMs() - last.press.RealMs();
    && 0 < gap < HALF_RANGE && c.gate.sequence.minimumGapMs <= gap <= c.gate.sequence.maximumGapMs
    && 0 <= s.press.RealMs() - first.press.RealMs() <= c.gate.sequence.maximumSequenceMs
    && 0 <= s.evaluatedMs - last.evaluatedMs < HALF_RANGE
  }

  predicate StrokeFits(c: PipelineConfig, prime: CanFrame, strokes: seq<Stroke>, i: nat)
    requires i < |strokes|
  {
    && GoodStroke(c, Before(prime, strokes, i), strokes[i])
    && (i > 0 ==> InTrain(c, strokes[0], strokes[i - 1], strokes[i]))
  }

  ghost predicate GoodTrain(c: PipelineConfig, prime: CanFrame, strokes: seq<Stroke>) {
    Primes(c, prime) && forall i: nat :: i < |strokes| ==> StrokeFits(c, prime, strokes, i)
  }

  predicate Usable(c: PipelineConfig) {
    c.adapter.enabled && c.adapter.IsValid() && c.adapter.trust == Verified && c.gate.IsValid()
  }

  function AfterStrokes(c: PipelineConfig, prime: CanFrame, strokes: seq<Stroke>): Pipeline {
    if strokes == [] then AfterFrame(c, FRESH_PIPELINE, prime, 0)
    else
      var s := strokes[|strokes| - 1];
      var pressed := AfterFrame(c, AfterStrokes(c, prime, strokes[..|strokes| - 1]), s.press, Wrap(s.evaluatedMs));
      AfterFrame(c, pressed, s.release, Wrap(s.evaluatedMs))
  }

  /** The state after k strokes of a train that is not complete yet. */
  predicate Midway(c: PipelineConfig, prime: CanFrame, strokes: seq<Stroke>, p: Pipeline) {
    var last := Before(prime, strokes, |strokes|);
    && p.adapter.initialized && p.adapter.lastTimestampMs == last.TimestampMs() && !p.adapter.lastCommandActive
    && p.adapter.lastRawCounter == c.adapter.rollingCounter.Of(last)
    && (if strokes == [] then p.gate == CLOSED_GATE
        else
          var s := strokes[|strokes| - 1];
          && p.gate.detector == Detector(strokes[0].press.TimestampMs(), s.press.TimestampMs(), |strokes|)
          && p.gate.clockInitialized && p.gate.lastNowMs == Wrap(s.evaluatedMs)
          && p.gate.evidenceInitialized && p.gate.lastObservedMs == s.press.TimestampMs()
          && 0 < Sub(p.adapter.expandedSequence, p.gate.lastSequence) < 0x1000)
  }

  // ---------- modular facts ----------

  lemma NewerInReal(later: nat, earlier: nat)
    requires 0 <= later - earlier < HALF_RANGE
    ensures Sub(Wrap(later), Wrap(earlier)) == later - earlier
    ensures later > earlier ==> StrictlyNewer(Wrap(later), Wrap(earlier))
    ensures Wrap(later) == Wrap(earlier) || StrictlyNewer(Wrap(later), Wrap(earlier))
  {
    SubOfWrapped(later, earlier);
  }

  lemma NotFuture(now: nat, observed: nat)
    requires 0 <= now - observed < HALF_RANGE
    ensures !StrictlyNewer(Wrap(observed), Wrap(now))
  {
    NewerInReal(now, observed);
    assert Sub(Wrap(observed), Wrap(now)) == (if now == observed then 0 else TWO32 - (now - observed));
  }

  lemma SequenceMoves(x: u32, base: u32, d: nat)
    requires 0 <= Sub(x, base) < 0x1000 && 0 < d < 0x1000
    ensures Sub(Wrap(x + d), base) == Sub(x, base) + d
  {
  }

  lemma ModulusBound(counter: Counter)
    ensures 1 <= counter.Modulus() <= 256
  {
    var n := BitCount(counter.mask);
    assert n <= 8;
    hide BitCount;
    assert Pow2(2) == 4 && Pow2(4) == 16 && Pow2(6) == 64 && Pow2(8) == 256;
    PowersGrow(n, 8);
  }

  lemma {:induction false} PowersGrow(m: nat, n: nat)
    requires m <= n
    ensures Pow2(m) <= Pow2(n)
  {
    if m < n {
      PowersGrow(m, n - 1);
    }
  }

  // ---------- one frame, one press ----------

  /** A continuing frame is accepted, and produces evidence exactly on a rising edge. */
  lemma FrameAccepted(c: AdapterConfig, a: Adapter, prev: CanFrame, next: CanFrame)
    requires c.enabled && c.IsValid() && Continuing(c, prev, next)
    requires a.initialized && a.lastTimestampMs == prev.TimestampMs() && a.lastRawCounter == c.rollingCounter.Of(prev)
    ensures Decoded(c, a, next) == (if c.lockCommand.Matches(next) && !a.lastCommandActive then EvidenceProduced else NoCommand)
    ensures 0 < Distance(c, a, next) < 0x100
    ensures AfterDecode(c, a, next)
            == Adapter(next.TimestampMs(), Wrap(a.expandedSequence + Distance(c, a, next)), c.rollingCounter.Of(next),
                       c.lockCommand.Matches(next), true)
  {
    ModulusBound(c.rollingCounter);
    NewerInReal(next.RealMs(), prev.RealMs());
    hide Counter.Modulus;
    hide Counter.Of;
    hide BitMatcher.Matches;
    hide CanFrame.RealMs;
    hide StrictlyNewer;
    hide AdapterConfig.IsValid;
  }

  /** What a train says about its last stroke. */
  lemma LastStroke(c: PipelineConfig, prime: CanFrame, strokes: seq<Stroke>, s: Stroke)
    requires GoodTrain(c, prime, strokes + [s])
    ensures GoodStroke(c, Before(prime, strokes, |strokes|), s)
    ensures strokes != [] ==> InTrain(c, strokes[0], strokes[|strokes| - 1], s)
  {
    var all := strokes + [s];
    hide GoodStroke;
    hide InTrain;
    assert StrokeFits(c, prime, all, |strokes|);
  }

  /** Fresh, secured, verified evidence with newer sequence and time passes every check of the gate. */
  lemma EvidenceAdmitted(c: GateConfig, g: Gate, e: Evidence, nowMs: u32)
    requires c.IsValid() && e.source == VehicleAdapter && e.trust == Verified && e.vehicleSecured
    requires !StrictlyNewer(e.observedAtMs, nowMs) && Sub(nowMs, e.observedAtMs) <= c.maximumEvidenceAgeMs
    requires g.clockInitialized ==> nowMs == g.lastNowMs || StrictlyNewer(nowMs, g.lastNowMs)
    requires g.evidenceInitialized ==>
               StrictlyNewer(e.sourceSequence, g.lastSequence) && StrictlyNewer(e.observedAtMs, g.lastObservedMs)
    ensures Screened(c, g, e, nowMs) == PressAccepted
  {
    NewerIsLater(e.sourceSequence, g.lastSequence);
    hide StrictlyNewer;
    hide Sub;
  }

  /** The press of a good stroke is fresh and newer than the evidence before it. */
  lemma PressAdmitted(c: PipelineConfig, prime: CanFrame, strokes: seq<Stroke>, p: Pipeline, s: Stroke, e: Evidence)
    requires Usable(c) && GoodTrain(c, prime, strokes + [s]) && Midway(c, prime, strokes, p)
    requires e == Evidence(VehicleAdapter, Verified, e.sourceSequence, s.press.TimestampMs(), true)
    requires strokes != [] ==> StrictlyNewer(e.sourceSequence, p.gate.lastSequence)
    ensures Screened(c.gate, p.gate, e, Wrap(s.evaluatedMs)) == PressAccepted
  {
    LastStroke(c, prime, strokes, s);
    hide GoodTrain;
    hide Continuing;
    hide BitMatcher.Matches;
    hide Counter.Of;
    hide Screened;
    NewerInReal(s.evaluatedMs, s.press.RealMs());
    NotFuture(s.evaluatedMs, s.press.RealMs());
    if strokes != [] {
      NewerInReal(s.evaluatedMs, strokes[|strokes| - 1].evaluatedMs);
      NewerInReal(s.press.RealMs(), strokes[|strokes| - 1].press.RealMs());
    }
    hide StrictlyNewer;
    hide Sub;
    hide Wrap;
    EvidenceAdmitted(c.gate, p.gate, e, Wrap(s.evaluatedMs));
  }

  /** The detector counts a press in the train, and completes on the required one. */
  lemma PressCounts(q: SequenceConfig, d: Detector, atMs: u32)
    requires q.IsValid() && d.presses < q.requiredPresses && (d.presses > 0 ==> Continues(q, d, atMs))
    ensures var complete := d.presses + 1 == q.requiredPresses;
            && Observed(q, d, atMs) == (if complete then SequenceCompleted else Accepted)
            && (!complete ==> AfterObserve(q, d, atMs) == Detector(if d.presses == 0 then atMs else d.firstMs, atMs, d.presses + 1))
  {
    hide Sub;
  }

  lemma PressCounted(c: PipelineConfig, prime: CanFrame, strokes: seq<Stroke>, p: Pipeline, s: Stroke)
    requires Usable(c) && GoodTrain(c, prime, strokes + [s]) && Midway(c, prime, strokes, p)
    requires |strokes| < c.gate.sequence.requiredPresses
    ensures var complete := |strokes| + 1 == c.gate.sequence.requiredPresses;
            && Observed(c.gate.sequence, p.gate.detector, s.press.TimestampMs()) == (if complete then SequenceCompleted else Accepted)
            && (!complete ==> AfterObserve(c.gate.sequence, p.gate.detector, s.press.TimestampMs())
                              == Detector((strokes + [s])[0].press.TimestampMs(), s.press.TimestampMs(), |strokes| + 1))
  {
    hide *;
    LastStroke(c, prime, strokes, s);
    MidwayDetector(c, prime, strokes, p, s);
    UsableSequence(c);
    if strokes != [] {
      InTrainContinues(c, strokes[0], strokes[|strokes| - 1], s, p.gate.detector);
    }
    PressCounts(c.gate.sequence, p.gate.detector, s.press.TimestampMs());
  }

  lemma UsableSequence(c: PipelineConfig)
    requires Usable(c)
    ensures c.gate.sequence.IsValid()
  {
  }

  lemma MidwayDetector(c: PipelineConfig, prime: CanFrame, strokes: seq<Stroke>, p: Pipeline, s: Stroke)
    requires Midway(c, prime, strokes, p)
    ensures p.gate.detector.presses == |strokes|
    ensures strokes != [] ==>
              && p.gate.detector.firstMs == strokes[0].press.TimestampMs()
              && p.gate.detector.lastMs == strokes[|strokes| - 1].press.TimestampMs()
    ensures (strokes + [s])[0].press.TimestampMs() == if strokes == [] then s.press.TimestampMs() else strokes[0].press.TimestampMs()
  {
    hide CanFrame.TimestampMs;
  }

  lemma InTrainContinues(c: PipelineConfig, first: Stroke, last: Stroke, s: Stroke, d: Detector)
    requires InTrain(c, first, last, s)
    requires d.firstMs == first.press.TimestampMs() && d.lastMs == last.press.TimestampMs()
    ensures Continues(c.gate.sequence, d, s.press.TimestampMs())
  {
    hide CanFrame.RealMs;
    SmallWrapped(s.press.RealMs(), last.press.RealMs());
    SmallWrapped(s.press.RealMs(), first.press.RealMs());
    hide Wrap;
    hide Sub;
  }

  lemma SmallWrapped(later: nat, earlier: nat)
    requires 0 <= later - earlier < TWO32
    ensures Sub(Wrap(later), Wrap(earlier)) == later - earlier
  {
    SubOfWrapped(later, earlier);
  }

  // ---------- one stroke ----------

  lemma PressStep(c: PipelineConfig, prime: CanFrame, strokes: seq<Stroke>, p: Pipeline, s: Stroke)
    requires Usable(c) && GoodTrain(c, prime, strokes + [s]) && Midway(c, prime, strokes, p)
    requires |strokes| < c.gate.sequence.requiredPresses
    ensures var complete := |strokes| + 1 == c.gate.sequence.requiredPresses;
            var q := AfterFrame(c, p, s.press, Wrap(s.evaluatedMs));
            && PipelineResultOf(c, p, s.press, Wrap(s.evaluatedMs)) == Evaluated(if complete then RemoteStartRequested else PressAccepted)
            && q.adapter.initialized && q.adapter.lastTimestampMs == s.press.TimestampMs()
            && q.adapter.lastRawCounter == c.adapter.rollingCounter.Of(s.press)
            && (!complete ==>
                  q.gate == Gate(Detector((strokes + [s])[0].press.TimestampMs(), s.press.TimestampMs(), |strokes| + 1),
                                 Wrap(s.evaluatedMs), q.adapter.expandedSequence, s.press.TimestampMs(), true, true))
  {
    LastStroke(c, prime, strokes, s);
    var e := EvidenceOf(c.adapter, p.adapter, s.press);
    FrameAccepted(c.adapter, p.adapter, Before(prime, strokes, |strokes|), s.press);
    if strokes != [] {
      SequenceMoves(p.adapter.expandedSequence, p.gate.lastSequence, Distance(c.adapter, p.adapter, s.press));
    }
    hide Decoded;
    hide AfterDecode;
    hide Distance;
    hide Wrap;
    hide Sub;
    hide Counter.Of;
    hide BitMatcher.Matches;
    hide CanFrame.RealMs;
    hide CanFrame.TimestampMs;
    hide Continuing;
    PressAdmitted(c, prime, strokes, p, s, e);
    PressCounted(c, prime, strokes, p, s);
    hide GoodTrain;
    hide Midway;
    hide Screened;
    hide Observed;
    hide AfterObserve;
  }

  lemma {:induction false} ReleaseStep(c: PipelineConfig, prime: CanFrame, strokes: seq<Stroke>, q: Pipeline, s: Stroke)
    requires Usable(c) && GoodStroke(c, Before(prime, strokes, |strokes|), s)
    requires q.adapter.initialized && q.adapter.lastTimestampMs == s.press.TimestampMs()
    requires q.adapter.lastRawCounter == c.adapter.rollingCounter.Of(s.press)
    requires q.gate == Gate(Detector((strokes + [s])[0].press.TimestampMs(), s.press.TimestampMs(), |strokes| + 1),
                            Wrap(s.evaluatedMs), q.adapter.expandedSequence, s.press.TimestampMs(), true, true)
    ensures Midway(c, prime, strokes + [s], AfterFrame(c, q, s.release, Wrap(s.evaluatedMs)))
  {
    FrameAccepted(c.adapter, q.adapter, s.press, s.release);
    SequenceMoves(q.adapter.expandedSequence, q.adapter.expandedSequence, Distance(c.adapter, q.adapter, s.release));
    hide Decoded;
    hide AfterDecode;
    hide Distance;
    hide Wrap;
    hide Counter.Of;
    hide BitMatcher.Matches;
    hide CanFrame.RealMs;
    hide CanFrame.TimestampMs;
    hide Continuing;
    hide AfterProcess;
  }

  lemma StartsMidway(c: PipelineConfig, prime: CanFrame)
    requires Usable(c) && GoodTrain(c, prime, [])
    ensures Midway(c, prime, [], AfterStrokes(c, prime, []))
  {
    hide Counter.Of;
    hide BitMatcher.Matches;
    hide AfterProcess;
    hide CanFrame.TimestampMs;
  }

  lemma TrainPrefix(c: PipelineConfig, prime: CanFrame, strokes: seq<Stroke>, k: nat)
    requires GoodTrain(c, prime, strokes) && k <= |strokes|
    ensures GoodTrain(c, prime, strokes[..k])
  {
    hide GoodStroke;
    hide InTrain;
    hide Primes;
    forall i: nat | i < k
      ensures StrokeFits(c, prime, strokes[..k], i)
    {
      assert StrokeFits(c, prime, strokes, i);
    }
  }

  lemma StrokesStep(c: PipelineConfig, prime: CanFrame, strokes: seq<Stroke>, s: Stroke)
    ensures AfterStrokes(c, prime, strokes + [s])
            == AfterFrame(c, AfterFrame(c, AfterStrokes(c, prime, strokes), s.press, Wrap(s.evaluatedMs)), s.release, Wrap(s.evaluatedMs))
  {
    hide AfterFrame;
    assert (strokes + [s])[..|strokes|] == strokes;
  }

  lemma {:induction false} TrainStaysMidway(c: PipelineConfig, prime: CanFrame, strokes: seq<Stroke>)
    requires Usable(c) && GoodTrain(c, prime, strokes) && |strokes| < c.gate.sequence.requiredPresses
    ensures Midway(c, prime, strokes, AfterStrokes(c, prime, strokes))
  {
    if strokes == [] {
      StartsMidway(c, prime);
    } else {
      var front, s := strokes[..|strokes| - 1], strokes[|strokes| - 1];
      assert strokes == front + [s];
      StrokesStep(c, prime, front, s);
      hide *;
      TrainPrefix(c, prime, strokes, |front|);
      TrainStaysMidway(c, prime, front);
      LastStroke(c, prime, front, s);
      PressStep(c, prime, front, AfterStrokes(c, prime, front), s);
      ReleaseStep(c, prime, front, AfterFrame(c, AfterStrokes(c, prime, front), s.press, Wrap(s.evaluatedMs)), s);
    }
  }

  // ---------- the main results ----------

  /** Of well-timed fresh presses, all but the required one are accepted and the required one requests a start. */
  lemma TrainIsRecognized(c: PipelineConfig, prime: CanFrame, strokes: seq<Stroke>, k: nat)
    requires Usable(c) && GoodTrain(c, prime, strokes) && k < |strokes| <= c.gate.sequence.requiredPresses
    ensures PipelineResultOf(c, AfterStrokes(c, prime, strokes[..k]), strokes[k].press, Wrap(strokes[k].evaluatedMs))
            == Evaluated(if k + 1 == c.gate.sequence.requiredPresses then RemoteStartRequested else PressAccepted)
  {
    hide *;
    TrainPrefix(c, prime, strokes, k + 1);
    assert strokes[..k + 1] == strokes[..k] + [strokes[k]];
    TrainPrefix(c, prime, strokes, k);
    TrainStaysMidway(c, prime, strokes[..k]);
    PressStep(c, prime, strokes[..k], AfterStrokes(c, prime, strokes[..k]), strokes[k]);
  }

  /** The lock timing that valid settings configure. */
  function SequenceOf(s: Settings.UserSettings): SequenceConfig {
    SequenceConfig(s.lockPressCount as nat, s.lockMinimumGapMs as u32, s.lockMaximumGapMs as u32, s.lockMaximumSequenceMs as u32)
  }

  lemma ValidSettingsConfigure(s: Settings.UserSettings)
    requires Settings.Valid(s)
    ensures SequenceOf(s).IsValid() && SequenceOf(s).minimumGapMs >= 50 && 2 <= SequenceOf(s).requiredPresses <= 5
  {
  }

  predicate AtMinimumGap(c: PipelineConfig, last: Stroke, s: Stroke) {
    && s.press.RealMs() == last.press.RealMs() + c.gate.sequence.minimumGapMs
    && 0 <= s.evaluatedMs - last.evaluatedMs < HALF_RANGE
  }

  /** Strokes on qualified frames, pressed exactly the minimum gap apart and evaluated in order. */
  ghost predicate Even(c: PipelineConfig, prime: CanFrame, strokes: seq<Stroke>) {
    && Primes(c, prime)
    && (forall i: nat :: i < |strokes| ==> GoodStroke(c, Before(prime, strokes, i), strokes[i]))
    && (forall i: nat :: 0 < i < |strokes| ==> AtMinimumGap(c, strokes[i - 1], strokes[i]))
  }

  lemma {:induction false} PressTimes(c: PipelineConfig, prime: CanFrame, strokes: seq<Stroke>, i: nat)
    requires Even(c, prime, strokes) && i < |strokes|
    ensures strokes[i].press.RealMs() == strokes[0].press.RealMs() + i * c.gate.sequence.minimumGapMs
  {
    hide GoodStroke;
    hide CanFrame.RealMs;
    hide Primes;
    if i > 0 {
      PressTimes(c, prime, strokes, i - 1);
      assert AtMinimumGap(c, strokes[i - 1], strokes[i]);
      assert (i - 1) * c.gate.sequence.minimumGapMs + c.gate.sequence.minimumGapMs == i * c.gate.sequence.minimumGapMs;
    }
  }

  lemma EvenIsTrain(c: PipelineConfig, prime: CanFrame, strokes: seq<Stroke>)
    requires Even(c, prime, strokes) && c.gate.sequence.IsValid()
    requires 0 < c.gate.sequence.minimumGapMs < HALF_RANGE && |strokes| <= c.gate.sequence.requiredPresses
    ensures GoodTrain(c, prime, strokes)
  {
    hide GoodStroke;
    hide CanFrame.RealMs;
    hide Primes;
    forall i: nat | i < |strokes|
      ensures StrokeFits(c, prime, strokes, i)
    {
      assert GoodStroke(c, Before(prime, strokes, i), strokes[i]);
      if i > 0 {
        assert AtMinimumGap(c, strokes[i - 1], strokes[i]);
        PressTimes(c, prime, strokes, i);
        ProductGrows(i, c.gate.sequence.requiredPresses - 1, c.gate.sequence.minimumGapMs);
      }
    }
  }

  lemma ProductGrows(i: nat, n: nat, gap: nat)
    requires i <= n
    ensures 0 <= i * gap <= n * gap
  {
    assert n * gap == i * gap + (n - i) * gap;
  }

  /**
   * Whatever settings validate, pressing exactly the minimum gap apart, on
   * frames that qualify, requests a remote start on the configured press.
   */
  lemma ValidSettingsAreUsable(
    s: Settings.UserSettings, c: PipelineConfig, prime: CanFrame, strokes: seq<Stroke>)
    requires Settings.Valid(s) && c.gate.sequence == SequenceOf(s) && Usable(c)
    requires Even(c, prime, strokes) && |strokes| == SequenceOf(s).requiredPresses
    ensures var k := |strokes| - 1;
            PipelineResultOf(c, AfterStrokes(c, prime, strokes[..k]), strokes[k].press, Wrap(strokes[k].evaluatedMs))
            == Evaluated(RemoteStartRequested)
  {
    ValidSettingsConfigure(s);
    SmallGap(s);
    hide Settings.Valid;
    hide SequenceOf;
    hide Even;
    hide Usable;
    hide GoodTrain;
    hide PipelineResultOf;
    hide AfterStrokes;
    EvenIsTrain(c, prime, strokes);
    TrainIsRecognized(c, prime, strokes, |strokes| - 1);
  }

  lemma SmallGap(s: Settings.UserSettings)
    requires Settings.Valid(s)
    ensures SequenceOf(s).minimumGapMs < HALF_RANGE
  {
  }
}

/**
 * Whether the gaps behind a remote start request are real: the firmware measures
 * them on a 32-bit clock, and a run exists in which they are not.
 */
module LockGestureTime {
  import opened Bytes
  import opened CanFrames
  import opened Clock32
  import opened CounterField
  import opened LockAdapter
  import opened LockGestureRuns
  import opened LockSequence
  import opened Options

  function RealGap(p: Press, q: Press): int {
    q.frame.RealMs() - p.frame.RealMs()
  }

  /** Reading two instants modulo 2^32 keeps their difference modulo 2^32. */
  lemma WrappedDifference(later: nat, earlier: nat)
    ensures Sub(Wrap(later), Wrap(earlier)) == (later - earlier) % TWO32
  {
    var p, q := later / TWO32, earlier / TWO32;
    assert later == p * TWO32 + Wrap(later) && earlier == q * TWO32 + Wrap(earlier);
    assert later - earlier == (p - q) * TWO32 + (Wrap(later) - Wrap(earlier));
  }

  lemma RemainderIsItself(x: int)
    ensures x % TWO32 == x <==> 0 <= x < TWO32
  {
  }

  /** The gap the gate measures is the real one exactly when that is not negative and below 2^32 ms. */
  lemma GapIsReal(p: Press, q: Press)
    ensures GapMs(p, q) == RealGap(p, q) % TWO32
    ensures GapMs(p, q) == RealGap(p, q) <==> 0 <= RealGap(p, q) < TWO32
  {
    WrappedDifference(q.frame.RealMs(), p.frame.RealMs());
    RemainderIsItself(RealGap(p, q));
    hide CanFrame.RealMs;
    hide Sub;
    hide Wrap;
  }

  /** Every gap and every span the gate measured on the presses is the real one. */
  ghost predicate MeasuredIsReal(presses: seq<Press>) {
    forall i :: 0 < i < |presses| ==>
      && GapMs(presses[i - 1], presses[i]) == RealGap(presses[i - 1], presses[i])
      && GapMs(presses[0], presses[i]) == RealGap(presses[0], presses[i])
  }

  /** The presses meet the configured gaps and window in real time. */
  ghost predicate TimedInReal(s: SequenceConfig, presses: seq<Press>) {
    forall i :: 0 < i < |presses| ==>
      && s.minimumGapMs <= RealGap(presses[i - 1], presses[i]) <= s.maximumGapMs
      && RealGap(presses[0], presses[i]) <= s.maximumSequenceMs
  }

  /** The presses are in order and span less than 2^32 ms. */
  ghost predicate InOneRevolution(presses: seq<Press>) {
    && (forall i :: 0 < i < |presses| ==> 0 <= RealGap(presses[i - 1], presses[i]))
    && (presses != [] ==> RealGap(presses[0], presses[|presses| - 1]) < TWO32)
  }

  lemma {:induction false} OrderedPresses(presses: seq<Press>, i: nat, j: nat)
    requires i <= j < |presses| && forall k :: 0 < k < |presses| ==> 0 <= RealGap(presses[k - 1], presses[k])
    ensures 0 <= RealGap(presses[i], presses[j])
    decreases j
  {
    hide CanFrame.RealMs;
    if i < j {
      OrderedPresses(presses, i, j - 1);
    }
  }

  /** A train of measured presses is one in real time exactly when it stays within one revolution of the clock. */
  lemma {:induction false} TrainIsRealExactly(c: PipelineConfig, presses: seq<Press>)
    requires Train(c, presses)
    ensures MeasuredIsReal(presses) <==> InOneRevolution(presses)
    ensures TimedInReal(c.gate.sequence, presses) <==> InOneRevolution(presses)
  {
    if InOneRevolution(presses) {
      RevolutionIsReal(c, presses);
    }
    hide Qualified;
    hide CanFrame.RealMs;
    hide CanFrame.TimestampMs;
    hide Sub;
    if presses != [] && (MeasuredIsReal(presses) || TimedInReal(c.gate.sequence, presses)) {
      var last := |presses| - 1;
      forall i | 0 < i < |presses|
        ensures 0 <= RealGap(presses[i - 1], presses[i]) && RealGap(presses[0], presses[i]) < TWO32
      {
        assert Follows(c.gate.sequence, presses[i - 1], presses[i]);
      }
      assert last == 0 ==> RealGap(presses[0], presses[last]) == 0;
    }
  }

  lemma {:induction false} RevolutionIsReal(c: PipelineConfig, presses: seq<Press>)
    requires Train(c, presses) && InOneRevolution(presses)
    ensures MeasuredIsReal(presses) && TimedInReal(c.gate.sequence, presses)
  {
    hide Qualified;
    forall i | 0 < i < |presses|
      ensures GapMs(presses[i - 1], presses[i]) == RealGap(presses[i - 1], presses[i])
      ensures GapMs(presses[0], presses[i]) == RealGap(presses[0], presses[i])
      ensures Follows(c.gate.sequence, presses[i - 1], presses[i])
    {
      OrderedPresses(presses, 0, i - 1);
      OrderedPresses(presses, 0, i);
      OrderedPresses(presses, i, |presses| - 1);
      GapIsReal(presses[i - 1], presses[i]);
      GapIsReal(presses[0], presses[i]);
    }
    hide CanFrame.RealMs;
    hide CanFrame.TimestampMs;
    hide Sub;
  }

  // ---------- requests in real time ----------

  /** Frames are stamped in order. */
  ghost predicate Chronological(inputs: seq<Input>) {
    forall i, j :: 0 <= i <= j < |inputs| ==> inputs[i].frame.RealMs() <= inputs[j].frame.RealMs()
  }

  /**
   * The gaps and the window behind a request are real exactly when its presses
   * stay within one revolution of the clock; on frames stamped in order that is
   * exactly when the first of them came less than 2^32 ms before the last.
   */
  lemma RequestsAreReal(c: PipelineConfig, inputs: seq<Input>, f: CanFrame, nowMs: u32)
    requires PipelineResultOf(c, Run(c, inputs).pipeline, f, nowMs) == Evaluated(RemoteStartRequested)
    ensures Run(c, inputs).last.Some?
    ensures var presses := Counted(c, Run(c, inputs), f, nowMs);
            && (MeasuredIsReal(presses) <==> InOneRevolution(presses))
            && (TimedInReal(c.gate.sequence, presses) <==> InOneRevolution(presses))
            && (Chronological(inputs + [Input(f, nowMs)]) ==>
                  (InOneRevolution(presses) <==> f.RealMs() - presses[0].frame.RealMs() < TWO32))
  {
    var t, all := Run(c, inputs), inputs + [Input(f, nowMs)];
    RequestsAreBacked(c, inputs, f, nowMs);
    hide Run;
    hide PipelineResultOf;
    hide Counted;
    hide TimedInReal;
    hide MeasuredIsReal;
    hide CanFrame.RealMs;
    hide Qualified;
    var presses := Counted(c, t, f, nowMs);
    TrainIsRealExactly(c, presses);
    if Chronological(all) {
      forall i | 0 < i < |presses|
        ensures 0 <= RealGap(presses[i - 1], presses[i])
      {
        assert Follows(c.gate.sequence, presses[i - 1], presses[i]);
        assert IsFrameOf(all, presses[i - 1]) && IsFrameOf(all, presses[i]);
      }
    }
  }

  // ---------- presses seven weeks apart ----------

  /** Command, vehicle secured and a two-bit counter, each in a byte of its own; two presses at 80 to 1500 ms. */
  const TWO_PRESSES := PipelineConfig(
    AdapterConfig(true, Verified, 0x123, false, 8, BitMatcher(0, 1, 1), BitMatcher(1, 1, 1), Counter(2, 3)),
    GateConfig(SequenceConfig(2, 80, 1_500, 3_000), 500, false))

  function FrameAt(realMs: nat, command: byte, counter: byte): CanFrame {
    CanFrame(realMs * 1_000, 0, 0, 0x123, 0, 8, false, NO_STATUS, [command, 1, counter, 0, 0, 0, 0, 0])
  }

  function InputAt(realMs: nat, command: byte, counter: byte): Input {
    Input(FrameAt(realMs, command, counter), Wrap(realMs))
  }

  /** Priming, a press and its release. */
  const FIRST_PRESS: seq<Input> := [InputAt(900, 0, 0), InputAt(1_000, 1, 1), InputAt(1_050, 0, 2)]

  /** 2^32 ms and a tenth of a second after the first. */
  const SECOND_PRESS: Input := InputAt(1_000 + TWO32 + 100, 1, 3)

  lemma LowBits(mask: seq<bool>, value: seq<bool>, n: nat)
    requires 2 <= n <= |mask| == |value| && mask[0] && mask[1] && forall i :: 2 <= i < |mask| ==> !mask[i]
    ensures Count(mask, n) == 2
    ensures Pack(mask, value, n) == (if value[0] then 1 else 0) + (if value[1] then 2 else 0)
  {
    assert Count(mask, 1) == 1 && Pow2(Count(mask, 0)) == 1 && Pow2(Count(mask, 1)) == 2;
    if n == 2 {
      assert Pack(mask, value, 1) == if value[0] then 1 else 0;
    } else {
      LowBits(mask, value, n - 1);
    }
  }

  lemma TwoBitCounter(x: byte)
    requires x < 4
    ensures BitCount(3) == 2 && Extracted(3, x) == x as int
  {
    LowBits(OctetBits(3), OctetBits(x), 8);
    assert x == 0 || x == 1 || x == 2 || x == 3;
  }

  lemma FrameReads(realMs: nat, command: byte, counter: byte)
    requires command < 2 && counter < 4
    ensures var f, c := FrameAt(realMs, command, counter), TWO_PRESSES.adapter;
            && c.enabled && c.IsValid() && f.IsValid() && c.Addresses(f) && f.dataLength == c.dataLength
            && f.RealMs() == realMs && c.rollingCounter.Of(f) == counter as int && c.rollingCounter.Modulus() == 4
            && (c.lockCommand.Matches(f) <==> command == 1) && c.vehicleSecured.Matches(f)
  {
    TwoBitCounter(counter);
    hide BitCount;
    hide Extracted;
    assert Pow2(1) == 2 && Pow2(2) == 4;
    assert command == 0 || command == 1;
  }

  /** What the adapter makes of one more frame, one counter value and some time after the last. */
  lemma AdapterStep(a: Adapter, realMs: nat, command: byte, counter: byte)
    requires command < 2 && counter < 4
    requires a.initialized ==> a.lastRawCounter < 4 && (counter as int + 4 - a.lastRawCounter) % 4 == 1
                               && 0 < Sub(Wrap(realMs), a.lastTimestampMs) < HALF_RANGE && a.expandedSequence < 4
    ensures var f, active := FrameAt(realMs, command, counter), command == 1;
            && Decoded(TWO_PRESSES.adapter, a, f)
               == (if !a.initialized then Primed else if active && !a.lastCommandActive then EvidenceProduced else NoCommand)
            && AfterDecode(TWO_PRESSES.adapter, a, f)
               == Adapter(Wrap(realMs), if a.initialized then a.expandedSequence + 1 else a.expandedSequence, counter as int, active, true)
  {
    FrameReads(realMs, command, counter);
    hide BitMatcher.Matches;
    hide Counter.Of;
    hide Counter.Modulus;
    hide AdapterConfig.IsValid;
    hide CanFrame.IsValid;
    hide FrameAt;
  }

  /** The evidence of a press in this configuration. */
  function PressEvidence(sequence: u32, atMs: u32): Evidence {
    Evidence(VehicleAdapter, Verified, sequence, atMs, true)
  }

  lemma EvidenceIs(a: Adapter, realMs: nat, counter: byte)
    requires counter < 4 && a.initialized && a.lastRawCounter < 4 && (counter as int + 4 - a.lastRawCounter) % 4 == 1
    requires 0 < Sub(Wrap(realMs), a.lastTimestampMs) < HALF_RANGE && a.expandedSequence < 4
    ensures EvidenceOf(TWO_PRESSES.adapter, a, FrameAt(realMs, 1, counter)) == PressEvidence(a.expandedSequence + 1, Wrap(realMs))
  {
    AdapterStep(a, realMs, 1, counter);
    FrameReads(realMs, 1, counter);
    hide AfterDecode;
    hide BitMatcher.Matches;
    hide AdapterConfig.IsValid;
  }

  const WAITING := Gate(Detector(1_000, 1_000, 1), 1_000, 1, 1_000, true, true)

  /** The gate counts a first press at one second, and completes on one that looks a tenth of a second later. */
  lemma GateSteps()
    ensures Judged(TWO_PRESSES.gate, CLOSED_GATE, PressEvidence(1, 1_000), 1_000) == PressAccepted
    ensures AfterProcess(TWO_PRESSES.gate, CLOSED_GATE, PressEvidence(1, 1_000), 1_000) == WAITING
    ensures Judged(TWO_PRESSES.gate, WAITING, PressEvidence(3, 1_100), 1_100) == RemoteStartRequested
  {
  }

  /** What a frame that is not rejected does to a tracked pipeline. */
  lemma NextIs(c: PipelineConfig, t: Tracked, f: CanFrame, nowMs: u32)
    requires var status := Decoded(c.adapter, t.pipeline.adapter, f);
             if t.last.None? then status == Primed else status == NoCommand || status == EvidenceProduced
    ensures var n := Next(c, t, f, nowMs);
            && n.last == Some(f) && n.pipeline.adapter == AfterDecode(c.adapter, t.pipeline.adapter, f)
            && (t.last.None? ==> n.counted == [])
            && match Decoded(c.adapter, t.pipeline.adapter, f)
               case EvidenceProduced =>
                 var e := EvidenceOf(c.adapter, t.pipeline.adapter, f);
                 && n.pipeline.gate == AfterProcess(c.gate, t.pipeline.gate, e, nowMs)
                 && (Judged(c.gate, t.pipeline.gate, e, nowMs) == PressAccepted ==>
                       n.counted == t.counted + [PressOf(c, t, f, nowMs)])
               case _ => n.pipeline.gate == t.pipeline.gate && (t.last.Some? ==> n.counted == t.counted)
  {
    hide Judged;
    hide AfterProcess;
    hide Decoded;
    hide AfterDecode;
    hide Distance;
    hide Counter.Of;
  }

  lemma RunMore(c: PipelineConfig, inputs: seq<Input>, last: Input)
    ensures Run(c, inputs + [last]) == Next(c, Run(c, inputs), last.frame, last.nowMs)
  {
    hide Next;
    assert (inputs + [last])[..|inputs|] == inputs;
  }

  lemma RunOfThree(c: PipelineConfig, first: Input, second: Input, third: Input)
    ensures Run(c, [first, second, third])
         == Next(c, Next(c, Next(c, START, first.frame, first.nowMs), second.frame, second.nowMs), third.frame, third.nowMs)
  {
    assert Run(c, []) == START;
    hide *;
    RunMore(c, [], first);
    RunMore(c, [first], second);
    RunMore(c, [first, second], third);
    assert [] + [first] == [first] && [first] + [second] == [first, second];
    assert [first, second] + [third] == [first, second, third];
  }

  lemma PrimedRun()
    ensures var t := Next(TWO_PRESSES, START, FrameAt(900, 0, 0), 900);
            t.pipeline == Pipeline(Adapter(900, 0, 0, false, true), CLOSED_GATE) && t.last.Some? && t.counted == []
  {
    AdapterStep(UNPRIMED, 900, 0, 0);
    hide Next;
    hide Decoded;
    hide AfterDecode;
    hide FrameAt;
    hide TWO_PRESSES;
    NextIs(TWO_PRESSES, START, FrameAt(900, 0, 0), 900);
  }

  lemma PressedRun(t: Tracked)
    requires t.pipeline == Pipeline(Adapter(900, 0, 0, false, true), CLOSED_GATE) && t.last.Some? && t.counted == []
    ensures var n := Next(TWO_PRESSES, t, FrameAt(1_000, 1, 1), 1_000);
            && n.pipeline == Pipeline(Adapter(1_000, 1, 1, true, true), WAITING) && n.last.Some?
            && |n.counted| == 1 && n.counted[0].frame == FrameAt(1_000, 1, 1)
  {
    GateSteps();
    AdapterStep(t.pipeline.adapter, 1_000, 1, 1);
    EvidenceIs(t.pipeline.adapter, 1_000, 1);
    hide *;
    NextIs(TWO_PRESSES, t, FrameAt(1_000, 1, 1), 1_000);
    PressTime(TWO_PRESSES, t, FrameAt(1_000, 1, 1), 1_000);
  }

  lemma ReleasedRun(t: Tracked)
    requires t.pipeline == Pipeline(Adapter(1_000, 1, 1, true, true), WAITING) && t.last.Some?
    ensures var n := Next(TWO_PRESSES, t, FrameAt(1_050, 0, 2), 1_050);
            && n.pipeline == Pipeline(Adapter(1_050, 2, 2, false, true), WAITING)
            && n.last.Some? && n.counted == t.counted
  {
    AdapterStep(t.pipeline.adapter, 1_050, 0, 2);
    hide *;
    NextIs(TWO_PRESSES, t, FrameAt(1_050, 0, 2), 1_050);
  }

  lemma FirstPressCounted()
    ensures var t := Run(TWO_PRESSES, FIRST_PRESS);
            && t.pipeline == Pipeline(Adapter(1_050, 2, 2, false, true), WAITING) && t.last.Some?
            && |t.counted| == 1 && t.counted[0].frame == FrameAt(1_000, 1, 1)
  {
    RunOfThree(TWO_PRESSES, InputAt(900, 0, 0), InputAt(1_000, 1, 1), InputAt(1_050, 0, 2));
    PrimedRun();
    hide Run;
    hide Next;
    hide FrameAt;
    hide TWO_PRESSES;
    hide WAITING;
    var t1 := Next(TWO_PRESSES, START, FrameAt(900, 0, 0), 900);
    PressedRun(t1);
    ReleasedRun(Next(TWO_PRESSES, t1, FrameAt(1_000, 1, 1), 1_000));
  }

  lemma SecondPressReads(a: Adapter)
    requires a == Adapter(1_050, 2, 2, false, true)
    ensures Decoded(TWO_PRESSES.adapter, a, SECOND_PRESS.frame) == EvidenceProduced
    ensures EvidenceOf(TWO_PRESSES.adapter, a, SECOND_PRESS.frame) == PressEvidence(3, 1_100)
    ensures SECOND_PRESS.frame.TimestampMs() == SECOND_PRESS.nowMs == 1_100
  {
    var realMs := 1_000 + TWO32 + 100;
    assert Wrap(realMs) == 1_100;
    AdapterStep(a, realMs, 1, 3);
    EvidenceIs(a, realMs, 3);
    FrameTimes(realMs, 1, 3);
    hide Decoded;
    hide AfterDecode;
    hide EvidenceOf;
    hide FrameAt;
    hide TWO_PRESSES;
  }

  lemma SecondPressCompletes(t: Tracked)
    requires t.pipeline == Pipeline(Adapter(1_050, 2, 2, false, true), WAITING) && t.last.Some? && |t.counted| == 1
    ensures PipelineResultOf(TWO_PRESSES, t.pipeline, SECOND_PRESS.frame, 1_100) == Evaluated(RemoteStartRequested)
    ensures Counted(TWO_PRESSES, t, SECOND_PRESS.frame, SECOND_PRESS.nowMs)
            == t.counted + [PressOf(TWO_PRESSES, t, SECOND_PRESS.frame, SECOND_PRESS.nowMs)]
  {
    GateSteps();
    SecondPressReads(t.pipeline.adapter);
    assert Continues(TWO_PRESSES.gate.sequence, t.pipeline.gate.detector, 1_100);
    hide Judged;
    hide Decoded;
    hide EvidenceOf;
    hide PressEvidence;
    hide SECOND_PRESS;
    hide Continues;
    hide PressOf;
    hide CanFrame.TimestampMs;
    hide TWO_PRESSES;
    hide WAITING;
  }

  lemma PressesInOrder()
    ensures Chronological(FIRST_PRESS + [SECOND_PRESS])
  {
    FrameTimes(900, 0, 0);
    FrameTimes(1_000, 1, 1);
    FrameTimes(1_050, 0, 2);
    FrameTimes(1_000 + TWO32 + 100, 1, 3);
    hide FrameAt;
    hide CanFrame.RealMs;
    hide CanFrame.TimestampMs;
  }

  lemma SecondGap(p: Press, q: Press)
    requires p.frame == FrameAt(1_000, 1, 1) && q.frame == SECOND_PRESS.frame
    ensures RealGap(p, q) == TWO32 + 100 && GapMs(p, q) == 100
  {
    FrameTimes(1_000, 1, 1);
    FrameTimes(1_000 + TWO32 + 100, 1, 3);
    hide FrameAt;
    hide CanFrame.RealMs;
    hide CanFrame.TimestampMs;
  }

  /**
   * A run of the pipeline whose two presses, 2^32 ms and a tenth of a second
   * apart, request a start: they count as a tenth of a second apart.
   */
  lemma {:induction false} WeeksApartAccepted()
    ensures Chronological(FIRST_PRESS + [SECOND_PRESS])
    ensures var t := Run(TWO_PRESSES, FIRST_PRESS);
            && t.last.Some?
            && PipelineResultOf(TWO_PRESSES, t.pipeline, SECOND_PRESS.frame, SECOND_PRESS.nowMs) == Evaluated(RemoteStartRequested)
            && var presses := Counted(TWO_PRESSES, t, SECOND_PRESS.frame, SECOND_PRESS.nowMs);
               && |presses| == 2 && RealGap(presses[0], presses[1]) == TWO32 + 100 && GapMs(presses[0], presses[1]) == 100
  {
    var t := Run(TWO_PRESSES, FIRST_PRESS);
    PressesInOrder();
    FirstPressCounted();
    SecondPressReads(t.pipeline.adapter);
    hide *;
    SecondPressCompletes(t);
    PressTime(TWO_PRESSES, t, SECOND_PRESS.frame, SECOND_PRESS.nowMs);
    SecondGap(t.counted[0], PressOf(TWO_PRESSES, t, SECOND_PRESS.frame, SECOND_PRESS.nowMs));
  }

  lemma FrameTimes(realMs: nat, command: byte, counter: byte)
    ensures FrameAt(realMs, command, counter).RealMs() == realMs && FrameAt(realMs, command, counter).TimestampMs() == Wrap(realMs)
  {
  }
}

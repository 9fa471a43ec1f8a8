/** Replaying a recorded trace into the assembler, and the gateway that does so on request. */
module TraceReplay {
  import opened CanFrames
  import opened Clock32
  import opened Vehicle
  import opened VehicleAssembly

  datatype ReplayStatus = Ready | Complete | InvalidTrace | ConsumerRejected | NonMonotonicTime

  datatype ReplayBatch = ReplayBatch(status: ReplayStatus, emittedFrames: nat, nextFrameIndex: nat)

  /** Every frame valid, time stamps never decreasing. */
  predicate ValidTrace(frames: seq<CanFrame>) {
    && (forall i :: 0 <= i < |frames| ==> frames[i].IsValid())
    && (forall i :: 0 < i < |frames| ==> frames[i - 1].timestampUs <= frames[i].timestampUs)
  }

  datatype Setup = Setup(frames: seq<CanFrame>, decode: Decoder)

  /** How far a replay has come. */
  datatype Replay = Replay(cursor: nat, assembly: Assembly)

  const REWOUND := Replay(0, NOTHING_OBSERVED)

  predicate Due(s: Setup, r: Replay, elapsedUs: nat) {
    r.cursor < |s.frames| && s.frames[r.cursor].timestampUs <= elapsedUs
  }

  /** Replaying every due frame up to the first one the assembler rejects. */
  function Advanced(s: Setup, r: Replay, elapsedUs: nat): (n: Replay)
    ensures r.cursor <= n.cursor
    ensures r.cursor <= |s.frames| ==> n.cursor <= |s.frames|
    decreases |s.frames| - r.cursor
  {
    if !Due(s, r, elapsedUs) then r
    else if !Accepted(s.decode, s.frames[r.cursor]) then
      Replay(r.cursor, Consumed(s.decode, r.assembly, s.frames[r.cursor]))
    else Advanced(s, Replay(r.cursor + 1, Consumed(s.decode, r.assembly, s.frames[r.cursor])), elapsedUs)
  }

  /** The advance stopped at a due frame that the assembler rejected. */
  predicate Stuck(s: Setup, r: Replay, elapsedUs: nat) {
    Due(s, Advanced(s, r, elapsedUs), elapsedUs)
  }

  function BatchAfter(s: Setup, r: Replay, elapsedUs: nat): ReplayBatch {
    var n := Advanced(s, r, elapsedUs);
    ReplayBatch(
      if Stuck(s, r, elapsedUs) then ConsumerRejected else if n.cursor == |s.frames| then Complete else Ready,
      n.cursor - r.cursor, n.cursor)
  }

  // ---------- incremental and one-shot replay ----------

  lemma {:induction false} StoppedAtRejection(s: Setup, r: Replay, elapsedUs: nat)
    requires Stuck(s, r, elapsedUs)
    ensures !Accepted(s.decode, s.frames[Advanced(s, r, elapsedUs).cursor])
    decreases |s.frames| - r.cursor
  {
    hide Consumed;
    hide Accepted;
    if Due(s, r, elapsedUs) && Accepted(s.decode, s.frames[r.cursor]) {
      StoppedAtRejection(s, Replay(r.cursor + 1, Consumed(s.decode, r.assembly, s.frames[r.cursor])), elapsedUs);
    }
  }

  /** Statistics apart, two replays agree. */
  predicate SameSignals(a: Replay, b: Replay) {
    a.cursor == b.cursor && a.assembly.stored == b.assembly.stored
  }

  lemma ConsumeSameSignals(s: Setup, a: Replay, b: Replay, f: CanFrame)
    requires SameSignals(a, b)
    ensures Consumed(s.decode, a.assembly, f).stored == Consumed(s.decode, b.assembly, f).stored
  {
  }

  lemma {:induction false} AdvanceSameSignals(s: Setup, a: Replay, b: Replay, elapsedUs: nat)
    requires SameSignals(a, b)
    ensures SameSignals(Advanced(s, a, elapsedUs), Advanced(s, b, elapsedUs))
    decreases |s.frames| - a.cursor
  {
    if Due(s, a, elapsedUs) {
      var f := s.frames[a.cursor];
      ConsumeSameSignals(s, a, b, f);
      hide Consumed;
      hide Accepted;
      if Accepted(s.decode, f) {
        AdvanceSameSignals(s, Replay(a.cursor + 1, Consumed(s.decode, a.assembly, f)),
                           Replay(b.cursor + 1, Consumed(s.decode, b.assembly, f)), elapsedUs);
      }
    }
  }

  /** Advancing in two steps, when the first one was not stopped by a rejection, is advancing in one, statistics included. */
  lemma {:induction false} AdvanceInTwo(s: Setup, r: Replay, firstUs: nat, secondUs: nat)
    requires firstUs <= secondUs && !Stuck(s, r, firstUs)
    ensures Advanced(s, Advanced(s, r, firstUs), secondUs) == Advanced(s, r, secondUs)
    decreases |s.frames| - r.cursor
  {
    hide Consumed;
    hide Accepted;
    if Due(s, r, firstUs) {
      AdvanceInTwo(s, Replay(r.cursor + 1, Consumed(s.decode, r.assembly, s.frames[r.cursor])), firstUs, secondUs);
    }
  }

  lemma RejectedKeepsSignals(s: Setup, a: Assembly, f: CanFrame)
    requires !Accepted(s.decode, f)
    ensures Consumed(s.decode, a, f).stored == a.stored
    ensures Consumed(s.decode, a, f).statistics
            == a.statistics.(consumed := Wrap(a.statistics.consumed + 1), rejected := Wrap(a.statistics.rejected + 1))
  {
    NothingApplied(a.stored, f.TimestampMs());
  }

  /** A stop at a rejected frame is reached by any later advance, which rejects the same frame. */
  lemma {:induction false} StuckAgain(s: Setup, r: Replay, firstUs: nat, secondUs: nat)
    requires firstUs <= secondUs && Stuck(s, r, firstUs)
    ensures Advanced(s, r, secondUs) == Advanced(s, r, firstUs)
    decreases |s.frames| - r.cursor
  {
    hide Consumed;
    hide Accepted;
    if Due(s, r, firstUs) && Accepted(s.decode, s.frames[r.cursor]) {
      StuckAgain(s, Replay(r.cursor + 1, Consumed(s.decode, r.assembly, s.frames[r.cursor])), firstUs, secondUs);
    }
  }

  /**
   * Replaying to one time and then to a later one always leaves the cursor and
   * the signals of replaying to the later time at once; it leaves the same
   * statistics exactly when the first replay was not stopped by a rejected
   * frame, which the second would offer and count again.
   */
  lemma IncrementalIsOneShot(s: Setup, r: Replay, firstUs: nat, secondUs: nat)
    requires firstUs <= secondUs
    ensures var two, one := Advanced(s, Advanced(s, r, firstUs), secondUs), Advanced(s, r, secondUs);
            && SameSignals(two, one)
            && (two.assembly.statistics == one.assembly.statistics <==> !Stuck(s, r, firstUs))
  {
    var n := Advanced(s, r, firstUs);
    if Stuck(s, r, firstUs) {
      StoppedAtRejection(s, r, firstUs);
      StuckAgain(s, r, firstUs, secondUs);
      RejectedKeepsSignals(s, n.assembly, s.frames[n.cursor]);
    } else {
      AdvanceInTwo(s, r, firstUs, secondUs);
    }
  }

  function AdvancedThrough(s: Setup, r: Replay, times: seq<nat>): Replay {
    if times == [] then r else Advanced(s, AdvancedThrough(s, r, times[..|times| - 1]), times[|times| - 1])
  }

  predicate NonDecreasing(times: seq<nat>) {
    forall i :: 0 < i < |times| ==> times[i - 1] <= times[i]
  }

  predicate AllAccepted(s: Setup) {
    forall i :: 0 <= i < |s.frames| ==> Accepted(s.decode, s.frames[i])
  }

  lemma NeverStuck(s: Setup, r: Replay, elapsedUs: nat)
    requires AllAccepted(s)
    ensures !Stuck(s, r, elapsedUs)
  {
    hide Accepted;
    if Stuck(s, r, elapsedUs) {
      StoppedAtRejection(s, r, elapsedUs);
    }
  }

  /** On a trace whose frames are all accepted, any non-decreasing times leave what the last one leaves alone. */
  lemma {:induction false} ManyStepsAreOne(s: Setup, r: Replay, times: seq<nat>)
    requires AllAccepted(s) && NonDecreasing(times) && times != []
    ensures AdvancedThrough(s, r, times) == Advanced(s, r, times[|times| - 1])
  {
    hide AllAccepted;
    hide Advanced;
    var front := times[..|times| - 1];
    if front == [] {
      assert AdvancedThrough(s, r, front) == r;
    } else {
      ManyStepsAreOne(s, r, front);
      NeverStuck(s, r, front[|front| - 1]);
      AdvanceInTwo(s, r, front[|front| - 1], times[|times| - 1]);
    }
  }

  // ---------- what the signals are ----------

  /** The assembly after the first n frames, all accepted or passed over. */
  function AssembledTo(s: Setup, n: nat): Assembly
    requires n <= |s.frames|
  {
    if n == 0 then NOTHING_OBSERVED else Consumed(s.decode, AssembledTo(s, n - 1), s.frames[n - 1])
  }

  lemma {:induction false} ReplayAssembles(s: Setup, r: Replay, elapsedUs: nat)
    requires r.cursor <= |s.frames| && r.assembly.stored == AssembledTo(s, r.cursor).stored
    ensures Advanced(s, r, elapsedUs).assembly.stored == AssembledTo(s, Advanced(s, r, elapsedUs).cursor).stored
    decreases |s.frames| - r.cursor
  {
    hide Consumed;
    hide Accepted;
    if Due(s, r, elapsedUs) {
      var f := s.frames[r.cursor];
      if Accepted(s.decode, f) {
        ConsumeSameSignals(s, r, Replay(r.cursor, AssembledTo(s, r.cursor)), f);
        ReplayAssembles(s, Replay(r.cursor + 1, Consumed(s.decode, r.assembly, f)), elapsedUs);
      } else {
        RejectedKeepsSignals(s, r.assembly, f);
      }
    }
  }

  /** Frame i is the last of the first n to carry the signal, with this value. */
  ghost predicate LastCarrier(s: Setup, n: nat, i: nat, signal: VehicleSignal, value: int)
    requires n <= |s.frames|
  {
    && i < n && Carries(BatchOf(s.decode, s.frames[i]), signal, value)
    && forall j, v :: i < j < n ==> !Carries(BatchOf(s.decode, s.frames[j]), signal, v)
  }

  ghost predicate NeverCarried(s: Setup, n: nat, signal: VehicleSignal)
    requires n <= |s.frames|
  {
    forall j, v :: 0 <= j < n ==> !Carries(BatchOf(s.decode, s.frames[j]), signal, v)
  }

  /** Every stored signal is that of the last frame carrying it, at that frame's time; a signal never carried is absent. */
  lemma {:induction false} LastFrameWins(s: Setup, n: nat, signal: VehicleSignal)
    requires n <= |s.frames|
    ensures NeverCarried(s, n, signal) ==> signal !in AssembledTo(s, n).stored
    ensures forall i: nat, value :: LastCarrier(s, n, i, signal, value) ==>
              signal in AssembledTo(s, n).stored && AssembledTo(s, n).stored[signal] == StoredSignal(value, s.frames[i].TimestampMs())
  {
    hide Consumed;
    hide BatchOf;
    hide Carries;
    if n > 0 {
      var f, before := s.frames[n - 1], AssembledTo(s, n - 1);
      LastFrameWins(s, n - 1, signal);
      ConsumedSignal(s.decode, before, f, signal, 0);
      forall i: nat, value | LastCarrier(s, n, i, signal, value)
        ensures signal in AssembledTo(s, n).stored && AssembledTo(s, n).stored[signal] == StoredSignal(value, s.frames[i].TimestampMs())
      {
        ConsumedSignal(s.decode, before, f, signal, value);
        if i < n - 1 {
          assert LastCarrier(s, n - 1, i, signal, value);
        }
      }
    }
  }

  /** So after any replay each stored signal is that of the last replayed frame carrying it, and one never carried is absent. */
  lemma ReplayedSignalsAreLast(s: Setup, elapsedUs: nat, signal: VehicleSignal)
    ensures var n := Advanced(s, REWOUND, elapsedUs);
            && n.cursor <= |s.frames|
            && (NeverCarried(s, n.cursor, signal) ==> signal !in n.assembly.stored)
            && forall i: nat, value :: LastCarrier(s, n.cursor, i, signal, value) ==>
                 signal in n.assembly.stored && n.assembly.stored[signal] == StoredSignal(value, s.frames[i].TimestampMs())
  {
    hide LastCarrier;
    hide NeverCarried;
    ReplayAssembles(s, REWOUND, elapsedUs);
    LastFrameWins(s, Advanced(s, REWOUND, elapsedUs).cursor, signal);
    hide Advanced;
  }

  // ---------- freshness on the trace's clock ----------

  /** No stored signal is newer than the time replayed to. */
  ghost predicate NotAhead(stored: Signals, elapsedMs: u32) {
    forall s :: s in stored ==> stored[s].observedAtMs <= elapsedMs
  }

  lemma {:induction false} AppliedNotAhead(stored: Signals, batch: seq<DecodedSignal>, atMs: u32, elapsedMs: u32)
    requires NotAhead(stored, elapsedMs) && atMs <= elapsedMs
    ensures NotAhead(Applied(stored, batch, atMs), elapsedMs)
  {
    if batch != [] {
      AppliedNotAhead(stored, batch[..|batch| - 1], atMs, elapsedMs);
    }
  }

  lemma DueTimestamp(f: CanFrame, elapsedMs: u32)
    requires f.timestampUs <= elapsedMs * 1_000
    ensures f.TimestampMs() == f.RealMs() <= elapsedMs
  {
  }

  lemma {:induction false} ReplayNotAhead(s: Setup, r: Replay, elapsedMs: u32)
    requires NotAhead(r.assembly.stored, elapsedMs)
    ensures NotAhead(Advanced(s, r, elapsedMs * 1_000).assembly.stored, elapsedMs)
    decreases |s.frames| - r.cursor
  {
    if Due(s, r, elapsedMs * 1_000) {
      var f := s.frames[r.cursor];
      DueTimestamp(f, elapsedMs);
      AppliedNotAhead(r.assembly.stored, BatchOf(s.decode, f), f.TimestampMs(), elapsedMs);
      hide NotAhead;
      hide Applied;
      hide BatchOf;
      hide Accepted;
      if Accepted(s.decode, f) {
        ReplayNotAhead(s, Replay(r.cursor + 1, Consumed(s.decode, r.assembly, f)), elapsedMs);
      }
    }
  }

  /** So on a replay the modular age is the real one, and a signal is fresh exactly when its real age is allowed. */
  lemma ReplayAgeIsReal(s: Setup, r: Replay, elapsedMs: u32, signal: VehicleSignal, maximumAgeMs: u32)
    requires NotAhead(r.assembly.stored, elapsedMs)
    ensures var stored := Advanced(s, r, elapsedMs * 1_000).assembly.stored;
            && (signal in stored ==> stored[signal].observedAtMs <= elapsedMs)
            && (QualityOf(stored, signal, elapsedMs, maximumAgeMs) == Fresh
                <==> signal in stored && elapsedMs - stored[signal].observedAtMs <= maximumAgeMs)
  {
    hide Advanced;
    hide NotAhead;
    hide QualityOf;
    ReplayNotAhead(s, r, elapsedMs);
    FreshByAge(Advanced(s, r, elapsedMs * 1_000).assembly.stored, elapsedMs, signal, maximumAgeMs);
  }

  lemma FreshByAge(stored: Signals, elapsedMs: u32, signal: VehicleSignal, maximumAgeMs: u32)
    requires NotAhead(stored, elapsedMs)
    ensures signal in stored ==> stored[signal].observedAtMs <= elapsedMs
    ensures QualityOf(stored, signal, elapsedMs, maximumAgeMs) == Fresh
            <==> signal in stored && elapsedMs - stored[signal].observedAtMs <= maximumAgeMs
  {
    if signal in stored {
      assert Sub(elapsedMs, stored[signal].observedAtMs) == elapsedMs - stored[signal].observedAtMs;
    }
  }
}

/** Where a replay stops and what the gateway reports, on the frames and the times alone. */
module ReplayVerdicts {
  import opened CanFrames
  import opened Clock32
  import opened TraceReplay
  import opened TraceReplayObjects
  import opened VehicleAssembly

  /** What keeps a trace from being replayed: a malformed frame, or time running back. */
  ghost predicate Unusable(frames: seq<CanFrame>) {
    || (exists i :: 0 <= i < |frames| && Malformed(frames[i]))
    || exists i, j :: 0 <= i < j < |frames| && frames[i].timestampUs > frames[j].timestampUs
  }

  lemma {:induction false} InOrder(frames: seq<CanFrame>, i: nat, j: nat)
    requires i <= j < |frames| && forall k :: 0 < k < |frames| ==> frames[k - 1].timestampUs <= frames[k].timestampUs
    ensures frames[i].timestampUs <= frames[j].timestampUs
    decreases j
  {
    if i < j {
      InOrder(frames, i, j - 1);
    }
  }

  /** A trace is valid exactly when no frame is malformed and no two are out of order. */
  lemma TraceExactly(frames: seq<CanFrame>)
    ensures ValidTrace(frames) <==> !Unusable(frames)
  {
    if ValidTrace(frames) {
      forall i, j | 0 <= i < j < |frames|
        ensures frames[i].timestampUs <= frames[j].timestampUs
      {
        InOrder(frames, i, j);
      }
    }
    if !Unusable(frames) {
      forall i | 0 < i < |frames|
        ensures frames[i - 1].timestampUs <= frames[i].timestampUs
      {
        assert !(frames[i - 1].timestampUs > frames[i].timestampUs);
      }
    }
  }

  /** The frames passed over were due and accepted, and the next one, if any, is not due or not accepted. */
  lemma {:induction false} StopsExactly(s: Setup, r: Replay, elapsedUs: nat)
    requires r.cursor <= |s.frames|
    ensures var n := Advanced(s, r, elapsedUs);
            && r.cursor <= n.cursor <= |s.frames|
            && (forall i :: r.cursor <= i < n.cursor ==> s.frames[i].timestampUs <= elapsedUs && Accepted(s.decode, s.frames[i]))
            && (n.cursor < |s.frames| ==>
                  s.frames[n.cursor].timestampUs > elapsedUs || !Accepted(s.decode, s.frames[n.cursor]))
    decreases |s.frames| - r.cursor
  {
    hide Accepted;
    hide Consumed;
    if Due(s, r, elapsedUs) && Accepted(s.decode, s.frames[r.cursor]) {
      StopsExactly(s, Replay(r.cursor + 1, Consumed(s.decode, r.assembly, s.frames[r.cursor])), elapsedUs);
    }
  }

  /** A batch counts the frames passed over and reports why it stopped. */
  lemma BatchExactly(s: Setup, r: Replay, elapsedUs: nat)
    requires r.cursor <= |s.frames|
    ensures var n, batch := Advanced(s, r, elapsedUs).cursor, BatchAfter(s, r, elapsedUs);
            && batch.emittedFrames == n - r.cursor && batch.nextFrameIndex == n
            && (batch.status == Complete <==> n == |s.frames|)
            && (batch.status == ConsumerRejected <==> n < |s.frames| && s.frames[n].timestampUs <= elapsedUs)
            && (batch.status == Ready <==> n < |s.frames| && s.frames[n].timestampUs > elapsedUs)
  {
    StopsExactly(s, r, elapsedUs);
    hide Advanced;
    hide Accepted;
  }

  /** A time before the last one is refused, stops the gateway and is reported; any other becomes the time. */
  lemma TimeExactly(g: Gateway, elapsedMs: u32)
    ensures var n := AfterTime(g, elapsedMs);
            && n.replay == g.replay
            && if elapsedMs >= g.elapsedMs then
                 n.elapsedMs == elapsedMs && n.timeIsValid == g.timeIsValid && n.lastBatch == g.lastBatch
               else
                 && n.elapsedMs == g.elapsedMs && !n.timeIsValid
                 && n.lastBatch.status == NonMonotonicTime && n.lastBatch.emittedFrames == 0
                 && n.lastBatch.nextFrameIndex == g.lastBatch.nextFrameIndex
  {
  }

  /** A request replays to the gateway's time exactly when time never ran back and the trace is usable; else it moves nothing and says why. */
  lemma RequestExactly(s: Setup, g: Gateway)
    requires g.replay.cursor <= |s.frames|
    ensures var n := AfterRequest(s, g);
            && n.elapsedMs == g.elapsedMs && n.timeIsValid == g.timeIsValid
            && (n.lastBatch.status == NonMonotonicTime <==> !g.timeIsValid)
            && (n.lastBatch.status == InvalidTrace <==> g.timeIsValid && Unusable(s.frames))
            && (if g.timeIsValid && !Unusable(s.frames) then
                  && n.replay == Advanced(s, g.replay, g.elapsedMs * 1_000)
                  && n.lastBatch == BatchAfter(s, g.replay, g.elapsedMs * 1_000)
                else
                  n.replay == g.replay && n.lastBatch.emittedFrames == 0)
  {
    TraceExactly(s.frames);
    BatchExactly(s, g.replay, g.elapsedMs * 1_000);
    hide Unusable;
    hide ValidTrace;
    hide Advanced;
    hide BatchAfter;
  }
}

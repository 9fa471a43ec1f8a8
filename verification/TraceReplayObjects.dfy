/** The replay and the replay gateway as objects. */
module TraceReplayObjects {
  import opened CanFrames
  import opened Clock32
  import opened TraceReplay
  import opened Vehicle
  import opened VehicleAssembly

  class CanTraceReplay {
    const frames: seq<CanFrame>
    const isValid: bool
    var cursor: nat

    constructor (frames: seq<CanFrame>)
      ensures this.frames == frames && isValid == ValidTrace(frames) && cursor == 0
    {
      this.frames, cursor := frames, 0;
      var valid := true;
      for index := 0 to |frames|
        invariant valid ==> forall i :: 0 <= i < index ==> frames[i].IsValid()
        invariant valid ==> forall i :: 0 < i < index ==> frames[i - 1].timestampUs <= frames[i].timestampUs
        invariant !valid ==> !ValidTrace(frames)
      {
        if !frames[index].IsValid() || (index > 0 && frames[index].timestampUs < frames[index - 1].timestampUs) {
          valid := false;
        }
      }
      isValid := valid;
    }

    function Configured(decode: Decoder): Setup {
      Setup(frames, decode)
    }

    /** Emits every due frame until one is rejected; an invalid trace emits nothing. */
    method AdvanceTo(elapsedMs: u32, consumer: VehicleStateAssembler) returns (batch: ReplayBatch)
      requires cursor <= |frames|
      modifies this, consumer
      ensures cursor <= |frames|
      ensures !isValid ==> batch == ReplayBatch(InvalidTrace, 0, cursor) && cursor == old(cursor) && consumer.State() == old(consumer.State())
      ensures isValid ==>
                && Replay(cursor, consumer.State())
                   == Advanced(Configured(consumer.decode), Replay(old(cursor), old(consumer.State())), elapsedMs * 1_000)
                && batch == BatchAfter(Configured(consumer.decode), Replay(old(cursor), old(consumer.State())), elapsedMs * 1_000)
    {
      hide Consumed;
      hide Accepted;
      if !isValid {
        return ReplayBatch(InvalidTrace, 0, cursor);
      }
      var elapsedUs := elapsedMs * 1_000;
      ghost var s, start := Configured(consumer.decode), Replay(cursor, consumer.State());
      var emitted := 0;
      while cursor < |frames| && frames[cursor].timestampUs <= elapsedUs
        invariant cursor <= |frames| && emitted == cursor - old(cursor)
        invariant Advanced(s, Replay(cursor, consumer.State()), elapsedUs) == Advanced(s, start, elapsedUs)
        decreases |frames| - cursor
      {
        var ok := consumer.Consume(frames[cursor]);
        if !ok {
          return ReplayBatch(ConsumerRejected, emitted, cursor);
        }
        cursor, emitted := cursor + 1, emitted + 1;
      }
      return ReplayBatch(if cursor == |frames| then Complete else Ready, emitted, cursor);
    }

    method Reset()
      modifies this
      ensures cursor == 0
    {
      cursor := 0;
    }
  }

  // ---------- the gateway ----------

  datatype Gateway = Gateway(replay: Replay, elapsedMs: u32, timeIsValid: bool, lastBatch: ReplayBatch)

  function Opened(s: Setup): Gateway {
    Gateway(REWOUND, 0, true, ReplayBatch(if ValidTrace(s.frames) then Ready else InvalidTrace, 0, 0))
  }

  function AfterTime(g: Gateway, elapsedMs: u32): Gateway {
    if elapsedMs < g.elapsedMs then
      g.(timeIsValid := false, lastBatch := g.lastBatch.(status := NonMonotonicTime, emittedFrames := 0))
    else g.(elapsedMs := elapsedMs)
  }

  function AfterRequest(s: Setup, g: Gateway): Gateway {
    if !g.timeIsValid then g.(lastBatch := g.lastBatch.(status := NonMonotonicTime, emittedFrames := 0))
    else if !ValidTrace(s.frames) then g.(lastBatch := ReplayBatch(InvalidTrace, 0, g.replay.cursor))
    else g.(replay := Advanced(s, g.replay, g.elapsedMs * 1_000), lastBatch := BatchAfter(s, g.replay, g.elapsedMs * 1_000))
  }

  class ReplayVehicleGateway {
    const replay: CanTraceReplay
    const assembler: VehicleStateAssembler
    var elapsedMs: u32
    var timeIsValid: bool
    var lastBatch: ReplayBatch

    constructor (frames: seq<CanFrame>, decode: Decoder, freshness: Freshness)
      ensures fresh(replay) && fresh(assembler) && Valid()
      ensures Configured() == Setup(frames, decode) && State() == Opened(Configured())
    {
      replay := new CanTraceReplay(frames);
      assembler := new VehicleStateAssembler(decode, freshness);
      elapsedMs, timeIsValid := 0, true;
      lastBatch := ReplayBatch(Ready, 0, 0);
      new;
      lastBatch := ReplayBatch(if replay.isValid then Ready else InvalidTrace, 0, 0);
    }

    ghost predicate Valid()
      reads this, replay
    {
      replay.cursor <= |replay.frames| && replay.isValid == ValidTrace(replay.frames)
    }

    function Configured(): Setup {
      Setup(replay.frames, assembler.decode)
    }

    function State(): Gateway
      reads this, replay, assembler
    {
      Gateway(Replay(replay.cursor, assembler.State()), elapsedMs, timeIsValid, lastBatch)
    }

    method SetElapsedTime(elapsed: u32) returns (ok: bool)
      modifies this
      ensures ok == (elapsed >= old(elapsedMs)) && State() == AfterTime(old(State()), elapsed)
    {
      if elapsed < elapsedMs {
        timeIsValid := false;
        lastBatch := lastBatch.(status := NonMonotonicTime, emittedFrames := 0);
        return false;
      }
      elapsedMs := elapsed;
      return true;
    }

    method RequestState() returns (ok: bool)
      requires Valid()
      modifies this, replay, assembler
      ensures Valid() && State() == AfterRequest(Configured(), old(State()))
      ensures ok == (lastBatch.status == Ready || lastBatch.status == Complete)
    {
      hide Advanced;
      hide BatchAfter;
      hide ValidTrace;
      if !timeIsValid {
        lastBatch := lastBatch.(status := NonMonotonicTime, emittedFrames := 0);
        return false;
      }
      lastBatch := replay.AdvanceTo(elapsedMs, assembler);
      return lastBatch.status == Ready || lastBatch.status == Complete;
    }

    method Reset()
      modifies this, replay, assembler
      requires Valid()
      ensures Valid() && State() == Opened(Configured())
    {
      replay.Reset();
      assembler.Reset();
      elapsedMs, timeIsValid := 0, true;
      lastBatch := ReplayBatch(if replay.isValid then Ready else InvalidTrace, 0, 0);
    }

    function Snapshot(): VehicleState
      reads this, assembler
    {
      VehicleAssembly.Snapshot(assembler.freshness, assembler.stored, elapsedMs)
    }
  }

  // ---------- a gateway asked again and again ----------

  function AfterRequests(s: Setup, g: Gateway, times: seq<u32>): Gateway {
    if times == [] then g
    else AfterRequest(s, AfterTime(AfterRequests(s, g, times[..|times| - 1]), times[|times| - 1]))
  }

  /** Time that once ran backwards is refused until a reset, whatever is asked later. */
  lemma {:induction false} TimeStaysInvalid(s: Setup, g: Gateway, times: seq<u32>)
    requires !g.timeIsValid
    ensures !AfterRequests(s, g, times).timeIsValid && AfterRequests(s, g, times).replay == g.replay
    ensures times != [] ==> AfterRequests(s, g, times).lastBatch.status == NonMonotonicTime
  {
    hide Advanced;
    hide BatchAfter;
    if times != [] {
      TimeStaysInvalid(s, g, times[..|times| - 1]);
    }
  }

  function Microseconds(times: seq<u32>): seq<nat> {
    seq(|times|, i requires 0 <= i < |times| => (times[i] as int) * 1_000)
  }

  /** Requests at non-decreasing times replay exactly what advancing through those times does. */
  lemma {:induction false} RequestsAdvance(s: Setup, times: seq<u32>)
    requires ValidTrace(s.frames) && forall i :: 0 < i < |times| ==> times[i - 1] <= times[i]
    ensures var g := AfterRequests(s, Opened(s), times);
            && g.timeIsValid && g.elapsedMs == (if times == [] then 0 else times[|times| - 1])
            && g.replay == AdvancedThrough(s, REWOUND, Microseconds(times))
  {
    hide Advanced;
    hide BatchAfter;
    hide ValidTrace;
    if times == [] {
    } else {
      var front := times[..|times| - 1];
      RequestsAdvance(s, front);
      assert Microseconds(times)[..|times| - 1] == Microseconds(front);
    }
  }

  /** On an accepted trace, the snapshot after any requests is that of the one request at the last time. */
  lemma SnapshotIsOneShot(s: Setup, c: Freshness, times: seq<u32>)
    requires ValidTrace(s.frames) && AllAccepted(s) && times != []
    requires forall i :: 0 < i < |times| ==> times[i - 1] <= times[i]
    ensures var many, once := AfterRequests(s, Opened(s), times), AfterRequests(s, Opened(s), [times[|times| - 1]]);
            && many.replay == once.replay
            && VehicleAssembly.Snapshot(c, many.replay.assembly.stored, many.elapsedMs)
               == VehicleAssembly.Snapshot(c, once.replay.assembly.stored, once.elapsedMs)
  {
    var last := [times[|times| - 1]];
    RequestsAdvance(s, times);
    RequestsAdvance(s, last);
    hide AfterRequests;
    hide Advanced;
    hide AllAccepted;
    hide ValidTrace;
    hide VehicleAssembly.Snapshot;
    ManyStepsAreOne(s, REWOUND, Microseconds(times));
    ManyStepsAreOne(s, REWOUND, Microseconds(last));
  }
}

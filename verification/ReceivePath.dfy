/**
 * The receive path over the queue: the receive task numbers, counts and pushes
 * frames while the application pops and counts them, one atomic action at a
 * time in any order.
 */
module ReceivePath {
  import opened CanFrames
  import opened Options
  import opened SpscQueue

  /** Where the receive task is with the frame at hand. */
  datatype Phase =
    | Waiting
    | Numbered(frame: CanFrame)
    | Offering(frame: CanFrame)
    | Pushing
    | Sizing
    | Measuring

  /** base: how many frames had been published when the statistics were last reset; session: frames handed out since. */
  datatype Receive = Receive(
    queue: Queue<CanFrame>, phase: Phase,
    received: nat, queued: nat, dequeued: nat, overruns: nat, lastSequence: nat, nextSequence: nat, highWatermark: nat,
    base: nat, session: seq<CanFrame>)

  datatype Action = FrameArrives(frame: CanFrame) | TaskMoves | TryReceive | ApplicationMoves | Restart

  function Initial(storage: seq<CanFrame>): Receive {
    Receive(Empty(storage), Waiting, 0, 0, 0, 0, 0, 1, 0, 0, [])
  }

  function TaskNext(r: Receive): Receive
    requires |r.queue.storage| > 0
  {
    match r.phase
    case Waiting => r
    case Numbered(f) => r.(received := r.received + 1, lastSequence := f.sequence, phase := Offering(f))
    case Offering(f) => r.(queue := Next(r.queue, Push(f)), phase := Pushing)
    case Pushing =>
      var q := Next(r.queue, ProducerMoves);
      if r.queue.producer == PushReturned(true) then r.(queue := q, queued := r.queued + 1, phase := Sizing)
      else if r.queue.producer == PushReturned(false) then r.(queue := q, overruns := r.overruns + 1, phase := Waiting)
      else r.(queue := q)
    case Sizing => r.(queue := Next(r.queue, ProducerSize), phase := Measuring)
    case Measuring =>
      var q := Next(r.queue, ProducerMoves);
      if r.queue.producer.ProducerSized? then
        r.(queue := q, phase := Waiting,
           highWatermark := if r.queue.producer.size > r.highWatermark then r.queue.producer.size else r.highWatermark)
      else r.(queue := q)
  }

  function ApplicationNext(r: Receive): Receive
    requires |r.queue.storage| > 0
  {
    var q := Next(r.queue, ConsumerMoves);
    match r.queue.consumer
    case PopReturned(Some(_)) => r.(queue := q, dequeued := r.dequeued + 1)
    case SlotRead(_, f) => r.(queue := q, session := r.session + [f])
    case _ => r.(queue := q)
  }

  predicate Quiescent(r: Receive) {
    r.phase == Waiting && r.queue.consumer == ConsumerIdle
  }

  /** Starting again clears the queue, then the statistics; both threads are between calls. */
  function Restarted(r: Receive): Receive {
    r.(queue := r.queue.(tail := r.queue.head),
       received := 0, queued := 0, dequeued := 0, overruns := 0, lastSequence := 0, nextSequence := 1, highWatermark := 0,
       base := r.queue.head, session := [])
  }

  function Act(r: Receive, action: Action): Receive
    requires |r.queue.storage| > 0
  {
    match action
    case FrameArrives(f) =>
      if r.phase == Waiting
      then r.(phase := Numbered(f.(sequence := r.nextSequence)), nextSequence := r.nextSequence + 1)
      else r
    case TaskMoves => TaskNext(r)
    case TryReceive => r.(queue := Next(r.queue, Pop))
    case ApplicationMoves => ApplicationNext(r)
    case Restart => if Quiescent(r) then Restarted(r) else r
  }

  function RunActions(r: Receive, actions: seq<Action>): (n: Receive)
    requires |r.queue.storage| > 0
    ensures |n.queue.storage| == |r.queue.storage|
  {
    if actions == [] then r else Act(RunActions(r, actions[..|actions| - 1]), actions[|actions| - 1])
  }

  // ---------- the invariant ----------

  /** The frame being pushed, until it is published. */
  function Pending(r: Receive): Option<CanFrame> {
    match r.phase
    case Numbered(f) => Some(f)
    case Offering(f) => Some(f)
    case Pushing =>
      (match r.queue.producer
       case HeadLoaded(f, _) => Some(f)
       case RoomSeen(f, _) => Some(f)
       case SlotWritten(f, _) => Some(f)
       case _ => None)
    case _ => None
  }

  /** The receive task's phase and the queue's producer agree; the application never sizes or clears. */
  predicate ThreadsAgree(r: Receive) {
    && (match r.phase
        case Pushing =>
          r.queue.producer.HeadLoaded? || r.queue.producer.RoomSeen? || r.queue.producer.SlotWritten? || r.queue.producer.PushReturned?
        case Measuring => r.queue.producer.ProducerSizing? || r.queue.producer.ProducerSized?
        case _ => r.queue.producer.ProducerIdle?)
    && !r.queue.consumer.Clearing? && !r.queue.consumer.ConsumerSizing? && !r.queue.consumer.ConsumerSized?
  }

  /** Each counter, corrected by the call that has moved on but not counted yet. */
  predicate Counted(r: Receive) {
    && r.received + (if r.phase.Numbered? then 1 else 0) + 1 == r.nextSequence
    && (!r.phase.Numbered? ==> r.lastSequence == r.received)
    && r.received == r.queued + r.overruns + (if r.phase.Offering? || r.phase.Pushing? then 1 else 0)
    && r.queue.head == r.base + r.queued + (if r.phase.Pushing? && r.queue.producer == PushReturned(true) then 1 else 0)
    && r.queue.tail == r.base + r.dequeued + (if r.queue.consumer.PopReturned? && r.queue.consumer.popped.Some? then 1 else 0)
    && r.highWatermark <= |r.queue.storage|
  }

  ghost predicate Ordered(frames: seq<CanFrame>, below: nat) {
    && (forall i :: 0 <= i < |frames| ==> frames[i].sequence < below)
    && (forall i, j :: 0 <= i < j < |frames| ==> frames[i].sequence < frames[j].sequence)
  }

  ghost predicate Numbering(r: Receive)
    requires r.base <= |r.queue.published|
  {
    && Ordered(r.queue.published[r.base..], if Pending(r).Some? then Pending(r).value.sequence else r.nextSequence)
    && (Pending(r).Some? ==> Pending(r).value.sequence + 1 == r.nextSequence)
  }

  ghost predicate Balanced(r: Receive) {
    && Sound(r.queue)
    && ThreadsAgree(r)
    && Counted(r)
    && r.session == r.queue.published[r.base..r.queue.tail]
    && Numbering(r)
  }

  lemma InitialIsBalanced(storage: seq<CanFrame>)
    requires |storage| > 0
    ensures Balanced(Initial(storage))
  {
    EmptyIsSound(storage);
  }

  lemma OrderedGrows(frames: seq<CanFrame>, f: CanFrame, below: nat)
    requires Ordered(frames, f.sequence) && f.sequence < below
    ensures Ordered(frames + [f], below)
  {
  }

  lemma OrderedBelow(frames: seq<CanFrame>, below: nat, more: nat)
    requires Ordered(frames, below) && below <= more
    ensures Ordered(frames, more)
  {
  }

  /** Publishing a frame puts the highest number so far at the end. */
  lemma {:induction false} PublishKeepsNumbering(r: Receive)
    requires Balanced(r) && r.phase.Pushing? && r.queue.producer.SlotWritten?
    ensures var n := TaskNext(r);
            && n.queue.tail == r.queue.tail <= |n.queue.published| && n.base == r.base
            && n.session == n.queue.published[n.base..n.queue.tail] && Numbering(n)
  {
    var n, f := TaskNext(r), r.queue.producer.value;
    OrderedGrows(r.queue.published[r.base..], f, r.nextSequence);
    assert n.queue.published == r.queue.published + [f];
    assert n.queue.published[r.base..] == r.queue.published[r.base..] + [f];
    assert n.queue.published[r.base..r.queue.tail] == r.queue.published[r.base..r.queue.tail];
    hide Ordered;
    hide ProducerSound;
    hide ConsumerSound;
  }

  /** Moving a frame on without publishing it leaves the frames and the numbers. */
  lemma {:induction false} QuietTask(r: Receive)
    requires Balanced(r) && !(r.phase.Pushing? && r.queue.producer.SlotWritten?)
    ensures var n := TaskNext(r);
            && n.queue.published == r.queue.published && n.queue.tail == r.queue.tail && n.queue.head == r.queue.head
            && n.base == r.base && n.session == r.session && n.nextSequence == r.nextSequence
            && (Pending(n) == Pending(r) || Pending(n) == None)
  {
    hide Numbering;
    hide ConsumerSound;
  }

  /** The numbers stay ordered while the receive task moves a frame on and publishes it. */
  lemma {:induction false} TaskKeepsNumbering(r: Receive)
    requires Balanced(r)
    ensures var n := TaskNext(r);
            && n.base <= n.queue.tail <= |n.queue.published|
            && n.session == n.queue.published[n.base..n.queue.tail] && Numbering(n)
  {
    hide Ordered;
    hide ProducerSound;
    hide ConsumerSound;
    if r.phase.Pushing? && r.queue.producer.SlotWritten? {
      PublishKeepsNumbering(r);
    } else {
      QuietTask(r);
      if Pending(r).Some? {
        OrderedBelow(r.queue.published[r.base..], Pending(r).value.sequence, r.nextSequence);
      }
    }
  }

  lemma {:induction false} TaskKeepsCounts(r: Receive)
    requires Balanced(r)
    ensures ThreadsAgree(TaskNext(r)) && Counted(TaskNext(r))
  {
    hide ConsumerSound;
  }

  lemma {:induction false} TaskKeepsSound(r: Receive)
    requires Balanced(r)
    ensures Sound(TaskNext(r).queue)
  {
    StepKeepsSound(r.queue, ProducerMoves);
    StepKeepsSound(r.queue, ProducerSize);
    if r.phase.Offering? {
      StepKeepsSound(r.queue, Push(r.phase.frame));
    }
    hide Sound;
    hide Next;
    hide Numbering;
    hide Counted;
  }

  lemma {:induction false} TaskKeepsBalanced(r: Receive)
    requires Balanced(r)
    ensures Balanced(TaskNext(r))
  {
    TaskKeepsSound(r);
    TaskKeepsCounts(r);
    TaskKeepsNumbering(r);
    hide TaskNext;
    hide Sound;
    hide ThreadsAgree;
    hide Counted;
    hide Numbering;
  }

  /** The application's actions leave the producer's side and the published frames alone. */
  lemma ApplicationFrame(r: Receive)
    requires Sound(r.queue)
    ensures var n := ApplicationNext(r);
            n == r.(queue := ConsumerNext(r.queue), dequeued := n.dequeued, session := n.session)
    ensures var q := ConsumerNext(r.queue);
            q.head == r.queue.head && q.published == r.queue.published && q.producer == r.queue.producer && q.storage == r.queue.storage
  {
    hide Sound;
  }

  lemma NumberingKept(r: Receive, n: Receive)
    requires r.base <= |r.queue.published| && Numbering(r)
    requires n.phase == r.phase && n.base == r.base && n.nextSequence == r.nextSequence
    requires n.queue.published == r.queue.published && n.queue.producer == r.queue.producer
    ensures Numbering(n)
  {
    hide Ordered;
  }

  lemma ApplicationCounts(r: Receive)
    requires Sound(r.queue) && ThreadsAgree(r) && Counted(r)
    ensures ThreadsAgree(ApplicationNext(r)) && Counted(ApplicationNext(r))
  {
    hide ProducerSound;
  }

  lemma ApplicationSession(r: Receive)
    requires Sound(r.queue) && ThreadsAgree(r) && r.base <= r.queue.tail && r.session == r.queue.published[r.base..r.queue.tail]
    ensures var n := ApplicationNext(r);
            n.base <= n.queue.tail <= |n.queue.published| && n.session == n.queue.published[n.base..n.queue.tail]
  {
    hide ProducerSound;
    if r.queue.consumer.SlotRead? {
      assert r.queue.published[r.base..r.queue.tail + 1] == r.queue.published[r.base..r.queue.tail] + [r.queue.published[r.queue.tail]];
    }
  }

  lemma ApplicationKeepsBalanced(r: Receive)
    requires Balanced(r)
    ensures Balanced(ApplicationNext(r))
  {
    StepKeepsSound(r.queue, ConsumerMoves);
    ApplicationFrame(r);
    ApplicationCounts(r);
    ApplicationSession(r);
    NumberingKept(r, ApplicationNext(r));
    hide Sound;
    hide ThreadsAgree;
    hide Counted;
    hide Numbering;
    hide ApplicationNext;
    hide ConsumerNext;
  }

  lemma ActKeepsBalanced(r: Receive, action: Action)
    requires Balanced(r)
    ensures Balanced(Act(r, action))
  {
    match action
    case FrameArrives(_) => OrderedBelow(r.queue.published[r.base..], r.nextSequence, r.nextSequence + 1);
    case TaskMoves => TaskKeepsBalanced(r);
    case TryReceive => StepKeepsSound(r.queue, Pop);
    case ApplicationMoves => ApplicationKeepsBalanced(r);
    case Restart =>
  }

  lemma {:induction false} AlwaysBalanced(storage: seq<CanFrame>, actions: seq<Action>)
    requires |storage| > 0
    ensures Balanced(RunActions(Initial(storage), actions))
  {
    if actions == [] {
      InitialIsBalanced(storage);
    } else {
      AlwaysBalanced(storage, actions[..|actions| - 1]);
      hide Act;
      hide Balanced;
      ActKeepsBalanced(RunActions(Initial(storage), actions[..|actions| - 1]), actions[|actions| - 1]);
    }
  }

  // ---------- the accounts ----------

  lemma {:induction false} QuiescentAccounts(r: Receive)
    requires Balanced(r) && Quiescent(r)
    ensures r.queue.tail <= r.queue.head
    ensures r.received == r.queued + r.overruns && r.queued == r.dequeued + (r.queue.head - r.queue.tail)
    ensures r.lastSequence == r.received && |r.session| == r.dequeued && r.highWatermark <= |r.queue.storage|
  {
    hide ProducerSound;
    hide ConsumerSound;
    hide Numbering;
  }

  lemma {:induction false} QuiescentFrames(r: Receive)
    requires Balanced(r) && Quiescent(r)
    ensures r.queue.tail <= r.queue.head && Ordered(r.session + Unread(r.queue), r.received + 1)
  {
    UnreadIsPublished(r.queue);
    assert r.session + Unread(r.queue) == r.queue.published[r.base..] by {
      hide Unread;
      hide Ordered;
    }
    hide Unread;
    hide Ordered;
    hide ProducerSound;
    hide ConsumerSound;
  }

  /** The accounts of frames received, queued, overrun, dequeued and waiting agree. */
  ghost predicate InBalance(r: Receive) {
    && |r.queue.storage| > 0 && r.queue.tail <= r.queue.head
    && r.received == r.queued + r.overruns && r.queued == r.dequeued + |Unread(r.queue)|
    && r.lastSequence == r.received && |r.session| == r.dequeued
    && Ordered(r.session + Unread(r.queue), r.received + 1)
    && r.received - |r.session + Unread(r.queue)| == r.overruns
    && r.highWatermark <= |r.queue.storage|
  }

  lemma {:induction false} QuiescentInBalance(r: Receive)
    requires Balanced(r) && Quiescent(r)
    ensures InBalance(r)
  {
    QuiescentAccounts(r);
    QuiescentFrames(r);
    assert |r.queue.storage| > 0;
    hide Balanced;
    hide Ordered;
    hide Quiescent;
    assert |r.session + Unread(r.queue)| == |r.session| + |Unread(r.queue)|;
  }

  /**
   * With both threads between calls every frame received since the start was
   * queued or overrun, every queued one was dequeued or still lies in the
   * queue, the last sequence number is the number received, the frames handed
   * out and those still queued carry strictly increasing sequence numbers, and
   * exactly as many numbers are missing from them as frames were overrun.
   */
  lemma {:induction false} AccountsBalance(storage: seq<CanFrame>, actions: seq<Action>)
    requires |storage| > 0 && Quiescent(RunActions(Initial(storage), actions))
    ensures InBalance(RunActions(Initial(storage), actions))
  {
    AlwaysBalanced(storage, actions);
    hide *;
    QuiescentInBalance(RunActions(Initial(storage), actions));
  }

  /** Frames are handed out with strictly increasing sequence numbers at every moment, not only between calls. */
  lemma DeliveryIncreases(storage: seq<CanFrame>, actions: seq<Action>, i: nat, j: nat)
    requires |storage| > 0 && i < j < |RunActions(Initial(storage), actions).session|
    ensures var s := RunActions(Initial(storage), actions).session;
            s[i].sequence < s[j].sequence
  {
    var r := RunActions(Initial(storage), actions);
    AlwaysBalanced(storage, actions);
    hide RunActions;
    assert r.session[i] == r.queue.published[r.base..][i] && r.session[j] == r.queue.published[r.base..][j];
  }

  /** What resetting the statistics leaves, with the frames published so far no longer counted. */
  function StatisticsReset(r: Receive): Receive {
    r.(received := 0, queued := 0, dequeued := 0, overruns := 0, lastSequence := 0, highWatermark := 0,
       base := r.queue.head, session := [])
  }

  /**
   * Between calls, resetting the statistics and the numbering leaves accounts
   * in balance exactly when the queue is empty, which is why starting clears it
   * first; resetting the statistics alone, exactly when also no frame has been
   * numbered.
   */
  lemma ResetNeedsEmptyQueue(r: Receive)
    requires Balanced(r) && Quiescent(r)
    ensures r.queue.tail <= r.queue.head
    ensures Balanced(StatisticsReset(r).(nextSequence := 1)) <==> Unread(r.queue) == []
    ensures Balanced(StatisticsReset(r)) <==> Unread(r.queue) == [] && r.nextSequence == 1
  {
    hide ProducerSound;
    hide ConsumerSound;
    assert r.queue.published[r.queue.head..] == [];
  }

  // ---------- a frame that nothing interrupts ----------

  function Moved(r: Receive, moves: nat): (n: Receive)
    requires |r.queue.storage| > 0
    ensures |n.queue.storage| == |r.queue.storage|
  {
    if moves == 0 then r else TaskNext(Moved(r, moves - 1))
  }

  /** The frame as the receive task numbers it. */
  function NumberedFrame(r: Receive, f: CanFrame): CanFrame {
    f.(sequence := r.nextSequence)
  }

  lemma PushedWhole(r: Receive, f: CanFrame)
    requires Sound(r.queue) && r.phase == Waiting && r.queue.producer == ProducerIdle
    requires r.queue.head - r.queue.tail < |r.queue.storage|
    ensures var g, q := NumberedFrame(r, f), r.queue;
            Moved(Act(r, FrameArrives(f)), 5)
            == r.(queue := q.(storage := q.storage[q.head % |q.storage| := g], head := q.head + 1, published := q.published + [g],
                              producer := PushReturned(true)),
                  phase := Pushing, received := r.received + 1, lastSequence := r.nextSequence, nextSequence := r.nextSequence + 1)
  {
    var a := Act(r, FrameArrives(f));
    assert Moved(a, 1) == TaskNext(Moved(a, 0));
    assert Moved(a, 2) == TaskNext(Moved(a, 1));
    assert Moved(a, 3) == TaskNext(Moved(a, 2));
    assert Moved(a, 4) == TaskNext(Moved(a, 3));
    assert Moved(a, 5) == TaskNext(Moved(a, 4));
  }

  /** With room, a frame that the application does not interrupt is numbered, published and counted, and the high water raised to the depth. */
  lemma ReceivedWhole(r: Receive, f: CanFrame)
    requires Sound(r.queue) && r.phase == Waiting && r.queue.producer == ProducerIdle
    requires r.queue.head - r.queue.tail < |r.queue.storage|
    ensures var g, q := NumberedFrame(r, f), r.queue;
            var depth := q.head + 1 - q.tail;
            Moved(Act(r, FrameArrives(f)), 9)
            == r.(queue := q.(storage := q.storage[q.head % |q.storage| := g], head := q.head + 1, published := q.published + [g]),
                  received := r.received + 1, queued := r.queued + 1, lastSequence := r.nextSequence, nextSequence := r.nextSequence + 1,
                  highWatermark := if depth > r.highWatermark then depth else r.highWatermark)
  {
    PushedWhole(r, f);
    var a := Act(r, FrameArrives(f));
    assert Moved(a, 6) == TaskNext(Moved(a, 5));
    assert Moved(a, 7) == TaskNext(Moved(a, 6));
    assert Moved(a, 8) == TaskNext(Moved(a, 7));
    assert Moved(a, 9) == TaskNext(Moved(a, 8));
  }

  /** Without room it is numbered and counted as an overrun, and the queue is left alone. */
  lemma OverrunWhole(r: Receive, f: CanFrame)
    requires Sound(r.queue) && r.phase == Waiting && r.queue.producer == ProducerIdle
    requires r.queue.head - r.queue.tail == |r.queue.storage|
    ensures Moved(Act(r, FrameArrives(f)), 4)
            == r.(received := r.received + 1, overruns := r.overruns + 1, lastSequence := r.nextSequence, nextSequence := r.nextSequence + 1)
  {
    var a := Act(r, FrameArrives(f));
    assert Moved(a, 1) == TaskNext(Moved(a, 0));
    assert Moved(a, 2) == TaskNext(Moved(a, 1));
    assert Moved(a, 3) == TaskNext(Moved(a, 2));
    assert Moved(a, 4) == TaskNext(Moved(a, 3));
  }

  /** A pop that the receive task does not interrupt hands out the first unread frame and counts it, if there is one. */
  lemma HandedOutWhole(r: Receive)
    requires Sound(r.queue) && r.queue.consumer == ConsumerIdle
    ensures var a := ApplicationNext(Act(r, TryReceive));
            if r.queue.tail == r.queue.head then ApplicationNext(a) == r
            else
              ApplicationNext(ApplicationNext(ApplicationNext(a)))
              == r.(queue := r.queue.(tail := r.queue.tail + 1), dequeued := r.dequeued + 1,
                    session := r.session + [r.queue.published[r.queue.tail]])
  {
    var a := ApplicationNext(Act(r, TryReceive));
    if r.queue.tail < r.queue.head {
      ConsumerKeepsSound(Next(r.queue, Pop));
      StepKeepsSound(r.queue, Pop);
      var b := ApplicationNext(a);
      ConsumerKeepsSound(a.queue);
      assert b.queue.consumer == SlotRead(r.queue.tail, r.queue.published[r.queue.tail]);
    }
  }
}

/**
 * The bounded queue between one producer and one consumer thread, as a state
 * machine over the atomic loads and stores of both, interleaved in any order.
 * A thread that is inside a call carries what it has loaded so far.
 */
module SpscQueue {
  import opened Options

  datatype Producer<T> =
    | ProducerIdle
    | HeadLoaded(value: T, head: nat)
    | RoomSeen(value: T, head: nat)
    | SlotWritten(value: T, head: nat)
    | PushReturned(pushed: bool)
    | ProducerSizing(head: nat)
    | ProducerSized(size: int)

  datatype Consumer<T> =
    | ConsumerIdle
    | TailLoaded(tail: nat)
    | ItemSeen(tail: nat)
    | SlotRead(tail: nat, value: T)
    | PopReturned(popped: Option<T>)
    | ConsumerSizing(head: nat)
    | ConsumerSized(size: int)
    | Clearing(head: nat)

  /** The shared counters and slots, the two threads, and the log of every value ever published. */
  datatype Queue<T> = Queue(
    head: nat, tail: nat, storage: seq<T>, producer: Producer<T>, consumer: Consumer<T>, published: seq<T>)

  /** What an idle thread starts, or the next atomic action of a thread inside a call. */
  datatype Step<T> =
    | Push(value: T) | ProducerSize | ProducerMoves
    | Pop | ConsumerSize | Clear | ConsumerMoves

  function Empty<T>(storage: seq<T>): Queue<T> {
    Queue(0, 0, storage, ProducerIdle, ConsumerIdle, [])
  }

  function ProducerNext<T>(q: Queue<T>): Queue<T>
    requires |q.storage| > 0
  {
    match q.producer
    case ProducerIdle => q
    case HeadLoaded(v, h) =>
      if h - q.tail >= |q.storage| then q.(producer := PushReturned(false)) else q.(producer := RoomSeen(v, h))
    case RoomSeen(v, h) => q.(storage := q.storage[h % |q.storage| := v], producer := SlotWritten(v, h))
    case SlotWritten(v, h) => q.(head := h + 1, published := q.published + [v], producer := PushReturned(true))
    case PushReturned(_) => q.(producer := ProducerIdle)
    case ProducerSizing(h) => q.(producer := ProducerSized(h - q.tail))
    case ProducerSized(_) => q.(producer := ProducerIdle)
  }

  function ConsumerNext<T>(q: Queue<T>): Queue<T>
    requires |q.storage| > 0
  {
    match q.consumer
    case ConsumerIdle => q
    case TailLoaded(t) => if t == q.head then q.(consumer := PopReturned(None)) else q.(consumer := ItemSeen(t))
    case ItemSeen(t) => q.(consumer := SlotRead(t, q.storage[t % |q.storage|]))
    case SlotRead(t, v) => q.(tail := t + 1, consumer := PopReturned(Some(v)))
    case PopReturned(_) => q.(consumer := ConsumerIdle)
    case ConsumerSizing(h) => q.(consumer := ConsumerSized(h - q.tail))
    case ConsumerSized(_) => q.(consumer := ConsumerIdle)
    case Clearing(h) => q.(tail := h, consumer := ConsumerIdle)
  }

  /** A step of a thread; a call is started only by an idle thread. */
  function Next<T>(q: Queue<T>, step: Step<T>): Queue<T>
    requires |q.storage| > 0
  {
    match step
    case Push(v) => if q.producer.ProducerIdle? then q.(producer := HeadLoaded(v, q.head)) else q
    case ProducerSize => if q.producer.ProducerIdle? then q.(producer := ProducerSizing(q.head)) else q
    case ProducerMoves => ProducerNext(q)
    case Pop => if q.consumer.ConsumerIdle? then q.(consumer := TailLoaded(q.tail)) else q
    case ConsumerSize => if q.consumer.ConsumerIdle? then q.(consumer := ConsumerSizing(q.head)) else q
    case Clear => if q.consumer.ConsumerIdle? then q.(consumer := Clearing(q.head)) else q
    case ConsumerMoves => ConsumerNext(q)
  }

  // ---------- the invariant ----------

  ghost predicate ProducerSound<T>(q: Queue<T>)
    requires |q.storage| > 0
  {
    match q.producer
    case HeadLoaded(_, h) => h == q.head
    case RoomSeen(_, h) => h == q.head && q.head - q.tail < |q.storage|
    case SlotWritten(v, h) => h == q.head && q.head - q.tail < |q.storage| && q.storage[h % |q.storage|] == v
    case ProducerSizing(h) => h == q.head
    case ProducerSized(n) => 0 <= n <= |q.storage|
    case _ => true
  }

  ghost predicate ConsumerSound<T>(q: Queue<T>)
    requires q.tail <= q.head == |q.published|
  {
    match q.consumer
    case TailLoaded(t) => t == q.tail
    case ItemSeen(t) => t == q.tail < q.head
    case SlotRead(t, v) => t == q.tail < q.head && v == q.published[t]
    case ConsumerSizing(h) => q.tail <= h <= q.head
    case ConsumerSized(n) => 0 <= n <= |q.storage|
    case Clearing(h) => q.tail <= h <= q.head
    case _ => true
  }

  ghost predicate Sound<T>(q: Queue<T>) {
    && |q.storage| > 0
    && q.tail <= q.head == |q.published|
    && q.head - q.tail <= |q.storage|
    && (forall k :: q.tail <= k < q.head ==> q.storage[k % |q.storage|] == q.published[k])
    && ProducerSound(q)
    && ConsumerSound(q)
  }

  lemma EmptyIsSound<T>(storage: seq<T>)
    requires |storage| > 0
    ensures Sound(Empty(storage))
  {
  }

  /** Indices less than a capacity apart use different slots. */
  lemma SlotsDiffer(j: nat, k: nat, n: nat)
    requires 0 < k - j < n
    ensures j % n != k % n
  {
    if j % n == k % n {
      var d := k / n - j / n;
      assert k - j == d * n;
      NoMultipleBetween(d, n);
    }
  }

  lemma NoMultipleBetween(d: int, n: nat)
    requires n > 0
    ensures !(0 < d * n < n)
  {
    if d >= 1 {
      assert d * n >= n;
    } else {
      assert d * n <= 0;
    }
  }

  lemma WriteKeepsUnread<T>(q: Queue<T>)
    requires Sound(q) && q.producer.RoomSeen?
    ensures var n := ProducerNext(q);
            forall k :: n.tail <= k < n.head ==> n.storage[k % |n.storage|] == n.published[k]
  {
    var h := q.producer.head;
    forall k | q.tail <= k < q.head
      ensures k % |q.storage| != h % |q.storage|
    {
      SlotsDiffer(k, h, |q.storage|);
    }
  }

  lemma ProducerKeepsSound<T>(q: Queue<T>)
    requires Sound(q)
    ensures Sound(ProducerNext(q))
  {
    if q.producer.RoomSeen? {
      WriteKeepsUnread(q);
    }
  }

  lemma ConsumerKeepsSound<T>(q: Queue<T>)
    requires Sound(q)
    ensures Sound(ConsumerNext(q))
  {
  }

  lemma StepKeepsSound<T>(q: Queue<T>, step: Step<T>)
    requires Sound(q)
    ensures Sound(Next(q, step))
  {
    ProducerKeepsSound(q);
    ConsumerKeepsSound(q);
    hide ProducerNext;
    hide ConsumerNext;
  }

  function Run<T>(q: Queue<T>, steps: seq<Step<T>>): (n: Queue<T>)
    requires |q.storage| > 0
    ensures |n.storage| == |q.storage|
  {
    if steps == [] then q else Next(Run(q, steps[..|steps| - 1]), steps[|steps| - 1])
  }

  /**
   * Under every interleaving the counters stay ordered and at most a capacity
   * apart, every unread slot holds what was published there, and neither
   * endpoint's size is ever out of range.
   */
  lemma {:induction false} AlwaysSound<T>(storage: seq<T>, steps: seq<Step<T>>)
    requires |storage| > 0
    ensures Sound(Run(Empty(storage), steps))
  {
    if steps == [] {
      EmptyIsSound(storage);
    } else {
      AlwaysSound(storage, steps[..|steps| - 1]);
      StepKeepsSound(Run(Empty(storage), steps[..|steps| - 1]), steps[|steps| - 1]);
    }
  }

  // ---------- refinement of a queue whose operations are atomic ----------

  /** The values in the slots between the counters. */
  function Unread<T>(q: Queue<T>): (s: seq<T>)
    requires |q.storage| > 0 && q.tail <= q.head
    ensures |s| == q.head - q.tail
  {
    seq(q.head - q.tail, i requires 0 <= i < q.head - q.tail => q.storage[(q.tail + i) % |q.storage|])
  }

  lemma UnreadIsPublished<T>(q: Queue<T>)
    requires Sound(q)
    ensures Unread(q) == q.published[q.tail..]
  {
  }

  /**
   * Each operation takes effect at one of its steps. A push appends when it
   * stores the head, and fails only when the queue was full as it loaded the
   * tail; a pop removes the first value and returns it when it stores the
   * tail, and fails only when the queue was empty as it loaded the head; no
   * other step changes the contents.
   */
  lemma ProducerStepRefines<T>(q: Queue<T>)
    requires Sound(q)
    ensures q.tail <= ProducerNext(q).head && ProducerNext(q).tail == q.tail
    ensures Unread(ProducerNext(q)) == if q.producer.SlotWritten? then Unread(q) + [q.producer.value] else Unread(q)
    ensures q.producer.HeadLoaded? ==> (ProducerNext(q).producer == PushReturned(false) <==> |Unread(q)| == |q.storage|)
    ensures q.producer.SlotWritten? <==> ProducerNext(q).producer == PushReturned(true)
    ensures q.producer.ProducerSizing? ==> ProducerNext(q).producer == ProducerSized(|Unread(q)|)
  {
    var n := ProducerNext(q);
    ProducerKeepsSound(q);
    UnreadIsPublished(q);
    UnreadIsPublished(n);
  }

  lemma ConsumerStepRefines<T>(q: Queue<T>)
    requires Sound(q)
    ensures ConsumerNext(q).tail <= q.head == ConsumerNext(q).head
    ensures q.consumer.SlotRead? ==> Unread(q) == [q.consumer.value] + Unread(ConsumerNext(q))
    ensures q.consumer.SlotRead? ==> ConsumerNext(q).consumer == PopReturned(Some(Unread(q)[0]))
    ensures q.consumer.Clearing? ==> Unread(ConsumerNext(q)) == Unread(q)[q.consumer.head - q.tail..]
    ensures !q.consumer.SlotRead? && !q.consumer.Clearing? ==> Unread(ConsumerNext(q)) == Unread(q)
    ensures q.consumer.TailLoaded? ==> (ConsumerNext(q).consumer == PopReturned(None) <==> Unread(q) == [])
  {
    var n := ConsumerNext(q);
    ConsumerKeepsSound(q);
    ConsumerCounters(q);
    UnreadIsPublished(q);
    UnreadIsPublished(n);
    hide ConsumerNext;
    hide Sound;
    hide Unread;
  }

  /** What one action of the consumer does to the counters, and what it takes. */
  lemma ConsumerCounters<T>(q: Queue<T>)
    requires Sound(q)
    ensures var n := ConsumerNext(q);
            && q.tail <= n.tail <= q.head == n.head == |q.published| && n.published == q.published && |q.storage| > 0
            && n.tail == (if q.consumer.SlotRead? then q.tail + 1 else if q.consumer.Clearing? then q.consumer.head else q.tail)
            && (q.consumer.SlotRead? ==>
                  q.tail < q.head && q.consumer.value == q.published[q.tail] && n.consumer == PopReturned(Some(q.consumer.value)))
            && (q.consumer.TailLoaded? ==> (n.consumer == PopReturned(None) <==> q.tail == q.head))
  {
  }

  // ---------- conservation ----------

  function PoppedBy<T>(q: Queue<T>, step: Step<T>): seq<T> {
    if step.ConsumerMoves? && q.consumer.SlotRead? then [q.consumer.value] else []
  }

  /** Every value handed out by a pop during the run. */
  function Popped<T>(q: Queue<T>, steps: seq<Step<T>>): seq<T>
    requires |q.storage| > 0
  {
    if steps == [] then []
    else
      var front := steps[..|steps| - 1];
      Popped(q, front) + PoppedBy(Run(q, front), steps[|steps| - 1])
  }

  function AddedBy<T>(q: Queue<T>, step: Step<T>): seq<T> {
    if step.ProducerMoves? && q.producer.SlotWritten? then [q.producer.value] else []
  }

  lemma ProducerConserves<T>(q: Queue<T>, step: Step<T>)
    requires Sound(q) && (step.Push? || step.ProducerSize? || step.ProducerMoves?)
    ensures var n := Next(q, step);
            && n.tail <= n.head && n.consumer == q.consumer
            && n.published == q.published + AddedBy(q, step)
            && Unread(q) + AddedBy(q, step) == PoppedBy(q, step) + Unread(n)
  {
    ProducerStepRefines(q);
    hide Sound;
    if step.ProducerMoves? {
      hide Unread;
    }
  }

  lemma ConsumerConserves<T>(q: Queue<T>, step: Step<T>)
    requires Sound(q) && !q.consumer.Clearing? && (step.Pop? || step.ConsumerSize? || step.ConsumerMoves?)
    ensures var n := Next(q, step);
            && n.tail <= n.head && !n.consumer.Clearing?
            && n.published == q.published && AddedBy(q, step) == []
            && Unread(q) + AddedBy(q, step) == PoppedBy(q, step) + Unread(n)
  {
    ConsumerStepRefines(q);
    hide Sound;
    if step.ConsumerMoves? {
      hide Unread;
    }
  }

  lemma Regroup<T>(p: seq<T>, u: seq<T>, a: seq<T>, o: seq<T>, n: seq<T>)
    requires u + a == o + n
    ensures p + u + a == p + o + n
  {
    assert p + u + a == p + (u + a);
    assert p + o + n == p + (o + n);
  }

  /** Without clears, what was published is what was popped followed by what is unread: nothing is lost, repeated or reordered. */
  lemma {:induction false} FirstInFirstOut<T>(storage: seq<T>, steps: seq<Step<T>>)
    requires |storage| > 0 && Clear !in steps
    ensures var q := Run(Empty(storage), steps);
            q.tail <= q.head && q.published == Popped(Empty(storage), steps) + Unread(q)
            && !q.consumer.Clearing?
  {
    AlwaysSound(storage, steps);
    if steps != [] {
      var front, step := steps[..|steps| - 1], steps[|steps| - 1];
      var before := Run(Empty(storage), front);
      FirstInFirstOut(storage, front);
      AlwaysSound(storage, front);
      hide Sound;
      hide Unread;
      hide Next;
      if step.Push? || step.ProducerSize? || step.ProducerMoves? {
        ProducerConserves(before, step);
      } else {
        ConsumerConserves(before, step);
      }
      Regroup(Popped(Empty(storage), front), Unread(before), AddedBy(before, step), PoppedBy(before, step), Unread(Next(before, step)));
    }
  }

  // ---------- a third thread ----------

  /** The size a thread of its own computes from the head after i steps and the tail after j. */
  function ObservedSize<T>(storage: seq<T>, steps: seq<Step<T>>, i: nat, j: nat): int
    requires |storage| > 0 && i <= j <= |steps|
  {
    Run(Empty(storage), steps[..i]).head - Run(Empty(storage), steps[..j]).tail
  }

  lemma TailMovesOn<T>(q: Queue<T>, step: Step<T>)
    requires Sound(q)
    ensures Next(q, step).tail >= q.tail
  {
  }

  lemma {:induction false} TailNeverFalls<T>(storage: seq<T>, steps: seq<Step<T>>, i: nat, j: nat)
    requires |storage| > 0 && i <= j <= |steps|
    ensures Run(Empty(storage), steps[..i]).tail <= Run(Empty(storage), steps[..j]).tail
    decreases j
  {
    if i < j {
      TailNeverFalls(storage, steps, i, j - 1);
      AlwaysSound(storage, steps[..j - 1]);
      TailMovesOn(Run(Empty(storage), steps[..j - 1]), steps[j - 1]);
      assert steps[..j][..j - 1] == steps[..j - 1];
      hide Next;
      hide Sound;
    }
  }

  /**
   * In every run a size computed from two loads is in range exactly when the
   * tail loaded second has not passed the head loaded first; it is never above
   * the capacity.
   */
  lemma ObserverInRangeExactly<T>(storage: seq<T>, steps: seq<Step<T>>, i: nat, j: nat)
    requires |storage| > 0 && i <= j <= |steps|
    ensures ObservedSize(storage, steps, i, j) <= |storage|
    ensures 0 <= ObservedSize(storage, steps, i, j) <= |storage|
            <==> Run(Empty(storage), steps[..j]).tail <= Run(Empty(storage), steps[..i]).head
  {
    AlwaysSound(storage, steps[..i]);
    TailNeverFalls(storage, steps, i, j);
  }

  /** The values popped between the two loads. */
  function PoppedBetween<T>(storage: seq<T>, steps: seq<Step<T>>, i: nat, j: nat): int
    requires |storage| > 0 && i <= j <= |steps|
  {
    |Popped(Empty(storage), steps[..j])| - |Popped(Empty(storage), steps[..i])|
  }

  lemma TailCountsPops<T>(storage: seq<T>, steps: seq<Step<T>>, n: nat)
    requires |storage| > 0 && Clear !in steps && n <= |steps|
    ensures Run(Empty(storage), steps[..n]).tail == |Popped(Empty(storage), steps[..n])|
  {
    FirstInFirstOut(storage, steps[..n]);
    AlwaysSound(storage, steps[..n]);
    hide Run;
    hide Popped;
  }

  /** Without clears: exactly when no more values were popped between the loads than were unread at the first. */
  lemma ObserverInRangeByPops<T>(storage: seq<T>, steps: seq<Step<T>>, i: nat, j: nat)
    requires |storage| > 0 && Clear !in steps && i <= j <= |steps|
    ensures var q := Run(Empty(storage), steps[..i]);
            && q.tail <= q.head
            && (0 <= ObservedSize(storage, steps, i, j) <= |storage|
                <==> PoppedBetween(storage, steps, i, j) <= |Unread(q)|)
  {
    AlwaysSound(storage, steps[..i]);
    ObserverInRangeExactly(storage, steps, i, j);
    TailCountsPops(storage, steps, i);
    TailCountsPops(storage, steps, j);
    hide Run;
    hide Popped;
  }

  function PushCall<T>(v: T): seq<Step<T>> {
    [Push(v), ProducerMoves, ProducerMoves, ProducerMoves]
  }

  function PopCall<T>(): seq<Step<T>> {
    [Pop, ConsumerMoves, ConsumerMoves, ConsumerMoves]
  }

  lemma FourSteps<T>(q: Queue<T>, a: Step<T>, b: Step<T>, c: Step<T>, d: Step<T>)
    requires |q.storage| > 0
    ensures Run(q, [a, b, c, d]) == Next(Next(Next(Next(q, a), b), c), d)
  {
    assert [] + [a] == [a];
    assert [a] + [b] == [a, b];
    assert [a, b] + [c] == [a, b, c];
    assert [a, b, c] + [d] == [a, b, c, d];
    NoSteps(q);
    hide *;
    Unroll(q, [], a);
    Unroll(q, [a], b);
    Unroll(q, [a, b], c);
    Unroll(q, [a, b, c], d);
  }

  lemma NoSteps<T>(q: Queue<T>)
    requires |q.storage| > 0
    ensures Run(q, []) == q
  {
  }

  /**
   * The size promise holds for the two endpoints only. A third thread that
   * loads the head of an empty queue, and the tail after one push and one pop,
   * computes minus one, which wraps to the largest unsigned value.
   */
  lemma ObserverOutOfRange<T>(storage: seq<T>, v: T)
    requires |storage| > 0
    ensures Empty(storage).head - Run(Run(Empty(storage), PushCall(v)), PopCall()).tail == -1
  {
    var q := Empty(storage);
    FourSteps(q, Push(v), ProducerMoves, ProducerMoves, ProducerMoves);
    var pushed := Run(q, PushCall(v));
    assert pushed.head == 1 && pushed.tail == 0 && pushed.consumer == ConsumerIdle;
    FourSteps(pushed, Pop, ConsumerMoves, ConsumerMoves, ConsumerMoves);
  }

  lemma Unroll<T>(q: Queue<T>, steps: seq<Step<T>>, step: Step<T>)
    requires |q.storage| > 0
    ensures Run(q, steps + [step]) == Next(Run(q, steps), step)
  {
    assert (steps + [step])[..|steps|] == steps;
  }
}

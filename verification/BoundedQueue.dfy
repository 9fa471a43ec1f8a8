/** The bounded queue as an object, called from one thread at a time. */
module BoundedQueue {
  import opened Options
  import Spsc = SpscQueue

  class BoundedSpscQueue<T> {
    const storage: array<T>
    var head: nat
    var tail: nat

    constructor (capacity: nat, initial: T)
      requires capacity > 0
      ensures Valid() && fresh(storage) && storage.Length == capacity && Contents() == []
    {
      storage := new T[capacity](_ => initial);
      head, tail := 0, 0;
    }

    ghost predicate Valid()
      reads this, storage
    {
      storage.Length > 0 && tail <= head <= tail + storage.Length
    }

    ghost function Contents(): (s: seq<T>)
      requires Valid()
      reads this, storage
      ensures |s| == head - tail
    {
      seq(head - tail, i requires 0 <= i < head - tail && Valid() reads this, storage => storage[(tail + i) % storage.Length])
    }

    method TryPush(value: T) returns (ok: bool)
      requires Valid()
      modifies this`head, storage
      ensures Valid()
      ensures ok == (|old(Contents())| < storage.Length)
      ensures Contents() == if ok then old(Contents()) + [value] else old(Contents())
    {
      ghost var before := Contents();
      if head - tail >= storage.Length {
        return false;
      }
      forall k | tail <= k < head
        ensures k % storage.Length != head % storage.Length
      {
        Spsc.SlotsDiffer(k, head, storage.Length);
      }
      storage[head % storage.Length] := value;
      head := head + 1;
      assert Contents() == before + [value];
      return true;
    }

    method TryPop() returns (value: Option<T>)
      requires Valid()
      modifies this`tail
      ensures Valid()
      ensures value.None? <==> old(Contents()) == []
      ensures old(Contents()) == (if value.Some? then [value.value] else []) + Contents()
    {
      ghost var before := Contents();
      if tail == head {
        return None;
      }
      value := Some(storage[tail % storage.Length]);
      tail := tail + 1;
      assert before == [value.value] + Contents();
    }

    method Size() returns (size: nat)
      requires Valid()
      ensures size == |Contents()| <= storage.Length
    {
      return head - tail;
    }

    method Clear()
      requires Valid()
      modifies this`tail
      ensures Valid() && Contents() == []
    {
      tail := head;
    }
  }

  /** A push that no other thread interrupts does what the method does. */
  lemma UninterruptedPush<T>(q: Spsc.Queue<T>, v: T)
    requires Spsc.Sound(q) && q.producer.ProducerIdle?
    ensures var n := Spsc.Run(q, Spsc.PushCall(v));
            var ok := |Spsc.Unread(q)| < |q.storage|;
            && n.tail <= n.head && n.tail == q.tail && n.consumer == q.consumer
            && Spsc.Unread(n) == (if ok then Spsc.Unread(q) + [v] else Spsc.Unread(q))
            && (ok <==> n.producer == Spsc.PushReturned(true))
            && (!ok <==> Spsc.Next(Spsc.Next(q, Spsc.Push(v)), Spsc.ProducerMoves).producer == Spsc.PushReturned(false))
  {
    Spsc.FourSteps(q, Spsc.Push(v), Spsc.ProducerMoves, Spsc.ProducerMoves, Spsc.ProducerMoves);
    var a := Spsc.Next(q, Spsc.Push(v));
    var b := Spsc.ProducerNext(a);
    var c := Spsc.ProducerNext(b);
    Spsc.StepKeepsSound(q, Spsc.Push(v));
    Spsc.ProducerKeepsSound(a);
    Spsc.ProducerKeepsSound(b);
    Spsc.ProducerStepRefines(a);
    Spsc.ProducerStepRefines(b);
    Spsc.ProducerStepRefines(c);
    assert Spsc.Unread(a) == Spsc.Unread(q);
    hide Spsc.Unread;
    hide Spsc.Sound;
  }

  /** A pop that no other thread interrupts does what the method does. */
  lemma UninterruptedPop<T>(q: Spsc.Queue<T>)
    requires Spsc.Sound(q) && q.consumer.ConsumerIdle?
    ensures var n := Spsc.Run(q, Spsc.PopCall());
            && n.tail <= n.head && n.head == q.head && n.producer == q.producer
            && (Spsc.Unread(q) == [] ==>
                  && Spsc.Next(Spsc.Next(q, Spsc.Pop), Spsc.ConsumerMoves).consumer == Spsc.PopReturned(None)
                  && n.tail == q.tail && n.consumer.ConsumerIdle?)
            && (Spsc.Unread(q) != [] ==>
                  n.consumer == Spsc.PopReturned(Some(Spsc.Unread(q)[0])) && Spsc.Unread(q) == [Spsc.Unread(q)[0]] + Spsc.Unread(n))
  {
    Spsc.FourSteps(q, Spsc.Pop, Spsc.ConsumerMoves, Spsc.ConsumerMoves, Spsc.ConsumerMoves);
    var a := Spsc.Next(q, Spsc.Pop);
    var b := Spsc.ConsumerNext(a);
    var c := Spsc.ConsumerNext(b);
    Spsc.StepKeepsSound(q, Spsc.Pop);
    Spsc.ConsumerKeepsSound(a);
    Spsc.ConsumerKeepsSound(b);
    Spsc.ConsumerStepRefines(a);
    Spsc.ConsumerStepRefines(b);
    Spsc.ConsumerStepRefines(c);
    assert Spsc.Unread(a) == Spsc.Unread(q);
    hide Spsc.Unread;
    hide Spsc.Sound;
  }

  /** A clear that no other thread interrupts empties the queue and leaves everything else. */
  lemma UninterruptedClear<T>(q: Spsc.Queue<T>)
    requires |q.storage| > 0 && q.consumer.ConsumerIdle?
    ensures var n := Spsc.Next(Spsc.Next(q, Spsc.Clear), Spsc.ConsumerMoves);
            n == q.(tail := q.head) && Spsc.Unread(n) == []
  {
  }

  /** A size asked by either thread that the other does not interrupt is the number of unread values. */
  lemma UninterruptedSize<T>(q: Spsc.Queue<T>)
    requires Spsc.Sound(q)
    ensures q.producer.ProducerIdle? ==>
              var n := Spsc.Next(Spsc.Next(q, Spsc.ProducerSize), Spsc.ProducerMoves);
              n == q.(producer := Spsc.ProducerSized(|Spsc.Unread(q)|)) && Spsc.Next(n, Spsc.ProducerMoves) == q
    ensures q.consumer.ConsumerIdle? ==>
              var n := Spsc.Next(Spsc.Next(q, Spsc.ConsumerSize), Spsc.ConsumerMoves);
              n == q.(consumer := Spsc.ConsumerSized(|Spsc.Unread(q)|)) && Spsc.Next(n, Spsc.ConsumerMoves) == q
  {
  }
}

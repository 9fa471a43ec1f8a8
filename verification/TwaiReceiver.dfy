/** The receiver object: building, counting and queueing a frame, and handing frames out. */
module TwaiReceiver {
  import opened BoundedQueue
  import opened Bytes
  import opened CanFrames
  import opened Clock32
  import opened Options

  function Clamped(dataLength: nat): nat {
    if dataLength < MAXIMUM_DATA_LENGTH then dataLength else MAXIMUM_DATA_LENGTH
  }

  /** The data bytes of a frame: none for a remote frame, zeros beyond the length. */
  function DataOf(remote: bool, dataLength: nat, data: Octets): Octets {
    seq(MAXIMUM_DATA_LENGTH, i requires 0 <= i < MAXIMUM_DATA_LENGTH => if !remote && i < dataLength then data[i] else 0)
  }

  /** The status of a frame: what the driver reported, and how the frame itself departs from a plain one. */
  function StatusOf(current: FrameStatus, remote: bool, dlcNonCompliant: bool, dataLength: nat): FrameStatus {
    current + (if remote then {RemoteFrame} else {})
    + (if dlcNonCompliant || dataLength > MAXIMUM_DATA_LENGTH then {DlcNonCompliant} else {})
  }

  class CanReceiver {
    const queue: BoundedSpscQueue<CanFrame>
    const bitrate: u32
    const channel: byte
    var currentFrameStatus: FrameStatus
    var framesReceived: nat
    var framesQueued: nat
    var framesDequeued: nat
    var softwareQueueOverruns: nat
    var lastSequence: nat
    var queueHighWatermark: nat
    var nextSequence: nat

    constructor (queue: BoundedSpscQueue<CanFrame>, bitrate: u32, channel: byte)
      requires queue.Valid() && queue.Contents() == []
      ensures this.queue == queue && this.bitrate == bitrate && this.channel == channel
      ensures Balanced() && currentFrameStatus == NO_STATUS
    {
      this.queue, this.bitrate, this.channel, currentFrameStatus := queue, bitrate, channel, NO_STATUS;
      framesReceived, framesQueued, framesDequeued, softwareQueueOverruns := 0, 0, 0, 0;
      lastSequence, queueHighWatermark, nextSequence := 0, 0, 1;
    }

    /** Between calls: received frames were queued or overrun, queued frames were dequeued or wait. */
    ghost predicate Balanced()
      reads this, queue, queue.storage
    {
      && queue.Valid()
      && framesReceived == framesQueued + softwareQueueOverruns
      && framesQueued == framesDequeued + |queue.Contents()|
      && lastSequence == framesReceived && nextSequence == framesReceived + 1
      && |queue.Contents()| <= queueHighWatermark <= queue.storage.Length
    }

    method CopyData(remote: bool, dataLength: nat, data: Octets) returns (copy: Octets)
      ensures copy == DataOf(remote, Clamped(dataLength), data)
    {
      var buffer := new byte[MAXIMUM_DATA_LENGTH](_ => 0);
      if !remote {
        for index := 0 to Clamped(dataLength)
          invariant forall k :: 0 <= k < MAXIMUM_DATA_LENGTH ==> buffer[k] == if k < index then data[k] else 0
        {
          buffer[index] := data[index];
        }
      }
      return buffer[..];
    }

    /** The frame of the next sequence number, as it was received. */
    function Received(timestampUs: nat, identifier: u32, extended: bool, remote: bool, dlcNonCompliant: bool,
                      dataLength: nat, data: Octets): CanFrame
      reads this
    {
      CanFrame(timestampUs, nextSequence, bitrate, identifier, channel, Clamped(dataLength), extended,
               StatusOf(currentFrameStatus, remote, dlcNonCompliant, dataLength), DataOf(remote, Clamped(dataLength), data))
    }

    method BuildFrame(timestampUs: nat, identifier: u32, extended: bool, remote: bool, dlcNonCompliant: bool,
                      dataLength: nat, data: Octets) returns (frame: CanFrame)
      ensures frame == Received(timestampUs, identifier, extended, remote, dlcNonCompliant, dataLength, data)
    {
      hide DataOf;
      hide Clamped;
      var status := currentFrameStatus;
      if remote {
        status := status + {RemoteFrame};
      }
      if dlcNonCompliant || dataLength > MAXIMUM_DATA_LENGTH {
        status := status + {DlcNonCompliant};
      }
      var copy := CopyData(remote, dataLength, data);
      return CanFrame(timestampUs, nextSequence, bitrate, identifier, channel, Clamped(dataLength), extended, status, copy);
    }

    method EnqueueReceivedFrame(timestampUs: nat, identifier: u32, extended: bool, remote: bool, dlcNonCompliant: bool,
                                dataLength: nat, data: Octets)
      requires Balanced()
      modifies this, queue, queue.storage
      ensures Balanced() && nextSequence == old(nextSequence) + 1 && framesDequeued == old(framesDequeued)
      ensures currentFrameStatus == old(currentFrameStatus)
      ensures queue.Contents()
              == if |old(queue.Contents())| < queue.storage.Length
                 then old(queue.Contents())
                      + [old(Received(timestampUs, identifier, extended, remote, dlcNonCompliant, dataLength, data))]
                 else old(queue.Contents())
      ensures queueHighWatermark
              == if |queue.Contents()| > old(queueHighWatermark) then |queue.Contents()| else old(queueHighWatermark)
    {
      hide StatusOf;
      hide DataOf;
      hide Clamped;
      hide BoundedSpscQueue.Contents;
      var frame := BuildFrame(timestampUs, identifier, extended, remote, dlcNonCompliant, dataLength, data);
      nextSequence := nextSequence + 1;
      framesReceived := framesReceived + 1;
      lastSequence := frame.sequence;
      var pushed := queue.TryPush(frame);
      if !pushed {
        softwareQueueOverruns := softwareQueueOverruns + 1;
        return;
      }
      framesQueued := framesQueued + 1;
      var depth := queue.Size();
      if depth > queueHighWatermark {
        queueHighWatermark := depth;
      }
    }

    method TryReceive() returns (frame: Option<CanFrame>)
      requires Balanced()
      modifies this, queue
      ensures Balanced() && nextSequence == old(nextSequence) && queueHighWatermark == old(queueHighWatermark)
      ensures old(queue.Contents()) == (if frame.Some? then [frame.value] else []) + queue.Contents()
      ensures frame.None? <==> old(queue.Contents()) == []
    {
      frame := queue.TryPop();
      if frame.None? {
        return;
      }
      framesDequeued := framesDequeued + 1;
    }

    method Restart()
      requires queue.Valid()
      modifies this, queue
      ensures Balanced() && queue.Contents() == [] && nextSequence == 1 && currentFrameStatus == NO_STATUS
      ensures framesQueued == 0 && queueHighWatermark == 0
    {
      queue.Clear();
      framesReceived, framesQueued, framesDequeued, softwareQueueOverruns := 0, 0, 0, 0;
      lastSequence, queueHighWatermark := 0, 0;
      currentFrameStatus, nextSequence := NO_STATUS, 1;
    }
  }
}

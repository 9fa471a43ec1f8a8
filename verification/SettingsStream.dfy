/**
 * Framing a byte stream: hunting for the magic, bounding a frame by its own
 * header, rejecting or delivering it, and dropping a frame that stalls.
 */
module SettingsStream {
  import opened Bytes
  import opened Clock32
  import opened Crc32Detection
  import SettingsPayload
  import opened SettingsProtocol

  const MAGIC_SIZE: nat := 4

  datatype StreamEvent =
    | NoEvent
    | FrameReady(frame: Frame)
    | FrameRejected(status: DecodeStatus)
    | TimedOut

  /** held: the buffered bytes of the frame being received. */
  datatype Receiver = Receiver(held: seq<byte>, lastByteMs: u32)

  const IDLE_RECEIVER := Receiver([], 0)

  datatype Framed = Framed(held: seq<byte>, event: StreamEvent)

  /** The size announced by a header, with header and checksum. */
  function ExpectedSize(held: seq<byte>): nat {
    if |held| < HEADER_SIZE then 0 else HEADER_SIZE + ReadU16(held[10..12]) as nat + CHECKSUM_SIZE
  }

  function Hunt(held: seq<byte>, b: byte): seq<byte>
    requires |held| < MAGIC_SIZE
  {
    if b == FRAME_MAGIC[|held|] then held + [b]
    else if b == FRAME_MAGIC[0] then [b]
    else []
  }

  function Complete(frame: seq<byte>): Framed {
    match Decoded(frame)
    case Accepted(f) => Framed([], FrameReady(f))
    case Rejected(status) => Framed([], FrameRejected(status))
  }

  function Collect(held: seq<byte>, b: byte): Framed
    requires |held| >= MAGIC_SIZE
  {
    if |held| >= MAXIMUM_FRAME_SIZE then Framed([], FrameRejected(TooLong))
    else
      var more := held + [b];
      if |more| == HEADER_SIZE && ReadU16(more[10..12]) as nat > SettingsPayload.PAYLOAD_SIZE then
        Framed([], FrameRejected(PayloadTooLarge))
      else if ExpectedSize(more) == 0 || |more| < ExpectedSize(more) then Framed(more, NoEvent)
      else Complete(more)
  }

  function Synchronized(held: seq<byte>, b: byte): Framed {
    if |held| < MAGIC_SIZE then Framed(Hunt(held, b), NoEvent) else Collect(held, b)
  }

  predicate Expired(timeoutMs: u32, r: Receiver, nowMs: u32) {
    r.held != [] && Sub(nowMs, r.lastByteMs) > timeoutMs
  }

  function Consumed(timeoutMs: u32, r: Receiver, b: byte, nowMs: u32): StreamEvent {
    var timedOut := Expired(timeoutMs, r, nowMs);
    var event := Synchronized(if timedOut then [] else r.held, b).event;
    if event == NoEvent && timedOut then TimedOut else event
  }

  function AfterConsume(timeoutMs: u32, r: Receiver, b: byte, nowMs: u32): Receiver {
    var timedOut := Expired(timeoutMs, r, nowMs);
    var framed := Synchronized(if timedOut then [] else r.held, b);
    Receiver(framed.held, if Resets(framed.event) then 0 else nowMs)
  }

  /** The events that end a frame clear the receiver. */
  predicate Resets(event: StreamEvent) {
    event.FrameReady? || event.FrameRejected?
  }

  function Polled(timeoutMs: u32, r: Receiver, nowMs: u32): StreamEvent {
    if Expired(timeoutMs, r, nowMs) then TimedOut else NoEvent
  }

  function AfterPoll(timeoutMs: u32, r: Receiver, nowMs: u32): Receiver {
    if Expired(timeoutMs, r, nowMs) then IDLE_RECEIVER else r
  }

  // ---------- what the buffer holds ----------

  /** A proper prefix of the magic, or a frame still short of the size its header announces. */
  predicate Framing(held: seq<byte>) {
    if |held| < MAGIC_SIZE then held == FRAME_MAGIC[..|held|]
    else
      && held[..MAGIC_SIZE] == FRAME_MAGIC
      && (|held| >= HEADER_SIZE ==>
            ReadU16(held[10..12]) as nat <= SettingsPayload.PAYLOAD_SIZE && |held| < ExpectedSize(held))
  }

  lemma FramingIsBounded(held: seq<byte>)
    requires Framing(held)
    ensures |held| < MAXIMUM_FRAME_SIZE
  {
  }

  lemma SynchronizedKeepsFraming(held: seq<byte>, b: byte)
    requires Framing(held)
    ensures Framing(Synchronized(held, b).held)
  {
    hide ReadU16;
    hide Decoded;
    var more := held + [b];
    if |held| >= MAGIC_SIZE {
      assert more[..MAGIC_SIZE] == held[..MAGIC_SIZE];
      if |held| >= HEADER_SIZE {
        assert more[10..12] == held[10..12];
      }
    } else if b == FRAME_MAGIC[|held|] {
      assert more == FRAME_MAGIC[..|held| + 1];
    }
  }

  /** A frame completed by the receiver passed the checks the receiver shares with the decoder. */
  lemma CompletedFrame(held: seq<byte>, b: byte)
    requires Framing(held) && |held| >= MAGIC_SIZE
    requires Synchronized(held, b).event != NoEvent && Synchronized(held, b).event != FrameRejected(PayloadTooLarge)
    ensures Synchronized(held, b) == Complete(held + [b])
    ensures MINIMUM_FRAME_SIZE <= |held + [b]| <= MAXIMUM_FRAME_SIZE
    ensures (held + [b])[..MAGIC_SIZE] == FRAME_MAGIC
    ensures StoredSize(held + [b]) <= SettingsPayload.PAYLOAD_SIZE && |held + [b]| == HEADER_SIZE + StoredSize(held + [b]) + CHECKSUM_SIZE
  {
    hide ReadU16;
    hide Decoded;
    var more := held + [b];
    FramingIsBounded(held);
    assert more[..MAGIC_SIZE] == held[..MAGIC_SIZE];
    if |held| >= HEADER_SIZE {
      assert more[10..12] == held[10..12];
    }
  }

  /**
   * The receiver rejects a frame for four reasons only: its own over-long and
   * the decoder's size and magic rejections are unreachable.
   */
  lemma RejectionsAreFour(timeoutMs: u32, r: Receiver, b: byte, nowMs: u32)
    requires Framing(r.held)
    ensures var event := Consumed(timeoutMs, r, b, nowMs);
            event.FrameRejected? ==>
              event.status == UnsupportedVersion || event.status == ReservedFieldSet
              || event.status == PayloadTooLarge || event.status == ChecksumMismatch
  {
    var held := if Expired(timeoutMs, r, nowMs) then [] else r.held;
    var framed := Synchronized(held, b);
    if framed.event.FrameRejected? && framed.event.status != PayloadTooLarge {
      CompletedFrame(held, b);
      hide ChecksumMatches;
      hide ReadU16;
    }
  }

  /** A delivered frame is exactly the bytes received for it: they are its one encoding. */
  lemma DeliveredIsEncoded(timeoutMs: u32, r: Receiver, b: byte, nowMs: u32)
    requires Framing(r.held) && Consumed(timeoutMs, r, b, nowMs).FrameReady?
    ensures !Expired(timeoutMs, r, nowMs)
    ensures var f := Consumed(timeoutMs, r, b, nowMs).frame;
            Encodable(f) && Encoded(f) == r.held + [b] && Canonical(f) == f
  {
    hide Decoded;
    hide ReadU16;
    hide Encoded;
    CompletedFrame(r.held, b);
    EncodeDecoded(r.held + [b]);
  }

  lemma ConsumeKeepsFraming(timeoutMs: u32, r: Receiver, b: byte, nowMs: u32)
    requires Framing(r.held)
    ensures Framing(AfterConsume(timeoutMs, r, b, nowMs).held)
  {
    hide Synchronized;
    SynchronizedKeepsFraming(if Expired(timeoutMs, r, nowMs) then [] else r.held, b);
  }

  // ---------- hunting is a full string matcher ----------

  /** The last k bytes of the input are the first k of the magic. */
  predicate EndsWith(input: seq<byte>, k: nat) {
    k <= MAGIC_SIZE && k <= |input| && input[|input| - k..] == FRAME_MAGIC[..k]
  }

  predicate MagicAt(input: seq<byte>, i: nat) {
    i + MAGIC_SIZE <= |input| && input[i..i + MAGIC_SIZE] == FRAME_MAGIC
  }

  ghost predicate Contains(input: seq<byte>) {
    exists i: nat :: MagicAt(input, i)
  }

  function Hunted(input: seq<byte>): seq<byte>
    ensures |Hunted(input)| <= MAGIC_SIZE
  {
    if input == [] then []
    else
      var held := Hunted(input[..|input| - 1]);
      if |held| == MAGIC_SIZE then held else Hunt(held, input[|input| - 1])
  }

  lemma EndsWithStep(input: seq<byte>, b: byte, k: nat)
    requires k < MAGIC_SIZE
    ensures EndsWith(input + [b], k + 1) <==> EndsWith(input, k) && b == FRAME_MAGIC[k]
  {
    var more := input + [b];
    if k <= |input| {
      assert more[|more| - (k + 1)..] == input[|input| - k..] + [b];
      assert FRAME_MAGIC[..k + 1] == FRAME_MAGIC[..k] + [FRAME_MAGIC[k]];
      if EndsWith(more, k + 1) {
        assert (input[|input| - k..] + [b])[..k] == input[|input| - k..];
        assert (FRAME_MAGIC[..k] + [FRAME_MAGIC[k]])[..k] == FRAME_MAGIC[..k];
        assert (input[|input| - k..] + [b])[k] == b;
      }
    }
  }

  lemma EndingLetter(input: seq<byte>, k: nat, i: nat)
    requires EndsWith(input, k) && i < k
    ensures input[|input| - k + i] == FRAME_MAGIC[i]
  {
    assert input[|input| - k..][i] == FRAME_MAGIC[..k][i];
  }

  /** The letters of the magic differ, so an input cannot end with two different non-empty prefixes of it. */
  lemma OneEnding(input: seq<byte>, j: nat, k: nat)
    requires 0 < j && 0 < k && EndsWith(input, j) && EndsWith(input, k)
    ensures j == k
  {
    hide EndsWith;
    EndingSize(input, j);
    EndingSize(input, k);
    assert forall i :: 0 < i < MAGIC_SIZE ==> FRAME_MAGIC[i] != FRAME_MAGIC[0];
    EndingLetter(input, j, 0);
    EndingLetter(input, k, 0);
    EndingLetter(input, j, if k < j then j - k else 0);
    EndingLetter(input, k, if j < k then k - j else 0);
  }

  lemma PrefixContains(input: seq<byte>)
    requires input != [] && !Contains(input)
    ensures !Contains(input[..|input| - 1])
  {
    if Contains(input[..|input| - 1]) {
      var i: nat :| MagicAt(input[..|input| - 1], i);
      assert input[..|input| - 1][i..i + MAGIC_SIZE] == input[i..i + MAGIC_SIZE];
      assert MagicAt(input, i);
    }
  }

  /** While hunting, the buffer is the longest end of the input that starts the magic. */
  lemma {:induction false} HuntingIsMatching(input: seq<byte>)
    requires input == [] || !Contains(input[..|input| - 1])
    ensures var k := |Hunted(input)|;
            && Hunted(input) == FRAME_MAGIC[..k]
            && EndsWith(input, k)
            && forall j: nat :: EndsWith(input, j) ==> j <= k
  {
    hide EndsWith;
    hide Contains;
    if input == [] {
      EmptyEnding();
    } else {
      var front, b := input[..|input| - 1], input[|input| - 1];
      if front != [] {
        PrefixContains(front);
      }
      HuntingIsMatching(front);
      NoFullEnding(front);
      assert input == front + [b];
      HuntStep(front, b, |Hunted(front)|);
    }
  }

  lemma EmptyEnding()
    ensures EndsWith([], 0) && forall j: nat :: EndsWith([], j) ==> j == 0
  {
  }

  lemma NoFullEnding(input: seq<byte>)
    requires !Contains(input)
    ensures !EndsWith(input, MAGIC_SIZE)
  {
    if EndsWith(input, MAGIC_SIZE) {
      var i := |input| - MAGIC_SIZE;
      assert input[i..i + MAGIC_SIZE] == input[i..];
      assert MagicAt(input, i);
    }
  }

  lemma HuntStep(front: seq<byte>, b: byte, k: nat)
    requires k < MAGIC_SIZE && EndsWith(front, k) && forall j: nat :: EndsWith(front, j) ==> j <= k
    ensures var more := Hunt(FRAME_MAGIC[..k], b);
            && more == FRAME_MAGIC[..|more|]
            && EndsWith(front + [b], |more|)
            && forall j: nat :: EndsWith(front + [b], j) ==> j <= |more|
  {
    EndsWithStep(front, b, k);
    EndsWithStep(front, b, 0);
    NoEnding(front);
    NoEnding(front + [b]);
    HuntPrefix(b, k);
    hide EndsWith;
    var more := Hunt(FRAME_MAGIC[..k], b);
    hide Hunt;
    forall j: nat | EndsWith(front + [b], j)
      ensures j <= |more|
    {
      EndingSize(front + [b], j);
      if j > 0 {
        EndsWithStep(front, b, j - 1);
        if 1 < j && 0 < k {
          OneEnding(front, j - 1, k);
        }
      }
    }
  }

  lemma NoEnding(input: seq<byte>)
    ensures EndsWith(input, 0)
  {
  }

  lemma EndingSize(input: seq<byte>, k: nat)
    requires EndsWith(input, k)
    ensures k <= MAGIC_SIZE
  {
  }

  /** One letter on: the prefix grows, restarts at its first letter, or is lost. */
  lemma HuntPrefix(b: byte, k: nat)
    requires k < MAGIC_SIZE
    ensures var more := Hunt(FRAME_MAGIC[..k], b);
            && more == FRAME_MAGIC[..|more|]
            && |more| == (if b == FRAME_MAGIC[k] then k + 1 else if b == FRAME_MAGIC[0] then 1 else 0)
  {
  }
}

/** Whole byte streams: every frame on the wire is delivered, whatever noise lies between the frames. */
module SettingsStreamRuns {
  import opened Bytes
  import opened Clock32
  import opened SettingsProtocol
  import opened SettingsStream

  // ---------- streams without timeouts ----------

  function Held(held: seq<byte>, bytes: seq<byte>): seq<byte> {
    if bytes == [] then held
    else Synchronized(Held(held, bytes[..|bytes| - 1]), bytes[|bytes| - 1]).held
  }

  /** The event of every byte. */
  function Events(held: seq<byte>, bytes: seq<byte>): (events: seq<StreamEvent>)
    ensures |events| == |bytes|
  {
    if bytes == [] then []
    else
      var front := bytes[..|bytes| - 1];
      Events(held, front) + [Synchronized(Held(held, front), bytes[|bytes| - 1]).event]
  }

  function Silence(n: nat): seq<StreamEvent> {
    seq(n, _ => NoEvent)
  }

  lemma Empty(held: seq<byte>)
    ensures Held(held, []) == held && Events(held, []) == []
  {
  }

  lemma OneMore(held: seq<byte>, bytes: seq<byte>, b: byte)
    ensures Held(held, bytes + [b]) == Synchronized(Held(held, bytes), b).held
    ensures Events(held, bytes + [b]) == Events(held, bytes) + [Synchronized(Held(held, bytes), b).event]
  {
    hide Synchronized;
    assert (bytes + [b])[..|bytes|] == bytes;
  }

  lemma {:induction false} Split(held: seq<byte>, a: seq<byte>, b: seq<byte>)
    ensures Held(held, a + b) == Held(Held(held, a), b)
    ensures Events(held, a + b) == Events(held, a) + Events(Held(held, a), b)
  {
    hide Synchronized;
    if b == [] {
      assert a + b == a;
    } else {
      assert (a + b)[..|a + b| - 1] == a + b[..|b| - 1];
      Split(held, a, b[..|b| - 1]);
    }
  }

  // ---------- noise ----------

  lemma ContainsStep(input: seq<byte>, b: byte)
    requires !Contains(input) && Contains(input + [b])
    ensures b == FRAME_MAGIC[3]
  {
    var more := input + [b];
    var i: nat :| MagicAt(more, i);
    assert more[i..i + MAGIC_SIZE][3] == more[i + 3];
    if i + MAGIC_SIZE < |more| {
      StillAt(input, b, i);
    }
  }

  lemma StillAt(input: seq<byte>, b: byte, i: nat)
    requires MagicAt(input + [b], i) && i + MAGIC_SIZE <= |input|
    ensures MagicAt(input, i)
  {
    assert (input + [b])[i..i + MAGIC_SIZE] == input[i..i + MAGIC_SIZE];
  }

  /** Noise before a frame cannot run into its magic too early. */
  lemma NoiseStaysClear(noise: seq<byte>)
    requires !Contains(noise)
    ensures !Contains(noise + FRAME_MAGIC[..3])
  {
    hide Contains;
    var b, m, c := FRAME_MAGIC[0], FRAME_MAGIC[1], FRAME_MAGIC[2];
    if Contains(noise + [b]) {
      ContainsStep(noise, b);
    }
    if Contains(noise + [b] + [m]) {
      ContainsStep(noise + [b], m);
    }
    if Contains(noise + [b] + [m] + [c]) {
      ContainsStep(noise + [b] + [m], c);
    }
    assert noise + FRAME_MAGIC[..3] == noise + [b] + [m] + [c];
  }

  lemma {:induction false} HuntedIsHeld(input: seq<byte>)
    requires input == [] || !Contains(input[..|input| - 1])
    ensures Held([], input) == Hunted(input)
    ensures Events([], input) == Silence(|input|)
  {
    hide *;
    if input == [] {
      NoInput();
    } else {
      var front, b := input[..|input| - 1], input[|input| - 1];
      HuntedIsShort(front);
      if front != [] {
        PrefixContains(front);
      }
      HuntedIsHeld(front);
      HuntedStep(front, b);
      OneMore([], front, b);
      StillHunting(Hunted(front), b);
      assert input == front + [b];
      SilenceGrows(|front|);
    }
  }

  lemma NoInput()
    ensures Held([], []) == Hunted([]) == [] && Events([], []) == Silence(0) == []
  {
  }

  lemma StillHunting(held: seq<byte>, b: byte)
    requires |held| < MAGIC_SIZE
    ensures Synchronized(held, b) == Framed(Hunt(held, b), NoEvent)
  {
  }

  lemma HuntedIsShort(input: seq<byte>)
    requires !Contains(input)
    ensures |Hunted(input)| < MAGIC_SIZE
  {
    hide Contains;
    hide EndsWith;
    if input != [] {
      PrefixContains(input);
    }
    HuntingIsMatching(input);
    NoFullEnding(input);
  }

  lemma HuntedStep(front: seq<byte>, b: byte)
    requires |Hunted(front)| < MAGIC_SIZE
    ensures Hunted(front + [b]) == Hunt(Hunted(front), b)
  {
    hide Hunt;
    assert (front + [b])[..|front|] == front;
  }

  /** After noise, the magic of a frame is always recognized on its last letter. */
  lemma MagicIsFound(noise: seq<byte>)
    requires !Contains(noise)
    ensures Held([], noise + FRAME_MAGIC) == FRAME_MAGIC
    ensures Events([], noise + FRAME_MAGIC) == Silence(|noise| + MAGIC_SIZE)
  {
    hide Contains;
    hide Hunted;
    hide Events;
    hide Held;
    var input := noise + FRAME_MAGIC;
    assert input[..|input| - 1] == noise + FRAME_MAGIC[..3];
    NoiseStaysClear(noise);
    HuntedIsHeld(input);
    HuntingIsMatching(input);
    assert EndsWith(input, MAGIC_SIZE);
  }

  // ---------- a frame after its magic ----------

  lemma SizeInHeader(f: Frame, bytes: seq<byte>)
    requires Encodable(f) && |bytes| >= HEADER_SIZE && bytes[..HEADER_SIZE] == Header(f)
    ensures ReadU16(bytes[10..12]) == f.payloadSize
  {
    hide Header;
    hide WriteU16;
    hide ReadU16;
    HeaderParts(f, bytes);
    ReadWriteU16(f.payloadSize);
  }

  lemma EncodedHeader(f: Frame, i: nat)
    requires Encodable(f) && HEADER_SIZE <= i <= |Encoded(f)|
    ensures Encoded(f)[..i][..HEADER_SIZE] == Header(f)
  {
    hide Header;
  }

  /** Every byte of a frame but the last is kept, and the last one delivers it. */
  lemma FrameByte(f: Frame, i: nat)
    requires Encodable(f) && MAGIC_SIZE <= i < |Encoded(f)|
    ensures Synchronized(Encoded(f)[..i], Encoded(f)[i]) ==
            if i + 1 < |Encoded(f)| then Framed(Encoded(f)[..i + 1], NoEvent)
            else Framed([], FrameReady(Canonical(f)))
  {
    hide Decoded;
    hide ReadU16;
    hide Header;
    hide Canonical;
    var e := Encoded(f);
    hide Encoded;
    assert e[..i] + [e[i]] == e[..i + 1];
    if i + 1 >= HEADER_SIZE {
      EncodedHeader(f, i + 1);
      SizeInHeader(f, e[..i + 1]);
    }
    if i + 1 == |e| {
      assert e[..i + 1] == e;
      DecodeEncoded(f);
    }
  }

  lemma SilenceGrows(n: nat)
    ensures Silence(n + 1) == Silence(n) + [NoEvent]
  {
  }

  lemma {:induction false} FrameBytes(f: Frame, i: nat)
    requires Encodable(f) && MAGIC_SIZE <= i < |Encoded(f)|
    ensures Held(FRAME_MAGIC, Encoded(f)[MAGIC_SIZE..i]) == Encoded(f)[..i]
    ensures Events(FRAME_MAGIC, Encoded(f)[MAGIC_SIZE..i]) == Silence(i - MAGIC_SIZE)
  {
    hide *;
    var e := Encoded(f);
    if i > MAGIC_SIZE {
      FrameBytes(f, i - 1);
      FrameByte(f, i - 1);
      OneMore(FRAME_MAGIC, e[MAGIC_SIZE..i - 1], e[i - 1]);
      SliceGrows(e, MAGIC_SIZE, i);
      SilenceGrows(i - 1 - MAGIC_SIZE);
    } else {
      EncodedMagic(f);
      Empty(FRAME_MAGIC);
      NoSilence();
      assert e[MAGIC_SIZE..i] == [];
    }
  }

  lemma {:induction false} SliceGrows(e: seq<byte>, m: nat, i: nat)
    requires m < i <= |e|
    ensures e[m..i - 1] + [e[i - 1]] == e[m..i]
  {
  }

  lemma NoSilence()
    ensures Silence(0) == []
  {
  }

  lemma EncodedMagic(f: Frame)
    requires Encodable(f)
    ensures MAGIC_SIZE < |Encoded(f)| - 1 && Encoded(f)[..MAGIC_SIZE] == FRAME_MAGIC
  {
    hide Header;
    EncodedHeader(f, HEADER_SIZE);
    HeaderParts(f, Encoded(f));
  }

  /** The events of noise and a frame: nothing for every byte but the last, which delivers the frame. */
  function Delivery(noise: seq<byte>, f: Frame): seq<StreamEvent>
    requires Encodable(f)
  {
    Silence(|noise| + |Encoded(f)| - 1) + [FrameReady(Canonical(f))]
  }

  /** After any noise that does not contain the magic, a frame is delivered on its last byte and nothing stays held. */
  lemma NoiseThenFrame(noise: seq<byte>, f: Frame)
    requires Encodable(f) && !Contains(noise)
    ensures Events([], noise + Encoded(f)) == Delivery(noise, f)
    ensures Held([], noise + Encoded(f)) == []
  {
    hide *;
    EncodedMagic(f);
    var e := Encoded(f);
    var n := |e| - 1;
    MagicIsFound(noise);
    FrameBytes(f, n);
    FrameByte(f, n);
    Split([], noise + FRAME_MAGIC, e[MAGIC_SIZE..n]);
    var front := noise + FRAME_MAGIC + e[MAGIC_SIZE..n];
    assert e[..n] == FRAME_MAGIC + e[MAGIC_SIZE..n] by {
      assert e[..n][..MAGIC_SIZE] == e[..MAGIC_SIZE];
    }
    assert front + [e[n]] == noise + e;
    OneMore([], front, e[n]);
    SilenceJoins(|noise| + MAGIC_SIZE, n - MAGIC_SIZE);
    DeliveryEnds(noise, f);
  }

  lemma DeliveryEnds(noise: seq<byte>, f: Frame)
    requires Encodable(f)
    ensures Delivery(noise, f) == Silence(|noise| + |Encoded(f)| - 1) + [FrameReady(Canonical(f))]
  {
  }

  lemma SilenceJoins(m: nat, n: nat)
    ensures Silence(m + n) == Silence(m) + Silence(n)
  {
  }

  // ---------- many frames ----------

  datatype Segment = Segment(noise: seq<byte>, frame: Frame)

  predicate Sendable(segments: seq<Segment>) {
    forall i :: 0 <= i < |segments| ==> Encodable(segments[i].frame)
  }

  ghost predicate Quiet(segments: seq<Segment>) {
    forall i :: 0 <= i < |segments| ==> !Contains(segments[i].noise)
  }

  function Wire(segments: seq<Segment>): seq<byte>
    requires Sendable(segments)
  {
    if segments == [] then []
    else
      var last := segments[|segments| - 1];
      Wire(segments[..|segments| - 1]) + (last.noise + Encoded(last.frame))
  }

  function Deliveries(segments: seq<Segment>): seq<StreamEvent>
    requires Sendable(segments)
  {
    if segments == [] then []
    else
      var last := segments[|segments| - 1];
      Deliveries(segments[..|segments| - 1]) + Delivery(last.noise, last.frame)
  }

  /** Frames separated by any noise are all delivered, once each, in order, and nothing else is. */
  lemma {:induction false} StreamDeliversFrames(segments: seq<Segment>)
    requires Sendable(segments) && Quiet(segments)
    ensures Events([], Wire(segments)) == Deliveries(segments)
    ensures Held([], Wire(segments)) == []
  {
    hide Encoded;
    hide Contains;
    hide Delivery;
    hide Events;
    hide Held;
    if segments == [] {
      Empty([]);
    } else {
      var front, last := segments[..|segments| - 1], segments[|segments| - 1];
      StreamDeliversFrames(front);
      NoiseThenFrame(last.noise, last.frame);
      Split([], Wire(front), last.noise + Encoded(last.frame));
    }
  }

  // ---------- arrival times ----------

  datatype Arrival = Arrival(value: byte, atMs: u32)

  function BytesOf(input: seq<Arrival>): (bytes: seq<byte>)
    ensures |bytes| == |input|
    ensures forall i :: 0 <= i < |input| ==> bytes[i] == input[i].value
  {
    seq(|input|, i requires 0 <= i < |input| => input[i].value)
  }

  function AfterAll(timeoutMs: u32, r: Receiver, input: seq<Arrival>): Receiver {
    if input == [] then r
    else
      var last := input[|input| - 1];
      AfterConsume(timeoutMs, AfterAll(timeoutMs, r, input[..|input| - 1]), last.value, last.atMs)
  }

  function EventsAll(timeoutMs: u32, r: Receiver, input: seq<Arrival>): (events: seq<StreamEvent>)
    ensures |events| == |input|
  {
    if input == [] then []
    else
      var front, last := input[..|input| - 1], input[|input| - 1];
      EventsAll(timeoutMs, r, front) + [Consumed(timeoutMs, AfterAll(timeoutMs, r, front), last.value, last.atMs)]
  }

  /** No gap between consecutive bytes exceeds the timeout. */
  predicate Timely(timeoutMs: u32, input: seq<Arrival>) {
    forall i :: 0 < i < |input| ==> Sub(input[i].atMs, input[i - 1].atMs) <= timeoutMs
  }

  /** The events of a fresh stream, with the report of a frame dropped at its first byte. */
  function Reported(dropped: bool, events: seq<StreamEvent>): seq<StreamEvent> {
    if dropped && events != [] && events[0] == NoEvent then [TimedOut] + events[1..] else events
  }

  /** One byte in time, or one after a stall. */
  lemma OneByte(timeoutMs: u32, r: Receiver, b: byte, nowMs: u32)
    ensures var dropped := Expired(timeoutMs, r, nowMs);
            var framed := Synchronized(if dropped then [] else r.held, b);
            && AfterConsume(timeoutMs, r, b, nowMs).held == framed.held
            && [Consumed(timeoutMs, r, b, nowMs)] == Reported(dropped, [framed.event])
    ensures AfterConsume(timeoutMs, r, b, nowMs).held == [] || AfterConsume(timeoutMs, r, b, nowMs).lastByteMs == nowMs
  {
    hide Synchronized;
    ResetsEmpty(if Expired(timeoutMs, r, nowMs) then [] else r.held, b);
  }

  lemma InTime(timeoutMs: u32, r: Receiver, lastMs: u32, nowMs: u32)
    requires r.held == [] || r.lastByteMs == lastMs
    requires Sub(nowMs, lastMs) <= timeoutMs
    ensures !Expired(timeoutMs, r, nowMs)
  {
  }

  /** A timely stream, started afresh or after a stall, is received as if time did not matter. */
  lemma {:induction false} TimelyStream(timeoutMs: u32, r: Receiver, input: seq<Arrival>)
    requires Timely(timeoutMs, input) && input != []
    requires r.held == [] || Expired(timeoutMs, r, input[0].atMs)
    ensures AfterAll(timeoutMs, r, input).held == Held([], BytesOf(input))
    ensures EventsAll(timeoutMs, r, input) == Reported(r.held != [], Events([], BytesOf(input)))
    ensures AfterAll(timeoutMs, r, input).held == [] || AfterAll(timeoutMs, r, input).lastByteMs == input[|input| - 1].atMs
  {
    hide Synchronized;
    hide Held;
    hide Events;
    hide AfterConsume;
    hide Consumed;
    hide Sub;
    var front, last := input[..|input| - 1], input[|input| - 1];
    assert BytesOf(input) == BytesOf(front) + [last.value];
    OneMore([], BytesOf(front), last.value);
    OneByte(timeoutMs, AfterAll(timeoutMs, r, front), last.value, last.atMs);
    if front == [] {
      assert BytesOf(front) == [];
      Empty([]);
    } else {
      TimelyStream(timeoutMs, r, front);
      InTime(timeoutMs, AfterAll(timeoutMs, r, front), front[|front| - 1].atMs, last.atMs);
      hide Expired;
      ReportedStep(r.held != [], Events([], BytesOf(front)), Synchronized(Held([], BytesOf(front)), last.value).event);
    }
  }

  lemma ReportedStep(dropped: bool, events: seq<StreamEvent>, event: StreamEvent)
    requires events != []
    ensures Reported(dropped, events + [event]) == Reported(dropped, events) + [event]
  {
  }

  lemma ResetsEmpty(held: seq<byte>, b: byte)
    ensures Resets(Synchronized(held, b).event) ==> Synchronized(held, b).held == []
  {
    hide Decoded;
    hide ReadU16;
  }

  /** A frame that stalls is dropped and reported at the next byte, and costs none of the frames after it. */
  lemma StallCostsNothing(timeoutMs: u32, r: Receiver, input: seq<Arrival>, segments: seq<Segment>)
    requires Sendable(segments) && Quiet(segments) && BytesOf(input) == Wire(segments)
    requires Timely(timeoutMs, input) && input != []
    requires r.held == [] || Expired(timeoutMs, r, input[0].atMs)
    ensures EventsAll(timeoutMs, r, input) == Reported(r.held != [], Deliveries(segments))
    ensures AfterAll(timeoutMs, r, input).held == []
  {
    hide Wire;
    hide Deliveries;
    hide Expired;
    hide Contains;
    hide Events;
    hide Held;
    TimelyStream(timeoutMs, r, input);
    StreamDeliversFrames(segments);
  }

  /**
   * The receiver expires a frame exactly when the real gap modulo 2^32 exceeds
   * the timeout. That is the real gap exceeding it, exactly when nothing is held,
   * the gap is below 2^32 ms, or it is above what wraps to within the timeout.
   */
  lemma ExpiryIsReal(timeoutMs: u32, r: Receiver, lastMs: nat, nowMs: nat)
    requires lastMs <= nowMs && r.lastByteMs == Wrap(lastMs)
    ensures Expired(timeoutMs, r, Wrap(nowMs)) <==> r.held != [] && (nowMs - lastMs) % TWO32 > timeoutMs
    ensures (Expired(timeoutMs, r, Wrap(nowMs)) <==> r.held != [] && nowMs - lastMs > timeoutMs)
            <==> (r.held == [] || nowMs - lastMs < TWO32 || (nowMs - lastMs) % TWO32 > timeoutMs)
  {
    SubOfWrapped(nowMs, lastMs);
  }

  /** A frame begun at one instant and polled between 2^32 ms and 2^32 ms plus the timeout later has stalled and is kept. */
  lemma StallUnnoticed(timeoutMs: u32, lastMs: nat, lateMs: nat)
    requires lateMs <= timeoutMs
    ensures var r := AfterAll(timeoutMs, IDLE_RECEIVER, [Arrival(FRAME_MAGIC[0], Wrap(lastMs))]);
            var now := Wrap(lastMs + TWO32 + lateMs);
            && r.held == [FRAME_MAGIC[0]]
            && Polled(timeoutMs, r, now) == NoEvent && AfterPoll(timeoutMs, r, now) == r
  {
    var input := [Arrival(FRAME_MAGIC[0], Wrap(lastMs))];
    assert input[..0] == [];
    assert AfterAll(timeoutMs, IDLE_RECEIVER, input)
        == AfterConsume(timeoutMs, AfterAll(timeoutMs, IDLE_RECEIVER, []), FRAME_MAGIC[0], Wrap(lastMs));
    var r := AfterAll(timeoutMs, IDLE_RECEIVER, input);
    ExpiryIsReal(timeoutMs, r, lastMs, lastMs + TWO32 + lateMs);
  }

  // ---------- resynchronisation ----------

  /** A byte of a frame being collected is kept, or ends the frame. */
  lemma CollectStep(held: seq<byte>, b: byte)
    requires Framing(held) && |held| >= MAGIC_SIZE
    ensures var framed := Synchronized(held, b);
            framed == Framed(held + [b], NoEvent) || (framed.held == [] && Resets(framed.event))
  {
    FramingIsBounded(held);
    hide Decoded;
    hide ReadU16;
  }

  lemma {:induction false} StaysFraming(held: seq<byte>, bytes: seq<byte>)
    requires Framing(held)
    ensures Framing(Held(held, bytes))
  {
    hide Synchronized;
    hide Framing;
    if bytes != [] {
      StaysFraming(held, bytes[..|bytes| - 1]);
      SynchronizedKeepsFraming(Held(held, bytes[..|bytes| - 1]), bytes[|bytes| - 1]);
    }
  }

  /** After k bytes the frame being collected has been delivered or rejected and nothing is held. */
  predicate EndsAt(held: seq<byte>, bytes: seq<byte>, k: nat) {
    && 0 < k <= |bytes|
    && Held(held, bytes[..k]) == []
    && Resets(Events(held, bytes[..k])[k - 1])
  }

  /** Until it ends, a frame being collected keeps every byte. */
  lemma {:induction false} CollectsUntilEnd(held: seq<byte>, bytes: seq<byte>, n: nat)
    requires Framing(held) && |held| >= MAGIC_SIZE && n <= |bytes|
    requires forall k :: 0 < k <= n ==> !EndsAt(held, bytes, k)
    ensures Held(held, bytes[..n]) == held + bytes[..n]
  {
    hide *;
    if n == 0 {
      assert bytes[..0] == [] && held + [] == held;
      Empty(held);
    } else {
      CollectsUntilEnd(held, bytes, n - 1);
      StaysFraming(held, bytes[..n - 1]);
      assert bytes[..n] == bytes[..n - 1] + [bytes[n - 1]];
      OneMore(held, bytes[..n - 1], bytes[n - 1]);
      CollectStep(held + bytes[..n - 1], bytes[n - 1]);
      assert held + bytes[..n - 1] + [bytes[n - 1]] == held + bytes[..n];
      NotEnded(held, bytes, n);
    }
  }

  lemma NotEnded(held: seq<byte>, bytes: seq<byte>, k: nat)
    requires 0 < k <= |bytes| && !EndsAt(held, bytes, k)
    ensures Held(held, bytes[..k]) != [] || !Resets(Events(held, bytes[..k])[k - 1])
  {
  }

  /** Whatever comes, a frame being collected ends before a whole frame's worth of bytes is held, and hunting resumes. */
  lemma HuntingResumes(held: seq<byte>, bytes: seq<byte>) returns (k: nat)
    requires Framing(held) && |held| >= MAGIC_SIZE && |held| + |bytes| >= MAXIMUM_FRAME_SIZE
    ensures k <= MAXIMUM_FRAME_SIZE - |held| && EndsAt(held, bytes, k)
  {
    FramingIsBounded(held);
    var n := MAXIMUM_FRAME_SIZE - |held|;
    hide Framing;
    hide EndsAt;
    hide Held;
    if forall k :: 0 < k <= n ==> !EndsAt(held, bytes, k) {
      CollectsUntilEnd(held, bytes, n);
      StaysFraming(held, bytes[..n]);
      FramingIsBounded(held + bytes[..n]);
      assert false;
    }
    k :| 0 < k <= n && EndsAt(held, bytes, k);
  }

  lemma SuffixIsClear(noise: seq<byte>, k: nat)
    requires k <= |noise| && !Contains(noise)
    ensures !Contains(noise[k..])
  {
    if Contains(noise[k..]) {
      var i: nat :| MagicAt(noise[k..], i);
      assert noise[k..][i..i + MAGIC_SIZE] == noise[k + i..k + i + MAGIC_SIZE];
      assert MagicAt(noise, k + i);
    }
  }

  /** The events of a frame's own bytes when it is delivered on the last of them. */
  predicate DeliversLast(held: seq<byte>, before: seq<byte>, f: Frame)
    requires Encodable(f)
  {
    && Held(held, before + Encoded(f)) == []
    && Events(held, before + Encoded(f))[|before|..] == Delivery([], f)
  }

  /** Bytes before leave the receiver where the rest begins. */
  lemma {:induction false} DeliversBehind(held: seq<byte>, front: seq<byte>, rest: seq<byte>, f: Frame)
    requires Encodable(f) && DeliversLast(Held(held, front), rest, f)
    ensures DeliversLast(held, front + rest, f)
  {
    var e := Encoded(f);
    Split(held, front, rest + e);
    assert front + (rest + e) == (front + rest) + e;
    hide Held;
    hide Events;
    hide Delivery;
    hide Encoded;
    TailOfJoined(Events(held, front), Events(Held(held, front), rest + e), |rest|);
  }

  lemma TailOfJoined(a: seq<StreamEvent>, b: seq<StreamEvent>, n: nat)
    requires n <= |b|
    ensures (a + b)[|a| + n..] == b[n..]
  {
  }

  /** After magic-free bytes a frame is delivered. */
  lemma DeliversAfterNoise(noise: seq<byte>, f: Frame)
    requires Encodable(f) && !Contains(noise)
    ensures DeliversLast([], noise, f)
  {
    NoiseThenFrame(noise, f);
    DeliveryTail(noise, f);
    hide Contains;
    hide Held;
    hide Events;
    hide Delivery;
    hide Encoded;
  }

  lemma DeliveryTail(noise: seq<byte>, f: Frame)
    requires Encodable(f)
    ensures |Delivery(noise, f)| == |noise| + |Encoded(f)| && Delivery(noise, f)[|noise|..] == Delivery([], f)
  {
    EncodedMagic(f);
    hide Encoded;
  }

  /** A frame being collected ends within the quiet, and the next one is delivered. */
  lemma {:induction false} DeliversAfterCollecting(held: seq<byte>, quiet: seq<byte>, f: Frame)
    requires Framing(held) && |held| >= MAGIC_SIZE && Encodable(f)
    requires !Contains(quiet) && |held| + |quiet| >= MAXIMUM_FRAME_SIZE
    ensures DeliversLast(held, quiet, f)
  {
    var k := HuntingResumes(held, quiet);
    EndHoldsNothing(held, quiet, k);
    hide *;
    SuffixIsClear(quiet, k);
    DeliversAfterNoise(quiet[k..], f);
    DeliversBehind(held, quiet[..k], quiet[k..], f);
    assert quiet[..k] + quiet[k..] == quiet;
  }

  lemma EndHoldsNothing(held: seq<byte>, bytes: seq<byte>, k: nat)
    requires EndsAt(held, bytes, k)
    ensures k <= |bytes| && Held(held, bytes[..k]) == []
  {
  }

  /** The beginning of a magic is what a receiver holds after it. */
  lemma {:induction false} PrefixIsHeld(j: nat)
    requires j <= MAGIC_SIZE
    ensures Held([], FRAME_MAGIC[..j]) == FRAME_MAGIC[..j]
  {
    if j == 0 {
      Empty([]);
    } else {
      PrefixIsHeld(j - 1);
      OneMore([], FRAME_MAGIC[..j - 1], FRAME_MAGIC[j - 1]);
      assert FRAME_MAGIC[..j] == FRAME_MAGIC[..j - 1] + [FRAME_MAGIC[j - 1]];
    }
  }

  lemma {:induction false} ShiftedMagic(input: seq<byte>, j: nat, i: nat)
    requires MagicAt(input, i) && j <= i
    ensures MagicAt(input[j..], i - j)
  {
    assert input[j..][i - j..i - j + MAGIC_SIZE] == input[i..i + MAGIC_SIZE];
  }

  lemma FirstLetterOnce(i: nat)
    requires 0 < i < MAGIC_SIZE
    ensures FRAME_MAGIC[i] != FRAME_MAGIC[0]
  {
  }

  lemma {:induction false} LetterAt(input: seq<byte>, i: nat)
    requires MagicAt(input, i)
    ensures input[i] == FRAME_MAGIC[0]
  {
    assert input[i] == input[i..i + MAGIC_SIZE][0];
  }

  /** A magic in magic-free bytes after the beginning of one is that one, completed. */
  lemma {:induction false} OnlyCompletion(j: nat, quiet: seq<byte>)
    requires j < MAGIC_SIZE && !Contains(quiet) && Contains(FRAME_MAGIC[..j] + quiet)
    ensures MAGIC_SIZE - j <= |quiet| && FRAME_MAGIC[..j] + quiet[..MAGIC_SIZE - j] == FRAME_MAGIC
  {
    var all := FRAME_MAGIC[..j] + quiet;
    var i: nat :| MagicAt(all, i);
    if j <= i {
      assert all[j..] == quiet;
      ShiftedMagic(all, j, i);
    }
    if 0 < i < j {
      LetterAt(all, i);
      FirstLetterOnce(i);
    }
    assert i == 0;
    assert all[0..MAGIC_SIZE] == FRAME_MAGIC[..j] + quiet[..MAGIC_SIZE - j];
  }

  lemma MagicIsFraming()
    ensures Framing(FRAME_MAGIC) && |FRAME_MAGIC| == MAGIC_SIZE && FRAME_MAGIC[..MAGIC_SIZE] == FRAME_MAGIC
  {
  }

  /** A magic completed, and then quiet. */
  lemma {:induction false} DeliversAfterCompletion(j: nat, front: seq<byte>, rest: seq<byte>, f: Frame)
    requires j <= MAGIC_SIZE && FRAME_MAGIC[..j] + front == FRAME_MAGIC
    requires Encodable(f) && !Contains(rest) && MAGIC_SIZE + |rest| >= MAXIMUM_FRAME_SIZE
    ensures DeliversLast(FRAME_MAGIC[..j], front + rest, f)
  {
    MagicIsFraming();
    hide *;
    PrefixIsHeld(j);
    PrefixIsHeld(MAGIC_SIZE);
    Split([], FRAME_MAGIC[..j], front);
    DeliversAfterCollecting(FRAME_MAGIC, rest, f);
    DeliversBehind(FRAME_MAGIC[..j], front, rest, f);
  }

  /** A magic begun before the quiet is completed in it, or never. */
  lemma {:induction false} DeliversAfterHunting(j: nat, quiet: seq<byte>, f: Frame)
    requires j < MAGIC_SIZE && Encodable(f) && !Contains(quiet) && j + |quiet| >= MAXIMUM_FRAME_SIZE
    ensures DeliversLast(FRAME_MAGIC[..j], quiet, f)
  {
    MagicIsFraming();
    hide *;
    var held := FRAME_MAGIC[..j];
    if Contains(held + quiet) {
      var n := MAGIC_SIZE - j;
      OnlyCompletion(j, quiet);
      SuffixIsClear(quiet, n);
      DeliversAfterCompletion(j, quiet[..n], quiet[n..], f);
      assert quiet[..n] + quiet[n..] == quiet;
    } else {
      PrefixIsHeld(j);
      DeliversAfterNoise(held + quiet, f);
      DeliversAlready(held, held, quiet, f);
    }
  }

  /** What is delivered from nothing after some bytes is delivered from what they leave held. */
  lemma {:induction false} DeliversAlready(front: seq<byte>, held: seq<byte>, rest: seq<byte>, f: Frame)
    requires Encodable(f) && Held([], front) == held && DeliversLast([], front + rest, f)
    ensures DeliversLast(held, rest, f)
  {
    var e, d := Encoded(f), Delivery([], f);
    var all := Events([], (front + rest) + e);
    assert Held([], (front + rest) + e) == [] && all[|front + rest|..] == d;
    hide *;
    Reassociated(front, rest, e);
    Split([], front, rest + e);
    TailIs(all, Events([], front), Events(held, rest + e), |front + rest|, |rest|, d);
    DeliversIs(held, rest, f, e, d);
  }

  lemma Reassociated(a: seq<byte>, b: seq<byte>, c: seq<byte>)
    ensures a + (b + c) == (a + b) + c && |a + b| == |a| + |b|
  {
  }

  lemma {:induction false} TailIs(all: seq<StreamEvent>, a: seq<StreamEvent>, b: seq<StreamEvent>, m: nat, n: nat, d: seq<StreamEvent>)
    requires all == a + b && m == |a| + n && n <= |b| && all[m..] == d
    ensures b[n..] == d
  {
    TailOfJoined(a, b, n);
  }

  lemma DeliversIs(held: seq<byte>, before: seq<byte>, f: Frame, e: seq<byte>, d: seq<StreamEvent>)
    requires Encodable(f) && e == Encoded(f) && d == Delivery([], f)
    requires Held(held, before + e) == [] && Events(held, before + e)[|before|..] == d
    ensures DeliversLast(held, before, f)
  {
    hide Held;
    hide Events;
    hide Delivery;
    hide Encoded;
  }

  /**
   * From any state of the receiver, once a maximum frame's worth of bytes with
   * no magic has come, counting those held already, the next frame is delivered.
   */
  lemma {:induction false} ResynchronizesFrom(held: seq<byte>, quiet: seq<byte>, f: Frame)
    requires Framing(held) && Encodable(f) && !Contains(quiet) && |held| + |quiet| >= MAXIMUM_FRAME_SIZE
    ensures DeliversLast(held, quiet, f)
  {
    if |held| >= MAGIC_SIZE {
      DeliversAfterCollecting(held, quiet, f);
    } else {
      assert held == FRAME_MAGIC[..|held|];
      hide Framing;
      hide Contains;
      hide DeliversLast;
      DeliversAfterHunting(|held|, quiet, f);
    }
  }

  /** So whatever bytes came before, false magics included, a quiet of a maximum frame costs the next frame nothing. */
  lemma {:induction false} AnyNoiseThenQuiet(noise: seq<byte>, quiet: seq<byte>, f: Frame)
    requires Encodable(f) && !Contains(quiet) && |quiet| >= MAXIMUM_FRAME_SIZE
    ensures DeliversLast([], noise + quiet, f)
  {
    assert Framing([]);
    hide *;
    StaysFraming([], noise);
    ResynchronizesFrom(Held([], noise), quiet, f);
    DeliversBehind([], noise, quiet, f);
  }
}

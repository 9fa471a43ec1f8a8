/** Every request that arrives whole is answered once, in order, against the storage the requests before it left. */
module EndpointAnswers {
  import opened Bytes
  import opened Clock32
  import Journal = SettingsJournal
  import opened SettingsEndpoint
  import opened SettingsProtocol
  import opened SettingsStream
  import opened SettingsStreamRuns

  /** A request, and the access its last byte came under. */
  datatype Arrived = Arrived(request: Frame, access: Access)

  predicate Bytewise(inputs: seq<Input>) {
    forall i :: 0 <= i < |inputs| ==> inputs[i].ByteIn?
  }

  function ArrivalsOf(inputs: seq<Input>): (arrivals: seq<Arrival>)
    requires Bytewise(inputs)
    ensures |arrivals| == |inputs|
  {
    seq(|inputs|, i requires 0 <= i < |inputs| => Arrival(inputs[i].value, inputs[i].atMs))
  }

  // ---------- answering requests one after the other ----------

  function StoredAfter(s: Setup, st: Journal.Stored, requests: seq<Arrived>): Journal.Stored {
    if requests == [] then st
    else
      var last := requests[|requests| - 1];
      AfterHandle(s.backend, StoredAfter(s, st, requests[..|requests| - 1]), last.request, last.access)
  }

  /** The answer to the i-th request. */
  function AnswerTo(s: Setup, st: Journal.Stored, requests: seq<Arrived>, i: nat): Frame
    requires i < |requests|
  {
    Handle(s.backend, s.identity, StoredAfter(s, st, requests[..i]), requests[i].request, requests[i].access)
  }

  /** The bytes of the answers the transport takes. */
  function SentFor(s: Setup, sends: nat, st: Journal.Stored, requests: seq<Arrived>): seq<seq<byte>> {
    if requests == [] then []
    else
      var n := |requests| - 1;
      ResponsesEncode(s.backend, s.identity, StoredAfter(s, st, requests[..n]), requests[n].request, requests[n].access);
      SentFor(s, sends, st, requests[..n])
      + if s.transport(sends + n) then [Encoded(AnswerTo(s, st, requests, n))] else []
  }

  /** The requests the events deliver. */
  function Requests(events: seq<StreamEvent>, inputs: seq<Input>): seq<Arrived>
    requires |events| == |inputs| && Bytewise(inputs)
  {
    if events == [] then []
    else
      var n := |events| - 1;
      Requests(events[..n], inputs[..n]) + if events[n].FrameReady? then [Arrived(events[n].frame, inputs[n].access)] else []
  }

  lemma {:induction false} SentForOneMore(s: Setup, sends: nat, st: Journal.Stored, requests: seq<Arrived>, last: Arrived)
    ensures var before := StoredAfter(s, st, requests);
            && StoredAfter(s, st, requests + [last]) == AfterHandle(s.backend, before, last.request, last.access)
            && Encodable(Handle(s.backend, s.identity, before, last.request, last.access))
            && SentFor(s, sends, st, requests + [last])
               == SentFor(s, sends, st, requests)
                  + if s.transport(sends + |requests|) then [Encoded(Handle(s.backend, s.identity, before, last.request, last.access))]
                    else []
  {
    assert (requests + [last])[..|requests|] == requests;
    ResponsesEncode(s.backend, s.identity, StoredAfter(s, st, requests), last.request, last.access);
    hide Handle;
    hide AfterHandle;
    hide Encoded;
  }

  /** What one byte does at the end of a run. */
  lemma {:induction false} ByteStep(s: Setup, line: Line, input: Input)
    requires input.ByteIn?
    ensures var event, n := Consumed(s.timeoutMs, line.receiver, input.value, input.atMs), Step(s, line, input);
            && n.receiver == AfterConsume(s.timeoutMs, line.receiver, input.value, input.atMs)
            && match event
               case FrameReady(f) =>
                 && Encodable(Handle(s.backend, s.identity, line.stored, f, input.access))
                 && n.stored == AfterHandle(s.backend, line.stored, f, input.access) && n.sends == line.sends + 1
                 && n.sent == line.sent + if s.transport(line.sends)
                                          then [Encoded(Handle(s.backend, s.identity, line.stored, f, input.access))] else []
               case _ => n.stored == line.stored && n.sends == line.sends && n.sent == line.sent
  {
    hide Handle;
    hide AfterHandle;
    hide Encoded;
    hide Consumed;
    hide AfterConsume;
    if EventOf(s, line, input).FrameReady? {
      ResponsesEncode(s.backend, s.identity, line.stored, EventOf(s, line, input).frame, input.access);
    }
  }

  /** The requests the receiver delivers. */
  function Delivered(s: Setup, line: Line, inputs: seq<Input>): seq<Arrived>
    requires Bytewise(inputs)
  {
    Requests(EventsAll(s.timeoutMs, line.receiver, ArrivalsOf(inputs)), inputs)
  }

  /** The endpoint has answered these requests, one after the other. */
  predicate Serves(s: Setup, line: Line, inputs: seq<Input>, requests: seq<Arrived>)
    requires Bytewise(inputs)
  {
    var n := Run(s, line, inputs);
    && n.receiver == AfterAll(s.timeoutMs, line.receiver, ArrivalsOf(inputs))
    && n.stored == StoredAfter(s, line.stored, requests)
    && n.sends == line.sends + |requests|
    && n.sent == line.sent + SentFor(s, line.sends, line.stored, requests)
  }

  /** The receiver after one more byte, and the event it causes. */
  lemma {:induction false} StreamOneMore(s: Setup, line: Line, front: seq<Input>, last: Input)
    requires Bytewise(front) && last.ByteIn?
    ensures Bytewise(front + [last]) && Run(s, line, front + [last]) == Step(s, Run(s, line, front), last)
    ensures var r := AfterAll(s.timeoutMs, line.receiver, ArrivalsOf(front));
            var event := Consumed(s.timeoutMs, r, last.value, last.atMs);
            && AfterAll(s.timeoutMs, line.receiver, ArrivalsOf(front + [last])) == AfterConsume(s.timeoutMs, r, last.value, last.atMs)
            && Delivered(s, line, front + [last])
               == Delivered(s, line, front) + if event.FrameReady? then [Arrived(event.frame, last.access)] else []
  {
    RunOneMore(s, line, front, last);
    ArrivalsOneMore(s.timeoutMs, line.receiver, front, last);
    hide Run;
    hide Step;
    hide Consumed;
    hide AfterConsume;
    hide ArrivalsOf;
    hide AfterAll;
    hide EventsAll;
    var r := AfterAll(s.timeoutMs, line.receiver, ArrivalsOf(front));
    RequestsOneMore(EventsAll(s.timeoutMs, line.receiver, ArrivalsOf(front)), front, Consumed(s.timeoutMs, r, last.value, last.atMs), last);
    hide Requests;
  }

  lemma {:induction false} RunOneMore(s: Setup, line: Line, front: seq<Input>, last: Input)
    ensures Run(s, line, front + [last]) == Step(s, Run(s, line, front), last)
  {
    assert (front + [last])[..|front|] == front;
    hide Step;
  }

  lemma {:induction false} ArrivalsOneMore(timeoutMs: u32, r: Receiver, front: seq<Input>, last: Input)
    requires Bytewise(front) && last.ByteIn?
    ensures Bytewise(front + [last])
    ensures var before := AfterAll(timeoutMs, r, ArrivalsOf(front));
            && AfterAll(timeoutMs, r, ArrivalsOf(front + [last])) == AfterConsume(timeoutMs, before, last.value, last.atMs)
            && EventsAll(timeoutMs, r, ArrivalsOf(front + [last]))
               == EventsAll(timeoutMs, r, ArrivalsOf(front)) + [Consumed(timeoutMs, before, last.value, last.atMs)]
  {
    var arrivals := ArrivalsOf(front + [last]);
    assert arrivals[..|front|] == ArrivalsOf(front);
    hide Consumed;
    hide AfterConsume;
  }

  lemma {:induction false} ServesOneMore(s: Setup, line: Line, front: seq<Input>, last: Input)
    requires Bytewise(front) && last.ByteIn? && Serves(s, line, front, Delivered(s, line, front))
    ensures Bytewise(front + [last]) && Serves(s, line, front + [last], Delivered(s, line, front + [last]))
  {
    StreamOneMore(s, line, front, last);
    var before := Run(s, line, front);
    assert before.receiver == AfterAll(s.timeoutMs, line.receiver, ArrivalsOf(front));
    hide *;
    if Consumed(s.timeoutMs, before.receiver, last.value, last.atMs).FrameReady? {
      AnswersOneMore(s, line, front, last, before);
    } else {
      AnswersNoMore(s, line, front, last, before);
    }
  }

  lemma {:induction false} AnswersOneMore(s: Setup, line: Line, front: seq<Input>, last: Input, before: Line)
    requires Bytewise(front) && Bytewise(front + [last]) && last.ByteIn? && Serves(s, line, front, Delivered(s, line, front))
    requires before == Run(s, line, front) && Run(s, line, front + [last]) == Step(s, before, last)
    requires AfterAll(s.timeoutMs, line.receiver, ArrivalsOf(front + [last]))
             == AfterConsume(s.timeoutMs, before.receiver, last.value, last.atMs)
    requires var event := Consumed(s.timeoutMs, before.receiver, last.value, last.atMs);
             event.FrameReady? && Delivered(s, line, front + [last]) == Delivered(s, line, front) + [Arrived(event.frame, last.access)]
    ensures Serves(s, line, front + [last], Delivered(s, line, front + [last]))
  {
    hide *;
    var f := Consumed(s.timeoutMs, before.receiver, last.value, last.atMs).frame;
    Counts(s, line, front, before);
    ByteStep(s, before, last);
    SentForOneMore(s, line.sends, line.stored, Delivered(s, line, front), Arrived(f, last.access));
    var taken := if s.transport(before.sends) then [Encoded(Handle(s.backend, s.identity, before.stored, f, last.access))] else [];
    Extends(s, line, front, last, [Arrived(f, last.access)], taken);
  }

  lemma {:induction false} AnswersNoMore(s: Setup, line: Line, front: seq<Input>, last: Input, before: Line)
    requires Bytewise(front) && Bytewise(front + [last]) && last.ByteIn? && Serves(s, line, front, Delivered(s, line, front))
    requires before == Run(s, line, front) && Run(s, line, front + [last]) == Step(s, before, last)
    requires AfterAll(s.timeoutMs, line.receiver, ArrivalsOf(front + [last]))
             == AfterConsume(s.timeoutMs, before.receiver, last.value, last.atMs)
    requires !Consumed(s.timeoutMs, before.receiver, last.value, last.atMs).FrameReady?
    requires Delivered(s, line, front + [last]) == Delivered(s, line, front) + []
    ensures Serves(s, line, front + [last], Delivered(s, line, front + [last]))
  {
    hide *;
    Counts(s, line, front, before);
    ByteStep(s, before, last);
    assert Delivered(s, line, front) + [] == Delivered(s, line, front);
    Extends(s, line, front, last, [], []);
  }

  lemma {:induction false} Counts(s: Setup, line: Line, front: seq<Input>, before: Line)
    requires Bytewise(front) && Serves(s, line, front, Delivered(s, line, front)) && before == Run(s, line, front)
    ensures before.sends == line.sends + |Delivered(s, line, front)|
    ensures before.stored == StoredAfter(s, line.stored, Delivered(s, line, front))
  {
    hide Delivered;
  }

  lemma {:induction false} Extends(
    s: Setup, line: Line, front: seq<Input>, last: Input, answered: seq<Arrived>, taken: seq<seq<byte>>)
    requires Bytewise(front) && Bytewise(front + [last]) && last.ByteIn? && Serves(s, line, front, Delivered(s, line, front))
    requires Delivered(s, line, front + [last]) == Delivered(s, line, front) + answered
    requires SentFor(s, line.sends, line.stored, Delivered(s, line, front) + answered)
             == SentFor(s, line.sends, line.stored, Delivered(s, line, front)) + taken
    requires var before, n := Run(s, line, front), Run(s, line, front + [last]);
             && n.receiver == AfterAll(s.timeoutMs, line.receiver, ArrivalsOf(front + [last]))
             && n.stored == StoredAfter(s, line.stored, Delivered(s, line, front) + answered)
             && n.sends == before.sends + |answered| && n.sent == before.sent + taken
    ensures Serves(s, line, front + [last], Delivered(s, line, front + [last]))
  {
    hide Run;
    hide ArrivalsOf;
    hide Delivered;
    hide SentFor;
    hide StoredAfter;
    hide AfterAll;
    var sent := SentFor(s, line.sends, line.stored, Delivered(s, line, front));
    assert (line.sent + sent) + taken == line.sent + (sent + taken);
  }

  lemma {:induction false} NothingServed(s: Setup, line: Line)
    ensures Delivered(s, line, []) == [] && Serves(s, line, [], [])
  {
    assert ArrivalsOf([]) == [];
    assert EventsAll(s.timeoutMs, line.receiver, []) == [];
    assert SentFor(s, line.sends, line.stored, []) == [];
    assert line.sent + [] == line.sent;
  }

  /** Whatever bytes arrive, the endpoint answers the requests its receiver delivers, one after the other. */
  lemma {:induction false} ServesDelivered(s: Setup, line: Line, inputs: seq<Input>)
    requires Bytewise(inputs)
    ensures Serves(s, line, inputs, Delivered(s, line, inputs))
  {
    hide *;
    if inputs == [] {
      NothingServed(s, line);
    } else {
      var front := inputs[..|inputs| - 1];
      FrontBytewise(inputs);
      ServesDelivered(s, line, front);
      ServesOneMore(s, line, front, inputs[|inputs| - 1]);
      assert front + [inputs[|inputs| - 1]] == inputs;
    }
  }

  lemma FrontBytewise(inputs: seq<Input>)
    requires Bytewise(inputs) && inputs != []
    ensures Bytewise(inputs[..|inputs| - 1]) && inputs[|inputs| - 1].ByteIn?
  {
  }

  lemma {:induction false} RequestsOneMore(events: seq<StreamEvent>, inputs: seq<Input>, event: StreamEvent, last: Input)
    requires |events| == |inputs| && Bytewise(inputs) && last.ByteIn?
    ensures Bytewise(inputs + [last])
    ensures Requests(events + [event], inputs + [last])
            == Requests(events, inputs) + if event.FrameReady? then [Arrived(event.frame, last.access)] else []
  {
    assert (events + [event])[..|events|] == events && (inputs + [last])[..|inputs|] == inputs;
  }

  // ---------- every frame on the wire is a request ----------

  /** The frames of the segments, each under the access of its last byte. */
  function RequestsOf(segments: seq<Segment>, inputs: seq<Input>): seq<Arrived>
    requires Sendable(segments) && Bytewise(inputs) && |inputs| == |Wire(segments)|
  {
    if segments == [] then []
    else
      WireUnfolds(segments);
      var front := segments[..|segments| - 1];
      RequestsOf(front, inputs[..|Wire(front)|])
      + [Arrived(Canonical(segments[|segments| - 1].frame), inputs[|inputs| - 1].access)]
  }

  lemma {:induction false} EncodedIsLong(f: Frame)
    requires Encodable(f)
    ensures |Encoded(f)| >= 16
  {
  }

  lemma {:induction false} NoRequests(events: seq<StreamEvent>, inputs: seq<Input>)
    requires |events| == |inputs| && Bytewise(inputs) && forall i :: 0 <= i < |events| ==> !events[i].FrameReady?
    ensures Requests(events, inputs) == []
  {
    if events != [] {
      NoRequests(events[..|events| - 1], inputs[..|inputs| - 1]);
    }
  }

  lemma {:induction false} RequestsJoin(a: seq<StreamEvent>, b: seq<StreamEvent>, x: seq<Input>, y: seq<Input>)
    requires |a| == |x| && |b| == |y| && Bytewise(x) && Bytewise(y)
    ensures Bytewise(x + y) && Requests(a + b, x + y) == Requests(a, x) + Requests(b, y)
    decreases |b|
  {
    if b == [] {
      assert a + b == a && x + y == x;
    } else {
      var n := |b| - 1;
      RequestsJoin(a, b[..n], x, y[..n]);
      assert (a + b)[..|a| + n] == a + b[..n] && (x + y)[..|x| + n] == x + y[..n];
      assert a + b == (a + b[..n]) + [b[n]] && x + y == (x + y[..n]) + [y[n]];
      RequestsOneMore(a + b[..n], x + y[..n], b[n], y[n]);
    }
  }

  /** The events of noise and a frame deliver the frame, under the access of its last byte. */
  lemma {:induction false} DeliveryRequests(noise: seq<byte>, f: Frame, inputs: seq<Input>)
    requires Encodable(f) && Bytewise(inputs) && |inputs| == |noise| + |Encoded(f)|
    ensures |Delivery(noise, f)| == |inputs| > 0
    ensures Requests(Delivery(noise, f), inputs) == [Arrived(Canonical(f), inputs[|inputs| - 1].access)]
  {
    EncodedIsLong(f);
    hide Encoded;
    hide Canonical;
    var n := |inputs| - 1;
    NoRequests(Silence(n), inputs[..n]);
    RequestsOneMore(Silence(n), inputs[..n], FrameReady(Canonical(f)), inputs[n]);
    assert inputs[..n] + [inputs[n]] == inputs;
    hide Requests;
    hide Silence;
  }

  lemma {:induction false} DeliveriesRequests(segments: seq<Segment>, inputs: seq<Input>)
    requires Sendable(segments) && Bytewise(inputs) && |inputs| == |Wire(segments)|
    ensures |Deliveries(segments)| == |inputs| && Requests(Deliveries(segments), inputs) == RequestsOf(segments, inputs)
  {
    hide *;
    if segments == [] {
      NoWire(segments);
      NoSegments(inputs);
    } else {
      var front, last := segments[..|segments| - 1], segments[|segments| - 1];
      WireUnfolds(segments);
      var k := |Wire(front)|;
      DeliveriesUnfold(segments);
      RequestsUnfold(segments, inputs);
      HalvesBytewise(inputs, k);
      DeliveriesRequests(front, inputs[..k]);
      assert inputs[..k] + inputs[k..] == inputs && inputs[k..][|inputs| - k - 1] == inputs[|inputs| - 1];
      DeliveryJoins(front, last, inputs[..k], inputs[k..]);
    }
  }

  lemma NoSegments(inputs: seq<Input>)
    requires Bytewise(inputs) && inputs == [] && Sendable([]) && Wire([]) == []
    ensures Deliveries([]) == []
    ensures Requests([], inputs) == [] && RequestsOf([], inputs) == []
  {
  }

  lemma NoWire(segments: seq<Segment>)
    requires Sendable(segments) && segments == []
    ensures |Wire(segments)| == 0
  {
  }

  lemma HalvesBytewise(inputs: seq<Input>, k: nat)
    requires Bytewise(inputs) && k < |inputs|
    ensures Bytewise(inputs[..k]) && Bytewise(inputs[k..]) && inputs[|inputs| - 1].ByteIn?
  {
  }

  lemma {:induction false} WireUnfolds(segments: seq<Segment>)
    requires Sendable(segments) && segments != []
    ensures var front, last := segments[..|segments| - 1], segments[|segments| - 1];
            Sendable(front) && Encodable(last.frame) && |Encoded(last.frame)| > 0
            && |Wire(segments)| == |Wire(front)| + |last.noise| + |Encoded(last.frame)|
  {
    EncodedIsLong(segments[|segments| - 1].frame);
    hide Encoded;
  }

  lemma {:induction false} DeliveriesUnfold(segments: seq<Segment>)
    requires Sendable(segments) && segments != []
    ensures var front, last := segments[..|segments| - 1], segments[|segments| - 1];
            Sendable(front) && Encodable(last.frame) && Deliveries(segments) == Deliveries(front) + Delivery(last.noise, last.frame)
  {
    hide Delivery;
  }

  lemma {:induction false} RequestsUnfold(segments: seq<Segment>, inputs: seq<Input>)
    requires Sendable(segments) && Bytewise(inputs) && |inputs| == |Wire(segments)| && segments != []
    ensures var front, last := segments[..|segments| - 1], segments[|segments| - 1];
            && Sendable(front) && Encodable(last.frame) && |Wire(front)| < |inputs| && inputs[|inputs| - 1].ByteIn?
            && Bytewise(inputs[..|Wire(front)|])
            && RequestsOf(segments, inputs)
               == RequestsOf(front, inputs[..|Wire(front)|]) + [Arrived(Canonical(last.frame), inputs[|inputs| - 1].access)]
  {
    WireUnfolds(segments);
    hide Wire;
    hide Canonical;
    hide Encoded;
  }

  lemma {:induction false} DeliveryJoins(front: seq<Segment>, last: Segment, some: seq<Input>, rest: seq<Input>)
    requires Sendable(front) && Encodable(last.frame) && Bytewise(some) && Bytewise(rest)
    requires |Deliveries(front)| == |some| && |rest| == |last.noise| + |Encoded(last.frame)|
    ensures |Delivery(last.noise, last.frame)| == |rest| > 0 && Bytewise(some + rest)
    ensures Requests(Deliveries(front) + Delivery(last.noise, last.frame), some + rest)
            == Requests(Deliveries(front), some) + [Arrived(Canonical(last.frame), rest[|rest| - 1].access)]
  {
    hide Requests;
    hide Delivery;
    hide Deliveries;
    hide Encoded;
    hide Canonical;
    DeliveryRequests(last.noise, last.frame, rest);
    RequestsJoin(Deliveries(front), Delivery(last.noise, last.frame), some, rest);
  }

  lemma {:induction false} ReportDeliversNothing(dropped: bool, events: seq<StreamEvent>, inputs: seq<Input>)
    requires |events| == |inputs| && Bytewise(inputs)
    ensures |Reported(dropped, events)| == |events| && Requests(Reported(dropped, events), inputs) == Requests(events, inputs)
  {
    if dropped && events != [] && events[0] == NoEvent {
      NoRequests([TimedOut], inputs[..1]);
      NoRequests([NoEvent], inputs[..1]);
      RequestsJoin([TimedOut], events[1..], inputs[..1], inputs[1..]);
      RequestsJoin([NoEvent], events[1..], inputs[..1], inputs[1..]);
      assert events == [NoEvent] + events[1..] && inputs == inputs[..1] + inputs[1..];
    }
  }

  /**
   * Frames sent in time, with any noise between them that does not contain the
   * magic, are each answered once, in order, even after a frame that stalled;
   * each answer is that of the service to the storage its predecessors left.
   */
  lemma {:induction false} EveryFrameIsAnswered(s: Setup, line: Line, inputs: seq<Input>, segments: seq<Segment>)
    requires Sendable(segments) && Quiet(segments) && Bytewise(inputs) && inputs != []
    requires BytesOf(ArrivalsOf(inputs)) == Wire(segments) && Timely(s.timeoutMs, ArrivalsOf(inputs))
    requires line.receiver.held == [] || Expired(s.timeoutMs, line.receiver, inputs[0].atMs)
    ensures |Wire(segments)| == |inputs|
    ensures var requests, n := RequestsOf(segments, inputs), Run(s, line, inputs);
            && |requests| == |segments|
            && n.receiver.held == [] && n.sends == line.sends + |segments|
            && n.stored == StoredAfter(s, line.stored, requests)
            && n.sent == line.sent + SentFor(s, line.sends, line.stored, requests)
  {
    assert |Wire(segments)| == |inputs|;
    RequestsCount(segments, inputs);
    DeliveriesRequests(segments, inputs);
    ReportDeliversNothing(line.receiver.held != [], Deliveries(segments), inputs);
    ServesDelivered(s, line, inputs);
    hide *;
    StallCostsNothing(s.timeoutMs, line.receiver, ArrivalsOf(inputs), segments);
    Together(s, line, inputs, segments);
  }

  lemma {:induction false} Together(s: Setup, line: Line, inputs: seq<Input>, segments: seq<Segment>)
    requires Sendable(segments) && Bytewise(inputs) && |Wire(segments)| == |inputs| == |Deliveries(segments)|
    requires |RequestsOf(segments, inputs)| == |segments|
    requires |Reported(line.receiver.held != [], Deliveries(segments))| == |inputs|
    requires Requests(Reported(line.receiver.held != [], Deliveries(segments)), inputs) == RequestsOf(segments, inputs)
    requires EventsAll(s.timeoutMs, line.receiver, ArrivalsOf(inputs)) == Reported(line.receiver.held != [], Deliveries(segments))
    requires AfterAll(s.timeoutMs, line.receiver, ArrivalsOf(inputs)).held == []
    requires Serves(s, line, inputs, Delivered(s, line, inputs))
    ensures var requests, n := RequestsOf(segments, inputs), Run(s, line, inputs);
            && n.receiver.held == [] && n.sends == line.sends + |segments|
            && n.stored == StoredAfter(s, line.stored, requests)
            && n.sent == line.sent + SentFor(s, line.sends, line.stored, requests)
  {
    hide Requests;
    hide RequestsOf;
    hide Run;
    hide StoredAfter;
    hide SentFor;
  }

  lemma {:induction false} RequestsCount(segments: seq<Segment>, inputs: seq<Input>)
    requires Sendable(segments) && Bytewise(inputs) && |inputs| == |Wire(segments)|
    ensures |RequestsOf(segments, inputs)| == |segments|
  {
    if segments != [] {
      RequestsUnfold(segments, inputs);
      RequestsCount(segments[..|segments| - 1], inputs[..|Wire(segments[..|segments| - 1])|]);
    }
    hide Encoded;
    hide Canonical;
    hide Wire;
  }

  // ---------- what is reported ----------

  /** What the endpoint reports of an input: a time-out, a refused frame, or the status of the answer and whether it was sent. */
  lemma {:induction false} ResultExactly(s: Setup, line: Line, input: Input, status: byte)
    ensures var result, nowMs := Result(s, line, input), input.atMs;
            var stalled := line.receiver.held != [] && (nowMs - line.receiver.lastByteMs) % TWO32 > s.timeoutMs;
            && (input.PollIn? ==> result == if stalled then FrameTimedOut else NothingYet)
            && (input.ByteIn? ==>
                  match Consumed(s.timeoutMs, line.receiver, input.value, nowMs)
                  case NoEvent => result == NothingYet
                  case TimedOut => result == FrameTimedOut
                  case FrameRejected(why) => result == FrameWasRejected(why)
                  case FrameReady(f) =>
                    && (result == ResponseSent(status) <==>
                          s.transport(line.sends) && Handle(s.backend, s.identity, line.stored, f, input.access).status == status)
                    && (result == TransportFailure(status) <==>
                          !s.transport(line.sends) && Handle(s.backend, s.identity, line.stored, f, input.access).status == status))
  {
    hide Handle;
    hide Consumed;
  }
}

/** The endpoint: bytes in, frames to the service, answers out; and what reaches the storage over whole runs. */
module SettingsEndpoint {
  import opened Bytes
  import opened Clock32
  import Journal = SettingsJournal
  import opened Options
  import SettingsPayload
  import opened SettingsProtocol
  import SettingsService
  import opened SettingsStream
  import opened UserSettings

  /** What is fixed while the endpoint runs; the transport accepts the n-th send when its script says so. */
  datatype Setup = Setup(timeoutMs: u32, backend: Journal.Backend, identity: Identity, transport: nat -> bool)

  datatype Line = Line(receiver: Receiver, stored: Journal.Stored, sends: nat, sent: seq<seq<byte>>)

  datatype EndpointResult =
    | NothingYet
    | FrameTimedOut
    | FrameWasRejected(decodeStatus: DecodeStatus)
    | TransportFailure(responseStatus: byte)
    | ResponseSent(responseStatus: byte)

  datatype Input =
    | ByteIn(value: byte, atMs: u32, access: Access)
    | PollIn(atMs: u32)

  /** The event an input causes in the receiver. */
  function EventOf(s: Setup, line: Line, input: Input): StreamEvent {
    match input
    case ByteIn(b, atMs, _) => Consumed(s.timeoutMs, line.receiver, b, atMs)
    case PollIn(atMs) => Polled(s.timeoutMs, line.receiver, atMs)
  }

  function ReceiverAfter(s: Setup, line: Line, input: Input): Receiver {
    match input
    case ByteIn(b, atMs, _) => AfterConsume(s.timeoutMs, line.receiver, b, atMs)
    case PollIn(atMs) => AfterPoll(s.timeoutMs, line.receiver, atMs)
  }

  function Answer(s: Setup, line: Line, request: Frame, access: Access): Frame {
    Handle(s.backend, s.identity, line.stored, request, access)
  }

  function Result(s: Setup, line: Line, input: Input): EndpointResult {
    match EventOf(s, line, input)
    case NoEvent => NothingYet
    case TimedOut => FrameTimedOut
    case FrameRejected(status) => FrameWasRejected(status)
    case FrameReady(request) =>
      if input.PollIn? then NothingYet
      else
        var status := Answer(s, line, request, input.access).status;
        if s.transport(line.sends) then ResponseSent(status) else TransportFailure(status)
  }

  function Step(s: Setup, line: Line, input: Input): Line {
    var receiver := ReceiverAfter(s, line, input);
    var event := EventOf(s, line, input);
    if event.FrameReady? && input.ByteIn? then
      ResponsesEncode(s.backend, s.identity, line.stored, event.frame, input.access);
      Line(receiver,
           AfterHandle(s.backend, line.stored, event.frame, input.access),
           line.sends + 1,
           if s.transport(line.sends) then line.sent + [Encoded(Answer(s, line, event.frame, input.access))] else line.sent)
    else line.(receiver := receiver)
  }

  function Run(s: Setup, line: Line, inputs: seq<Input>): Line {
    if inputs == [] then line
    else Step(s, Run(s, line, inputs[..|inputs| - 1]), inputs[|inputs| - 1])
  }

  // ---------- only a complete, admitted write reaches the storage ----------

  /** The settings an input asks the store to save, when it completes an admitted write request. */
  function Admitted(s: Setup, line: Line, input: Input): Option<UserSettings> {
    var event := EventOf(s, line, input);
    if event.FrameReady? && input.ByteIn? then Requested(event.frame, input.access) else None
  }

  lemma StepKeepsFraming(s: Setup, line: Line, input: Input)
    requires Framing(line.receiver.held)
    ensures Framing(Step(s, line, input).receiver.held)
  {
    hide AfterConsume;
    hide Consumed;
    hide Handle;
    hide AfterHandle;
    hide Encoded;
    match input
    case ByteIn(b, atMs, _) => ConsumeKeepsFraming(s.timeoutMs, line.receiver, b, atMs);
    case PollIn(_) =>
  }

  lemma {:induction false} RunKeepsFraming(s: Setup, line: Line, inputs: seq<Input>)
    requires Framing(line.receiver.held)
    ensures Framing(Run(s, line, inputs).receiver.held)
  {
    hide Step;
    hide Framing;
    if inputs != [] {
      RunKeepsFraming(s, line, inputs[..|inputs| - 1]);
      StepKeepsFraming(s, Run(s, line, inputs[..|inputs| - 1]), inputs[|inputs| - 1]);
    }
  }

  /**
   * The medium changes only on the last byte of a write request that is
   * exactly the encoding of valid settings, while access is authorized and the
   * controller is idle.
   */
  lemma OnlyAdmittedWritesReachStorage(s: Setup, line: Line, input: Input)
    requires Framing(line.receiver.held)
    requires Step(s, line, input).stored.medium != line.stored.medium
    ensures input.ByteIn? && input.access.authorized && input.access.controllerState == Controller.Idle
    ensures Admitted(s, line, input).Some? && Valid(Admitted(s, line, input).value)
    ensures exists id: bv16 ::
              line.receiver.held + [input.value]
              == Encoded(Frame(WRITE_REQUEST, OK, id, 40, SettingsPayload.PayloadOf(Admitted(s, line, input).value)))
  {
    hide Journal.AfterSave;
    hide Journal.AfterLoad;
    hide Valid;
    hide SettingsPayload.Decode;
    hide SettingsPayload.PayloadOf;
    hide Encoded;
    hide Consumed;
    hide Handle;
    hide Polled;
    PollsDeliverNothing(s, line, input);
    LoadsKeepMedium(s.backend, line.stored);
    var f := EventOf(s, line, input).frame;
    DeliveredIsEncoded(s.timeoutMs, line.receiver, input.value, input.atMs);
    SettingsPayload.EncodeDecoded(f.payload, Size(f));
    FortyBytes(f.payloadSize);
    assert f == Frame(WRITE_REQUEST, OK, f.requestId, 40, SettingsPayload.PayloadOf(Admitted(s, line, input).value));
  }

  lemma FortyBytes(size: bv16)
    requires size as nat == 40
    ensures size == 40
  {
  }

  lemma PollsDeliverNothing(s: Setup, line: Line, input: Input)
    ensures input.PollIn? ==> !EventOf(s, line, input).FrameReady?
  {
  }

  lemma LoadsKeepMedium(b: Journal.Backend, st: Journal.Stored)
    ensures Journal.AfterLoad(b, st).medium == st.medium
  {
  }

  /** No input of the run completes an admitted write. */
  ghost predicate NoWrites(s: Setup, line: Line, inputs: seq<Input>) {
    forall i :: 0 <= i < |inputs| ==> Admitted(s, Run(s, line, inputs[..i]), inputs[i]).None?
  }

  lemma {:induction false} NoWritesKeepMedium(s: Setup, line: Line, inputs: seq<Input>)
    requires Framing(line.receiver.held) && NoWrites(s, line, inputs)
    ensures Run(s, line, inputs).stored.medium == line.stored.medium
  {
    hide Step;
    hide Framing;
    hide Admitted;
    if inputs != [] {
      var front := inputs[..|inputs| - 1];
      assert forall i :: 0 <= i < |front| ==> inputs[..i] == front[..i];
      NoWritesKeepMedium(s, line, front);
      RunKeepsFraming(s, line, front);
      var before := Run(s, line, front);
      if Step(s, before, inputs[|inputs| - 1]).stored.medium != before.stored.medium {
        OnlyAdmittedWritesReachStorage(s, before, inputs[|inputs| - 1]);
      }
    }
  }

  // ---------- what was written is what is read ----------

  /** The save touched no slot but its target. */
  predicate OtherSlotKept(b: Journal.Backend, st: Journal.Stored, u: UserSettings) {
    var other := 1 - Journal.SaveTarget(st).slot;
    Journal.SlotBytes(Journal.AfterSave(b, st, u).medium.visible, other) == Journal.SlotBytes(st.medium.visible, other)
  }

  /** A write that is admitted disturbs no slot but its target. */
  predicate KeepsOther(s: Setup, line: Line, write: Input) {
    Admitted(s, line, write).Some? ==> OtherSlotKept(s.backend, line.stored, Admitted(s, line, write).value)
  }

  lemma WriteAnsweredOk(s: Setup, line: Line, request: Frame, access: Access)
    requires Requested(request, access).Some? && Answer(s, line, request, access).status == OK
    ensures Journal.Saved(s.backend, line.stored, Requested(request, access).value)
    ensures SettingsPayload.PayloadOf(Requested(request, access).value) == request.payload
  {
    hide Journal.Saved;
    hide Journal.Load;
    hide SettingsPayload.Decode;
    hide SettingsPayload.PayloadOf;
    hide Valid;
    SettingsPayload.EncodeDecoded(request.payload, Size(request));
  }

  lemma ReadAnswered(s: Setup, line: Line, request: Frame, access: Access, u: UserSettings)
    requires Reads(request, access) && Valid(u) && Journal.Load(s.backend, line.stored) == Some(u)
    ensures Answer(s, line, request, access)
            == Frame(READ_RESPONSE, OK, request.requestId, 40, SettingsPayload.PayloadOf(u))
  {
    hide Journal.Load;
    hide Journal.Saved;
    hide Valid;
    hide SettingsPayload.PayloadOf;
    hide SettingsPayload.Decode;
  }

  /**
   * A write request answered OK, then any inputs that complete no admitted
   * write, then an authorized read that can read the slot written: the answer carries,
   * byte for byte, the payload of the write.
   */
  lemma WrittenIsReadBack(s: Setup, line: Line, write: Input, between: seq<Input>, read: Frame, access: Access)
    requires Framing(line.receiver.held)
    requires write.ByteIn? && EventOf(s, line, write).FrameReady? && EventOf(s, line, write).frame.kind == WRITE_REQUEST
    requires Answer(s, line, EventOf(s, line, write).frame, write.access).status == OK
    requires KeepsOther(s, line, write)
    requires NoWrites(s, Step(s, line, write), between)
    requires Reads(read, access)
    requires var later := Run(s, Step(s, line, write), between);
             s.backend.script(later.stored.calls + Journal.SaveTarget(line.stored).slot).ok
    ensures Answer(s, Run(s, Step(s, line, write), between), read, access)
            == Frame(READ_RESPONSE, OK, read.requestId, 40, EventOf(s, line, write).frame.payload)
  {
    hide *;
    OkIsAdmitted(s, line, write);
    KeptOther(s, line, write);
    AdmittedIsRequested(s, line, write);
    var u, request := Admitted(s, line, write).value, EventOf(s, line, write).frame;
    var later := Run(s, Step(s, line, write), between);
    WriteMoves(s, line, write);
    StepKeepsFraming(s, line, write);
    WriteAnsweredOk(s, line, request, write.access);
    NoWritesKeepMedium(s, Step(s, line, write), between);
    LoadAfterWrite(s.backend, line.stored, u, later.stored);
    SavedIsValid(s.backend, line.stored, u);
    ReadAnswered(s, later, read, access, u);
  }

  lemma KeptOther(s: Setup, line: Line, write: Input)
    requires KeepsOther(s, line, write) && Admitted(s, line, write).Some?
    ensures OtherSlotKept(s.backend, line.stored, Admitted(s, line, write).value)
  {
  }

  /** Only an admitted write is answered OK. */
  lemma OkIsAdmitted(s: Setup, line: Line, write: Input)
    requires write.ByteIn? && EventOf(s, line, write).FrameReady? && EventOf(s, line, write).frame.kind == WRITE_REQUEST
    requires Answer(s, line, EventOf(s, line, write).frame, write.access).status == OK
    ensures Admitted(s, line, write).Some?
  {
    var u := SettingsService.OkIsStored(s.backend, s.identity, line.stored, EventOf(s, line, write).frame, write.access);
    hide EventOf;
    hide Requested;
    hide Answer;
  }

  lemma AdmittedIsRequested(s: Setup, line: Line, write: Input)
    requires Admitted(s, line, write).Some?
    ensures write.ByteIn? && EventOf(s, line, write).FrameReady?
    ensures Admitted(s, line, write) == Requested(EventOf(s, line, write).frame, write.access)
  {
    hide EventOf;
    hide Requested;
  }

  lemma LoadAfterWrite(b: Journal.Backend, st: Journal.Stored, u: UserSettings, later: Journal.Stored)
    requires Journal.Saved(b, st, u) && later.medium == Journal.AfterSave(b, st, u).medium && OtherSlotKept(b, st, u)
    requires b.script(later.calls + Journal.SaveTarget(st).slot).ok
    ensures Journal.Load(b, later) == Some(u)
  {
    hide Journal.Load;
    hide Journal.SlotBytes;
    hide Journal.SaveTarget;
    hide Journal.Saved;
    hide Journal.AfterSave;
    Journal.LoadAfterSave(b, st, u, later);
  }

  lemma SavedIsValid(b: Journal.Backend, st: Journal.Stored, u: UserSettings)
    requires Journal.Saved(b, st, u)
    ensures Valid(u)
  {
    hide Valid;
    hide Journal.SlotRecord;
  }

  lemma WriteMoves(s: Setup, line: Line, write: Input)
    requires Admitted(s, line, write).Some?
    ensures Step(s, line, write).stored.medium
            == Journal.AfterSave(s.backend, line.stored, Admitted(s, line, write).value).medium
  {
    hide Journal.AfterSave;
    hide EventOf;
    hide Handle;
    hide Encoded;
    hide SettingsPayload.Decode;
  }
}

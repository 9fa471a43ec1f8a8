/** The frame codec over buffers, and the receiver, service, transport and endpoint objects. */
module SettingsDevice {
  import opened Bytes
  import opened Clock32
  import Controller = ControllerSpec
  import Crc32
  import Journal = SettingsJournal
  import opened Options
  import SettingsPayload
  import opened SettingsEndpoint
  import opened SettingsProtocol
  import opened SettingsStore
  import opened SettingsStream
  import opened UserSettings

  // ---------- the codec ----------

  method PutHeader(f: Frame, encoded: array<byte>)
    requires encoded.Length == MAXIMUM_FRAME_SIZE
    modifies encoded
    ensures encoded[..HEADER_SIZE] == Header(f)
  {
    hide WriteU16;
    SettingsPayload.Put(encoded, 0, FRAME_MAGIC);
    SettingsPayload.Put(encoded, 4, [VERSION, f.kind, f.status, 0]);
    SettingsPayload.Put(encoded, 8, WriteU16(f.requestId));
    SettingsPayload.Put(encoded, 10, WriteU16(f.payloadSize));
    assert encoded[..HEADER_SIZE] == FRAME_MAGIC + [VERSION, f.kind, f.status, 0] + WriteU16(f.requestId) + WriteU16(f.payloadSize);
  }

  /** The bytes of a frame at the start of the buffer; nothing for a payload that does not fit. */
  method EncodeFrame(f: Frame, encoded: array<byte>) returns (ok: bool, size: nat)
    requires encoded.Length == MAXIMUM_FRAME_SIZE
    modifies encoded
    ensures ok == Encodable(f)
    ensures ok ==> size == |Encoded(f)| && encoded[..size] == Encoded(f)
    ensures !ok ==> size == 0
  {
    hide WriteU32;
    hide Crc32.Checksum;
    hide Header;
    for i := 0 to encoded.Length {
      encoded[i] := 0;
    }
    if Size(f) > SettingsPayload.PAYLOAD_SIZE {
      return false, 0;
    }
    PutHeader(f, encoded);
    SettingsPayload.Put(encoded, HEADER_SIZE, f.payload[..Size(f)]);
    var checksumOffset := HEADER_SIZE + Size(f);
    ghost var data := Header(f) + f.payload[..Size(f)];
    assert encoded[..checksumOffset] == data;
    var crc := Crc32.Compute(encoded, checksumOffset);
    SettingsPayload.Put(encoded, checksumOffset, WriteU32(crc));
    ok, size := true, checksumOffset + CHECKSUM_SIZE;
    assert encoded[..size] == data + WriteU32(crc);
  }

  /** The size and the fixed fields of a header, checked in the order of the decoder. */
  method CheckHeader(encoded: array<byte>, size: nat) returns (rejected: Option<DecodeStatus>)
    requires size <= encoded.Length
    ensures rejected == HeaderFault(encoded[..size])
  {
    if size < MINIMUM_FRAME_SIZE {
      return Some(TooShort);
    }
    if size > MAXIMUM_FRAME_SIZE {
      return Some(TooLong);
    }
    for index := 0 to |FRAME_MAGIC|
      invariant forall i :: 0 <= i < index ==> encoded[i] == FRAME_MAGIC[i]
    {
      if encoded[index] != FRAME_MAGIC[index] {
        assert encoded[..size][..4][index] != FRAME_MAGIC[index];
        return Some(InvalidMagic);
      }
    }
    assert encoded[..size][..4] == FRAME_MAGIC;
    if encoded[4] != VERSION {
      return Some(UnsupportedVersion);
    }
    if encoded[7] != 0 {
      return Some(ReservedFieldSet);
    }
    return None;
  }

  method DecodeFrame(encoded: array<byte>, size: nat) returns (r: DecodeResult)
    requires size <= encoded.Length
    ensures r == Decoded(encoded[..size])
  {
    hide ReadU16;
    hide ReadU32;
    hide Crc32.Checksum;
    hide HeaderFault;
    ghost var bytes := encoded[..size];
    var rejected := CheckHeader(encoded, size);
    if rejected.Some? {
      return Rejected(rejected.value);
    }
    assert encoded[10..12] == bytes[10..12] && encoded[8..10] == bytes[8..10];
    var payloadSize := ReadU16(encoded[10..12]);
    if payloadSize as nat > SettingsPayload.PAYLOAD_SIZE {
      return Rejected(PayloadTooLarge);
    }
    var expectedSize := HEADER_SIZE + payloadSize as nat + CHECKSUM_SIZE;
    if expectedSize != size {
      return Rejected(SizeMismatch);
    }
    var checksumOffset := HEADER_SIZE + payloadSize as nat;
    var crc := Crc32.Compute(encoded, checksumOffset);
    assert encoded[..checksumOffset] == bytes[..|bytes| - 4] && encoded[checksumOffset..size] == bytes[|bytes| - 4..];
    if ReadU32(encoded[checksumOffset..size]) != crc {
      return Rejected(ChecksumMismatch);
    }
    var payload := encoded[HEADER_SIZE..checksumOffset];
    assert payload == bytes[12..12 + StoredSize(bytes)];
    return Accepted(Frame(encoded[5], encoded[6], ReadU16(encoded[8..10]), payloadSize,
                          payload + Zeros(SettingsPayload.PAYLOAD_SIZE - payloadSize as nat)));
  }

  // ---------- the receiver ----------

  class SettingsStreamReceiver {
    const timeoutMs: u32
    const buffer: array<byte>
    var bufferedSize: nat
    var expectedSize: nat
    var lastByteTimeMs: u32

    constructor (timeoutMs: u32)
      ensures Valid() && fresh(buffer) && this.timeoutMs == timeoutMs && State() == IDLE_RECEIVER
    {
      this.timeoutMs := timeoutMs;
      buffer := new byte[MAXIMUM_FRAME_SIZE](_ => 0);
      bufferedSize, expectedSize, lastByteTimeMs := 0, 0, 0;
    }

    ghost function Held(): seq<byte>
      requires buffer.Length == MAXIMUM_FRAME_SIZE && bufferedSize <= MAXIMUM_FRAME_SIZE
      reads this, buffer
    {
      buffer[..bufferedSize]
    }

    ghost predicate Valid()
      reads this, buffer
    {
      && buffer.Length == MAXIMUM_FRAME_SIZE
      && bufferedSize <= MAXIMUM_FRAME_SIZE
      && Framing(Held())
      && expectedSize == ExpectedSize(Held())
    }

    ghost function State(): Receiver
      requires Valid()
      reads this, buffer
    {
      Receiver(Held(), lastByteTimeMs)
    }

    method Reset()
      requires buffer.Length == MAXIMUM_FRAME_SIZE
      modifies this, buffer
      ensures Valid() && State() == IDLE_RECEIVER
    {
      for i := 0 to buffer.Length {
        buffer[i] := 0;
      }
      bufferedSize, expectedSize, lastByteTimeMs := 0, 0, 0;
    }

    method IsExpired(nowMs: u32) returns (expired: bool)
      requires Valid()
      ensures expired == Expired(timeoutMs, State(), nowMs)
    {
      return bufferedSize != 0 && Sub(nowMs, lastByteTimeMs) > timeoutMs;
    }

    method ConsumeHunting(b: byte)
      requires Valid() && bufferedSize < MAGIC_SIZE
      modifies this`bufferedSize, buffer
      ensures Valid() && Held() == Hunt(old(Held()), b)
    {
      ghost var before := Held();
      SynchronizedKeepsFraming(before, b);
      if b == FRAME_MAGIC[bufferedSize] {
        buffer[bufferedSize] := b;
        bufferedSize := bufferedSize + 1;
        assert Held() == before + [b];
      } else if b == FRAME_MAGIC[0] {
        buffer[0] := b;
        bufferedSize := 1;
        assert Held() == [b];
      } else {
        bufferedSize := 0;
        assert Held() == [];
      }
    }

    method ConsumeSynchronized(b: byte) returns (event: StreamEvent)
      requires Valid()
      modifies this, buffer
      ensures Valid()
      ensures Framed(Held(), event) == Synchronized(old(Held()), b)
      ensures lastByteTimeMs == if Resets(event) then 0 else old(lastByteTimeMs)
    {
      hide Decoded;
      hide ReadU16;
      ghost var before := Held();
      SynchronizedKeepsFraming(before, b);
      if bufferedSize < MAGIC_SIZE {
        ConsumeHunting(b);
        return NoEvent;
      }
      FramingIsBounded(before);
      // A full buffer would be rejected as too long, but it never fills.
      assert bufferedSize < MAXIMUM_FRAME_SIZE;
      buffer[bufferedSize] := b;
      bufferedSize := bufferedSize + 1;
      ghost var more := Held();
      assert more == before + [b];
      if bufferedSize == HEADER_SIZE {
        assert buffer[10..12] == more[10..12];
        var payloadSize := ReadU16(buffer[10..12]) as nat;
        if payloadSize > SettingsPayload.PAYLOAD_SIZE {
          Reset();
          return FrameRejected(PayloadTooLarge);
        }
        expectedSize := HEADER_SIZE + payloadSize + CHECKSUM_SIZE;
      } else {
        assert bufferedSize > HEADER_SIZE ==> more[10..12] == before[10..12];
      }
      if expectedSize == 0 || bufferedSize < expectedSize {
        return NoEvent;
      }
      var decoded := DecodeFrame(buffer, bufferedSize);
      Reset();
      match decoded
      case Rejected(status) => return FrameRejected(status);
      case Accepted(f) => return FrameReady(f);
    }

    method Consume(b: byte, nowMs: u32) returns (event: StreamEvent)
      requires Valid()
      modifies this, buffer
      ensures Valid()
      ensures event == Consumed(timeoutMs, old(State()), b, nowMs)
      ensures State() == AfterConsume(timeoutMs, old(State()), b, nowMs)
    {
      hide Synchronized;
      var timedOut := IsExpired(nowMs);
      if timedOut {
        Reset();
      }
      lastByteTimeMs := nowMs;
      event := ConsumeSynchronized(b);
      if event != NoEvent {
        return;
      }
      if timedOut {
        event := TimedOut;
      }
    }

    method Poll(nowMs: u32) returns (event: StreamEvent)
      requires Valid()
      modifies this, buffer
      ensures Valid()
      ensures event == Polled(timeoutMs, old(State()), nowMs)
      ensures State() == AfterPoll(timeoutMs, old(State()), nowMs)
    {
      var expired := IsExpired(nowMs);
      if !expired {
        return NoEvent;
      }
      Reset();
      return TimedOut;
    }
  }

  // ---------- the service ----------

  class SettingsProtocolService {
    const store: JournaledUserSettingsStore
    const identity: Identity

    constructor (store: JournaledUserSettingsStore, identity: Identity)
      ensures this.store == store && this.identity == identity
    {
      this.store, this.identity := store, identity;
    }

    method Serve(request: Frame, access: Access) returns (response: Frame)
      modifies store.storage
      ensures response == Handle(store.storage.backend, identity, old(store.storage.State()), request, access)
      ensures store.storage.State() == AfterHandle(store.storage.backend, old(store.storage.State()), request, access)
      ensures store.storage.requests
              == old(store.storage.requests) + Asked(store.storage.backend, old(store.storage.State()), request, access)
    {
      hide Valid;
      hide Journal.Load;
      hide Journal.Saved;
      hide Journal.AfterSave;
      hide Journal.SaveRequests;
      hide Journal.LoadRequests;
      hide SettingsPayload.Decode;
      hide SettingsPayload.PayloadOf;
      var kind: byte;
      if request.kind == READ_REQUEST {
        kind := READ_RESPONSE;
      } else if request.kind == WRITE_REQUEST {
        kind := WRITE_RESPONSE;
      } else if request.kind == IDENTIFY_REQUEST {
        kind := IDENTIFY_RESPONSE;
      } else {
        return ResponseFor(request, ERROR_RESPONSE, UNSUPPORTED_MESSAGE);
      }
      var payloadSizeValid :=
        if request.kind == WRITE_REQUEST then Size(request) == SettingsPayload.PAYLOAD_SIZE else Size(request) == 0;
      if request.status != OK || !payloadSizeValid {
        return ResponseFor(request, kind, INVALID_PAYLOAD);
      }
      if !access.authorized {
        return ResponseFor(request, kind, UNAUTHORIZED);
      }
      if request.kind == IDENTIFY_REQUEST {
        return ResponseFor(request, kind, OK).(payloadSize := 12, payload := identity + Zeros(28));
      }
      if request.kind == READ_REQUEST {
        response := ResponseFor(request, kind, SETTINGS_UNAVAILABLE);
        var loaded := store.Load();
        if loaded.None? {
          return;
        }
        var payload := new byte[SettingsPayload.PAYLOAD_SIZE](_ => 0);
        var encoded := SettingsPayload.Encode(loaded.value, payload);
        if !encoded {
          return;
        }
        return response.(status := OK, payloadSize := 40, payload := payload[..]);
      }
      if access.controllerState != Controller.Idle {
        return ResponseFor(request, kind, BUSY);
      }
      var settings := SettingsPayload.Decode(request.payload, Size(request));
      if settings.None? {
        return ResponseFor(request, kind, INVALID_SETTINGS);
      }
      var saved := store.Save(settings.value);
      if !saved {
        return ResponseFor(request, kind, STORAGE_FAILURE);
      }
      return ResponseFor(request, kind, OK);
    }
  }

  // ---------- the endpoint ----------

  class Transport {
    const script: nat -> bool
    var sends: nat
    var sent: seq<seq<byte>>

    constructor (script: nat -> bool)
      ensures this.script == script && sends == 0 && sent == []
    {
      this.script := script;
      sends, sent := 0, [];
    }

    method Send(bytes: seq<byte>) returns (ok: bool)
      modifies this
      ensures ok == script(old(sends)) && sends == old(sends) + 1
      ensures sent == if ok then old(sent) + [bytes] else old(sent)
    {
      ok := script(sends);
      sends := sends + 1;
      if ok {
        sent := sent + [bytes];
      }
    }
  }

  class SettingsProtocolEndpoint {
    const receiver: SettingsStreamReceiver
    const service: SettingsProtocolService
    const transport: Transport

    constructor (receiver: SettingsStreamReceiver, service: SettingsProtocolService, transport: Transport)
      ensures this.receiver == receiver && this.service == service && this.transport == transport
    {
      this.receiver, this.service, this.transport := receiver, service, transport;
    }

    ghost predicate Valid()
      reads receiver, receiver.buffer
    {
      receiver.Valid()
    }

    function Configured(): Setup {
      Setup(receiver.timeoutMs, service.store.storage.backend, service.identity, transport.script)
    }

    ghost function State(): Line
      requires Valid()
      reads receiver, receiver.buffer, service.store.storage, transport
    {
      Line(receiver.State(), service.store.storage.State(), transport.sends, transport.sent)
    }

    /** Answers a delivered frame; the storage and the transport move as one step of the model. */
    method Respond(request: Frame, access: Access) returns (result: EndpointResult)
      modifies service.store.storage, transport
      ensures var answer := Handle(service.store.storage.backend, service.identity, old(service.store.storage.State()), request, access);
              && Encodable(answer)
              && result == (if transport.script(old(transport.sends)) then ResponseSent(answer.status) else TransportFailure(answer.status))
              && transport.sent == (if transport.script(old(transport.sends)) then old(transport.sent) + [Encoded(answer)] else old(transport.sent))
      ensures service.store.storage.State()
              == AfterHandle(service.store.storage.backend, old(service.store.storage.State()), request, access)
      ensures transport.sends == old(transport.sends) + 1
    {
      ResponsesEncode(service.store.storage.backend, service.identity, service.store.storage.State(), request, access);
      hide Handle;
      hide AfterHandle;
      hide Encoded;
      var response := service.Serve(request, access);
      var encoded := new byte[MAXIMUM_FRAME_SIZE](_ => 0);
      var ok, size := EncodeFrame(response, encoded);
      if !ok {
        return TransportFailure(response.status);
      }
      var accepted := transport.Send(encoded[..size]);
      if !accepted {
        return TransportFailure(response.status);
      }
      return ResponseSent(response.status);
    }

    method Consume(b: byte, nowMs: u32, access: Access) returns (result: EndpointResult)
      requires Valid()
      modifies receiver, receiver.buffer, service.store.storage, transport
      ensures Valid()
      ensures result == Result(Configured(), old(State()), ByteIn(b, nowMs, access))
      ensures State() == Step(Configured(), old(State()), ByteIn(b, nowMs, access))
    {
      hide Handle;
      hide AfterHandle;
      hide Encoded;
      hide Consumed;
      hide AfterConsume;
      var event := receiver.Consume(b, nowMs);
      match event
      case NoEvent => return NothingYet;
      case TimedOut => return FrameTimedOut;
      case FrameRejected(status) => return FrameWasRejected(status);
      case FrameReady(request) => result := Respond(request, access);
    }

    method Poll(nowMs: u32) returns (result: EndpointResult)
      requires Valid()
      modifies receiver, receiver.buffer
      ensures Valid()
      ensures result == Result(Configured(), old(State()), PollIn(nowMs))
      ensures State() == Step(Configured(), old(State()), PollIn(nowMs))
    {
      hide Handle;
      hide AfterHandle;
      hide Encoded;
      var event := receiver.Poll(nowMs);
      if event == TimedOut {
        return FrameTimedOut;
      }
      return NothingYet;
    }
  }
}

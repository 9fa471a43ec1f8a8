/** Frames of the configuration protocol and the service that answers them. */
module SettingsProtocol {
  import opened Bytes
  import Controller = ControllerSpec
  import opened Crc32Detection
  import opened Options
  import SettingsJournal
  import SettingsPayload
  import SettingsRecord
  import opened UserSettings

  const FRAME_MAGIC: seq<byte> := [0x42, 0x4D, 0x43, 0x46]
  const VERSION: byte := 1
  const HEADER_SIZE: nat := 12
  const CHECKSUM_SIZE: nat := 4
  const MINIMUM_FRAME_SIZE: nat := 16
  const MAXIMUM_FRAME_SIZE: nat := 56

  const READ_REQUEST: byte := 0x01
  const WRITE_REQUEST: byte := 0x02
  const IDENTIFY_REQUEST: byte := 0x03
  const READ_RESPONSE: byte := 0x81
  const WRITE_RESPONSE: byte := 0x82
  const IDENTIFY_RESPONSE: byte := 0x83
  const ERROR_RESPONSE: byte := 0xFF

  const OK: byte := 0
  const INVALID_PAYLOAD: byte := 1
  const UNSUPPORTED_MESSAGE: byte := 2
  const UNAUTHORIZED: byte := 3
  const BUSY: byte := 4
  const INVALID_SETTINGS: byte := 5
  const STORAGE_FAILURE: byte := 6
  const SETTINGS_UNAVAILABLE: byte := 7

  /** A fixed buffer of which the first payloadSize bytes are the payload. */
  type Buffer = s: seq<byte> | |s| == SettingsPayload.PAYLOAD_SIZE witness seq(SettingsPayload.PAYLOAD_SIZE, _ => 0)

  datatype Frame = Frame(kind: byte, status: byte, requestId: bv16, payloadSize: bv16, payload: Buffer)

  datatype DecodeStatus =
    | TooShort | TooLong | InvalidMagic | UnsupportedVersion | ReservedFieldSet
    | PayloadTooLarge | SizeMismatch | ChecksumMismatch

  datatype DecodeResult = Accepted(frame: Frame) | Rejected(status: DecodeStatus)

  function Zeros(n: nat): (s: seq<byte>)
    ensures |s| == n
  {
    seq(n, _ => 0)
  }

  function Size(f: Frame): nat {
    f.payloadSize as nat
  }

  predicate Encodable(f: Frame) {
    Size(f) <= SettingsPayload.PAYLOAD_SIZE
  }

  function Header(f: Frame): (h: seq<byte>)
    ensures |h| == HEADER_SIZE
  {
    FRAME_MAGIC + [VERSION, f.kind, f.status, 0] + WriteU16(f.requestId) + WriteU16(f.payloadSize)
  }

  /** The bytes of a frame. */
  function Encoded(f: Frame): (bytes: seq<byte>)
    requires Encodable(f)
    ensures |bytes| == HEADER_SIZE + Size(f) + CHECKSUM_SIZE
  {
    Sealed(Header(f) + f.payload[..Size(f)])
  }

  /** A frame as the receiver rebuilds it: bytes beyond the payload are zero. */
  function Canonical(f: Frame): Frame
    requires Encodable(f)
  {
    f.(payload := f.payload[..Size(f)] + Zeros(SettingsPayload.PAYLOAD_SIZE - Size(f)))
  }

  function StoredSize(bytes: seq<byte>): nat
    requires |bytes| >= MINIMUM_FRAME_SIZE
  {
    ReadU16(bytes[10..12]) as nat
  }

  /** The fields of bytes whose sizes agree. */
  function FrameIn(bytes: seq<byte>): Frame
    requires |bytes| >= MINIMUM_FRAME_SIZE && StoredSize(bytes) <= SettingsPayload.PAYLOAD_SIZE
    requires |bytes| == HEADER_SIZE + StoredSize(bytes) + CHECKSUM_SIZE
  {
    Frame(bytes[5], bytes[6], ReadU16(bytes[8..10]), ReadU16(bytes[10..12]),
          bytes[12..12 + StoredSize(bytes)] + Zeros(SettingsPayload.PAYLOAD_SIZE - StoredSize(bytes)))
  }

  /** The first fault of the size and the fixed fields, in the order the decoder looks. */
  function HeaderFault(bytes: seq<byte>): (fault: Option<DecodeStatus>)
    ensures fault == None ==> MINIMUM_FRAME_SIZE <= |bytes| <= MAXIMUM_FRAME_SIZE
  {
    if |bytes| < MINIMUM_FRAME_SIZE then Some(TooShort)
    else if |bytes| > MAXIMUM_FRAME_SIZE then Some(TooLong)
    else if bytes[..4] != FRAME_MAGIC then Some(InvalidMagic)
    else if bytes[4] != VERSION then Some(UnsupportedVersion)
    else if bytes[7] != 0 then Some(ReservedFieldSet)
    else None
  }

  function Decoded(bytes: seq<byte>): DecodeResult {
    if HeaderFault(bytes).Some? then Rejected(HeaderFault(bytes).value)
    else if StoredSize(bytes) > SettingsPayload.PAYLOAD_SIZE then Rejected(PayloadTooLarge)
    else if HEADER_SIZE + StoredSize(bytes) + CHECKSUM_SIZE != |bytes| then Rejected(SizeMismatch)
    else if !ChecksumMatches(bytes) then Rejected(ChecksumMismatch)
    else Accepted(FrameIn(bytes))
  }

  // ---------- frames and their bytes are in bijection ----------

  lemma HeaderParts(f: Frame, bytes: seq<byte>)
    requires |bytes| >= HEADER_SIZE && bytes[..HEADER_SIZE] == Header(f)
    ensures bytes[..4] == FRAME_MAGIC && bytes[4] == VERSION && bytes[5] == f.kind && bytes[6] == f.status && bytes[7] == 0
    ensures bytes[8..10] == WriteU16(f.requestId) && bytes[10..12] == WriteU16(f.payloadSize)
  {
    hide WriteU16;
    var h := bytes[..HEADER_SIZE];
    assert bytes[..4] == h[..4] && bytes[8..10] == h[8..10] && bytes[10..12] == h[10..12];
    assert forall i :: 0 <= i < HEADER_SIZE ==> bytes[i] == h[i];
    assert h[..4] == FRAME_MAGIC && h[8..10] == WriteU16(f.requestId) && h[10..12] == WriteU16(f.payloadSize);
  }

  /** Decoding an encoded frame returns it, with the bytes beyond its payload cleared. */
  lemma DecodeEncoded(f: Frame)
    requires Encodable(f)
    ensures Decoded(Encoded(f)) == Accepted(Canonical(f))
  {
    hide WriteU16;
    hide ReadU16;
    hide ChecksumMatches;
    hide Header;
    var bytes := Encoded(f);
    SettingsRecord.SealedMatches(Header(f) + f.payload[..Size(f)]);
    hide Sealed;
    var data := bytes[..HEADER_SIZE + Size(f)];
    assert bytes[..HEADER_SIZE] == data[..HEADER_SIZE] == Header(f);
    assert bytes[12..12 + Size(f)] == data[12..] == f.payload[..Size(f)];
    HeaderParts(f, bytes);
    ReadWriteU16(f.requestId);
    ReadWriteU16(f.payloadSize);
  }

  lemma HeaderOf(bytes: seq<byte>, f: Frame)
    requires |bytes| >= MINIMUM_FRAME_SIZE && bytes[..4] == FRAME_MAGIC && bytes[4] == VERSION && bytes[7] == 0
    requires f.kind == bytes[5] && f.status == bytes[6]
    requires f.requestId == ReadU16(bytes[8..10]) && f.payloadSize == ReadU16(bytes[10..12])
    ensures Header(f) == bytes[..HEADER_SIZE]
  {
    hide WriteU16;
    hide ReadU16;
    WriteReadU16(bytes[8..10]);
    WriteReadU16(bytes[10..12]);
    assert bytes[4..8] == [VERSION, f.kind, f.status, 0];
    assert bytes[..HEADER_SIZE] == bytes[..4] + bytes[4..8] + bytes[8..10] + bytes[10..12];
  }

  /** Accepted bytes are the encoding of the frame they decode to, so each frame has one encoding. */
  lemma EncodeDecoded(bytes: seq<byte>)
    requires Decoded(bytes).Accepted?
    ensures Encodable(Decoded(bytes).frame) && Encoded(Decoded(bytes).frame) == bytes
    ensures Canonical(Decoded(bytes).frame) == Decoded(bytes).frame
  {
    hide ReadU16;
    hide ChecksumMatches;
    hide Header;
    hide Sealed;
    var f := Decoded(bytes).frame;
    SettingsRecord.MatchingIsSealed(bytes);
    HeaderOf(bytes, f);
    assert f.payload[..Size(f)] == bytes[12..12 + Size(f)];
    assert bytes[..|bytes| - 4] == bytes[..HEADER_SIZE] + bytes[12..12 + Size(f)];
  }

  /** An encoded frame changed by any burst of up to 32 bits is never accepted. */
  lemma BurstNeverDecodes(bytes: seq<byte>, corrupted: seq<byte>)
    requires Decoded(bytes).Accepted? && BurstApart(bytes, corrupted) && corrupted != bytes
    ensures Decoded(corrupted).Rejected?
  {
    hide ChecksumMatches;
    hide BurstApart;
    SettingsRecord.BurstLength(bytes, corrupted);
    BurstIsDetected(bytes, corrupted);
  }

  // ---------- the request service ----------

  datatype Access = Access(authorized: bool, controllerState: Controller.ControllerState)

  /** The twelve identity bytes a device answers with. */
  type Identity = s: seq<byte> | |s| == 12 witness [0x45, 0x39, 0x52, 0x43, 0xFE, 0, 3, 0, 7, 0, 0, 0]

  function ResponseFor(request: Frame, kind: byte, status: byte): Frame {
    Frame(kind, status, request.requestId, 0, Zeros(SettingsPayload.PAYLOAD_SIZE))
  }

  function ResponseKind(kind: byte): Option<byte> {
    if kind == READ_REQUEST then Some(READ_RESPONSE)
    else if kind == WRITE_REQUEST then Some(WRITE_RESPONSE)
    else if kind == IDENTIFY_REQUEST then Some(IDENTIFY_RESPONSE)
    else None
  }

  /** The request reaches the store, for reading or for writing. */
  predicate WellFormed(request: Frame) {
    && ResponseKind(request.kind).Some?
    && request.status == OK
    && Size(request) == (if request.kind == WRITE_REQUEST then SettingsPayload.PAYLOAD_SIZE else 0)
  }

  /** The settings a request asks to write, when every check before the store passes. */
  function Requested(request: Frame, access: Access): Option<UserSettings> {
    if WellFormed(request) && request.kind == WRITE_REQUEST && access.authorized && access.controllerState == Controller.Idle
    then SettingsPayload.Decode(request.payload, Size(request))
    else None
  }

  predicate Reads(request: Frame, access: Access) {
    WellFormed(request) && request.kind == READ_REQUEST && access.authorized
  }

  function ReadStatus(loaded: Option<UserSettings>): byte {
    if loaded.Some? && Valid(loaded.value) then OK else SETTINGS_UNAVAILABLE
  }

  /** The answer to a request, given what a load returns and whether a save succeeds, should they be called. */
  function Response(request: Frame, access: Access, identity: Identity, loaded: Option<UserSettings>, saved: bool): Frame {
    if ResponseKind(request.kind).None? then ResponseFor(request, ERROR_RESPONSE, UNSUPPORTED_MESSAGE)
    else
      var kind := ResponseKind(request.kind).value;
      if !WellFormed(request) then ResponseFor(request, kind, INVALID_PAYLOAD)
      else if !access.authorized then ResponseFor(request, kind, UNAUTHORIZED)
      else if request.kind == IDENTIFY_REQUEST then
        ResponseFor(request, kind, OK).(payloadSize := 12, payload := identity + Zeros(28))
      else if request.kind == READ_REQUEST then
        if ReadStatus(loaded) == OK then
          ResponseFor(request, kind, OK).(payloadSize := 40, payload := SettingsPayload.PayloadOf(loaded.value))
        else ResponseFor(request, kind, SETTINGS_UNAVAILABLE)
      else if access.controllerState != Controller.Idle then ResponseFor(request, kind, BUSY)
      else if SettingsPayload.Decode(request.payload, Size(request)).None? then ResponseFor(request, kind, INVALID_SETTINGS)
      else ResponseFor(request, kind, if saved then OK else STORAGE_FAILURE)
  }

  function Handle(b: SettingsJournal.Backend, identity: Identity, st: SettingsJournal.Stored, request: Frame, access: Access): Frame {
    Response(request, access, identity, SettingsJournal.Load(b, st),
             match Requested(request, access)
             case Some(s) => SettingsJournal.Saved(b, st, s)
             case None => false)
  }

  function AfterHandle(b: SettingsJournal.Backend, st: SettingsJournal.Stored, request: Frame, access: Access): SettingsJournal.Stored {
    if Reads(request, access) then SettingsJournal.AfterLoad(b, st)
    else
      match Requested(request, access)
      case Some(s) => SettingsJournal.AfterSave(b, st, s)
      case None => st
  }

  /** What is asked of the storage. */
  function Asked(b: SettingsJournal.Backend, st: SettingsJournal.Stored, request: Frame, access: Access): seq<SettingsJournal.Request> {
    if Reads(request, access) then SettingsJournal.LoadRequests(b)
    else
      match Requested(request, access)
      case Some(s) => SettingsJournal.SaveRequests(b, st, s)
      case None => []
  }

  /** Every answer fits a frame, so the endpoint always has something to send. */
  lemma ResponsesEncode(b: SettingsJournal.Backend, identity: Identity, st: SettingsJournal.Stored, request: Frame, access: Access)
    ensures Encodable(Handle(b, identity, st, request, access))
  {
    hide SettingsJournal.Load;
    hide SettingsJournal.Saved;
    hide SettingsPayload.Decode;
    hide Valid;
  }
}

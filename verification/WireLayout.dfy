/**
 * Where every field lies in the bytes: the settings payload, the journal record
 * and the protocol frame, with numbers least significant byte first.
 */
module WireLayout {
  import opened Bytes
  import Crc32
  import opened Crc32Detection
  import SettingsPayload
  import SettingsProtocol
  import SettingsRecord
  import opened UserSettings

  // ---------- numbers ----------

  /** The two bytes at an offset stand for the number. */
  predicate Number16(bytes: seq<byte>, at: nat, v: bv16) {
    at + 2 <= |bytes| && v == bytes[at] as bv16 + 0x100 * (bytes[at + 1] as bv16)
  }

  predicate Number32(bytes: seq<byte>, at: nat, v: bv32) {
    at + 4 <= |bytes|
    && v == bytes[at] as bv32 + 0x100 * (bytes[at + 1] as bv32) + 0x1_0000 * (bytes[at + 2] as bv32)
            + 0x100_0000 * (bytes[at + 3] as bv32)
  }

  predicate Number64(bytes: seq<byte>, at: nat, v: bv64) {
    at + 8 <= |bytes|
    && v == bytes[at] as bv64 + 0x100 * (bytes[at + 1] as bv64) + 0x1_0000 * (bytes[at + 2] as bv64)
            + 0x100_0000 * (bytes[at + 3] as bv64) + 0x1_0000_0000 * (bytes[at + 4] as bv64)
            + 0x100_0000_0000 * (bytes[at + 5] as bv64) + 0x1_0000_0000_0000 * (bytes[at + 6] as bv64)
            + 0x100_0000_0000_0000 * (bytes[at + 7] as bv64)
  }

  lemma WrittenNumbers(a: bv16, b: bv32, c: bv64)
    ensures Number16(WriteU16(a), 0, a) && Number32(WriteU32(b), 0, b) && Number64(WriteU64(c), 0, c)
  {
  }

  lemma Placed16(bytes: seq<byte>, at: nat, v: bv16)
    requires at + 2 <= |bytes| && bytes[at..at + 2] == WriteU16(v)
    ensures Number16(bytes, at, v)
  {
    WrittenNumbers(v, 0, 0);
    hide WriteU16;
    assert bytes[at] == WriteU16(v)[0] && bytes[at + 1] == WriteU16(v)[1];
  }

  lemma Placed32(bytes: seq<byte>, at: nat, v: bv32)
    requires at + 4 <= |bytes| && bytes[at..at + 4] == WriteU32(v)
    ensures Number32(bytes, at, v)
  {
    WrittenNumbers(0, v, 0);
    var w := WriteU32(v);
    hide WriteU32;
    assert bytes[at] == w[0] && bytes[at + 1] == w[1] && bytes[at + 2] == w[2] && bytes[at + 3] == w[3];
  }

  lemma Placed64(bytes: seq<byte>, at: nat, v: bv64)
    requires at + 8 <= |bytes| && bytes[at..at + 8] == WriteU64(v)
    ensures Number64(bytes, at, v)
  {
    WrittenNumbers(0, 0, v);
    var w := WriteU64(v);
    hide WriteU64;
    assert bytes[at] == w[0] && bytes[at + 1] == w[1] && bytes[at + 2] == w[2] && bytes[at + 3] == w[3];
    assert bytes[at + 4] == w[4] && bytes[at + 5] == w[5] && bytes[at + 6] == w[6] && bytes[at + 7] == w[7];
  }

  /** The last four bytes are the checksum of the others. */
  predicate EndsInChecksum(bytes: seq<byte>) {
    |bytes| >= 4 && Number32(bytes, |bytes| - 4, Crc32.Checksum(bytes[..|bytes| - 4]))
  }

  lemma SealedEndsInChecksum(data: seq<byte>)
    ensures EndsInChecksum(Sealed(data)) && Sealed(data)[..|data|] == data
  {
    hide WriteU32;
    hide Crc32.Checksum;
    hide Number32;
    var m := Sealed(data);
    assert m[..|m| - 4] == data && m[|data|..|data| + 4] == WriteU32(Crc32.Checksum(data));
    Placed32(m, |m| - 4, Crc32.Checksum(data));
  }

  // ---------- the payload ----------

  lemma DurationsLaid(s: UserSettings)
    ensures var p := SettingsPayload.PayloadOf(s);
            && p[4..8] == WriteU32(s.maximumRemoteRunTimeMs) && p[8..12] == WriteU32(s.driverTakeoverTimeoutMs)
            && p[12..16] == WriteU32(s.lockMinimumGapMs) && p[16..20] == WriteU32(s.lockMaximumGapMs)
            && p[20..24] == WriteU32(s.lockMaximumSequenceMs)
  {
    hide WriteU32;
    var p := SettingsPayload.PayloadOf(s);
    SettingsPayload.ThreeParts(SettingsPayload.Switches(s), SettingsPayload.Durations(s), SettingsPayload.Thresholds(s));
    SettingsPayload.FiveWords(
      WriteU32(s.maximumRemoteRunTimeMs), WriteU32(s.driverTakeoverTimeoutMs), WriteU32(s.lockMinimumGapMs),
      WriteU32(s.lockMaximumGapMs), WriteU32(s.lockMaximumSequenceMs));
    SettingsPayload.SlicesOfMiddle(p);
  }

  lemma ThresholdsLaid(s: UserSettings)
    ensures var p := SettingsPayload.PayloadOf(s);
            && p[24..32] == WriteU64(s.features)
            && p[32..34] == WriteU16(s.coldEngineMaximumRpm) && p[34..36] == WriteU16(s.engineWarmTemperatureC)
            && p[36..38] == WriteU16(s.transmissionOverheatTemperatureC)
            && p[38..40] == WriteU16(s.temperatureAlertHysteresisC)
  {
    hide WriteU16;
    hide WriteU64;
    var p := SettingsPayload.PayloadOf(s);
    SettingsPayload.ThreeParts(SettingsPayload.Switches(s), SettingsPayload.Durations(s), SettingsPayload.Thresholds(s));
    SettingsPayload.OneWideFourNarrow(
      WriteU64(s.features), WriteU16(s.coldEngineMaximumRpm), WriteU16(s.engineWarmTemperatureC),
      WriteU16(s.transmissionOverheatTemperatureC), WriteU16(s.temperatureAlertHysteresisC));
    SettingsPayload.SlicesOfEnd(p);
  }

  lemma SwitchesLaid(s: UserSettings)
    ensures var p := SettingsPayload.PayloadOf(s);
            && p[0] == (if s.remoteStartEnabled then 1 else 0) && p[1] == s.hoodMonitoring && p[2] == s.driverEntryMode
            && p[3] == s.lockPressCount
  {
    var p := SettingsPayload.PayloadOf(s);
    SettingsPayload.ThreeParts(SettingsPayload.Switches(s), SettingsPayload.Durations(s), SettingsPayload.Thresholds(s));
    assert forall i :: 0 <= i < 4 ==> p[i] == p[..4][i];
    hide SettingsPayload.Durations;
    hide SettingsPayload.Thresholds;
  }

  /** Every field of the settings lies in the payload at its own offset. */
  lemma PayloadLayout(s: UserSettings)
    ensures var p := SettingsPayload.PayloadOf(s);
            && |p| == 40
            && p[0] == (if s.remoteStartEnabled then 1 else 0) && p[1] == s.hoodMonitoring && p[2] == s.driverEntryMode
            && p[3] == s.lockPressCount
            && Number32(p, 4, s.maximumRemoteRunTimeMs) && Number32(p, 8, s.driverTakeoverTimeoutMs)
            && Number32(p, 12, s.lockMinimumGapMs) && Number32(p, 16, s.lockMaximumGapMs)
            && Number32(p, 20, s.lockMaximumSequenceMs) && Number64(p, 24, s.features)
            && Number16(p, 32, s.coldEngineMaximumRpm) && Number16(p, 34, s.engineWarmTemperatureC)
            && Number16(p, 36, s.transmissionOverheatTemperatureC) && Number16(p, 38, s.temperatureAlertHysteresisC)
  {
    var p := SettingsPayload.PayloadOf(s);
    SwitchesLaid(s);
    DurationsLaid(s);
    ThresholdsLaid(s);
    assert |p| == 40;
    hide *;
    Placed32(p, 4, s.maximumRemoteRunTimeMs);
    Placed32(p, 8, s.driverTakeoverTimeoutMs);
    Placed32(p, 12, s.lockMinimumGapMs);
    Placed32(p, 16, s.lockMaximumGapMs);
    Placed32(p, 20, s.lockMaximumSequenceMs);
    Placed64(p, 24, s.features);
    Placed16(p, 32, s.coldEngineMaximumRpm);
    Placed16(p, 34, s.engineWarmTemperatureC);
    Placed16(p, 36, s.transmissionOverheatTemperatureC);
    Placed16(p, 38, s.temperatureAlertHysteresisC);
  }

  // ---------- the record ----------

  /** A record is its magic, its version, the payload size, the generation, the payload and the checksum. */
  lemma RecordLayout(r: SettingsRecord.Record)
    ensures var bytes := SettingsRecord.Encoded(r);
            && |bytes| == 56 && bytes[..4] == [0x42, 0x4D, 0x52, 0x43]
            && Number16(bytes, 4, 1) && Number16(bytes, 6, 40) && Number32(bytes, 8, r.generation)
            && bytes[12..52] == SettingsPayload.PayloadOf(r.settings) && EndsInChecksum(bytes)
  {
    var bytes, data := SettingsRecord.Encoded(r), SettingsRecord.Covered(r);
    SealedEndsInChecksum(data);
    hide SettingsPayload.PayloadOf;
    hide WriteU16;
    hide WriteU32;
    hide Sealed;
    hide EndsInChecksum;
    hide Number16;
    hide Number32;
    SettingsRecord.PartsOf(bytes, SettingsRecord.Preamble(), WriteU32(r.generation), SettingsPayload.PayloadOf(r.settings));
    var preamble := SettingsRecord.Preamble();
    assert bytes[..8] == preamble;
    assert bytes[..4] == preamble[..4] && bytes[4..6] == preamble[4..6] && bytes[6..8] == preamble[6..8];
    assert preamble[..4] == SettingsRecord.MAGIC;
    assert preamble[4..6] == WriteU16(SettingsRecord.SCHEMA_VERSION);
    assert preamble[6..8] == WriteU16(SettingsRecord.STORED_PAYLOAD_SIZE);
    Placed16(bytes, 4, 1);
    Placed16(bytes, 6, 40);
    Placed32(bytes, 8, r.generation);
  }

  // ---------- the frame ----------

  /** A frame is its magic, its version, kind, status and a zero, the request number, the payload size, the payload and the checksum. */
  lemma FrameLayout(f: SettingsProtocol.Frame)
    requires SettingsProtocol.Encodable(f)
    ensures var bytes, n := SettingsProtocol.Encoded(f), SettingsProtocol.Size(f);
            && |bytes| == 16 + n && bytes[..8] == [0x42, 0x4D, 0x43, 0x46, 1, f.kind, f.status, 0]
            && Number16(bytes, 8, f.requestId) && Number16(bytes, 10, f.payloadSize)
            && bytes[12..12 + n] == f.payload[..n] && EndsInChecksum(bytes)
  {
    var bytes, n := SettingsProtocol.Encoded(f), SettingsProtocol.Size(f);
    var header := SettingsProtocol.Header(f);
    SealedEndsInChecksum(header + f.payload[..n]);
    hide SettingsProtocol.Size;
    hide WriteU16;
    hide Sealed;
    hide EndsInChecksum;
    hide Number16;
    var data := bytes[..12 + n];
    assert data == header + f.payload[..n];
    assert bytes[..12] == data[..12] == header && bytes[12..12 + n] == data[12..] == f.payload[..n];
    SettingsProtocol.HeaderParts(f, bytes);
    assert bytes[..8] == bytes[..4] + [bytes[4], bytes[5], bytes[6], bytes[7]];
    Placed16(bytes, 8, f.requestId);
    Placed16(bytes, 10, f.payloadSize);
  }

  // ---------- why bytes are no frame ----------

  /** The number of payload bytes the size field asks for. */
  function AskedSize(bytes: seq<byte>): nat
    requires |bytes| >= 12
  {
    (bytes[10] as bv16 + 0x100 * (bytes[11] as bv16)) as nat
  }

  /** The condition on the bytes that a refusal names, once the checks before it passed. */
  predicate Faulty(bytes: seq<byte>, status: SettingsProtocol.DecodeStatus) {
    match status
    case TooShort => |bytes| < 16
    case TooLong => |bytes| > 56
    case InvalidMagic => |bytes| >= 16 && bytes[..4] != [0x42, 0x4D, 0x43, 0x46]
    case UnsupportedVersion => |bytes| >= 16 && bytes[4] != 1
    case ReservedFieldSet => |bytes| >= 16 && bytes[7] != 0
    case PayloadTooLarge => |bytes| >= 16 && AskedSize(bytes) > 40
    case SizeMismatch => |bytes| >= 16 && |bytes| != 16 + AskedSize(bytes)
    case ChecksumMismatch => !EndsInChecksum(bytes)
  }

  function Order(status: SettingsProtocol.DecodeStatus): nat {
    match status
    case TooShort => 0
    case TooLong => 1
    case InvalidMagic => 2
    case UnsupportedVersion => 3
    case ReservedFieldSet => 4
    case PayloadTooLarge => 5
    case SizeMismatch => 6
    case ChecksumMismatch => 7
  }

  lemma ChecksumIs(bytes: seq<byte>)
    requires |bytes| >= 4
    ensures ChecksumMatches(bytes) <==> EndsInChecksum(bytes)
  {
    var tail := bytes[|bytes| - 4..];
    hide Crc32.Checksum;
    WriteReadU32(tail);
    Placed32(bytes, |bytes| - 4, ReadU32(tail));
    hide ReadU32;
    hide WriteU32;
  }

  lemma SizeIs(bytes: seq<byte>)
    requires |bytes| >= 16
    ensures SettingsProtocol.StoredSize(bytes) == AskedSize(bytes)
  {
    var field := bytes[10..12];
    WriteReadU16(field);
    Placed16(bytes, 10, ReadU16(field));
    hide ReadU16;
    hide WriteU16;
  }

  /** The frame is what the bytes say, with zeros beyond its payload. */
  predicate Carries(bytes: seq<byte>, f: SettingsProtocol.Frame) {
    && |bytes| >= 16 && AskedSize(bytes) <= 40 && |bytes| == 16 + AskedSize(bytes)
    && f.kind == bytes[5] && f.status == bytes[6]
    && Number16(bytes, 8, f.requestId) && Number16(bytes, 10, f.payloadSize)
    && f.payload[..AskedSize(bytes)] == bytes[12..12 + AskedSize(bytes)]
    && forall i :: AskedSize(bytes) <= i < 40 ==> f.payload[i] == 0
  }

  /** Bytes are refused exactly for the first check they fail, and accepted when they fail none. */
  lemma FaultExactly(bytes: seq<byte>)
    ensures match SettingsProtocol.Decoded(bytes)
            case Rejected(status) =>
              Faulty(bytes, status) && forall s :: Order(s) < Order(status) ==> !Faulty(bytes, s)
            case Accepted(f) => Carries(bytes, f) && forall s :: !Faulty(bytes, s)
  {
    if |bytes| >= 16 {
      ChecksumIs(bytes);
      SizeIs(bytes);
      NumbersRead(bytes);
    }
    hide ChecksumMatches;
    hide EndsInChecksum;
    hide AskedSize;
    hide SettingsProtocol.StoredSize;
    hide Number16;
    hide ReadU16;
  }

  lemma NumbersRead(bytes: seq<byte>)
    requires |bytes| >= 16
    ensures Number16(bytes, 8, ReadU16(bytes[8..10])) && Number16(bytes, 10, ReadU16(bytes[10..12]))
  {
    WriteReadU16(bytes[8..10]);
    WriteReadU16(bytes[10..12]);
    Placed16(bytes, 8, ReadU16(bytes[8..10]));
    Placed16(bytes, 10, ReadU16(bytes[10..12]));
    hide ReadU16;
    hide WriteU16;
  }
}

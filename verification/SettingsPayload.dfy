/** The 40-byte little-endian payload that carries one value of the settings. */
module SettingsPayload {
  import opened Bytes
  import opened Options
  import opened UserSettings

  const PAYLOAD_SIZE: nat := 40

  function Switches(s: UserSettings): (p: seq<byte>)
    ensures |p| == 4
  {
    [if s.remoteStartEnabled then 1 else 0, s.hoodMonitoring, s.driverEntryMode, s.lockPressCount]
  }

  function Durations(s: UserSettings): (p: seq<byte>)
    ensures |p| == 20
  {
    WriteU32(s.maximumRemoteRunTimeMs)
    + WriteU32(s.driverTakeoverTimeoutMs)
    + WriteU32(s.lockMinimumGapMs)
    + WriteU32(s.lockMaximumGapMs)
    + WriteU32(s.lockMaximumSequenceMs)
  }

  function Thresholds(s: UserSettings): (p: seq<byte>)
    ensures |p| == 16
  {
    WriteU64(s.features)
    + WriteU16(s.coldEngineMaximumRpm)
    + WriteU16(s.engineWarmTemperatureC)
    + WriteU16(s.transmissionOverheatTemperatureC)
    + WriteU16(s.temperatureAlertHysteresisC)
  }

  /** The payload of any settings, field after field. */
  function PayloadOf(s: UserSettings): (p: seq<byte>)
    ensures |p| == PAYLOAD_SIZE
  {
    Switches(s) + Durations(s) + Thresholds(s)
  }

  /** The fields at their offsets; meaningful only when the first byte is 0 or 1. */
  function FieldsOf(p: seq<byte>): UserSettings
    requires |p| == PAYLOAD_SIZE
  {
    UserSettings(
      p[0] == 1, p[1], p[2],
      ReadU32(p[4..8]), ReadU32(p[8..12]),
      p[3],
      ReadU32(p[12..16]), ReadU32(p[16..20]), ReadU32(p[20..24]),
      ReadU64(p[24..32]),
      ReadU16(p[32..34]), ReadU16(p[34..36]), ReadU16(p[36..38]), ReadU16(p[38..40]))
  }

  function Decode(p: seq<byte>, size: nat): Option<UserSettings>
    requires |p| == PAYLOAD_SIZE
  {
    if size != PAYLOAD_SIZE || p[0] > 1 || !Valid(FieldsOf(p)) then None else Some(FieldsOf(p))
  }

  // ---------- the payload and the settings are in bijection ----------

  lemma FiveWords(a: seq<byte>, b: seq<byte>, c: seq<byte>, d: seq<byte>, e: seq<byte>)
    requires |a| == |b| == |c| == |d| == |e| == 4
    ensures var p := a + b + c + d + e;
            p[..4] == a && p[4..8] == b && p[8..12] == c && p[12..16] == d && p[16..] == e
  {
  }

  lemma OneWideFourNarrow(a: seq<byte>, b: seq<byte>, c: seq<byte>, d: seq<byte>, e: seq<byte>)
    requires |a| == 8 && |b| == |c| == |d| == |e| == 2
    ensures var p := a + b + c + d + e;
            p[..8] == a && p[8..10] == b && p[10..12] == c && p[12..14] == d && p[14..] == e
  {
  }

  lemma DurationsRead(s: UserSettings)
    ensures var p := Durations(s);
            && ReadU32(p[..4]) == s.maximumRemoteRunTimeMs
            && ReadU32(p[4..8]) == s.driverTakeoverTimeoutMs
            && ReadU32(p[8..12]) == s.lockMinimumGapMs
            && ReadU32(p[12..16]) == s.lockMaximumGapMs
            && ReadU32(p[16..]) == s.lockMaximumSequenceMs
  {
    hide WriteU32;
    hide ReadU32;
    FiveWords(WriteU32(s.maximumRemoteRunTimeMs), WriteU32(s.driverTakeoverTimeoutMs), WriteU32(s.lockMinimumGapMs),
              WriteU32(s.lockMaximumGapMs), WriteU32(s.lockMaximumSequenceMs));
    ReadWriteU32(s.maximumRemoteRunTimeMs);
    ReadWriteU32(s.driverTakeoverTimeoutMs);
    ReadWriteU32(s.lockMinimumGapMs);
    ReadWriteU32(s.lockMaximumGapMs);
    ReadWriteU32(s.lockMaximumSequenceMs);
  }

  lemma ThresholdsRead(s: UserSettings)
    ensures var p := Thresholds(s);
            && ReadU64(p[..8]) == s.features
            && ReadU16(p[8..10]) == s.coldEngineMaximumRpm
            && ReadU16(p[10..12]) == s.engineWarmTemperatureC
            && ReadU16(p[12..14]) == s.transmissionOverheatTemperatureC
            && ReadU16(p[14..]) == s.temperatureAlertHysteresisC
  {
    hide WriteU16;
    hide ReadU16;
    hide WriteU64;
    hide ReadU64;
    OneWideFourNarrow(WriteU64(s.features), WriteU16(s.coldEngineMaximumRpm), WriteU16(s.engineWarmTemperatureC),
                      WriteU16(s.transmissionOverheatTemperatureC), WriteU16(s.temperatureAlertHysteresisC));
    ReadWriteU64(s.features);
    ReadWriteU16(s.coldEngineMaximumRpm);
    ReadWriteU16(s.engineWarmTemperatureC);
    ReadWriteU16(s.transmissionOverheatTemperatureC);
    ReadWriteU16(s.temperatureAlertHysteresisC);
  }

  lemma ThreeParts(a: seq<byte>, b: seq<byte>, c: seq<byte>)
    requires |a| == 4 && |b| == 20 && |c| == 16
    ensures var p := a + b + c; p[..4] == a && p[4..24] == b && p[24..] == c
  {
  }

  lemma SliceOfSlice(p: seq<byte>, lo: nat, hi: nat, i: nat, j: nat)
    requires i <= j && lo + j <= hi <= |p|
    ensures p[lo..hi][i..j] == p[lo + i..lo + j]
  {
    var a, b := p[lo..hi][i..j], p[lo + i..lo + j];
    assert forall k :: 0 <= k < |a| ==> a[k] == p[lo..hi][i + k] == b[k];
  }

  lemma SlicesOfMiddle(p: seq<byte>)
    requires |p| == PAYLOAD_SIZE
    ensures p[4..24][..4] == p[4..8] && p[4..24][4..8] == p[8..12] && p[4..24][8..12] == p[12..16]
    ensures p[4..24][12..16] == p[16..20] && p[4..24][16..] == p[20..24]
  {
    SliceOfSlice(p, 4, 24, 4, 8);
    SliceOfSlice(p, 4, 24, 8, 12);
    SliceOfSlice(p, 4, 24, 12, 16);
  }

  lemma SlicesOfEnd(p: seq<byte>)
    requires |p| == PAYLOAD_SIZE
    ensures p[24..][..8] == p[24..32] && p[24..][8..10] == p[32..34] && p[24..][10..12] == p[34..36]
    ensures p[24..][12..14] == p[36..38] && p[24..][14..] == p[38..40]
  {
  }

  lemma FieldsOfPayload(s: UserSettings)
    ensures FieldsOf(PayloadOf(s)) == s
  {
    hide ReadU16;
    hide ReadU32;
    hide ReadU64;
    hide Durations;
    hide Thresholds;
    var p := PayloadOf(s);
    ThreeParts(Switches(s), Durations(s), Thresholds(s));
    SlicesOfMiddle(p);
    SlicesOfEnd(p);
    DurationsRead(s);
    ThresholdsRead(s);
    assert p[0] == p[..4][0] && p[1] == p[..4][1] && p[2] == p[..4][2] && p[3] == p[..4][3];
  }

  lemma DurationsOf(p: seq<byte>)
    requires |p| == PAYLOAD_SIZE
    ensures Durations(FieldsOf(p)) == p[4..24]
  {
    hide WriteU32;
    hide ReadU32;
    hide ReadU64;
    hide ReadU16;
    SlicesOfMiddle(p);
    WriteReadU32(p[4..8]);
    WriteReadU32(p[8..12]);
    WriteReadU32(p[12..16]);
    WriteReadU32(p[16..20]);
    WriteReadU32(p[20..24]);
    var m := p[4..24];
    assert m == m[..4] + m[4..8] + m[8..12] + m[12..16] + m[16..];
  }

  lemma ThresholdsOf(p: seq<byte>)
    requires |p| == PAYLOAD_SIZE
    ensures Thresholds(FieldsOf(p)) == p[24..]
  {
    hide WriteU64;
    hide WriteU16;
    hide ReadU32;
    hide ReadU64;
    hide ReadU16;
    SlicesOfEnd(p);
    WriteReadU64(p[24..32]);
    WriteReadU16(p[32..34]);
    WriteReadU16(p[34..36]);
    WriteReadU16(p[36..38]);
    WriteReadU16(p[38..40]);
    var m := p[24..];
    assert m == m[..8] + m[8..10] + m[10..12] + m[12..14] + m[14..];
  }

  lemma PayloadOfFields(p: seq<byte>)
    requires |p| == PAYLOAD_SIZE && p[0] <= 1
    ensures PayloadOf(FieldsOf(p)) == p
  {
    hide Durations;
    hide Thresholds;
    DurationsOf(p);
    ThresholdsOf(p);
    FlagByte(p[0]);
    hide ReadU16;
    hide ReadU32;
    hide ReadU64;
    assert p == p[..4] + p[4..24] + p[24..];
  }

  lemma FlagByte(b: byte)
    requires b <= 1
    ensures b == (if b == 1 then 1 else 0)
  {
  }

  /** Decoding an encoded value returns it. */
  lemma DecodeEncoded(s: UserSettings)
    requires Valid(s)
    ensures Decode(PayloadOf(s), PAYLOAD_SIZE) == Some(s)
  {
    hide PayloadOf;
    hide FieldsOf;
    FieldsOfPayload(s);
    FirstByte(s);
  }

  lemma FirstByte(s: UserSettings)
    ensures PayloadOf(s)[0] <= 1
  {
  }

  /** An accepted payload is the encoding of the valid value it decodes to, so each value has one payload. */
  lemma EncodeDecoded(p: seq<byte>, size: nat)
    requires |p| == PAYLOAD_SIZE && Decode(p, size).Some?
    ensures size == PAYLOAD_SIZE
    ensures Valid(Decode(p, size).value) && PayloadOf(Decode(p, size).value) == p
  {
    hide PayloadOf;
    hide FieldsOf;
    hide Valid;
    PayloadOfFields(p);
  }

  // ---------- filling the buffer field by field ----------

  /** Writes a field right after the bytes already written. */
  method Put(buffer: array<byte>, offset: nat, field: seq<byte>)
    requires offset + |field| <= buffer.Length
    modifies buffer
    ensures buffer[..offset + |field|] == old(buffer[..offset]) + field
    ensures buffer[offset + |field|..] == old(buffer[offset + |field|..])
  {
    for i := 0 to |field|
      invariant forall k :: 0 <= k < buffer.Length ==>
                  buffer[k] == (if offset <= k < offset + i then field[k - offset] else old(buffer[k]))
    {
      buffer[offset + i] := field[i];
    }
  }

  method PutDurations(payload: array<byte>, s: UserSettings)
    requires payload.Length == PAYLOAD_SIZE
    modifies payload
    ensures payload[..24] == old(payload[..4]) + Durations(s)
  {
    hide WriteU32;
    Put(payload, 4, WriteU32(s.maximumRemoteRunTimeMs));
    Put(payload, 8, WriteU32(s.driverTakeoverTimeoutMs));
    Put(payload, 12, WriteU32(s.lockMinimumGapMs));
    Put(payload, 16, WriteU32(s.lockMaximumGapMs));
    Put(payload, 20, WriteU32(s.lockMaximumSequenceMs));
    assert payload[..24] == old(payload[..4]) + WriteU32(s.maximumRemoteRunTimeMs) + WriteU32(s.driverTakeoverTimeoutMs)
        + WriteU32(s.lockMinimumGapMs) + WriteU32(s.lockMaximumGapMs) + WriteU32(s.lockMaximumSequenceMs);
  }

  method PutThresholds(payload: array<byte>, s: UserSettings)
    requires payload.Length == PAYLOAD_SIZE
    modifies payload
    ensures payload[..] == old(payload[..24]) + Thresholds(s)
  {
    hide WriteU16;
    hide WriteU64;
    Put(payload, 24, WriteU64(s.features));
    Put(payload, 32, WriteU16(s.coldEngineMaximumRpm));
    Put(payload, 34, WriteU16(s.engineWarmTemperatureC));
    Put(payload, 36, WriteU16(s.transmissionOverheatTemperatureC));
    Put(payload, 38, WriteU16(s.temperatureAlertHysteresisC));
    assert payload[..] == payload[..40];
    assert payload[..] == old(payload[..24]) + WriteU64(s.features) + WriteU16(s.coldEngineMaximumRpm)
        + WriteU16(s.engineWarmTemperatureC) + WriteU16(s.transmissionOverheatTemperatureC)
        + WriteU16(s.temperatureAlertHysteresisC);
  }

  /** Fills the buffer with the payload, or leaves it alone when the settings are invalid. */
  method Encode(s: UserSettings, payload: array<byte>) returns (ok: bool)
    requires payload.Length == PAYLOAD_SIZE
    modifies payload
    ensures ok == Valid(s)
    ensures payload[..] == if ok then PayloadOf(s) else old(payload[..])
  {
    hide Durations;
    hide Thresholds;
    hide Valid;
    if !Valid(s) {
      return false;
    }
    payload[0] := if s.remoteStartEnabled then 1 else 0;
    payload[1] := s.hoodMonitoring;
    payload[2] := s.driverEntryMode;
    payload[3] := s.lockPressCount;
    assert payload[..4] == Switches(s);
    PutDurations(payload, s);
    PutThresholds(payload, s);
    return true;
  }
}

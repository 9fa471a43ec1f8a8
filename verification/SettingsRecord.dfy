/** The 56-byte journal record: magic, version, payload size, generation, payload and checksum. */
module SettingsRecord {
  import opened Bytes
  import Crc32
  import opened Crc32Detection
  import opened Options
  import SettingsPayload
  import opened UserSettings

  const MAGIC: seq<byte> := [0x42, 0x4D, 0x52, 0x43]
  const SCHEMA_VERSION: bv16 := 1
  const STORED_PAYLOAD_SIZE: bv16 := 40
  const RECORD_SIZE: nat := 56
  const CRC_OFFSET: nat := 52

  datatype Record = Record(settings: UserSettings, generation: bv32)

  // ---------- layout ----------

  function Preamble(): (p: seq<byte>)
    ensures |p| == 8
  {
    MAGIC + WriteU16(SCHEMA_VERSION) + WriteU16(STORED_PAYLOAD_SIZE)
  }

  /** Everything the checksum covers. */
  function Covered(r: Record): (data: seq<byte>)
    ensures |data| == CRC_OFFSET
  {
    Preamble() + WriteU32(r.generation) + SettingsPayload.PayloadOf(r.settings)
  }

  function Encoded(r: Record): (bytes: seq<byte>)
    ensures |bytes| == RECORD_SIZE
  {
    Sealed(Covered(r))
  }

  predicate PreambleAccepted(bytes: seq<byte>)
    requires |bytes| == RECORD_SIZE
  {
    && bytes[..4] == MAGIC
    && ReadU16(bytes[4..6]) == SCHEMA_VERSION
    && ReadU16(bytes[6..8]) == STORED_PAYLOAD_SIZE
  }

  /** The record held by the bytes of a slot, if they hold one. */
  function Decoded(bytes: seq<byte>): Option<Record>
    requires |bytes| == RECORD_SIZE
  {
    if !PreambleAccepted(bytes) || !ChecksumMatches(bytes) then None
    else
      match SettingsPayload.Decode(bytes[12..52], STORED_PAYLOAD_SIZE as int)
      case None => None
      case Some(settings) => Some(Record(settings, ReadU32(bytes[8..12])))
  }

  // ---------- records and their bytes are in bijection ----------

  lemma PreambleExactly(bytes: seq<byte>)
    requires |bytes| == RECORD_SIZE
    ensures PreambleAccepted(bytes) <==> bytes[..8] == Preamble()
  {
    hide WriteU16;
    hide ReadU16;
    assert bytes[..8] == bytes[..4] + bytes[4..6] + bytes[6..8];
    ReadWriteU16(SCHEMA_VERSION);
    ReadWriteU16(STORED_PAYLOAD_SIZE);
    WriteReadU16(bytes[4..6]);
    WriteReadU16(bytes[6..8]);
    assert Preamble()[..4] == MAGIC;
    assert Preamble()[4..6] == WriteU16(SCHEMA_VERSION);
    assert Preamble()[6..8] == WriteU16(STORED_PAYLOAD_SIZE);
  }

  /** Where the three covered parts of a record lie. */
  lemma PartsOf(bytes: seq<byte>, a: seq<byte>, b: seq<byte>, c: seq<byte>)
    requires |a| == 8 && |b| == 4 && |c| == 40 && |bytes| == RECORD_SIZE
    requires bytes[..CRC_OFFSET] == a + b + c
    ensures bytes[..8] == a && bytes[8..12] == b && bytes[12..52] == c
  {
    assert bytes[..8] == bytes[..CRC_OFFSET][..8];
    assert bytes[8..12] == bytes[..CRC_OFFSET][8..12];
    assert bytes[12..52] == bytes[..CRC_OFFSET][12..52];
  }

  lemma SealedMatches(data: seq<byte>)
    ensures ChecksumMatches(Sealed(data)) && Sealed(data)[..|data|] == data
  {
    hide WriteU32;
    hide ReadU32;
    var m := Sealed(data);
    ReadWriteU32(Crc32.Checksum(data));
    assert m[..|m| - 4] == data && m[|m| - 4..] == WriteU32(Crc32.Checksum(data));
  }

  lemma MatchingIsSealed(m: seq<byte>)
    requires |m| >= 4 && ChecksumMatches(m)
    ensures m == Sealed(m[..|m| - 4])
  {
    hide WriteU32;
    hide ReadU32;
    WriteReadU32(m[|m| - 4..]);
  }

  /** Decoding an encoded record returns it. */
  lemma DecodeEncoded(r: Record)
    requires Valid(r.settings)
    ensures Decoded(Encoded(r)) == Some(r)
  {
    hide Preamble;
    hide PreambleAccepted;
    hide ChecksumMatches;
    hide WriteU32;
    hide ReadU32;
    hide Valid;
    hide SettingsPayload.PayloadOf;
    hide SettingsPayload.Decode;
    var bytes := Encoded(r);
    SealedMatches(Covered(r));
    hide Sealed;
    PartsOf(bytes, Preamble(), WriteU32(r.generation), SettingsPayload.PayloadOf(r.settings));
    PreambleExactly(bytes);
    ReadWriteU32(r.generation);
    SettingsPayload.DecodeEncoded(r.settings);
  }

  /** Accepted bytes are the encoding of the record they hold, so each record has one encoding. */
  lemma EncodeDecoded(bytes: seq<byte>)
    requires |bytes| == RECORD_SIZE && Decoded(bytes).Some?
    ensures Valid(Decoded(bytes).value.settings) && Encoded(Decoded(bytes).value) == bytes
  {
    hide Preamble;
    hide PreambleAccepted;
    hide WriteU32;
    hide ReadU32;
    hide Valid;
    hide SettingsPayload.PayloadOf;
    hide SettingsPayload.Decode;
    hide ChecksumMatches;
    hide Sealed;
    PreambleExactly(bytes);
    MatchingIsSealed(bytes);
    WriteReadU32(bytes[8..12]);
    SettingsPayload.EncodeDecoded(bytes[12..52], STORED_PAYLOAD_SIZE as int);
    assert bytes[..CRC_OFFSET] == bytes[..8] + bytes[8..12] + bytes[12..52];
  }

  /** A stored record changed by any burst of up to 32 bits holds no record. */
  lemma BurstNeverDecodes(bytes: seq<byte>, corrupted: seq<byte>)
    requires |bytes| == RECORD_SIZE && Decoded(bytes).Some?
    requires BurstApart(bytes, corrupted) && corrupted != bytes
    ensures Decoded(corrupted) == None
  {
    hide ChecksumMatches;
    hide BurstApart;
    assert |corrupted| == |bytes| by {
      BurstLength(bytes, corrupted);
    }
    BurstIsDetected(bytes, corrupted);
  }

  lemma BurstLength(a: seq<byte>, b: seq<byte>)
    requires BurstApart(a, b)
    ensures |a| == |b|
  {
  }
}

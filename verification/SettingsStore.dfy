/** The byte storage and the journaled store over it, as objects. */
module SettingsStore {
  import opened Bytes
  import Crc32
  import opened Options
  import opened SettingsJournal
  import SettingsPayload
  import opened SettingsRecord
  import opened UserSettings

  class ByteStorage {
    const backend: Backend
    var visible: Image
    var staged: Image
    var calls: nat
    var requests: seq<Request>

    constructor (backend: Backend, medium: Medium)
      ensures this.backend == backend && State() == Stored(medium, 0) && requests == []
    {
      this.backend := backend;
      visible, staged, calls := medium.visible, medium.staged, 0;
      requests := [];
    }

    function State(): Stored
      reads this
    {
      Stored(Medium(visible, staged), calls)
    }

    method Read(offset: nat, destination: array<byte>) returns (ok: bool)
      requires offset + destination.Length <= REQUIRED_CAPACITY
      modifies this`calls, this`requests, destination
      ensures ok == backend.script(old(calls)).ok && calls == old(calls) + 1
      ensures requests == old(requests) + [ReadBytes(offset, destination.Length)]
      ensures destination[..] == if ok then visible[offset..offset + destination.Length] else old(destination[..])
    {
      ok := backend.script(calls).ok;
      calls, requests := calls + 1, requests + [ReadBytes(offset, destination.Length)];
      if ok {
        for index := 0 to destination.Length
          invariant destination[..index] == visible[offset..offset + index]
          invariant calls == old(calls) + 1 && requests == old(requests) + [ReadBytes(offset, destination.Length)]
        {
          destination[index] := visible[offset + index];
        }
      }
    }

    method Write(offset: nat, source: array<byte>) returns (ok: bool)
      requires offset + source.Length <= REQUIRED_CAPACITY
      modifies this
      ensures ok == backend.script(old(calls)).ok
      ensures State() == Stored(backend.script(old(calls)).after, old(calls) + 1)
      ensures requests == old(requests) + [WriteBytes(offset, source[..])]
    {
      ok := Answered(WriteBytes(offset, source[..]));
    }

    method Commit() returns (ok: bool)
      modifies this
      ensures ok == backend.script(old(calls)).ok
      ensures State() == Stored(backend.script(old(calls)).after, old(calls) + 1)
      ensures requests == old(requests) + [CommitStaged]
    {
      ok := Answered(CommitStaged);
    }

    method Answered(request: Request) returns (ok: bool)
      modifies this
      ensures ok == backend.script(old(calls)).ok
      ensures State() == Stored(backend.script(old(calls)).after, old(calls) + 1)
      ensures requests == old(requests) + [request]
    {
      var answer := backend.script(calls);
      ok, visible, staged := answer.ok, answer.after.visible, answer.after.staged;
      calls, requests := calls + 1, requests + [request];
    }
  }

  /** Fills a buffer with the record of valid settings. */
  method BuildRecord(s: UserSettings, generation: bv32) returns (ok: bool, record: array<byte>)
    ensures fresh(record) && record.Length == RECORD_SIZE
    ensures ok == Valid(s)
    ensures ok ==> record[..] == Encoded(Record(s, generation))
  {
    hide WriteU16;
    hide WriteU32;
    hide Valid;
    hide SettingsPayload.PayloadOf;
    hide Crc32.Checksum;
    record := new byte[RECORD_SIZE](_ => 0xFF);
    SettingsPayload.Put(record, 0, MAGIC);
    SettingsPayload.Put(record, 4, WriteU16(SCHEMA_VERSION));
    SettingsPayload.Put(record, 6, WriteU16(STORED_PAYLOAD_SIZE));
    assert record[..8] == Preamble();
    SettingsPayload.Put(record, 8, WriteU32(generation));
    assert record[..12] == Preamble() + WriteU32(generation);
    var payload := new byte[SettingsPayload.PAYLOAD_SIZE](_ => 0);
    ok := SettingsPayload.Encode(s, payload);
    if !ok {
      return;
    }
    SettingsPayload.Put(record, 12, payload[..]);
    assert record[..CRC_OFFSET] == Covered(Record(s, generation));
    var crc := Crc32.Compute(record, CRC_OFFSET);
    SettingsPayload.Put(record, CRC_OFFSET, WriteU32(crc));
    assert record[..] == record[..RECORD_SIZE];
  }

  /** The record a buffer holds, checked field by field in the order of the stored bytes. */
  method ParseRecord(record: array<byte>) returns (decoded: Option<Record>)
    requires record.Length == RECORD_SIZE
    ensures decoded == Decoded(record[..])
  {
    hide ReadU16;
    hide ReadU32;
    hide Crc32.Checksum;
    hide SettingsPayload.Decode;
    ghost var bytes := record[..];
    for index := 0 to |MAGIC|
      invariant forall i :: 0 <= i < index ==> record[i] == MAGIC[i]
    {
      if record[index] != MAGIC[index] {
        assert bytes[..4][index] != MAGIC[index];
        return None;
      }
    }
    assert bytes[..4] == MAGIC;
    var version, size := ReadU16(record[4..6]), ReadU16(record[6..8]);
    assert record[4..6] == bytes[4..6] && record[6..8] == bytes[6..8];
    if version != SCHEMA_VERSION || size != STORED_PAYLOAD_SIZE {
      return None;
    }
    var crc := Crc32.Compute(record, CRC_OFFSET);
    assert record[..CRC_OFFSET] == bytes[..CRC_OFFSET] && record[CRC_OFFSET..] == bytes[CRC_OFFSET..];
    if ReadU32(record[CRC_OFFSET..]) != crc {
      return None;
    }
    assert record[12..52] == bytes[12..52] && record[8..12] == bytes[8..12];
    match SettingsPayload.Decode(record[12..52], size as int)
    case None => return None;
    case Some(settings) => return Some(Record(settings, ReadU32(record[8..12])));
  }

  class JournaledUserSettingsStore {
    const storage: ByteStorage

    constructor (storage: ByteStorage)
      ensures this.storage == storage
    {
      this.storage := storage;
    }

    method ReadRecord(slot: nat) returns (readable: bool, decoded: Option<Record>)
      requires slot < 2
      modifies storage`calls, storage`requests
      ensures readable == storage.backend.script(old(storage.calls)).ok
      ensures decoded == Seen(storage.backend, old(storage.State()), old(storage.calls), slot)
      ensures storage.calls == old(storage.calls) + 1
      ensures storage.requests == old(storage.requests) + [ReadSlot(slot)]
    {
      hide Decoded;
      var record := new byte[RECORD_SIZE](_ => 0);
      readable := storage.Read(slot * SLOT_SIZE, record);
      if !readable {
        return false, None;
      }
      decoded := ParseRecord(record);
    }

    method Load() returns (settings: Option<UserSettings>)
      modifies storage`calls, storage`requests
      ensures settings == SettingsJournal.Load(storage.backend, old(storage.State()))
      ensures storage.State() == AfterLoad(storage.backend, old(storage.State()))
      ensures storage.requests == old(storage.requests) + LoadRequests(storage.backend)
    {
      hide NewerGeneration;
      hide SlotRecord;
      if storage.backend.capacity < REQUIRED_CAPACITY {
        return None;
      }
      var firstReadable, first := ReadRecord(0);
      var secondReadable, second := ReadRecord(1);
      if (!firstReadable || first.None?) && (!secondReadable || second.None?) {
        return None;
      }
      if first.None? {
        return Some(second.value.settings);
      }
      if second.None? || !NewerGeneration(second.value.generation, first.value.generation) {
        return Some(first.value.settings);
      }
      return Some(second.value.settings);
    }

    method Save(s: UserSettings) returns (ok: bool)
      modifies storage
      ensures ok == Saved(storage.backend, old(storage.State()), s)
      ensures storage.State() == AfterSave(storage.backend, old(storage.State()), s)
      ensures storage.requests == old(storage.requests) + SaveRequests(storage.backend, old(storage.State()), s)
    {
      hide NewerGeneration;
      hide Successor;
      hide SlotRecord;
      hide Encoded;
      hide Valid;
      hide StoreRequests;
      hide ReadSlot;
      if storage.backend.capacity < REQUIRED_CAPACITY || !Valid(s) {
        return false;
      }
      var firstReadable, first := ReadRecord(0);
      if !firstReadable {
        return false;
      }
      var secondReadable, second := ReadRecord(1);
      if !secondReadable {
        return false;
      }
      var target := ChooseTarget(first, second);
      var built, record := BuildRecord(s, target.generation);
      if !built {
        return false;
      }
      ok := Store(target, s, record);
    }

    /** Writes a record, commits it and reads it back. */
    method Store(target: Target, s: UserSettings, record: array<byte>) returns (ok: bool)
      requires target.slot < 2 && record[..] == Encoded(Record(s, target.generation))
      modifies storage
      ensures storage.requests == old(storage.requests) + StoreRequests(storage.backend, old(storage.calls), target, s)
      ensures var b, n := storage.backend, old(storage.calls);
              && storage.State()
                 == (if !b.script(n).ok then Stored(b.script(n).after, n + 1)
                     else if !b.script(n + 1).ok then Stored(b.script(n + 1).after, n + 2)
                     else Stored(b.script(n + 1).after, n + 3))
              && (ok <==>
                    && b.script(n).ok && b.script(n + 1).ok && b.script(n + 2).ok
                    && SlotRecord(b.script(n + 1).after.visible, target.slot) == Some(Record(s, target.generation)))
    {
      hide SlotRecord;
      hide Encoded;
      hide ReadSlot;
      var written := storage.Write(target.slot * SLOT_SIZE, record);
      if !written {
        return false;
      }
      var committed := storage.Commit();
      if !committed {
        return false;
      }
      var readable, verified := ReadRecord(target.slot);
      return readable && verified.Some? && verified.value.generation == target.generation && verified.value.settings == s;
    }

    method ChooseTarget(first: Option<Record>, second: Option<Record>) returns (t: Target)
      ensures t == NextTarget(first, second)
    {
      var targetSlot, nextGeneration := 0, 1;
      if first.Some? && second.Some? {
        var secondIsNewer := NewerGeneration(second.value.generation, first.value.generation);
        targetSlot := if secondIsNewer then 0 else 1;
        nextGeneration := Successor(if secondIsNewer then second.value.generation else first.value.generation);
      } else if first.Some? {
        targetSlot := 1;
        nextGeneration := Successor(first.value.generation);
      } else if second.Some? {
        targetSlot := 0;
        nextGeneration := Successor(second.value.generation);
      }
      return Target(targetSlot, nextGeneration);
    }

    method LoadFailSafe() returns (ok: bool, settings: UserSettings)
      modifies storage`calls, storage`requests
      ensures settings == FailSafe(SettingsJournal.Load(storage.backend, old(storage.State())))
      ensures ok <==> SettingsJournal.Load(storage.backend, old(storage.State())) == Some(settings)
      ensures storage.State() == AfterLoad(storage.backend, old(storage.State()))
      ensures storage.requests == old(storage.requests) + LoadRequests(storage.backend)
    {
      var candidate := Load();
      if candidate.Some? {
        LoadedIsStored(storage.backend, old(storage.State()));
      }
      hide Valid;
      hide SettingsJournal.Load;
      if candidate.None? || !Valid(candidate.value) {
        return false, DEFAULT_SETTINGS.(remoteStartEnabled := false);
      }
      return true, candidate.value;
    }
  }
}

/**
 * The two-slot journal over a byte storage, as functions of what the storage
 * holds. The storage answers every call as its script says: a read may be
 * refused, and a write or a commit may leave anything at all behind.
 */
module SettingsJournal {
  import opened Bytes
  import opened Options
  import opened SettingsRecord
  import opened UserSettings

  const SLOT_SIZE: nat := 64
  const REQUIRED_CAPACITY: nat := 128

  /** The bytes of the two slots. */
  type Image = s: seq<byte> | |s| == REQUIRED_CAPACITY witness seq(REQUIRED_CAPACITY, _ => 0xFF)

  /** What reads return, and what a commit makes them return. */
  datatype Medium = Medium(visible: Image, staged: Image)

  /** How one call ends; reads leave the medium as it is and ignore the second part. */
  datatype Answer = Answer(ok: bool, after: Medium)

  datatype Backend = Backend(capacity: nat, script: nat -> Answer)

  datatype Stored = Stored(medium: Medium, calls: nat)

  function SlotBytes(image: Image, slot: nat): (bytes: seq<byte>)
    requires slot < 2
    ensures |bytes| == RECORD_SIZE
  {
    image[SLOT_SIZE * slot..SLOT_SIZE * slot + RECORD_SIZE]
  }

  function SlotRecord(image: Image, slot: nat): Option<Record>
    requires slot < 2
  {
    Decoded(SlotBytes(image, slot))
  }

  predicate NewerGeneration(candidate: bv32, reference: bv32) {
    var distance := candidate - reference;
    0 < distance < 0x8000_0000
  }

  function Successor(generation: bv32): bv32 {
    generation + 1
  }

  /** The record of two slots that loading prefers. */
  function Select(first: Option<Record>, second: Option<Record>): Option<Record> {
    if first.None? then second
    else if second.None? || !NewerGeneration(second.value.generation, first.value.generation) then first
    else second
  }

  datatype Target = Target(slot: nat, generation: bv32)

  /** Where the next record goes, and its generation. */
  function NextTarget(first: Option<Record>, second: Option<Record>): (t: Target)
    ensures t.slot < 2
  {
    if first.Some? && second.Some? then
      if NewerGeneration(second.value.generation, first.value.generation) then Target(0, Successor(second.value.generation))
      else Target(1, Successor(first.value.generation))
    else if first.Some? then Target(1, Successor(first.value.generation))
    else if second.Some? then Target(0, Successor(second.value.generation))
    else Target(0, 1)
  }

  /** What a read of a slot yields: an unreadable slot counts as holding nothing. */
  function Seen(b: Backend, st: Stored, call: nat, slot: nat): Option<Record>
    requires slot < 2
  {
    if b.script(call).ok then SlotRecord(st.medium.visible, slot) else None
  }

  function Load(b: Backend, st: Stored): Option<UserSettings> {
    if b.capacity < REQUIRED_CAPACITY then None
    else
      match Select(Seen(b, st, st.calls, 0), Seen(b, st, st.calls + 1, 1))
      case None => None
      case Some(r) => Some(r.settings)
  }

  function AfterLoad(b: Backend, st: Stored): Stored {
    if b.capacity < REQUIRED_CAPACITY then st else st.(calls := st.calls + 2)
  }

  /** Both slots can be read before a save. */
  predicate SaveReads(b: Backend, st: Stored) {
    b.script(st.calls).ok && b.script(st.calls + 1).ok
  }

  predicate SaveAdmitted(b: Backend, s: UserSettings) {
    b.capacity >= REQUIRED_CAPACITY && Valid(s)
  }

  function SaveTarget(st: Stored): (t: Target)
    ensures t.slot < 2
  {
    NextTarget(SlotRecord(st.medium.visible, 0), SlotRecord(st.medium.visible, 1))
  }

  function Saved(b: Backend, st: Stored, s: UserSettings): bool {
    && SaveAdmitted(b, s)
    && SaveReads(b, st)
    && b.script(st.calls + 2).ok
    && b.script(st.calls + 3).ok
    && b.script(st.calls + 4).ok
    && SlotRecord(b.script(st.calls + 3).after.visible, SaveTarget(st).slot) == Some(Record(s, SaveTarget(st).generation))
  }

  function AfterSave(b: Backend, st: Stored, s: UserSettings): Stored {
    if !SaveAdmitted(b, s) then st
    else if !b.script(st.calls).ok then st.(calls := st.calls + 1)
    else if !b.script(st.calls + 1).ok then st.(calls := st.calls + 2)
    else if !b.script(st.calls + 2).ok then Stored(b.script(st.calls + 2).after, st.calls + 3)
    else if !b.script(st.calls + 3).ok then Stored(b.script(st.calls + 3).after, st.calls + 4)
    else Stored(b.script(st.calls + 3).after, st.calls + 5)
  }

  // ---------- what the two operations ask of the storage ----------

  datatype Request = ReadBytes(offset: nat, length: nat) | WriteBytes(offset: nat, bytes: seq<byte>) | CommitStaged

  function ReadSlot(slot: nat): Request {
    ReadBytes(SLOT_SIZE * slot, RECORD_SIZE)
  }

  function LoadRequests(b: Backend): seq<Request> {
    if b.capacity < REQUIRED_CAPACITY then [] else [ReadSlot(0), ReadSlot(1)]
  }

  /** The record is written where it belongs, committed and read back; a refused call ends the save. */
  function StoreRequests(b: Backend, calls: nat, target: Target, s: UserSettings): seq<Request>
    requires target.slot < 2
  {
    [WriteBytes(SLOT_SIZE * target.slot, Encoded(Record(s, target.generation)))]
    + if !b.script(calls).ok then [] else [CommitStaged] + if !b.script(calls + 1).ok then [] else [ReadSlot(target.slot)]
  }

  /** Both slots are read, and if they can be the record is stored. */
  function SaveRequests(b: Backend, st: Stored, s: UserSettings): seq<Request> {
    if !SaveAdmitted(b, s) then []
    else if !b.script(st.calls).ok then [ReadSlot(0)]
    else if !b.script(st.calls + 1).ok then [ReadSlot(0), ReadSlot(1)]
    else [ReadSlot(0), ReadSlot(1)] + StoreRequests(b, st.calls + 2, SaveTarget(st), s)
  }

  /** Loading that falls back to the defaults with remote start disabled. */
  function FailSafe(loaded: Option<UserSettings>): UserSettings {
    match loaded
    case None => DEFAULT_SETTINGS.(remoteStartEnabled := false)
    case Some(s) => if Valid(s) then s else DEFAULT_SETTINGS.(remoteStartEnabled := false)
  }

  // ---------- what the two operations promise on any storage ----------

  /**
   * Loading returns valid settings, and exactly what one of the two visible
   * slots encodes, byte for byte.
   */
  lemma LoadedIsStored(b: Backend, st: Stored)
    requires Load(b, st).Some?
    ensures Valid(Load(b, st).value)
    ensures exists slot, generation ::
              0 <= slot < 2 && SlotBytes(st.medium.visible, slot) == Encoded(Record(Load(b, st).value, generation))
  {
    hide Decoded;
    hide Valid;
    hide Encoded;
    hide SlotBytes;
    var first, second := Seen(b, st, st.calls, 0), Seen(b, st, st.calls + 1, 1);
    var slot := if Select(first, second) == first && first.Some? then 0 else 1;
    var r := Select(first, second).value;
    assert SlotRecord(st.medium.visible, slot) == Some(r);
    EncodeDecoded(SlotBytes(st.medium.visible, slot));
    assert SlotBytes(st.medium.visible, slot) == Encoded(Record(r.settings, r.generation));
  }

  /** Remote start is enabled after start-up only when a visible slot encodes valid settings that enable it. */
  lemma EnabledOnlyFromStorage(b: Backend, st: Stored)
    requires FailSafe(Load(b, st)).remoteStartEnabled
    ensures exists slot, generation ::
              && 0 <= slot < 2
              && SlotBytes(st.medium.visible, slot) == Encoded(Record(FailSafe(Load(b, st)), generation))
    ensures Valid(FailSafe(Load(b, st)))
  {
    hide Valid;
    hide Load;
    hide Encoded;
    hide SlotBytes;
    LoadedIsStored(b, st);
  }

  /**
   * A save that reports success left exactly the bytes of the new record in the
   * visible slot it chose, whatever the storage did to write and commit them.
   */
  lemma SuccessIsStored(b: Backend, st: Stored, s: UserSettings)
    requires Saved(b, st, s)
    ensures SlotBytes(AfterSave(b, st, s).medium.visible, SaveTarget(st).slot) == Encoded(Record(s, SaveTarget(st).generation))
  {
    hide Decoded;
    hide Valid;
    hide Encoded;
    hide SlotBytes;
    hide SaveTarget;
    EncodeDecoded(SlotBytes(AfterSave(b, st, s).medium.visible, SaveTarget(st).slot));
  }

  /**
   * Read after write. A save that succeeds without disturbing the other slot is
   * what a load returns next, exactly when that load can read the slot written
   * (or the unreadable slot is made up for by the other one holding the same
   * settings).
   */
  lemma LoadAfterSave(b: Backend, st: Stored, s: UserSettings, later: Stored)
    requires Saved(b, st, s) && later.medium == AfterSave(b, st, s).medium
    requires forall slot :: 0 <= slot < 2 && slot != SaveTarget(st).slot ==>
               SlotBytes(later.medium.visible, slot) == SlotBytes(st.medium.visible, slot)
    ensures Load(b, later) == Some(s) <==>
            var target := SaveTarget(st).slot;
            || b.script(later.calls + target).ok
            || (b.script(later.calls + 1 - target).ok
                && exists g :: SlotRecord(st.medium.visible, 1 - target) == Some(Record(s, g)))
  {
    hide Decoded;
    hide Valid;
    hide SlotBytes;
    var target := SaveTarget(st);
    var other := SlotRecord(st.medium.visible, 1 - target.slot);
    assert SlotRecord(later.medium.visible, target.slot) == Some(Record(s, target.generation));
    assert SlotRecord(later.medium.visible, 1 - target.slot) == other by {
      assert SlotBytes(later.medium.visible, 1 - target.slot) == SlotBytes(st.medium.visible, 1 - target.slot);
    }
    TargetIsNewest(SlotRecord(st.medium.visible, 0), SlotRecord(st.medium.visible, 1));
    if other.Some? {
      assert other == Some(Record(other.value.settings, other.value.generation));
    }
  }

  /** The next record is newer than the one it leaves in place, and never the other way round. */
  lemma TargetIsNewest(first: Option<Record>, second: Option<Record>)
    ensures var t := NextTarget(first, second);
            var kept := if t.slot == 0 then second else first;
            kept.Some? ==> NewerGeneration(t.generation, kept.value.generation)
                           && !NewerGeneration(kept.value.generation, t.generation)
  {
    hide NewerGeneration;
    hide Successor;
    if first.Some? {
      SuccessorIsNewer(first.value.generation);
    }
    if second.Some? {
      SuccessorIsNewer(second.value.generation);
    }
  }

  lemma SuccessorIsNewer(g: bv32)
    ensures NewerGeneration(Successor(g), g) && !NewerGeneration(g, Successor(g))
  {
    assert g + 1 - g == 1 && g - (g + 1) == 0xFFFF_FFFF;
  }
}

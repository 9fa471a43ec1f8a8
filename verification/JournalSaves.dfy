/** What a save needs, what it asks of the storage, and where it puts the new record. */
module JournalSaves {
  import opened Options
  import opened SettingsJournal
  import opened SettingsRecord
  import opened UserSettings

  /** Less than half the range ahead. */
  predicate Ahead(candidate: bv32, reference: bv32) {
    candidate != reference && candidate - reference < 0x8000_0000
  }

  /** Of two records, the one not to be overwritten. */
  function Newest(first: Option<Record>, second: Option<Record>): Option<Record> {
    if second.Some? && (first.None? || Ahead(second.value.generation, first.value.generation)) then second else first
  }

  lemma AheadExactly(a: bv32, b: bv32)
    ensures NewerGeneration(a, b) <==> Ahead(a, b)
  {
  }

  lemma SuccessorIs(g: bv32)
    ensures Successor(g) == g + 1
  {
  }

  /** Loading prefers the newest record. */
  lemma SelectExactly(first: Option<Record>, second: Option<Record>)
    ensures Select(first, second) == Newest(first, second)
  {
    if first.Some? && second.Some? {
      AheadExactly(second.value.generation, first.value.generation);
    }
    hide NewerGeneration;
    hide Ahead;
  }

  /** The new record spares the newest one and has the generation after it; into empty slots it goes first, as the first. */
  lemma TargetExactly(first: Option<Record>, second: Option<Record>)
    ensures var target, newest := NextTarget(first, second), Newest(first, second);
            if newest.None? then target == Target(0, 1)
            else
              && target.generation == Successor(newest.value.generation)
              && (if target.slot == 0 then second else first) == newest
              && (first == newest && second == newest ==> target.slot == 1)
  {
    if first.Some? && second.Some? {
      AheadExactly(second.value.generation, first.value.generation);
      NotAheadOfItself(first.value.generation);
    }
    hide NewerGeneration;
    hide Ahead;
    hide Successor;
  }

  lemma NotAheadOfItself(g: bv32)
    ensures !Ahead(g, g)
  {
  }

  predicate Admitted(b: Backend, u: UserSettings) {
    Valid(u) && b.capacity >= 128
  }

  /** The slot holds exactly the record, byte for byte, exactly when it decodes to it. */
  lemma HoldsExactly(image: Image, slot: nat, r: Record)
    requires slot < 2 && Valid(r.settings)
    ensures SlotRecord(image, slot) == Some(r) <==> SlotBytes(image, slot) == Encoded(r)
  {
    hide Valid;
    hide Decoded;
    hide Encoded;
    hide SlotBytes;
    DecodeEncoded(r);
    if Decoded(SlotBytes(image, slot)).Some? {
      EncodeDecoded(SlotBytes(image, slot));
    }
  }

  /**
   * A save is reported done exactly when the settings are valid, the storage is
   * large enough, both reads, the write, the commit and the read that verifies
   * succeed, and the slot then holds exactly the new record.
   */
  lemma SavedExactly(b: Backend, st: Stored, u: UserSettings)
    ensures var n, target := st.calls, SaveTarget(st);
            Saved(b, st, u) <==>
            && Admitted(b, u)
            && b.script(n).ok && b.script(n + 1).ok && b.script(n + 2).ok && b.script(n + 3).ok && b.script(n + 4).ok
            && SlotBytes(b.script(n + 3).after.visible, target.slot) == Encoded(Record(u, target.generation))
  {
    var image, target := b.script(st.calls + 3).after.visible, SaveTarget(st);
    hide Valid;
    hide Encoded;
    hide SlotBytes;
    hide SlotRecord;
    hide SaveTarget;
    SavedParts(b, st, u);
    hide Saved;
    if Valid(u) {
      HoldsExactly(image, target.slot, Record(u, target.generation));
    }
  }

  lemma SavedParts(b: Backend, st: Stored, u: UserSettings)
    ensures var n, target := st.calls, SaveTarget(st);
            Saved(b, st, u) <==>
            && Valid(u) && b.capacity >= 128
            && b.script(n).ok && b.script(n + 1).ok && b.script(n + 2).ok && b.script(n + 3).ok && b.script(n + 4).ok
            && SlotRecord(b.script(n + 3).after.visible, target.slot) == Some(Record(u, target.generation))
  {
    hide Valid;
    hide SlotRecord;
    hide SaveTarget;
  }

  /** Nothing but the write and the commit touches the storage, and they come only once everything before them succeeded. */
  lemma SaveTouches(b: Backend, st: Stored, u: UserSettings)
    ensures var n := st.calls;
            AfterSave(b, st, u)
            == if !Admitted(b, u) then st
               else if !b.script(n).ok then Stored(st.medium, n + 1)
               else if !b.script(n + 1).ok then Stored(st.medium, n + 2)
               else if !b.script(n + 2).ok then Stored(b.script(n + 2).after, n + 3)
               else if !b.script(n + 3).ok then Stored(b.script(n + 3).after, n + 4)
               else Stored(b.script(n + 3).after, n + 5)
  {
    hide Valid;
  }

  /** The one write a save asks for carries the new record to its own slot, after both slots were read. */
  lemma OneWrite(b: Backend, st: Stored, u: UserSettings, i: nat)
    requires i < |SaveRequests(b, st, u)|
    ensures var target := SaveTarget(st);
            SaveRequests(b, st, u)[i]
            == if i == 0 then ReadBytes(0, 56)
               else if i == 1 then ReadBytes(64, 56)
               else if i == 2 then WriteBytes(64 * target.slot, Encoded(Record(u, target.generation)))
               else if i == 3 then CommitStaged
               else ReadBytes(64 * target.slot, 56)
    ensures Admitted(b, u) && i <= 4 && forall n :: st.calls <= n < st.calls + i ==> b.script(n).ok
  {
    hide Valid;
    hide SaveTarget;
    hide Encoded;
  }

  /** A load reads the two slots, if the storage is large enough, and touches nothing. */
  lemma LoadTouches(b: Backend, st: Stored)
    ensures AfterLoad(b, st).medium == st.medium
    ensures AfterLoad(b, st).calls == st.calls + |LoadRequests(b)|
    ensures LoadRequests(b) == if b.capacity >= 128 then [ReadBytes(0, 56), ReadBytes(64, 56)] else []
  {
  }

  /** A load returns the newest record among the slots that can be read. */
  lemma LoadsNewest(b: Backend, st: Stored)
    ensures var first := if b.script(st.calls).ok then SlotRecord(st.medium.visible, 0) else None;
            var second := if b.script(st.calls + 1).ok then SlotRecord(st.medium.visible, 1) else None;
            var newest := Newest(first, second);
            Load(b, st) == if b.capacity < 128 || newest.None? then None else Some(newest.value.settings)
  {
    hide Select;
    hide Newest;
    hide SlotRecord;
    SelectExactly(Seen(b, st, st.calls, 0), Seen(b, st, st.calls + 1, 1));
  }
}

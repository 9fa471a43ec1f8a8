/**
 * Runs of the journal that start from blank storage: what they always load,
 * and one in which a load returns the settings before the ones just saved.
 */
module JournalFromBlank {
  import opened Bytes
  import opened JournalRuns
  import opened Options
  import opened SettingsJournal
  import opened SettingsRecord
  import opened UserSettings

  function FromBlank(m: Medium): Run {
    Run(Stored(m, 0), [], 0)
  }

  /**
   * Whatever an honest storage does to a journal that starts blank, a load that
   * can read both slots returns the last record that landed completely, which
   * is no older than the last save that reported success; it fails only when no
   * record has landed.
   */
  lemma BlankRunLoadsLastLanded(b: Backend, m: Medium, events: seq<Event>, end: Run)
    requires Blank(m) && HonestRun(b, FromBlank(m), events) && end == Execute(b, FromBlank(m), events)
    requires b.capacity >= REQUIRED_CAPACITY
    requires b.script(end.stored.calls).ok && b.script(end.stored.calls + 1).ok
    ensures end.saved <= |end.landed|
    ensures Load(b, end.stored) == if end.landed == [] then None else Some(end.landed[|end.landed| - 1])
  {
    hide HonestRun;
    hide Blank;
    hide Execute;
    hide Load;
    hide Holds;
    BlankIsSafe(m);
    StaysSafe(b, FromBlank(m), events);
    LoadsLastLanded(b, end);
  }

  // ---------- a read refused after two saves ----------

  /** The two slots of an image, each followed by erased bytes. */
  function ImageOf(first: seq<byte>, second: seq<byte>): Image
    requires |first| == |second| == RECORD_SIZE
  {
    first + Erased(SLOT_SIZE - RECORD_SIZE) + second + Erased(SLOT_SIZE - RECORD_SIZE)
  }

  function Erased(size: nat): (bytes: seq<byte>)
    ensures |bytes| == size
  {
    seq(size, _ => 0xFF)
  }

  lemma SlotsOf(first: seq<byte>, second: seq<byte>)
    requires |first| == |second| == RECORD_SIZE
    ensures SlotBytes(ImageOf(first, second), 0) == first && SlotBytes(ImageOf(first, second), 1) == second
  {
  }

  lemma ErasedHoldsNothing()
    ensures Decoded(Erased(RECORD_SIZE)) == None
  {
    assert Erased(RECORD_SIZE)[..4][0] == 0xFF && MAGIC[0] == 0x42;
  }

  function FirstRecord(s: UserSettings): Record {
    Record(s, 1)
  }

  function SecondRecord(s: UserSettings): Record {
    Record(s, 2)
  }

  function Nothing(): Image {
    ImageOf(Erased(RECORD_SIZE), Erased(RECORD_SIZE))
  }

  function OneSaved(s: UserSettings): Image {
    ImageOf(Encoded(FirstRecord(s)), Erased(RECORD_SIZE))
  }

  function BothSaved(s: UserSettings, t: UserSettings): Image {
    ImageOf(Encoded(FirstRecord(s)), Encoded(SecondRecord(t)))
  }

  /** Stages each write and publishes it at the commit; the twelfth call, a read, is refused. */
  function RefusingOnce(s: UserSettings, t: UserSettings): Backend {
    Backend(REQUIRED_CAPACITY, call =>
      if call == 2 then Answer(true, Medium(Nothing(), OneSaved(s)))
      else if call == 3 then Answer(true, Medium(OneSaved(s), OneSaved(s)))
      else if call == 7 then Answer(true, Medium(OneSaved(s), BothSaved(s, t)))
      else if call == 8 then Answer(true, Medium(BothSaved(s, t), BothSaved(s, t)))
      else Answer(call != 11, Medium(Nothing(), Nothing())))
  }

  /** A full write to one slot of an image is an honest one. */
  lemma FullWriteIsHonest(m: Medium, slot: nat, bytes: seq<byte>, answer: Answer)
    requires slot < 2 && |bytes| == RECORD_SIZE && answer.ok && answer.after.visible == m.visible
    requires SlotBytes(answer.after.staged, slot) == bytes && SlotBytes(answer.after.staged, 1 - slot) == SlotBytes(m.staged, 1 - slot)
    ensures HonestWrite(m, slot, bytes, answer)
  {
    hide SlotBytes;
    assert bytes == bytes[..RECORD_SIZE] + SlotBytes(m.staged, slot)[RECORD_SIZE..];
    assert WriteLands(m, slot, bytes, answer, RECORD_SIZE, false);
  }

  /** A save whose calls all succeed and store the record in the slot chosen. */
  lemma SaveSucceeds(b: Backend, st: Stored, s: UserSettings, target: Target, staged: Image)
    requires SaveAdmitted(b, s) && SaveTarget(st) == target && st.medium.staged == st.medium.visible
    requires forall k :: st.calls <= k < st.calls + 5 ==> b.script(k).ok
    requires b.script(st.calls + 2).after == Medium(st.medium.visible, staged)
    requires b.script(st.calls + 3).after == Medium(staged, staged)
    requires SlotBytes(staged, target.slot) == Encoded(Record(s, target.generation))
    requires SlotBytes(staged, 1 - target.slot) == SlotBytes(st.medium.visible, 1 - target.slot)
    ensures HonestSave(b, st, s) && Saved(b, st, s) && Landed(b, st, s)
    ensures AfterSave(b, st, s) == Stored(Medium(staged, staged), st.calls + 5)
  {
    hide SlotBytes;
    hide Encoded;
    hide Decoded;
    hide Valid;
    hide SaveTarget;
    hide HonestWrite;
    DecodeEncoded(Record(s, target.generation));
    FullWriteIsHonest(st.medium, target.slot, Encoded(Record(s, target.generation)), b.script(st.calls + 2));
    HonestSaveLands(b, st, s);
    hide HonestSave;
  }

  lemma FirstSave(s: UserSettings, t: UserSettings)
    requires Valid(s)
    ensures var b, st := RefusingOnce(s, t), Stored(Medium(Nothing(), Nothing()), 0);
            && Blank(st.medium) && HonestSave(b, st, s) && Saved(b, st, s) && Landed(b, st, s)
            && AfterSave(b, st, s) == Stored(Medium(OneSaved(s), OneSaved(s)), 5)
  {
    SlotsOf(Erased(RECORD_SIZE), Erased(RECORD_SIZE));
    SlotsOf(Encoded(FirstRecord(s)), Erased(RECORD_SIZE));
    ErasedHoldsNothing();
    hide Valid;
    hide Encoded;
    hide Decoded;
    hide Erased;
    hide ImageOf;
    hide SlotBytes;
    hide Saved;
    hide HonestSave;
    hide Landed;
    hide AfterSave;
    SaveSucceeds(RefusingOnce(s, t), Stored(Medium(Nothing(), Nothing()), 0), s, Target(0, 1), OneSaved(s));
  }

  /** What the slots hold after the first save, and where the second one goes. */
  lemma AfterFirst(s: UserSettings)
    requires Valid(s)
    ensures SlotRecord(OneSaved(s), 0) == Some(FirstRecord(s)) && SlotRecord(OneSaved(s), 1) == None
    ensures NextTarget(SlotRecord(OneSaved(s), 0), SlotRecord(OneSaved(s), 1)) == Target(1, 2)
  {
    SlotsOf(Encoded(FirstRecord(s)), Erased(RECORD_SIZE));
    ErasedHoldsNothing();
    DecodeEncoded(FirstRecord(s));
    hide Valid;
    hide Encoded;
    hide Decoded;
    hide Erased;
    hide ImageOf;
    hide SlotBytes;
    hide NewerGeneration;
  }

  lemma SecondSave(s: UserSettings, t: UserSettings)
    requires Valid(s) && Valid(t)
    ensures var b, st := RefusingOnce(s, t), Stored(Medium(OneSaved(s), OneSaved(s)), 5);
            && HonestSave(b, st, t) && Saved(b, st, t) && Landed(b, st, t)
            && AfterSave(b, st, t) == Stored(Medium(BothSaved(s, t), BothSaved(s, t)), 10)
  {
    SlotsOf(Encoded(FirstRecord(s)), Erased(RECORD_SIZE));
    SlotsOf(Encoded(FirstRecord(s)), Encoded(SecondRecord(t)));
    AfterFirst(s);
    var b, st := RefusingOnce(s, t), Stored(Medium(OneSaved(s), OneSaved(s)), 5);
    assert SaveTarget(st) == Target(1, 2) && SaveAdmitted(b, t);
    hide *;
    SecondScript(s, t);
    TwoSlots(s, t);
    SaveSucceeds(b, st, t, Target(1, 2), BothSaved(s, t));
  }

  lemma SecondScript(s: UserSettings, t: UserSettings)
    ensures var b := RefusingOnce(s, t);
            && (forall k :: 5 <= k < 10 ==> b.script(k).ok)
            && b.script(7).after == Medium(OneSaved(s), BothSaved(s, t))
            && b.script(8).after == Medium(BothSaved(s, t), BothSaved(s, t))
  {
    hide Nothing;
    hide OneSaved;
    hide BothSaved;
  }

  lemma TwoSlots(s: UserSettings, t: UserSettings)
    ensures SlotBytes(BothSaved(s, t), 1) == Encoded(Record(t, 2))
    ensures SlotBytes(BothSaved(s, t), 0) == Encoded(Record(s, 1)) == SlotBytes(OneSaved(s), 0)
  {
    SlotsOf(Encoded(FirstRecord(s)), Erased(RECORD_SIZE));
    SlotsOf(Encoded(FirstRecord(s)), Encoded(SecondRecord(t)));
    hide Encoded;
    hide Erased;
    hide ImageOf;
    hide SlotBytes;
  }

  lemma RefusedScript(s: UserSettings, t: UserSettings)
    ensures var b := RefusingOnce(s, t); b.script(10).ok && !b.script(11).ok && b.capacity == REQUIRED_CAPACITY
  {
    hide Nothing;
    hide OneSaved;
    hide BothSaved;
  }

  lemma RefusedLoad(s: UserSettings, t: UserSettings)
    requires Valid(s)
    ensures Load(RefusingOnce(s, t), Stored(Medium(BothSaved(s, t), BothSaved(s, t)), 10)) == Some(s)
  {
    hide Valid;
    hide Decoded;
    hide Encoded;
    hide SlotBytes;
    hide RefusingOnce;
    hide BothSaved;
    hide OneSaved;
    RefusedScript(s, t);
    TwoSlots(s, t);
    DecodeEncoded(FirstRecord(s));
  }

  lemma SuccessCounts(b: Backend, run: Run, s: UserSettings)
    requires Saved(b, run.stored, s) && Landed(b, run.stored, s)
    ensures Advance(b, run, SaveEvent(s)) == Run(AfterSave(b, run.stored, s), run.landed + [s], |run.landed| + 1)
  {
    hide Saved;
    hide Landed;
    hide AfterSave;
  }

  lemma TwoHonestSaves(b: Backend, start: Run, first: Event, second: Event)
    requires first.SaveEvent? && HonestSave(b, start.stored, first.settings)
    requires second.SaveEvent? && HonestSave(b, Advance(b, start, first).stored, second.settings)
    ensures HonestRun(b, start, [first, second])
  {
    TwoEvents(b, start, first, second);
    hide HonestSave;
    hide Execute;
    hide Advance;
  }

  /**
   * Two saves from blank storage succeed and land; then the read of the newer
   * slot is refused once, and a load returns the settings of the older.
   */
  lemma RefusedReadLoadsOlder(s: UserSettings, t: UserSettings)
    requires Valid(s) && Valid(t)
    ensures var b, blank, events := RefusingOnce(s, t), Medium(Nothing(), Nothing()), [SaveEvent(s), SaveEvent(t)];
            var end := Execute(b, FromBlank(blank), events);
            && Blank(blank) && HonestRun(b, FromBlank(blank), events)
            && end.landed == [s, t] && end.saved == 2
            && Load(b, end.stored) == Some(s)
  {
    var b, start := RefusingOnce(s, t), FromBlank(Medium(Nothing(), Nothing()));
    hide *;
    assert start == Run(Stored(Medium(Nothing(), Nothing()), 0), [], 0) by {
      StartOf(Medium(Nothing(), Nothing()));
    }
    FirstSave(s, t);
    SuccessCounts(b, start, s);
    var once := Advance(b, start, SaveEvent(s));
    SecondSave(s, t);
    SuccessCounts(b, once, t);
    RefusedLoad(s, t);
    TwoEvents(b, start, SaveEvent(s), SaveEvent(t));
    TwoHonestSaves(b, start, SaveEvent(s), SaveEvent(t));
  }

  lemma StartOf(m: Medium)
    ensures FromBlank(m) == Run(Stored(m, 0), [], 0)
  {
  }

  lemma TwoEvents(b: Backend, run: Run, first: Event, second: Event)
    ensures Execute(b, run, [first, second]) == Advance(b, Advance(b, run, first), second)
    ensures var events := [first, second]; Execute(b, run, events[..0]) == run && Execute(b, run, events[..1]) == Advance(b, run, first)
  {
    hide Advance;
    var events := [first, second];
    assert events[..1] == [first] && [first][..0] == [] && events[..0] == [];
    assert Execute(b, run, []) == run;
    assert Execute(b, run, [first]) == Advance(b, run, first);
  }
}

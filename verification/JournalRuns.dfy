/**
 * Crash safety of the journal over whole runs of saves, loads and power cuts.
 *
 * Beside the storage a run carries the settings of every record that was ever
 * completely landed, in order. The n-th landed record carries generation n
 * modulo 2^32, so the argument never depends on the counter not wrapping.
 */
module JournalRuns {
  import opened Bytes
  import opened Crc32Detection
  import opened Options
  import opened SettingsJournal
  import opened SettingsRecord
  import opened UserSettings

  datatype Event = SaveEvent(settings: UserSettings) | LoadEvent | PowerCut

  /** landed: every completely landed record; saved: how many had landed when a save last reported success. */
  datatype Run = Run(stored: Stored, landed: seq<UserSettings>, saved: nat)

  function GenerationOf(n: nat): bv32 {
    if n == 0 then 0 else Successor(GenerationOf(n - 1))
  }

  function NextRecord(st: Stored, s: UserSettings): Record {
    Record(s, SaveTarget(st).generation)
  }

  /** The save wrote its record completely into the visible slot it chose. */
  predicate Landed(b: Backend, st: Stored, s: UserSettings) {
    && SaveAdmitted(b, s)
    && SaveReads(b, st)
    && SlotBytes(AfterSave(b, st, s).medium.visible, SaveTarget(st).slot) == Encoded(NextRecord(st, s))
  }

  function Advance(b: Backend, run: Run, event: Event): Run {
    match event
    case SaveEvent(s) =>
      var landed := if Landed(b, run.stored, s) then run.landed + [s] else run.landed;
      Run(AfterSave(b, run.stored, s), landed, if Saved(b, run.stored, s) then |landed| else run.saved)
    case LoadEvent => run.(stored := AfterLoad(b, run.stored))
    case PowerCut => run.(stored := run.stored.(medium := Medium(run.stored.medium.visible, run.stored.medium.visible)))
  }

  function Execute(b: Backend, run: Run, events: seq<Event>): Run {
    if events == [] then run
    else Advance(b, Execute(b, run, events[..|events| - 1]), events[|events| - 1])
  }

  // ---------- what an honest storage may do ----------

  /** The first k bytes of a record reach a slot; the other slot is untouched. */
  predicate Landing(before: Image, after: Image, slot: nat, bytes: seq<byte>, k: nat)
    requires slot < 2 && |bytes| == RECORD_SIZE && k <= RECORD_SIZE
  {
    && SlotBytes(after, slot) == bytes[..k] + SlotBytes(before, slot)[k..]
    && SlotBytes(after, 1 - slot) == SlotBytes(before, 1 - slot)
  }

  /** A slot torn after k bytes is the old record, the new one, or no record. */
  predicate TearRejected(before: seq<byte>, bytes: seq<byte>, k: nat)
    requires |before| == |bytes| == RECORD_SIZE && k <= RECORD_SIZE
  {
    var torn := bytes[..k] + before[k..];
    torn == before || torn == bytes || Decoded(torn) == None
  }

  /**
   * A write puts k bytes of the record in the staged slot, or through to the
   * visible one with nothing left staged; one that succeeds puts them all.
   */
  predicate WriteLands(m: Medium, slot: nat, bytes: seq<byte>, answer: Answer, k: nat, through: bool)
    requires slot < 2 && |bytes| == RECORD_SIZE && k <= RECORD_SIZE
  {
    && (answer.ok ==> k == RECORD_SIZE)
    && (if through then
          && Landing(m.visible, answer.after.visible, slot, bytes, k)
          && TearRejected(SlotBytes(m.visible, slot), bytes, k)
          && answer.after.staged == answer.after.visible
        else
          && Landing(m.staged, answer.after.staged, slot, bytes, k)
          && answer.after.visible == m.visible)
  }

  ghost predicate HonestWrite(m: Medium, slot: nat, bytes: seq<byte>, answer: Answer)
    requires slot < 2 && |bytes| == RECORD_SIZE
  {
    exists k: nat, through: bool :: k <= RECORD_SIZE && WriteLands(m, slot, bytes, answer, k, through)
  }

  /** A commit publishes what is staged; a refused one may have, may do nothing, or may drop it. */
  predicate HonestCommit(m: Medium, answer: Answer) {
    || answer.after == Medium(m.staged, m.staged)
    || (!answer.ok && answer.after == m)
    || (!answer.ok && answer.after == Medium(m.visible, m.visible))
  }

  /** What an honest storage may answer a request with: writes to a slot land, commits publish, reads only read. */
  ghost predicate HonestAnswer(m: Medium, request: Request, answer: Answer) {
    match request
    case ReadBytes(offset, length) => true
    case WriteBytes(offset, bytes) =>
      forall slot :: 0 <= slot < 2 && offset == SLOT_SIZE * slot && |bytes| == RECORD_SIZE ==> HonestWrite(m, slot, bytes, answer)
    case CommitStaged => HonestCommit(m, answer)
  }

  /** What the storage holds when a save makes its i-th request. */
  function MediumAt(b: Backend, st: Stored, i: nat): Medium {
    if i <= 2 then st.medium else b.script(st.calls + i - 1).after
  }

  /** The storage answers every request of the save honestly. */
  ghost predicate HonestSave(b: Backend, st: Stored, s: UserSettings) {
    forall i :: 0 <= i < |SaveRequests(b, st, s)| ==>
      HonestAnswer(MediumAt(b, st, i), SaveRequests(b, st, s)[i], b.script(st.calls + i))
  }

  /** That is, it lands the record in the slot it belongs to, and commits it. */
  lemma HonestSaveLands(b: Backend, st: Stored, s: UserSettings)
    ensures HonestSave(b, st, s) <==>
            (SaveAdmitted(b, s) && SaveReads(b, st) ==>
               && HonestWrite(st.medium, SaveTarget(st).slot, Encoded(NextRecord(st, s)), b.script(st.calls + 2))
               && (b.script(st.calls + 2).ok ==> HonestCommit(b.script(st.calls + 2).after, b.script(st.calls + 3))))
  {
    hide SaveAdmitted;
    hide SaveTarget;
    hide Encoded;
    hide HonestCommit;
    hide HonestWrite;
    var requests := SaveRequests(b, st, s);
    if SaveAdmitted(b, s) && SaveReads(b, st) {
      assert requests[2] == WriteBytes(SLOT_SIZE * SaveTarget(st).slot, Encoded(NextRecord(st, s)));
      assert b.script(st.calls + 2).ok ==> requests[3] == CommitStaged;
      assert |requests| >= 3 && (|requests| > 3 <==> b.script(st.calls + 2).ok) && |requests| <= 5;
      assert |requests| > 4 ==> requests[4].ReadBytes?;
    }
  }

  ghost predicate HonestRun(b: Backend, run: Run, events: seq<Event>) {
    forall i :: 0 <= i < |events| && events[i].SaveEvent? ==>
                  HonestSave(b, Execute(b, run, events[..i]).stored, events[i].settings)
  }

  // ---------- the invariant ----------

  /** What the slot below the newest may hold: the record landed before it, or nothing. */
  function Previous(landed: seq<UserSettings>): Option<Record> {
    if |landed| < 2 then None else Some(Record(landed[|landed| - 2], GenerationOf(|landed| - 1)))
  }

  function Newest(landed: seq<UserSettings>): Option<Record> {
    if landed == [] then None else Some(Record(landed[|landed| - 1], GenerationOf(|landed|)))
  }

  /** Slot top holds the newest landed record; with none landed, both slots are empty and top is 1. */
  predicate Holds(image: Image, landed: seq<UserSettings>, top: nat)
    requires top < 2
  {
    && SlotRecord(image, top) == Newest(landed)
    && (SlotRecord(image, 1 - top) == None || SlotRecord(image, 1 - top) == Previous(landed))
    && (landed == [] ==> top == 1)
  }

  predicate Consistent(run: Run, top: nat)
    requires top < 2
  {
    && Holds(run.stored.medium.visible, run.landed, top)
    && SlotBytes(run.stored.medium.staged, top) == SlotBytes(run.stored.medium.visible, top)
    && run.saved <= |run.landed|
  }

  predicate Safe(run: Run) {
    Consistent(run, 0) || Consistent(run, 1)
  }

  /** Storage in which neither slot holds a record, such as erased memory. */
  predicate Blank(m: Medium) {
    SlotRecord(m.visible, 0) == None && SlotRecord(m.visible, 1) == None && m.staged == m.visible
  }

  lemma BlankIsSafe(m: Medium)
    requires Blank(m)
    ensures Safe(Run(Stored(m, 0), [], 0))
  {
    hide SlotRecord;
    assert Consistent(Run(Stored(m, 0), [], 0), 1);
  }

  /** The next record goes to the slot that does not hold the newest one, with the next generation. */
  lemma TargetBelowTop(st: Stored, landed: seq<UserSettings>, top: nat)
    requires top < 2 && Holds(st.medium.visible, landed, top)
    ensures SaveTarget(st) == Target(1 - top, GenerationOf(|landed| + 1))
  {
    hide NewerGeneration;
    hide Successor;
    hide SlotRecord;
    if |landed| >= 2 {
      SuccessorIsNewer(GenerationOf(|landed| - 1));
    }
    FirstGeneration();
  }

  lemma FirstGeneration()
    ensures GenerationOf(1) == 1
  {
    assert GenerationOf(0) == 0;
  }

  /** A write that lands k bytes in the visible slot below the newest keeps what the run holds. */
  lemma TearKeeps(before: Image, after: Image, landed: seq<UserSettings>, top: nat, bytes: seq<byte>, k: nat)
    requires top < 2 && Holds(before, landed, top) && |bytes| == RECORD_SIZE && k <= RECORD_SIZE
    requires Landing(before, after, 1 - top, bytes, k) && TearRejected(SlotBytes(before, 1 - top), bytes, k)
    requires SlotBytes(after, 1 - top) != bytes
    ensures Holds(after, landed, top) && SlotBytes(after, top) == SlotBytes(before, top)
  {
    hide Decoded;
    hide SlotBytes;
    hide Newest;
    hide Previous;
  }

  lemma TwoApart(n: nat)
    requires n > 0
    ensures GenerationOf(n - 1) != GenerationOf(n + 1)
  {
    var g := GenerationOf(n - 1);
    assert GenerationOf(n + 1) == Successor(Successor(g));
    assert g + 1 + 1 != g;
  }

  /** The record about to be written is not in the slot already: its generation is two ahead. */
  lemma NotYetThere(image: Image, landed: seq<UserSettings>, top: nat, s: UserSettings)
    requires top < 2 && Holds(image, landed, top) && Valid(s)
    ensures SlotBytes(image, 1 - top) != Encoded(Record(s, GenerationOf(|landed| + 1)))
  {
    DecodeEncoded(Record(s, GenerationOf(|landed| + 1)));
    if |landed| >= 2 {
      TwoApart(|landed|);
    }
    hide Decoded;
    hide Encoded;
    hide SlotBytes;
    hide Valid;
    hide GenerationOf;
  }

  /** Once the record is in the slot, that slot is the newest and the other one the one before it. */
  lemma LandingMovesTop(before: Image, after: Image, landed: seq<UserSettings>, top: nat, s: UserSettings)
    requires top < 2 && Holds(before, landed, top) && Valid(s)
    requires SlotBytes(after, 1 - top) == Encoded(Record(s, GenerationOf(|landed| + 1)))
    requires SlotBytes(after, top) == SlotBytes(before, top)
    ensures Holds(after, landed + [s], 1 - top)
  {
    hide Decoded;
    hide Encoded;
    hide SlotBytes;
    hide Valid;
    hide GenerationOf;
    DecodeEncoded(Record(s, GenerationOf(|landed| + 1)));
    assert Newest(landed + [s]) == Some(Record(s, GenerationOf(|landed| + 1)));
    assert SlotRecord(after, top) == Newest(landed);
    assert Previous(landed + [s]) == Newest(landed);
  }

  // ---------- one honest save ----------

  /** The new record is visible with nothing else staged, or the slots still hold what they held. */
  predicate Outcome(before: Medium, after: Medium, landed: seq<UserSettings>, top: nat, s: UserSettings)
    requires top < 2
  {
    if SlotBytes(after.visible, 1 - top) == Encoded(Record(s, GenerationOf(|landed| + 1))) then
      SlotBytes(after.visible, top) == SlotBytes(before.visible, top) && after.staged == after.visible
    else
      Holds(after.visible, landed, top) && SlotBytes(after.staged, top) == SlotBytes(after.visible, top)
  }

  lemma WriteOutcome(m: Medium, landed: seq<UserSettings>, top: nat, s: UserSettings, answer: Answer)
    requires top < 2 && Valid(s) && Holds(m.visible, landed, top) && SlotBytes(m.staged, top) == SlotBytes(m.visible, top)
    requires HonestWrite(m, 1 - top, Encoded(Record(s, GenerationOf(|landed| + 1))), answer)
    ensures Outcome(m, answer.after, landed, top, s)
    ensures SlotBytes(answer.after.staged, top) == SlotBytes(m.visible, top)
    ensures answer.ok ==> SlotBytes(answer.after.staged, 1 - top) == Encoded(Record(s, GenerationOf(|landed| + 1)))
  {
    hide SlotBytes;
    hide Encoded;
    hide Holds;
    hide TearRejected;
    hide Valid;
    hide GenerationOf;
    var bytes := Encoded(Record(s, GenerationOf(|landed| + 1)));
    var k: nat, through: bool :| k <= RECORD_SIZE && WriteLands(m, 1 - top, bytes, answer, k, through);
    if through && SlotBytes(answer.after.visible, 1 - top) != bytes {
      TearKeeps(m.visible, answer.after.visible, landed, top, bytes, k);
    }
    NotYetThere(m.visible, landed, top, s);
    assert bytes[..RECORD_SIZE] + SlotBytes(m.staged, 1 - top)[RECORD_SIZE..] == bytes;
    assert bytes[..RECORD_SIZE] + SlotBytes(m.visible, 1 - top)[RECORD_SIZE..] == bytes;
  }

  lemma CommitOutcome(m: Medium, written: Medium, landed: seq<UserSettings>, top: nat, s: UserSettings, answer: Answer)
    requires top < 2 && Outcome(m, written, landed, top, s) && HonestCommit(written, answer)
    requires SlotBytes(written.staged, top) == SlotBytes(m.visible, top)
    requires SlotBytes(written.staged, 1 - top) == Encoded(Record(s, GenerationOf(|landed| + 1)))
    ensures Outcome(m, answer.after, landed, top, s)
  {
    hide SlotBytes;
    hide Encoded;
    hide Holds;
    hide GenerationOf;
  }

  lemma SaveOutcome(b: Backend, st: Stored, s: UserSettings, landed: seq<UserSettings>, top: nat)
    requires top < 2 && SaveAdmitted(b, s) && SaveReads(b, st) && HonestSave(b, st, s)
    requires Holds(st.medium.visible, landed, top) && SlotBytes(st.medium.staged, top) == SlotBytes(st.medium.visible, top)
    ensures Outcome(st.medium, AfterSave(b, st, s).medium, landed, top, s)
  {
    hide SlotBytes;
    hide Encoded;
    hide Holds;
    hide GenerationOf;
    hide SaveTarget;
    hide Outcome;
    hide HonestWrite;
    hide HonestCommit;
    HonestSaveLands(b, st, s);
    hide HonestSave;
    TargetBelowTop(st, landed, top);
    WriteOutcome(st.medium, landed, top, s, b.script(st.calls + 2));
    if b.script(st.calls + 2).ok {
      CommitOutcome(st.medium, b.script(st.calls + 2).after, landed, top, s, b.script(st.calls + 3));
    }
  }

  lemma SaveKeepsSafe(b: Backend, run: Run, s: UserSettings)
    requires Safe(run) && HonestSave(b, run.stored, s)
    ensures Safe(Advance(b, run, SaveEvent(s)))
  {
    hide SlotBytes;
    hide Encoded;
    hide Holds;
    hide GenerationOf;
    hide SaveTarget;
    hide HonestSave;
    hide Valid;
    var top := if Consistent(run, 0) then 0 else 1;
    var st, next := run.stored, Advance(b, run, SaveEvent(s));
    if SaveAdmitted(b, s) && SaveReads(b, st) {
      TargetBelowTop(st, run.landed, top);
      SaveOutcome(b, st, s, run.landed, top);
      if Landed(b, st, s) {
        LandingMovesTop(st.medium.visible, next.stored.medium.visible, run.landed, top, s);
        assert Consistent(next, 1 - top);
      } else {
        if Saved(b, st, s) {
          SuccessIsStored(b, st, s);
        }
        assert Consistent(next, top);
      }
    } else {
      assert Consistent(next, top);
    }
  }

  lemma AdvanceKeepsSafe(b: Backend, run: Run, event: Event)
    requires Safe(run) && (event.SaveEvent? ==> HonestSave(b, run.stored, event.settings))
    ensures Safe(Advance(b, run, event))
  {
    hide HonestSave;
    hide Holds;
    hide SlotBytes;
    if event.SaveEvent? {
      SaveKeepsSafe(b, run, event.settings);
    } else {
      var top := if Consistent(run, 0) then 0 else 1;
      assert Consistent(Advance(b, run, event), top);
    }
  }

  /** Every run of an honest storage stays safe, through every tear, refusal and power cut. */
  lemma {:induction false} StaysSafe(b: Backend, start: Run, events: seq<Event>)
    requires Safe(start) && HonestRun(b, start, events)
    ensures Safe(Execute(b, start, events))
  {
    hide HonestSave;
    hide Safe;
    hide Advance;
    if events != [] {
      var front := events[..|events| - 1];
      assert forall i :: 0 <= i < |front| ==> events[..i] == front[..i];
      StaysSafe(b, start, front);
      AdvanceKeepsSafe(b, Execute(b, start, front), events[|events| - 1]);
    }
  }

  // ---------- what safety means to a reader ----------

  /**
   * A load that can read both slots returns the settings of the last record
   * that ever landed completely, and fails only when none did.
   */
  lemma LoadsLastLanded(b: Backend, run: Run)
    requires Safe(run) && b.capacity >= REQUIRED_CAPACITY
    requires b.script(run.stored.calls).ok && b.script(run.stored.calls + 1).ok
    ensures Load(b, run.stored) ==
            if run.landed == [] then None else Some(run.landed[|run.landed| - 1])
  {
    hide NewerGeneration;
    hide SlotRecord;
    hide SlotBytes;
    hide Valid;
    hide Successor;
    var top := if Consistent(run, 0) then 0 else 1;
    if |run.landed| >= 2 {
      SuccessorIsNewer(GenerationOf(|run.landed| - 1));
    }
  }

  /** Two valid slots hold the last two landed records, and their generations are consecutive. */
  lemma ValidSlotsAreConsecutive(run: Run)
    requires Safe(run)
    requires SlotRecord(run.stored.medium.visible, 0).Some? && SlotRecord(run.stored.medium.visible, 1).Some?
    ensures |run.landed| >= 2
    ensures exists top: nat, g ::
              && top < 2
              && SlotRecord(run.stored.medium.visible, top) == Some(Record(run.landed[|run.landed| - 1], Successor(g)))
              && SlotRecord(run.stored.medium.visible, 1 - top) == Some(Record(run.landed[|run.landed| - 2], g))
  {
    hide SlotRecord;
    hide SlotBytes;
    hide Successor;
    hide Valid;
    var top := if Consistent(run, 0) then 0 else 1;
    var g := GenerationOf(|run.landed| - 1);
    assert SlotRecord(run.stored.medium.visible, top) == Some(Record(run.landed[|run.landed| - 1], Successor(g)));
  }

  /**
   * If the newest slot is then destroyed (by any burst of up to 32 bits, for
   * one), a load returns the record landed before it, or nothing when the other
   * slot holds no record.
   */
  lemma CorruptedNewestFallsBack(b: Backend, run: Run, top: nat, damaged: Stored)
    requires top < 2 && Consistent(run, top) && b.capacity >= REQUIRED_CAPACITY
    requires b.script(damaged.calls).ok && b.script(damaged.calls + 1).ok
    requires SlotRecord(damaged.medium.visible, top) == None
    requires SlotBytes(damaged.medium.visible, 1 - top) == SlotBytes(run.stored.medium.visible, 1 - top)
    ensures Load(b, damaged) ==
            if SlotRecord(run.stored.medium.visible, 1 - top) == None then None
            else Some(run.landed[|run.landed| - 2])
  {
    hide NewerGeneration;
    hide Decoded;
    hide SlotBytes;
    hide Valid;
    hide GenerationOf;
  }

  // ---------- the log only grows, and a successful save is in it ----------

  lemma {:induction false} LandedGrows(b: Backend, run: Run, events: seq<Event>)
    ensures run.landed <= Execute(b, run, events).landed
  {
    hide Landed;
    hide Saved;
    hide AfterSave;
    if events != [] {
      LandedGrows(b, run, events[..|events| - 1]);
    }
  }

  /**
   * After a save has reported success, every later load that can read both
   * slots succeeds. It returns those settings, or those of a record that landed
   * completely since.
   */
  lemma NeverOlderThanSaved(b: Backend, run: Run, s: UserSettings, after: seq<Event>, end: Run)
    requires Safe(run) && HonestRun(b, run, [SaveEvent(s)] + after) && Saved(b, run.stored, s)
    requires end == Execute(b, run, [SaveEvent(s)] + after)
    requires b.script(end.stored.calls).ok && b.script(end.stored.calls + 1).ok
    ensures |end.landed| > |run.landed| && end.landed[|run.landed|] == s
    ensures Load(b, end.stored) == Some(end.landed[|end.landed| - 1])
  {
    hide HonestRun;
    hide Safe;
    hide Load;
    hide SaveTarget;
    hide SlotBytes;
    hide Encoded;
    hide Valid;
    hide SlotRecord;
    SuccessIsStored(b, run.stored, s);
    assert Landed(b, run.stored, s);
    hide Saved;
    hide Landed;
    hide AfterSave;
    ExecuteSplit(b, run, [SaveEvent(s)], after);
    OneEvent(b, run, SaveEvent(s));
    LandedGrows(b, Advance(b, run, SaveEvent(s)), after);
    StaysSafe(b, run, [SaveEvent(s)] + after);
    LoadsLastLanded(b, end);
  }

  lemma OneEvent(b: Backend, run: Run, event: Event)
    ensures Execute(b, run, [event]) == Advance(b, run, event)
  {
    hide Advance;
    assert [event][..0] == [];
  }

  lemma {:induction false} ExecuteSplit(b: Backend, run: Run, first: seq<Event>, second: seq<Event>)
    ensures Execute(b, run, first + second) == Execute(b, Execute(b, run, first), second)
  {
    hide Advance;
    if second == [] {
      assert first + second == first;
    } else {
      assert (first + second)[..|first + second| - 1] == first + second[..|second| - 1];
      ExecuteSplit(b, run, first, second[..|second| - 1]);
    }
  }

  // ---------- which tears the checksum rejects ----------

  /**
   * A record torn over a valid one in its first twelve bytes or its last four
   * is always rejected, and so is one torn over any slot in its last four, or
   * over erased memory in its first seven.
   */
  lemma TearsRejected(before: seq<byte>, r: Record, k: nat)
    requires |before| == RECORD_SIZE && k <= RECORD_SIZE && Valid(r.settings)
    requires k >= CRC_OFFSET || (k <= 12 && Decoded(before).Some?) || (k <= 7 && before[7] != 0)
    ensures TearRejected(before, Encoded(r), k)
  {
    hide Valid;
    var bytes := Encoded(r);
    var torn := bytes[..k] + before[k..];
    DecodeEncoded(r);
    if k >= CRC_OFFSET {
      EndTear(before, bytes, k);
    } else if k <= 12 && Decoded(before).Some? {
      HeadTear(before, bytes, k);
    } else {
      ErasedTear(torn);
    }
  }

  lemma EndTear(before: seq<byte>, bytes: seq<byte>, k: nat)
    requires |before| == |bytes| == RECORD_SIZE && CRC_OFFSET <= k <= RECORD_SIZE && Decoded(bytes).Some?
    ensures TearRejected(before, bytes, k)
  {
    hide Decoded;
    hide BurstApart;
    var torn := bytes[..k] + before[k..];
    SpliceIsBurst(bytes[..k], bytes[k..], before[k..], []);
    assert bytes[..k] + bytes[k..] + [] == bytes && bytes[..k] + before[k..] + [] == torn;
    if torn != bytes {
      BurstNeverDecodes(bytes, torn);
    }
  }

  /** Valid records agree in their first eight bytes, so an early tear only changes the generation. */
  lemma HeadTear(before: seq<byte>, bytes: seq<byte>, k: nat)
    requires |before| == |bytes| == RECORD_SIZE && k <= 12 && Decoded(before).Some? && Decoded(bytes).Some?
    ensures TearRejected(before, bytes, k)
  {
    hide Decoded;
    hide BurstApart;
    SamePreamble(before, bytes);
    var torn := bytes[..k] + before[k..];
    EarlyTear(before, bytes, torn, k);
    SpliceIsBurst(before[..8], before[8..12], torn[8..12], before[12..]);
    if torn != before {
      BurstNeverDecodes(before, torn);
    }
  }

  lemma EarlyTear(before: seq<byte>, bytes: seq<byte>, torn: seq<byte>, k: nat)
    requires |before| == |bytes| == RECORD_SIZE && k <= 12 && torn == bytes[..k] + before[k..]
    requires before[..8] == bytes[..8]
    ensures before[..8] + before[8..12] + before[12..] == before
    ensures before[..8] + torn[8..12] + before[12..] == torn
  {
    assert forall i :: 0 <= i < 8 ==> before[i] == before[..8][i] == bytes[..8][i] == bytes[i];
    assert torn[..8] == before[..8];
    assert torn[12..] == before[12..];
  }

  lemma SamePreamble(a: seq<byte>, b: seq<byte>)
    requires |a| == |b| == RECORD_SIZE && Decoded(a).Some? && Decoded(b).Some?
    ensures a[..8] == b[..8]
  {
    hide PreambleAccepted;
    PreambleExactly(a);
    PreambleExactly(b);
  }

  lemma ErasedTear(torn: seq<byte>)
    requires |torn| == RECORD_SIZE && torn[7] != 0
    ensures Decoded(torn) == None
  {
    hide PreambleAccepted;
    PreambleExactly(torn);
    assert torn[..8][7] == torn[7] && Preamble()[7] == 0;
  }
}

/** The ring of the last diagnostic records, and what a controller run leaves in it. */
module DiagnosticJournal {
  import opened Clock32
  import opened ControllerSpec
  import Runs = ControllerRuns
  import opened Options
  import opened SafetyPolicy
  import Spsc = SpscQueue
  import opened Vehicle

  const MAXIMUM_RECORDS: nat := 32

  datatype RecordType =
    | CommandReceived | StateTransition | RequestRejected | FaultEntered | InfrastructureFailed | SafingFailed

  datatype Reason = NoReason | RemoteStartDisabled | ProfileNotReady | ByPolicy | InvalidState | UnsafeReset

  datatype DiagnosticRecord = DiagnosticRecord(
    sequence: u32, timestampMs: u32, safetyReasons: set<SafetyReason>, kind: RecordType, trigger: EventType,
    previousState: ControllerState, state: ControllerState, fault: FaultCode, reason: Reason)

  const BLANK := DiagnosticRecord(0, 0, {}, CommandReceived, VehicleStateUpdated, Idle, Idle, NoFault, NoReason)

  // ---------- what an event leaves behind ----------

  predicate IsCommand(kind: EventType) {
    kind == RemoteStartRequested || kind == RemoteStopRequested || kind == DriverTakeoverConfirmed || kind == ResetRequested
  }

  function RejectionReason(d: Decision): Reason {
    if d.Contains(NotifyRemoteStartDisabled) then RemoteStartDisabled
    else if d.Contains(NotifyProfileRejected) then ProfileNotReady
    else if d.Contains(NotifyStartRejected) then ByPolicy
    else if d.Contains(NotifyResetRejected) then UnsafeReset
    else if d.Contains(NotifyRequestIgnored) then InvalidState
    else NoReason
  }

  function MakeRecord(kind: RecordType, trigger: EventType, d: Decision, reason: Reason, timestampMs: u32): DiagnosticRecord {
    DiagnosticRecord(0, timestampMs, d.safety.reasons, kind, trigger, d.previousState, d.state, d.fault, reason)
  }

  function CommandRecords(trigger: EventType, d: Decision, timestampMs: u32): seq<DiagnosticRecord> {
    if IsCommand(trigger)
    then [MakeRecord(CommandReceived, trigger, d, NoReason, timestampMs).(state := d.previousState, fault := d.previousFault)]
    else []
  }

  function TransitionRecords(trigger: EventType, d: Decision, timestampMs: u32): seq<DiagnosticRecord> {
    if d.previousState != d.state then [MakeRecord(StateTransition, trigger, d, NoReason, timestampMs)] else []
  }

  function RejectionRecords(trigger: EventType, d: Decision, timestampMs: u32): seq<DiagnosticRecord> {
    if RejectionReason(d) != NoReason then [MakeRecord(RequestRejected, trigger, d, RejectionReason(d), timestampMs)] else []
  }

  function FaultRecords(trigger: EventType, d: Decision, timestampMs: u32): seq<DiagnosticRecord> {
    if d.state == Fault && d.previousState != Fault
    then [MakeRecord(FaultEntered, trigger, d, if d.fault == SafetyInterlock then ByPolicy else NoReason, timestampMs)]
    else []
  }

  function RecordsOf(trigger: EventType, d: Decision, timestampMs: u32): seq<DiagnosticRecord> {
    CommandRecords(trigger, d, timestampMs) + TransitionRecords(trigger, d, timestampMs)
    + RejectionRecords(trigger, d, timestampMs) + FaultRecords(trigger, d, timestampMs)
  }

  /** The record of a failed action, or of a failed attempt to make safe. */
  function FailureRecord(kind: RecordType, trigger: EventType, state: ControllerState, fault: FaultCode,
                         timestampMs: u32): DiagnosticRecord
  {
    DiagnosticRecord(0, timestampMs, {}, kind, trigger, state, state, fault, NoReason)
  }

  // ---------- the log the ring stands for ----------

  /** A log with records appended and numbered from one. */
  function Appended(log: seq<DiagnosticRecord>, records: seq<DiagnosticRecord>): seq<DiagnosticRecord>
    decreases |records|
  {
    if records == [] then log
    else Appended(log + [records[0].(sequence := Wrap(|log| + 1))], records[1..])
  }

  predicate Numbered(log: seq<DiagnosticRecord>) {
    forall i :: 0 <= i < |log| ==> log[i].sequence == Wrap(i + 1)
  }

  function Kept(n: nat): nat {
    if n < MAXIMUM_RECORDS then n else MAXIMUM_RECORDS
  }

  function Overwritten(n: nat): u32 {
    if n <= MAXIMUM_RECORDS then 0 else if n - MAXIMUM_RECORDS < TWO32 - 1 then n - MAXIMUM_RECORDS else TWO32 - 1
  }

  /** Where the k-th record of the log is stored. */
  function Slot(k: nat): (slot: nat)
    ensures slot < MAXIMUM_RECORDS
  {
    k % MAXIMUM_RECORDS
  }

  lemma NextSlot(k: nat)
    ensures Slot(k + 1) == (Slot(k) + 1) % MAXIMUM_RECORDS && Slot(k + MAXIMUM_RECORDS) == Slot(k)
  {
    SlotOffset(k, 1);
    SameRemainder(k + 32, k % 32, k / 32 + 1);
  }

  lemma SlotOffset(k: nat, i: nat)
    requires i < MAXIMUM_RECORDS
    ensures Slot(k + i) == (Slot(k) + i) % MAXIMUM_RECORDS
  {
    SameRemainder(k + i, k % 32 + i, k / 32);
  }

  lemma SameRemainder(x: nat, y: nat, q: nat)
    requires x == 32 * q + y
    ensures x % 32 == y % 32
  {
  }

  /** The last 31 records and a new one use different slots. */
  lemma NewSlot(n: nat)
    ensures forall k: nat :: n - MAXIMUM_RECORDS < k < n ==> Slot(k) != Slot(n)
  {
    forall k: nat | n - MAXIMUM_RECORDS < k < n
      ensures Slot(k) != Slot(n)
    {
      Spsc.SlotsDiffer(k, n, MAXIMUM_RECORDS);
    }
  }

  /** How the indices and counters of the ring move when one more record is appended. */
  lemma NextIndices(n: nat)
    ensures Kept(n) <= n && Kept(n + 1) <= n + 1
    ensures Kept(n + 1) == if Kept(n) < MAXIMUM_RECORDS then Kept(n) + 1 else Kept(n)
    ensures Overwritten(n + 1) == if Kept(n) < MAXIMUM_RECORDS || Overwritten(n) == TWO32 - 1 then Overwritten(n) else Overwritten(n) + 1
    ensures Slot(n) == if Kept(n) < MAXIMUM_RECORDS then (Slot(n - Kept(n)) + Kept(n)) % MAXIMUM_RECORDS else Slot(n - Kept(n))
    ensures Slot(n + 1 - Kept(n + 1))
            == if Kept(n) < MAXIMUM_RECORDS then Slot(n - Kept(n)) else (Slot(n - Kept(n)) + 1) % MAXIMUM_RECORDS
  {
    if n >= MAXIMUM_RECORDS {
      NextSlot(n - MAXIMUM_RECORDS);
    }
  }

  lemma NextNumber(n: nat)
    ensures Wrap(Wrap(n) + 1) == Wrap(n + 1)
  {
  }

  /** The i-th of the last records of a log. */
  function ReadBack(log: seq<DiagnosticRecord>, i: nat): Option<DiagnosticRecord> {
    if i >= Kept(|log|) then None else Some(log[|log| - Kept(|log|) + i])
  }

  /** The last records of the log lie in their slots. */
  ghost predicate Holds(ring: seq<DiagnosticRecord>, log: seq<DiagnosticRecord>, size: nat)
    requires |ring| == MAXIMUM_RECORDS && size <= |log|
  {
    forall k: nat :: |log| - size <= k < |log| ==> ring[Slot(k)] == log[k]
  }

  lemma RingGrows(ring: seq<DiagnosticRecord>, log: seq<DiagnosticRecord>, size: nat, record: DiagnosticRecord)
    requires |ring| == MAXIMUM_RECORDS && size == Kept(|log|) && Holds(ring, log, size)
    ensures Holds(ring[Slot(|log|) := record], log + [record], Kept(|log| + 1))
  {
    NewSlot(|log|);
    hide Slot;
  }

  lemma LogGrows(log: seq<DiagnosticRecord>, record: DiagnosticRecord)
    requires Numbered(log)
    ensures Numbered(log + [record.(sequence := Wrap(|log| + 1))])
  {
    hide Wrap;
  }

  /** The ring with its indices and counters stands for the last records of the log. */
  ghost predicate Stands(ring: seq<DiagnosticRecord>, log: seq<DiagnosticRecord>, size: nat, oldest: nat, overwritten: u32, next: u32) {
    && |ring| == MAXIMUM_RECORDS
    && size == Kept(|log|)
    && oldest == Slot(|log| - size)
    && next == Wrap(|log| + 1)
    && overwritten == Overwritten(|log|)
    && Numbered(log)
    && Holds(ring, log, size)
  }

  /** How the ring, its indices and its counters move when a record is appended to the log. */
  lemma RingStep(ring: seq<DiagnosticRecord>, log: seq<DiagnosticRecord>, size: nat, oldest: nat, overwritten: u32, next: u32,
                 record: DiagnosticRecord)
    requires Stands(ring, log, size, oldest, overwritten, next)
    ensures var numbered, full := record.(sequence := next), size == MAXIMUM_RECORDS;
            && size <= MAXIMUM_RECORDS && Appended(log, [record]) == log + [numbered]
            && Slot(|log|) == (if full then oldest else (oldest + size) % MAXIMUM_RECORDS)
            && Stands(ring[Slot(|log|) := numbered], log + [numbered],
                      if full then size else size + 1,
                      if full then (oldest + 1) % MAXIMUM_RECORDS else oldest,
                      if full && overwritten < TWO32 - 1 then overwritten + 1 else overwritten,
                      Wrap(next + 1))
  {
    NextNumber(|log| + 1);
    NextIndices(|log|);
    AppendedOne(log, record);
    LogGrows(log, record);
    RingGrows(ring, log, size, record.(sequence := next));
    assert Kept(|log|) <= MAXIMUM_RECORDS;
    hide Numbered;
    hide Holds;
    hide Slot;
    hide Kept;
    hide Overwritten;
    hide Wrap;
    hide Appended;
  }

  class DiagnosticJournal {
    const records: array<DiagnosticRecord>
    var oldestIndex: nat
    var size: nat
    var nextSequence: u32
    var overwrittenCount: u32
    ghost var log: seq<DiagnosticRecord>

    constructor ()
      ensures Valid() && fresh(records) && log == []
    {
      records := new DiagnosticRecord[MAXIMUM_RECORDS](_ => BLANK);
      oldestIndex, size, nextSequence, overwrittenCount := 0, 0, 1, 0;
      log := [];
    }

    /** The ring holds the last records of the log, oldest first from oldestIndex. */
    ghost predicate Valid()
      reads this, records
    {
      Stands(records[..], log, size, oldestIndex, overwrittenCount, nextSequence)
    }

    method Append(record: DiagnosticRecord)
      requires Valid()
      modifies this, records
      ensures Valid() && log == Appended(old(log), [record])
    {
      ghost var n := |log|;
      RingStep(records[..], log, size, oldestIndex, overwrittenCount, nextSequence, record);
      hide *;
      var numbered := record.(sequence := nextSequence);
      nextSequence := Wrap(nextSequence + 1);
      var storageIndex := 0;
      if size < MAXIMUM_RECORDS {
        storageIndex := (oldestIndex + size) % MAXIMUM_RECORDS;
        size := size + 1;
      } else {
        storageIndex := oldestIndex;
        oldestIndex := (oldestIndex + 1) % MAXIMUM_RECORDS;
        if overwrittenCount < TWO32 - 1 {
          overwrittenCount := overwrittenCount + 1;
        }
      }
      records[storageIndex] := numbered;
      assert records[..] == old(records[..])[Slot(n) := numbered];
      log := log + [numbered];
    }

    method Read(chronologicalIndex: nat) returns (record: Option<DiagnosticRecord>)
      requires Valid()
      ensures record == ReadBack(log, chronologicalIndex)
    {
      if chronologicalIndex >= size {
        return None;
      }
      var storageIndex := (oldestIndex + chronologicalIndex) % MAXIMUM_RECORDS;
      SlotOffset(|log| - size, chronologicalIndex);
      return Some(records[storageIndex]);
    }

    method Clear()
      requires Valid()
      modifies this, records
      ensures Valid() && log == []
    {
      for i := 0 to records.Length {
        records[i] := BLANK;
      }
      oldestIndex, size, nextSequence, overwrittenCount := 0, 0, 1, 0;
      log := [];
    }

    method Observe(event: Event, d: Decision, timestampMs: u32)
      requires Valid()
      modifies this, records
      ensures Valid() && log == Appended(old(log), RecordsOf(event.kind, d, timestampMs))
    {
      hide Valid;
      ghost var start := log;
      if IsCommand(event.kind) {
        Append(MakeRecord(CommandReceived, event.kind, d, NoReason, timestampMs).(state := d.previousState, fault := d.previousFault));
      }
      AppendedNothing(start);
      assert log == Appended(start, CommandRecords(event.kind, d, timestampMs));
      ghost var afterCommand := log;
      if d.previousState != d.state {
        Append(MakeRecord(StateTransition, event.kind, d, NoReason, timestampMs));
      }
      AppendedNothing(afterCommand);
      AppendedTwice(start, CommandRecords(event.kind, d, timestampMs), TransitionRecords(event.kind, d, timestampMs));
      ghost var afterTransition := log;
      var rejected := RejectionReason(d);
      if rejected != NoReason {
        Append(MakeRecord(RequestRejected, event.kind, d, rejected, timestampMs));
      }
      AppendedNothing(afterTransition);
      AppendedTwice(start, CommandRecords(event.kind, d, timestampMs) + TransitionRecords(event.kind, d, timestampMs),
                    RejectionRecords(event.kind, d, timestampMs));
      ghost var afterRejection := log;
      if d.state == Fault && d.previousState != Fault {
        Append(MakeRecord(FaultEntered, event.kind, d, if d.fault == SafetyInterlock then ByPolicy else NoReason, timestampMs));
      }
      AppendedNothing(afterRejection);
      AppendedTwice(start,
                    CommandRecords(event.kind, d, timestampMs) + TransitionRecords(event.kind, d, timestampMs)
                    + RejectionRecords(event.kind, d, timestampMs),
                    FaultRecords(event.kind, d, timestampMs));
    }

    method RecordInfrastructureFailure(trigger: EventType, state: ControllerState, fault: FaultCode, timestampMs: u32)
      requires Valid()
      modifies this, records
      ensures Valid()
      ensures log == Appended(old(log), [FailureRecord(InfrastructureFailed, trigger, state, fault, timestampMs)])
    {
      Append(FailureRecord(InfrastructureFailed, trigger, state, fault, timestampMs));
    }

    method RecordSafingFailure(state: ControllerState, fault: FaultCode, timestampMs: u32)
      requires Valid()
      modifies this, records
      ensures Valid()
      ensures log == Appended(old(log), [FailureRecord(SafingFailed, InfrastructureFailure, state, fault, timestampMs)])
    {
      Append(FailureRecord(SafingFailed, InfrastructureFailure, state, fault, timestampMs));
    }
  }

  lemma AppendedOne(log: seq<DiagnosticRecord>, record: DiagnosticRecord)
    ensures Appended(log, [record]) == log + [record.(sequence := Wrap(|log| + 1))]
  {
    assert [record][1..] == [];
  }

  lemma AppendedNothing(log: seq<DiagnosticRecord>)
    ensures Appended(log, []) == log
  {
  }

  lemma {:induction false} AppendedTwice(log: seq<DiagnosticRecord>, a: seq<DiagnosticRecord>, b: seq<DiagnosticRecord>)
    ensures Appended(log, a + b) == Appended(Appended(log, a), b)
    decreases |a|
  {
    if a == [] {
      assert a + b == b;
    } else {
      assert (a + b)[1..] == a[1..] + b;
      AppendedTwice(log + [a[0].(sequence := Wrap(|log| + 1))], a[1..], b);
    }
  }

  // ---------- reading back ----------

  /** What is read back is the last 32 of the log at most, oldest first, with consecutive sequence numbers. */
  lemma ReadsAreConsecutive(log: seq<DiagnosticRecord>, i: nat)
    requires Numbered(log) && i + 1 < Kept(|log|)
    ensures ReadBack(log, i).Some? && ReadBack(log, i + 1).Some?
    ensures ReadBack(log, i + 1).value.sequence == Wrap(ReadBack(log, i).value.sequence + 1)
    ensures ReadBack(log, Kept(|log|) - 1) == Some(log[|log| - 1])
  {
  }

  // ---------- the journal of a controller run ----------

  /** The log after the first n stimuli of a run, each observed at its time. */
  function JournalOf(config: ControllerConfig, run: seq<Runs.Stimulus>, times: seq<u32>, n: nat): seq<DiagnosticRecord>
    requires n <= |run| == |times|
  {
    if n == 0 then []
    else Appended(JournalOf(config, run, times, n - 1),
                  RecordsOf(run[n - 1].event.kind, Runs.DecisionAt(config, run, n - 1), times[n - 1]))
  }

  /** The state the transitions of a log lead to. */
  function ReplayedState(log: seq<DiagnosticRecord>): ControllerState {
    if log == [] then Idle
    else
      var last := log[|log| - 1];
      if last.kind == StateTransition then last.state else ReplayedState(log[..|log| - 1])
  }

  /** Each transition starts in the state the one before it led to. */
  predicate Chained(log: seq<DiagnosticRecord>) {
    forall i :: 0 <= i < |log| && log[i].kind == StateTransition ==> log[i].previousState == ReplayedState(log[..i])
  }

  lemma ChainedGrows(log: seq<DiagnosticRecord>, r: DiagnosticRecord)
    requires Chained(log) && (r.kind == StateTransition ==> r.previousState == ReplayedState(log))
    ensures Chained(log + [r])
    ensures ReplayedState(log + [r]) == if r.kind == StateTransition then r.state else ReplayedState(log)
  {
    var more := log + [r];
    assert more[..|log|] == log;
    forall i | 0 <= i < |more| && more[i].kind == StateTransition
      ensures more[i].previousState == ReplayedState(more[..i])
    {
      if i < |log| {
        assert more[..i] == log[..i] && more[i] == log[i];
      }
    }
  }

  /** Appending at most one record of a kind. */
  lemma AppendOne(log: seq<DiagnosticRecord>, part: seq<DiagnosticRecord>)
    requires |part| <= 1 && Chained(log)
    requires part != [] && part[0].kind == StateTransition ==> part[0].previousState == ReplayedState(log)
    ensures Chained(Appended(log, part))
    ensures ReplayedState(Appended(log, part))
            == if part != [] && part[0].kind == StateTransition then part[0].state else ReplayedState(log)
  {
    hide Chained;
    if part != [] {
      var numbered := part[0].(sequence := Wrap(|log| + 1));
      ChainedGrows(log, numbered);
      assert part[1..] == [];
      AppendedNothing(log + [numbered]);
    }
  }

  lemma RecordsChain(log: seq<DiagnosticRecord>, trigger: EventType, d: Decision, timestampMs: u32)
    requires Chained(log) && ReplayedState(log) == d.previousState
    ensures Chained(Appended(log, RecordsOf(trigger, d, timestampMs)))
    ensures ReplayedState(Appended(log, RecordsOf(trigger, d, timestampMs))) == d.state
  {
    hide Chained;
    hide ReplayedState;
    hide Appended;
    hide RejectionReason;
    var a, b := CommandRecords(trigger, d, timestampMs), TransitionRecords(trigger, d, timestampMs);
    var c, e := RejectionRecords(trigger, d, timestampMs), FaultRecords(trigger, d, timestampMs);
    AppendOne(log, a);
    AppendedTwice(log, a, b);
    AppendOne(Appended(log, a), b);
    AppendedTwice(log, a + b, c);
    AppendOne(Appended(log, a + b), c);
    AppendedTwice(log, a + b + c, e);
    AppendOne(Appended(log, a + b + c), e);
  }

  /** At every moment of a run the journal's transitions lead, step by step, from idle to the controller's state. */
  lemma {:induction false} JournalReconstructsState(config: ControllerConfig, run: seq<Runs.Stimulus>, times: seq<u32>, n: nat)
    requires n <= |run| == |times|
    ensures Chained(JournalOf(config, run, times, n))
    ensures ReplayedState(JournalOf(config, run, times, n)) == Runs.StateAt(config, run, n)
  {
    if n == 0 {
    } else {
      JournalReconstructsState(config, run, times, n - 1);
      hide Chained;
      hide ReplayedState;
      hide Appended;
      hide RecordsOf;
      Runs.StepOf(config, run, n - 1);
      RecordsChain(JournalOf(config, run, times, n - 1), run[n - 1].event.kind, Runs.DecisionAt(config, run, n - 1), times[n - 1]);
    }
  }

  /** The reason a refusing reaction is recorded with. */
  function ReasonOf(r: Reaction): Reason {
    match r
    case RefuseDisabled => RemoteStartDisabled
    case RefuseProfile => ProfileNotReady
    case RefuseStart => ByPolicy
    case RefuseReset => UnsafeReset
    case Ignore => InvalidState
    case SecureAndIgnore => InvalidState
    case _ => NoReason
  }

  /** The notification that names a refusal. */
  function RefusalNotice(reason: Reason): ActionType {
    match reason
    case RemoteStartDisabled => NotifyRemoteStartDisabled
    case ProfileNotReady => NotifyProfileRejected
    case ByPolicy => NotifyStartRejected
    case UnsafeReset => NotifyResetRejected
    case _ => NotifyRequestIgnored
  }

  predicate IsRefusal(kind: ActionType) {
    kind == NotifyRemoteStartDisabled || kind == NotifyProfileRejected || kind == NotifyStartRejected
    || kind == NotifyResetRejected || kind == NotifyRequestIgnored
  }

  lemma RefusalsByReaction(config: ControllerConfig, r: Reaction, i: nat)
    requires i < |Actions(config, r)| && IsRefusal(Actions(config, r)[i].kind)
    ensures ReasonOf(r) != NoReason && Actions(config, r)[i].kind == RefusalNotice(ReasonOf(r))
  {
  }

  lemma RefusalIsAnnounced(config: ControllerConfig, r: Reaction)
    requires ReasonOf(r) != NoReason
    ensures var a := Actions(config, r); a != [] && a[|a| - 1].kind == RefusalNotice(ReasonOf(r))
  {
  }

  /** A refusal is journaled exactly when the controller refuses, with the reason it refuses for. */
  lemma RefusalsAreNamed(config: ControllerConfig, control: Control, event: Event, v: VehicleState)
    ensures RejectionReason(Handle(config, control, event, v)) == ReasonOf(React(config, control.state, event, v))
  {
    var r := React(config, control.state, event, v);
    var d := Handle(config, control, event, v);
    assert d.actions == Actions(config, r);
    hide React;
    hide Actions;
    hide Handle;
    forall i: nat | i < |d.actions| && IsRefusal(d.actions[i].kind)
      ensures ReasonOf(r) != NoReason && d.actions[i].kind == RefusalNotice(ReasonOf(r))
    {
      RefusalsByReaction(config, r, i);
    }
    if ReasonOf(r) != NoReason {
      RefusalIsAnnounced(config, r);
      assert d.Contains(RefusalNotice(ReasonOf(r)));
    }
  }

  // ---------- which faults are named ----------

  /** One of the records carries the fault code. */
  predicate Names(records: seq<DiagnosticRecord>, fault: FaultCode) {
    exists i :: 0 <= i < |records| && records[i].fault == fault
  }

  /** The fault code an infrastructure failure is stored with. */
  function CodeOf(event: Event): FaultCode {
    if event.fault == NoFault then InternalError else event.fault
  }

  /** A failure with another code reaches a controller already in fault. */
  predicate SecondFault(control: Control, event: Event) {
    control.state == Fault && event.kind == InfrastructureFailure && CodeOf(event) != control.fault
  }

  /** A decision stores a fault code that none of its records names exactly when it takes a second fault. */
  lemma UnnamedExactly(config: ControllerConfig, control: Control, event: Event, v: VehicleState, timestampMs: u32)
    ensures var d := Handle(config, control, event, v);
            (d.fault != control.fault && d.fault != NoFault && !Names(RecordsOf(event.kind, d, timestampMs), d.fault))
            <==> SecondFault(control, event)
  {
    var d, r := Handle(config, control, event, v), React(config, control.state, event, v);
    RefusalsAreNamed(config, control, event, v);
    hide RejectionReason;
    hide Actions;
    hide Assessed;
    if d.fault != control.fault && d.fault != NoFault {
      assert r.EnterFault?;
      if control.state != Fault {
        var records := RecordsOf(event.kind, d, timestampMs);
        assert records[|CommandRecords(event.kind, d, timestampMs)|] == MakeRecord(StateTransition, event.kind, d, NoReason, timestampMs);
      } else {
        FaultOnlyFromOutside(config, event, v);
      }
    }
  }

  /** In fault, only an infrastructure failure enters fault again. */
  lemma FaultOnlyFromOutside(config: ControllerConfig, event: Event, v: VehicleState)
    ensures React(config, Fault, event, v).EnterFault? <==> event.kind == InfrastructureFailure
  {
  }
}

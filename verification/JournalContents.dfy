/** What the journal of a controller run contains: which steps left which records, and nothing else. */
module JournalContents {
  import opened Clock32
  import opened ControllerSpec
  import opened DiagnosticJournal
  import Runs = ControllerRuns
  import opened Vehicle

  /** Why a decision that refuses says so. */
  predicate Announces(d: Decision, reason: Reason) {
    reason != NoReason && d.Contains(RefusalNotice(reason))
  }

  /** The record tells of this step: its cause and time, the state and the fault before or after, and why. */
  predicate Tells(trigger: EventType, d: Decision, timestampMs: u32, r: DiagnosticRecord) {
    && r.timestampMs == timestampMs && r.trigger == trigger
    && r.previousState == d.previousState && r.safetyReasons == d.safety.reasons
    && match r.kind
       case CommandReceived =>
         && trigger in {RemoteStartRequested, RemoteStopRequested, DriverTakeoverConfirmed, ResetRequested}
         && r.state == d.previousState && r.fault == d.previousFault && r.reason == NoReason
       case StateTransition =>
         d.state != d.previousState && r.state == d.state && r.fault == d.fault && r.reason == NoReason
       case RequestRejected =>
         Announces(d, r.reason) && r.state == d.state && r.fault == d.fault
       case FaultEntered =>
         && d.previousState != Fault && d.state == Fault && r.state == Fault && r.fault == d.fault
         && r.reason == if d.fault == SafetyInterlock then ByPolicy else NoReason
       case InfrastructureFailed | SafingFailed => false
  }

  function RankOf(kind: RecordType): nat {
    match kind
    case CommandReceived => 0
    case StateTransition => 1
    case RequestRejected => 2
    case FaultEntered => 3
    case InfrastructureFailed => 4
    case SafingFailed => 5
  }

  /** A decision of the controller announces one reason at most. */
  lemma OneReason(config: ControllerConfig, control: Control, event: Event, v: VehicleState, reason: Reason)
    ensures Announces(Handle(config, control, event, v), reason)
       <==> reason != NoReason && RejectionReason(Handle(config, control, event, v)) == reason
  {
    var r, d := React(config, control.state, event, v), Handle(config, control, event, v);
    RefusalsAreNamed(config, control, event, v);
    assert d.actions == Actions(config, r);
    hide React;
    hide Actions;
    hide Handle;
    hide RejectionReason;
    if Announces(d, reason) {
      var i :| 0 <= i < |d.actions| && d.actions[i].kind == RefusalNotice(reason);
      RefusalsByReaction(config, r, i);
    }
    if reason != NoReason && ReasonOf(r) == reason {
      RefusalIsAnnounced(config, r);
    }
  }

  /** A step leaves exactly the records that tell of it, each kind once, in the order of their kinds. */
  lemma RecordsExactly(config: ControllerConfig, control: Control, event: Event, v: VehicleState, timestampMs: u32)
    ensures var d := Handle(config, control, event, v);
            var records := RecordsOf(event.kind, d, timestampMs);
            && (forall r :: r in records <==> r.sequence == 0 && Tells(event.kind, d, timestampMs, r))
            && forall i, j :: 0 <= i < j < |records| ==> RankOf(records[i].kind) < RankOf(records[j].kind)
  {
    var d := Handle(config, control, event, v);
    forall reason
      ensures Announces(d, reason) <==> reason != NoReason && RejectionReason(d) == reason
    {
      OneReason(config, control, event, v, reason);
    }
    hide *;
    RecordsInOrder(event.kind, d, timestampMs);
    forall r
      ensures r in RecordsOf(event.kind, d, timestampMs) <==> r.sequence == 0 && Tells(event.kind, d, timestampMs, r)
    {
      RecordByKind(event.kind, d, timestampMs, r);
    }
  }

  lemma RecordsInOrder(trigger: EventType, d: Decision, timestampMs: u32)
    ensures var records := RecordsOf(trigger, d, timestampMs);
            forall i, j :: 0 <= i < j < |records| ==> RankOf(records[i].kind) < RankOf(records[j].kind)
  {
    hide RejectionReason;
    hide IsCommand;
  }

  lemma RecordByKind(trigger: EventType, d: Decision, timestampMs: u32, r: DiagnosticRecord)
    requires forall reason :: Announces(d, reason) <==> reason != NoReason && RejectionReason(d) == reason
    ensures r in RecordsOf(trigger, d, timestampMs) <==> r.sequence == 0 && Tells(trigger, d, timestampMs, r)
  {
    hide Announces;
    hide RejectionReason;
    assert Announces(d, r.reason) <==> r.reason != NoReason && RejectionReason(d) == r.reason;
  }

  // ---------- over a run ----------

  /** The record tells of one of the first n steps. */
  ghost predicate TellsOfStep(config: ControllerConfig, run: seq<Runs.Stimulus>, times: seq<u32>, n: nat, r: DiagnosticRecord)
    requires n <= |run| == |times|
  {
    exists k :: 0 <= k < n && Tells(run[k].event.kind, Runs.DecisionAt(config, run, k), times[k], r)
  }

  lemma {:induction false} AppendedIs(log: seq<DiagnosticRecord>, records: seq<DiagnosticRecord>)
    ensures |Appended(log, records)| == |log| + |records|
    ensures Appended(log, records)[..|log|] == log
    ensures forall i :: 0 <= i < |records| ==>
              Appended(log, records)[|log| + i] == records[i].(sequence := Wrap(|log| + i + 1))
    decreases |records|
  {
    hide Wrap;
    if records != [] {
      var first := records[0].(sequence := Wrap(|log| + 1));
      AppendedIs(log + [first], records[1..]);
      var all := Appended(log, records);
      assert all == Appended(log + [first], records[1..]);
      assert all[..|log| + 1][..|log|] == all[..|log|];
      forall i | 0 <= i < |records|
        ensures all[|log| + i] == records[i].(sequence := Wrap(|log| + i + 1))
      {
        if i == 0 {
          assert all[..|log| + 1][|log|] == first;
        } else {
          assert records[i] == records[1..][i - 1];
        }
      }
    }
  }

  /** Every record of the journal tells of a step of the run. */
  lemma {:induction false} JournalIsOfSteps(config: ControllerConfig, run: seq<Runs.Stimulus>, times: seq<u32>, n: nat, i: nat)
    requires n <= |run| == |times| && i < |JournalOf(config, run, times, n)|
    ensures TellsOfStep(config, run, times, n, JournalOf(config, run, times, n)[i])
  {
    hide *;
    if n == 0 {
      NothingJournaled(config, run, times);
    } else {
      LastStepTells(config, run, times, n, i);
      if i < |JournalOf(config, run, times, n - 1)| {
        JournalIsOfSteps(config, run, times, n - 1, i);
        StillTells(config, run, times, n, JournalOf(config, run, times, n)[i]);
      } else {
        TellsNow(config, run, times, n, JournalOf(config, run, times, n)[i]);
      }
    }
  }

  lemma {:induction false} StillTells(config: ControllerConfig, run: seq<Runs.Stimulus>, times: seq<u32>, n: nat, r: DiagnosticRecord)
    requires 0 < n <= |run| == |times| && TellsOfStep(config, run, times, n - 1, r)
    ensures TellsOfStep(config, run, times, n, r)
  {
    hide Tells;
    hide Runs.DecisionAt;
  }

  lemma {:induction false} TellsNow(config: ControllerConfig, run: seq<Runs.Stimulus>, times: seq<u32>, n: nat, r: DiagnosticRecord)
    requires 0 < n <= |run| == |times| && Tells(run[n - 1].event.kind, Runs.DecisionAt(config, run, n - 1), times[n - 1], r)
    ensures TellsOfStep(config, run, times, n, r)
  {
    hide Tells;
    hide Runs.DecisionAt;
  }

  lemma {:induction false} NothingJournaled(config: ControllerConfig, run: seq<Runs.Stimulus>, times: seq<u32>)
    requires |run| == |times|
    ensures JournalOf(config, run, times, 0) == []
  {
  }

  lemma {:induction false} LastStepTells(config: ControllerConfig, run: seq<Runs.Stimulus>, times: seq<u32>, n: nat, i: nat)
    requires 0 < n <= |run| == |times| && i < |JournalOf(config, run, times, n)|
    ensures var log, before := JournalOf(config, run, times, n), JournalOf(config, run, times, n - 1);
            if i < |before| then log[i] == before[i]
            else Tells(run[n - 1].event.kind, Runs.DecisionAt(config, run, n - 1), times[n - 1], log[i])
  {
    var before, d := JournalOf(config, run, times, n - 1), Runs.DecisionAt(config, run, n - 1);
    var records := RecordsOf(run[n - 1].event.kind, d, times[n - 1]);
    AppendedIs(before, records);
    hide RecordsOf;
    hide Tells;
    hide Wrap;
    hide Appended;
    if i < |before| {
      assert Appended(before, records)[..|before|][i] == before[i];
    } else {
      RecordsExactly(config, Runs.ControlAt(config, run, n - 1), run[n - 1].event, run[n - 1].vehicle, times[n - 1]);
      assert records[i - |before|] in records;
      TellsAnyNumber(run[n - 1].event.kind, d, times[n - 1], records[i - |before|], Wrap(i + 1));
    }
  }

  lemma TellsAnyNumber(trigger: EventType, d: Decision, timestampMs: u32, r: DiagnosticRecord, sequence: u32)
    ensures Tells(trigger, d, timestampMs, r.(sequence := sequence)) <==> Tells(trigger, d, timestampMs, r)
  {
  }

  /** The journal holds a record, whatever its number. */
  ghost predicate HasRecord(log: seq<DiagnosticRecord>, r: DiagnosticRecord) {
    exists i :: 0 <= i < |log| && log[i] == r.(sequence := Wrap(i + 1))
  }

  lemma StillJournaled(log: seq<DiagnosticRecord>, records: seq<DiagnosticRecord>, r: DiagnosticRecord)
    requires HasRecord(log, r)
    ensures HasRecord(Appended(log, records), r)
  {
    AppendedIs(log, records);
    hide Appended;
    hide Wrap;
    var i :| 0 <= i < |log| && log[i] == r.(sequence := Wrap(i + 1));
    assert Appended(log, records)[..|log|][i] == Appended(log, records)[i];
  }

  lemma NewlyJournaled(log: seq<DiagnosticRecord>, records: seq<DiagnosticRecord>, r: DiagnosticRecord)
    requires r.(sequence := 0) in records
    ensures HasRecord(Appended(log, records), r)
  {
    AppendedIs(log, records);
    hide Appended;
    hide Wrap;
    var i :| 0 <= i < |records| && records[i] == r.(sequence := 0);
    assert Appended(log, records)[|log| + i] == r.(sequence := Wrap(|log| + i + 1));
  }

  /** Every record that tells of a step of the run is in the journal. */
  lemma {:induction false} StepsAreJournaled(
    config: ControllerConfig, run: seq<Runs.Stimulus>, times: seq<u32>, n: nat, k: nat, r: DiagnosticRecord)
    requires k < n <= |run| == |times| && Tells(run[k].event.kind, Runs.DecisionAt(config, run, k), times[k], r)
    ensures HasRecord(JournalOf(config, run, times, n), r)
  {
    hide *;
    var before, d := JournalOf(config, run, times, n - 1), Runs.DecisionAt(config, run, n - 1);
    var records := RecordsOf(run[n - 1].event.kind, d, times[n - 1]);
    JournalStep(config, run, times, n);
    if k < n - 1 {
      StepsAreJournaled(config, run, times, n - 1, k, r);
      StillJournaled(before, records, r);
    } else {
      StepRecorded(config, run, times[k], k, r);
      NewlyJournaled(before, records, r);
    }
  }

  lemma {:induction false} JournalStep(config: ControllerConfig, run: seq<Runs.Stimulus>, times: seq<u32>, n: nat)
    requires 0 < n <= |run| == |times|
    ensures JournalOf(config, run, times, n)
            == Appended(JournalOf(config, run, times, n - 1),
                        RecordsOf(run[n - 1].event.kind, Runs.DecisionAt(config, run, n - 1), times[n - 1]))
  {
    hide RecordsOf;
    hide Appended;
    hide Runs.DecisionAt;
  }

  lemma {:induction false} StepRecorded(config: ControllerConfig, run: seq<Runs.Stimulus>, timestampMs: u32, k: nat, r: DiagnosticRecord)
    requires k < |run| && Tells(run[k].event.kind, Runs.DecisionAt(config, run, k), timestampMs, r)
    ensures r.(sequence := 0) in RecordsOf(run[k].event.kind, Runs.DecisionAt(config, run, k), timestampMs)
  {
    RecordsExactly(config, Runs.ControlAt(config, run, k), run[k].event, run[k].vehicle, timestampMs);
    TellsAnyNumber(run[k].event.kind, Runs.DecisionAt(config, run, k), timestampMs, r, 0);
    hide RecordsOf;
    hide Tells;
    hide Handle;
    hide Runs.ControlAt;
  }

  /** The record of a fall into fault. */
  function FaultRecord(trigger: EventType, d: Decision, timestampMs: u32): DiagnosticRecord {
    DiagnosticRecord(0, timestampMs, d.safety.reasons, FaultEntered, trigger, d.previousState, Fault, d.fault,
                     if d.fault == SafetyInterlock then ByPolicy else NoReason)
  }

  /** The record of a command, with the state and the fault it found. */
  function CommandRecord(trigger: EventType, d: Decision, timestampMs: u32): DiagnosticRecord {
    DiagnosticRecord(0, timestampMs, d.safety.reasons, CommandReceived, trigger, d.previousState, d.previousState,
                     d.previousFault, NoReason)
  }

  lemma StepStates(config: ControllerConfig, run: seq<Runs.Stimulus>, k: nat)
    requires k < |run|
    ensures var d := Runs.DecisionAt(config, run, k);
            && Control(d.previousState, d.previousFault) == Runs.ControlAt(config, run, k)
            && Control(d.state, d.fault) == Runs.ControlAt(config, run, k + 1)
  {
    hide React;
    hide Actions;
    hide Assessed;
    hide NextState;
    hide NextFault;
  }

  lemma FaultTells(trigger: EventType, d: Decision, timestampMs: u32)
    requires d.previousState != Fault && d.state == Fault
    ensures Tells(trigger, d, timestampMs, FaultRecord(trigger, d, timestampMs))
  {
  }

  lemma CommandTells(trigger: EventType, d: Decision, timestampMs: u32)
    requires trigger in {RemoteStartRequested, RemoteStopRequested, DriverTakeoverConfirmed, ResetRequested}
    ensures Tells(trigger, d, timestampMs, CommandRecord(trigger, d, timestampMs))
  {
  }

  lemma {:induction false} FellIntoFault(config: ControllerConfig, run: seq<Runs.Stimulus>, k: nat)
    requires k < |run| && Runs.StateAt(config, run, k) != Fault && Runs.StateAt(config, run, k + 1) == Fault
    ensures var d := Runs.DecisionAt(config, run, k);
            && d.previousState == Runs.StateAt(config, run, k) != Fault && d.state == Fault
            && d.fault == Runs.ControlAt(config, run, k + 1).fault != NoFault
  {
    Runs.FaultCodeExactlyInFault(config, run, k + 1);
    StepStates(config, run, k);
    hide Runs.ControlAt;
    hide Runs.DecisionAt;
  }

  /**
   * So a run that falls into fault leaves a record of it: which event, when,
   * from which state, with which code, and by the policy exactly for a safety interlock.
   */
  lemma {:induction false} FaultIsJournaled(config: ControllerConfig, run: seq<Runs.Stimulus>, times: seq<u32>, n: nat, k: nat)
    requires k < n <= |run| == |times|
    requires Runs.StateAt(config, run, k) != Fault && Runs.StateAt(config, run, k + 1) == Fault
    ensures var d := Runs.DecisionAt(config, run, k);
            && HasRecord(JournalOf(config, run, times, n), FaultRecord(run[k].event.kind, d, times[k]))
            && d.previousState == Runs.StateAt(config, run, k) && d.fault == Runs.ControlAt(config, run, k + 1).fault != NoFault
  {
    hide *;
    FellIntoFault(config, run, k);
    var d := Runs.DecisionAt(config, run, k);
    FaultTells(run[k].event.kind, d, times[k]);
    StepsAreJournaled(config, run, times, n, k, FaultRecord(run[k].event.kind, d, times[k]));
  }

  /** And every command leaves one, with the state and the fault it found. */
  lemma {:induction false} CommandIsJournaled(config: ControllerConfig, run: seq<Runs.Stimulus>, times: seq<u32>, n: nat, k: nat)
    requires k < n <= |run| == |times|
    requires run[k].event.kind in {RemoteStartRequested, RemoteStopRequested, DriverTakeoverConfirmed, ResetRequested}
    ensures var d := Runs.DecisionAt(config, run, k);
            && HasRecord(JournalOf(config, run, times, n), CommandRecord(run[k].event.kind, d, times[k]))
            && Control(d.previousState, d.previousFault) == Runs.ControlAt(config, run, k)
  {
    hide *;
    StepStates(config, run, k);
    var d := Runs.DecisionAt(config, run, k);
    CommandTells(run[k].event.kind, d, times[k]);
    StepsAreJournaled(config, run, times, n, k, CommandRecord(run[k].event.kind, d, times[k]));
  }
}

/** What a dispatch leaves in the diagnostic journal. */
module DispatchJournal {
  import opened Clock32
  import opened ControllerSpec
  import opened DiagnosticJournal
  import opened RuntimeSpec
  import StartControl
  import opened SupervisorSpec
  import opened Vehicle

  /** The records of the safing actions, from action i on, that fail. */
  function SafingRecords(s: Setup, p: Plant, d: Decision, i: nat, timestampMs: u32): seq<DiagnosticRecord>
    requires i <= |d.actions|
    decreases |d.actions| - i
  {
    if i == |d.actions| then []
    else if SafingAction(d.actions[i].kind) then
      var attempt := ExecuteAction(s, p, d.actions[i], d);
      (if attempt.fault != NoFault
       then [FailureRecord(SafingFailed, InfrastructureFailure, d.state, attempt.fault, timestampMs)] else [])
      + SafingRecords(s, attempt.plant, d, i + 1, timestampMs)
    else SafingRecords(s, p, d, i + 1, timestampMs)
  }

  /** The decision taken on a failed action of another. */
  function SafingDecision(s: Setup, decision: Decision, fault: FaultCode, v: VehicleState): Decision {
    Handle(s.controller, After(decision), Event(InfrastructureFailure, fault), v)
  }

  function DispatchRecords(s: Setup, w: World, event: Event, v: VehicleState, timestampMs: u32): seq<DiagnosticRecord> {
    var decision := Handle(s.controller, w.control, event, v);
    var executed := Execute(s, w.plant, decision, 0);
    if executed.fault == NoFault then RecordsOf(event.kind, decision, timestampMs)
    else
      var safing := SafingDecision(s, decision, executed.fault, v);
      RecordsOf(event.kind, decision, timestampMs)
      + [FailureRecord(InfrastructureFailed, event.kind, decision.state, executed.fault, timestampMs)]
      + RecordsOf(InfrastructureFailure, safing, timestampMs)
      + SafingRecords(s, executed.plant, safing, 0, timestampMs)
  }

  /** One turn of the safing loop, and the log with what it and the rest of the loop leave. */
  lemma SafingStep(s: Setup, p: Plant, d: Decision, i: nat, timestampMs: u32, log: seq<DiagnosticRecord>)
    requires i < |d.actions|
    ensures var kind, attempt := d.actions[i].kind, ExecuteAction(s, p, d.actions[i], d);
            if kind == CancelTimer || kind == DisengageStarter || kind == SecureOutputs || kind == NotifyFault then
              var noted := if attempt.fault == NoFault then log
                           else Appended(log, [FailureRecord(SafingFailed, InfrastructureFailure, d.state, attempt.fault, timestampMs)]);
              && ExecuteSafing(s, p, d, i) == ExecuteSafing(s, attempt.plant, d, i + 1)
              && Appended(log, SafingRecords(s, p, d, i, timestampMs))
                 == Appended(noted, SafingRecords(s, attempt.plant, d, i + 1, timestampMs))
            else
              && ExecuteSafing(s, p, d, i) == ExecuteSafing(s, p, d, i + 1)
              && SafingRecords(s, p, d, i, timestampMs) == SafingRecords(s, p, d, i + 1, timestampMs)
  {
    hide ExecuteAction;
    hide Appended;
    var attempt := ExecuteAction(s, p, d.actions[i], d);
    var record := FailureRecord(SafingFailed, InfrastructureFailure, d.state, attempt.fault, timestampMs);
    var rest := SafingRecords(s, attempt.plant, d, i + 1, timestampMs);
    AppendedTwice(log, [record], rest);
    assert [] + rest == rest;
  }

  lemma SafingEnds(s: Setup, p: Plant, d: Decision, timestampMs: u32, log: seq<DiagnosticRecord>)
    ensures ExecuteSafing(s, p, d, |d.actions|) == p
    ensures Appended(log, SafingRecords(s, p, d, |d.actions|, timestampMs)) == log
  {
    AppendedNothing(log);
  }

  /** The records of a dispatch, appended in the order the runtime appends them. */
  lemma DispatchLog(s: Setup, w: World, event: Event, v: VehicleState, timestampMs: u32, log: seq<DiagnosticRecord>)
    ensures var decision := Handle(s.controller, w.control, event, v);
            var executed := Execute(s, w.plant, decision, 0);
            var observed := Appended(log, RecordsOf(event.kind, decision, timestampMs));
            Appended(log, DispatchRecords(s, w, event, v, timestampMs))
            == if executed.fault == NoFault then observed
               else
                 var safing := SafingDecision(s, decision, executed.fault, v);
                 var failure := FailureRecord(InfrastructureFailed, event.kind, decision.state, executed.fault, timestampMs);
                 var failed := Appended(observed, [failure]);
                 Appended(Appended(failed, RecordsOf(InfrastructureFailure, safing, timestampMs)),
                          SafingRecords(s, executed.plant, safing, 0, timestampMs))
  {
    hide Handle;
    hide Execute;
    hide Appended;
    hide RecordsOf;
    hide SafingRecords;
    var decision := Handle(s.controller, w.control, event, v);
    var executed := Execute(s, w.plant, decision, 0);
    if executed.fault != NoFault {
      var safing := SafingDecision(s, decision, executed.fault, v);
      var a := RecordsOf(event.kind, decision, timestampMs);
      var b := [FailureRecord(InfrastructureFailed, event.kind, decision.state, executed.fault, timestampMs)];
      var c, e := RecordsOf(InfrastructureFailure, safing, timestampMs), SafingRecords(s, executed.plant, safing, 0, timestampMs);
      AppendedTwice(log, a, b);
      AppendedTwice(log, a + b, c);
      AppendedTwice(log, a + b + c, e);
    }
  }

  /** The dispatch carries out its first decision in full. */
  predicate Executes(s: Setup, w: World, event: Event, v: VehicleState) {
    Execute(s, w.plant, Handle(s.controller, w.control, event, v), 0).fault == NoFault
  }

  /**
   * A dispatch leaves behind a new fault code that no record of it names,
   * exactly when a second fault is delivered from outside and made safe without
   * a failure. The code of a failed action is always named.
   */
  lemma UnnamedChangeExactly(s: Setup, w: World, event: Event, v: VehicleState, timestampMs: u32)
    ensures var now := Dispatch(s, w, event, v).world.control.fault;
            (now != w.control.fault && now != NoFault && !Names(DispatchRecords(s, w, event, v, timestampMs), now))
            <==> (SecondFault(w.control, event) && Executes(s, w, event, v))
  {
    UnnamedExactly(s.controller, w.control, event, v, timestampMs);
    hide RecordsOf;
    hide SafingRecords;
    hide ExecuteSafing;
    hide Execute;
    hide SecondFault;
    if !Executes(s, w, event, v) {
      var decision := Handle(s.controller, w.control, event, v);
      var executed := Execute(s, w.plant, decision, 0);
      StartControl.FailureReaction(s.controller, After(decision), executed.fault, v);
      hide Handle;
      var records := DispatchRecords(s, w, event, v, timestampMs);
      assert records[|RecordsOf(event.kind, decision, timestampMs)|].fault == executed.fault;
    }
  }

  // ---------- the journal of the running system ----------

  /** Records without transitions leave the chain where it is. */
  lemma {:induction false} QuietRecords(log: seq<DiagnosticRecord>, records: seq<DiagnosticRecord>)
    requires Chained(log) && forall i :: 0 <= i < |records| ==> records[i].kind != StateTransition
    ensures Chained(Appended(log, records)) && ReplayedState(Appended(log, records)) == ReplayedState(log)
    decreases |records|
  {
    hide Chained;
    hide ReplayedState;
    if records == [] {
    } else {
      var numbered := records[0].(sequence := Wrap(|log| + 1));
      ChainedGrows(log, numbered);
      QuietRecords(log + [numbered], records[1..]);
    }
  }

  lemma {:induction false} SafingIsQuiet(s: Setup, p: Plant, d: Decision, i: nat, timestampMs: u32)
    requires i <= |d.actions|
    ensures forall k :: 0 <= k < |SafingRecords(s, p, d, i, timestampMs)| ==>
              SafingRecords(s, p, d, i, timestampMs)[k].kind == SafingFailed
    decreases |d.actions| - i
  {
    hide ExecuteAction;
    if i < |d.actions| {
      SafingIsQuiet(s, ExecuteAction(s, p, d.actions[i], d).plant, d, i + 1, timestampMs);
      SafingIsQuiet(s, p, d, i + 1, timestampMs);
    }
  }

  /** A dispatch continues the chain of transitions to the state it ends in, failures and safing included. */
  lemma DispatchChains(s: Setup, w: World, event: Event, v: VehicleState, timestampMs: u32, log: seq<DiagnosticRecord>)
    requires Chained(log) && ReplayedState(log) == w.control.state
    ensures var after := Appended(log, DispatchRecords(s, w, event, v, timestampMs));
            Chained(after) && ReplayedState(after) == Dispatch(s, w, event, v).world.control.state
  {
    DispatchLog(s, w, event, v, timestampMs, log);
    var decision := Handle(s.controller, w.control, event, v);
    var executed := Execute(s, w.plant, decision, 0);
    var observed := Appended(log, RecordsOf(event.kind, decision, timestampMs));
    hide React;
    hide Actions;
    hide Assessed;
    hide Chained;
    hide ReplayedState;
    hide Appended;
    hide RecordsOf;
    hide DispatchRecords;
    hide Execute;
    hide ExecuteSafing;
    RecordsChain(log, event.kind, decision, timestampMs);
    if executed.fault != NoFault {
      var safing := SafingDecision(s, decision, executed.fault, v);
      var failure := FailureRecord(InfrastructureFailed, event.kind, decision.state, executed.fault, timestampMs);
      var failed := Appended(observed, [failure]);
      QuietRecords(observed, [failure]);
      RecordsChain(failed, InfrastructureFailure, safing, timestampMs);
      SafingIsQuiet(s, executed.plant, safing, 0, timestampMs);
      QuietRecords(Appended(failed, RecordsOf(InfrastructureFailure, safing, timestampMs)),
                   SafingRecords(s, executed.plant, safing, 0, timestampMs));
    }
  }

  /** What an occurrence in the running system leaves in the journal, stamped with the time of the wrapping clock. */
  function OccurrenceRecords(s: Setup, w: World, o: StartControl.Occurrence): seq<DiagnosticRecord> {
    var now := Wrap(w.plant.timer.nowMs);
    match o
    case Deliver(event, v) => DispatchRecords(s, w, event, v, now)
    case Expire(v) =>
      if w.plant.timer.armed then
        DispatchRecords(s, w.(plant := w.plant.(timer := w.plant.timer.(armed := false))), Event(TimerElapsed, NoFault), v, now)
      else []
    case _ => []
  }

  function SystemLog(s: Setup, physical: DriverState, run: seq<StartControl.Occurrence>, n: nat): seq<DiagnosticRecord>
    requires n <= |run|
  {
    if n == 0 then []
    else Appended(SystemLog(s, physical, run, n - 1),
                  OccurrenceRecords(s, StartControl.SystemAt(s, physical, run, n - 1).world, run[n - 1]))
  }

  lemma OccurrenceChains(s: Setup, y: StartControl.System, o: StartControl.Occurrence, log: seq<DiagnosticRecord>)
    requires Chained(log) && ReplayedState(log) == y.State()
    ensures var after := Appended(log, OccurrenceRecords(s, y.world, o));
            Chained(after) && ReplayedState(after) == StartControl.Next(s, y, o).State()
  {
    hide Chained;
    hide ReplayedState;
    hide Dispatch;
    hide DispatchRecords;
    hide Step;
    var now := Wrap(y.world.plant.timer.nowMs);
    match o
    case Deliver(event, v) => DispatchChains(s, y.world, event, v, now, log);
    case Expire(v) =>
      if y.world.plant.timer.armed {
        DispatchChains(s, y.world.(plant := y.world.plant.(timer := y.world.plant.timer.(armed := false))),
                       Event(TimerElapsed, NoFault), v, now, log);
      }
    case _ =>
  }

  lemma JournalStarts(s: Setup, physical: DriverState)
    ensures Chained([]) && ReplayedState([]) == StartControl.Initial(s, physical).control.state
  {
  }

  /**
   * At every moment of every run of the whole system, failures and safing
   * included, the transitions in the journal lead, step by step, from idle to
   * the state the controller is in.
   */
  lemma {:induction false} JournalFollowsSystem(s: Setup, physical: DriverState, run: seq<StartControl.Occurrence>, n: nat)
    requires n <= |run|
    ensures Chained(SystemLog(s, physical, run, n))
    ensures ReplayedState(SystemLog(s, physical, run, n)) == StartControl.SystemAt(s, physical, run, n).State()
  {
    hide Chained;
    hide ReplayedState;
    hide Appended;
    hide OccurrenceRecords;
    hide StartControl.Next;
    hide StartControl.Initial;
    if n == 0 {
      JournalStarts(s, physical);
    } else {
      JournalFollowsSystem(s, physical, run, n - 1);
      OccurrenceChains(s, StartControl.SystemAt(s, physical, run, n - 1), run[n - 1], SystemLog(s, physical, run, n - 1));
    }
  }

  // ---------- a run that shows it ----------

  /** The driver and the timer carry out every call. */
  ghost predicate PortsAccept(ports: Ports) {
    forall n: nat :: ports.driver(n).ok && ports.timer(n).ok
  }

  /** With accepting ports every fall into fault is made safe. */
  lemma FaultsExecute(s: Setup, w: World, event: Event, v: VehicleState)
    requires PortsAccept(s.ports) && event.kind == InfrastructureFailure
    ensures Executes(s, w, event, v)
  {
    var d := Handle(s.controller, w.control, event, v);
    assert d.actions == [Do(CancelTimer), Do(DisengageStarter), Do(SecureOutputs), Do(NotifyFault)];
    hide Handle;
    hide Perform;
    FourActions(s, w.plant, d);
  }

  lemma FourActions(s: Setup, p: Plant, d: Decision)
    requires |d.actions| == 4 && forall i :: 0 <= i < 4 ==> SafingAction(d.actions[i].kind)
    requires PortsAccept(s.ports)
    ensures Execute(s, p, d, 0).fault == NoFault
  {
    SafingActionsSucceed(s, p, d, 0);
  }

  lemma {:induction false} SafingActionsSucceed(s: Setup, p: Plant, d: Decision, i: nat)
    requires i <= |d.actions| && forall k :: 0 <= k < |d.actions| ==> SafingAction(d.actions[k].kind)
    requires PortsAccept(s.ports)
    ensures Execute(s, p, d, i).fault == NoFault
    decreases |d.actions| - i
  {
    hide Perform;
    if i < |d.actions| {
      assert SafingAction(d.actions[i].kind);
      SafingActionsSucceed(s, ExecuteAction(s, p, d.actions[i], d).plant, d, i + 1);
    }
  }

  /** A timer failure and then an actuator failure, delivered from outside one after the other. */
  function TwoFailures(v: VehicleState): seq<StartControl.Occurrence> {
    [StartControl.Deliver(Event(InfrastructureFailure, TimerFailure), v),
     StartControl.Deliver(Event(InfrastructureFailure, ActuatorFailure), v)]
  }

  lemma FirstFault(s: Setup, w: World, v: VehicleState)
    requires Executes(s, w, Event(InfrastructureFailure, TimerFailure), v)
    ensures Dispatch(s, w, Event(InfrastructureFailure, TimerFailure), v).world.control == Control(Fault, TimerFailure)
  {
    hide Execute;
    hide Actions;
  }

  lemma SecondFaultSilent(s: Setup, w: World, code: FaultCode, v: VehicleState, timestampMs: u32)
    requires w.control.state == Fault && code != NoFault && Executes(s, w, Event(InfrastructureFailure, code), v)
    ensures Dispatch(s, w, Event(InfrastructureFailure, code), v).world.control == Control(Fault, code)
    ensures DispatchRecords(s, w, Event(InfrastructureFailure, code), v, timestampMs) == []
  {
    RefusalsAreNamed(s.controller, w.control, Event(InfrastructureFailure, code), v);
    hide RejectionReason;
    hide Execute;
    hide Actions;
  }

  /** In a reachable state: the second of two failures replaces the stored code and leaves no record. */
  lemma SecondFaultIsNotJournaled(s: Setup, physical: DriverState, v: VehicleState, timestampMs: u32)
    requires PortsAccept(s.ports)
    ensures var first := StartControl.SystemAt(s, physical, TwoFailures(v), 1).world;
            && first.control == Control(Fault, TimerFailure)
            && StartControl.SystemAt(s, physical, TwoFailures(v), 2).world.control == Control(Fault, ActuatorFailure)
            && DispatchRecords(s, first, Event(InfrastructureFailure, ActuatorFailure), v, timestampMs) == []
  {
    var start := StartControl.SystemAt(s, physical, TwoFailures(v), 0).world;
    var first := StartControl.SystemAt(s, physical, TwoFailures(v), 1).world;
    FaultsExecute(s, start, Event(InfrastructureFailure, TimerFailure), v);
    FirstFault(s, start, v);
    FaultsExecute(s, first, Event(InfrastructureFailure, ActuatorFailure), v);
    SecondFaultSilent(s, first, ActuatorFailure, v, timestampMs);
    hide Dispatch;
    hide DispatchRecords;
    hide StartControl.Initial;
  }
}

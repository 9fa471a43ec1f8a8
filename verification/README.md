# E9x remote start: a verified model

A Dafny model of the portable core of an add-on that starts a parked car
remotely: the session controller and what executes and supervises it, the
settings store and the protocol that reads and writes it, the recognition of
the lock-button gesture, the acquisition queue, and the recording, replay and
diagnostics around them. `dafny verify dfyconfig.toml` checks all of it.

## How it is organised

Code that the firmware writes as objects updated in place is modelled as
classes. Each such method is proved equal to a function of the old state, and
the properties are proved about those functions, over single steps and over
whole runs.

1. **Start control.** `SafetyPolicy`, `ControllerSpec`, `Controller` and
   `ControllerRuns` are the nine-state controller. `SupervisorSpec`,
   `ActuatorSupervisor` and `SupervisorRuns` are the latching supervisor over a
   driver that may refuse any call and leave its outputs in any state;
   `ControllerTransitions` and `SupervisorEvidence` say what each decision and
   each supervised input leads to, and what stood behind it. `SupervisorClock` and `SupervisorClockRuns` compare its wrapping clock with
   an unbounded one. `RuntimeSpec`, `Runtime`, `StartControl`,
   `StartControlTrace`, `StartControlOutcomes` and `DispatchJournal` put them together with a timer and
   a gateway that may fail and a diagnostic journal, and prove the properties no
   single class owns.
2. **Settings.** `Crc32`, `Crc32Detection` and `Crc32Standard` treat the
   checksum as polynomial division; `SettingsPayload`, `SettingsRecord` and
   `SettingsProtocol` are the three codecs and `WireLayout` places their bytes;
   `SettingsJournal`, `SettingsStore`, `JournalSaves`, `JournalRuns` and
   `JournalFromBlank` are the two-slot journal and its crash safety;
   `SettingsService` says what each answer means; `SettingsStream`,
   `SettingsStreamRuns`, `SettingsEndpoint`, `EndpointAnswers` and `SettingsDevice`
   go from bytes on the wire to bytes in storage.
3. **Lock gesture.** `CounterField`, `LockSequence`, `LockAdapter`, then
   soundness in `LockGestureRuns`, every verdict in `LockVerdicts`, real time in
   `LockGestureTime` and completeness in `LockCompleteness`.
4. **Acquisition.** `SpscQueue` and `ReceivePath` are state machines over
   atomic loads and stores; `BoundedQueue` and `TwaiReceiver` are the objects.
5. **Recording, replay, diagnostics.** `VehicleAssembly`, `TraceReplay`,
   `TraceReplayObjects`, `ReplayVerdicts` and `SnapshotValues` go from frames to the snapshot the
   policy judges; `DiagnosticJournal` and `JournalContents` are the journal;
   `CanonicalTrace`, `CanonicalTraceAgreement`, `CanonicalTraceReaders`,
   `SettingsFile` and `SettingsFileGrammar` are the text formats.

The outside world enters as parameters. Driver, timer, gateway, transport and
byte storage follow a script that fixes the outcome of every call in advance,
and theorems quantify over all scripts. Time is an unbounded number the code
sees modulo 2^32. Whatever decodes frames for a vehicle is an arbitrary function.

## What the proofs found

Each promise below fails on a concrete run or input; each has a theorem saying
exactly when it holds.

- tools/can_trace_csv.cpp fills the eight data bytes of a frame before it looks
  at their number, so a row such as `0,0x1,0,9,000000000000000000` writes past
  them, and so does one whose last two bytes are an accented letter
  (`CanonicalTrace.NineBytesOverrun`, `AccentedOverruns`, `OverrunsExactly`). The
  strict reader refuses every such text.
- After 2^32 ms without an output change the feedback grace period reopens, so
  an output reported stuck passes a poll (`SupervisorClockRuns.StuckOutputCanPass`).
  Apart from that the wrapping clock costs nothing (`ClocksAgreeExactly`).
- docs/actuator-safety-supervisor.md has the first fault remembered. A failing
  `secureOutputs` overwrites it, and so does a reset refused with another verdict
  (`SupervisorRuns.SecureOverwrites`, `ResetOverwrites`, `FirstFaultKeptExactly`).
- docs/safety.md asks for zero engine speed before a reset; the code accepts any
  fresh speed below the running threshold (`ControllerRuns.ResetWhileTurning`,
  `ZeroSpeedExactly`).
- A load right after a successful save can return the previous settings: a
  refused read counts as an empty slot (`JournalFromBlank.RefusedReadLoadsOlder`,
  `SettingsJournal.LoadAfterSave`).
- The gesture measures gaps modulo 2^32 ms, so presses seven weeks apart can
  count as a tenth of a second apart (`LockGestureTime.WeeksApartAccepted`,
  `RequestsAreReal`).
- Freshness and stalls are judged modulo 2^32 ms too: a signal last seen that
  long ago reads as fresh (`VehicleAssembly.OldReadsFresh`, `FreshExactly`), and a
  frame stalled that long is not dropped (`SettingsStreamRuns.StallUnnoticed`,
  `ExpiryIsReal`).
- The queue's size is in range for its two endpoints only, and the receiver's
  statistics read it from whichever thread asks (`SpscQueue.ObserverOutOfRange`,
  `ObserverInRangeExactly`).
- A second fault that is delivered to a controller in fault changes the stored
  code without a journal record; one raised by a failed action is recorded
  (`DispatchJournal.SecondFaultIsNotJournaled`, `UnnamedChangeExactly`).
- A carriage return that is neither followed by a newline nor last ends a line
  for the strict trace reader only, so a text it reads is refused by the replay
  tools (`CanonicalTraceAgreement.LoneReturnsDiffer`, `ReadersAgree`).

## Model

| member | source | states |
|---|---|---|
| `SafetyPolicy.ReasonsAreExact` | src/application/safety_policy.cpp:17-172 | each assessment reports a reason exactly when the snapshot and the configuration show it, signal by signal |
| `SafetyPolicy.ApprovedExactly` | src/application/safety_policy.cpp:17-172 | each of the four assessments approves exactly the snapshots that meet its row of the authorization matrix |
| `Controller.Controller.Handle` | src/application/controller.cpp:30-75 | the object's handler leaves the decision and the stored state of the reaction function, for every event, state and snapshot |
| `Controller.Controller.HandleVehicleUpdate` | src/application/controller.cpp:132-209 | the branchiest handler refines the same reaction |
| `Controller.Controller.HandleTimer` | src/application/controller.cpp:211-251 | expiry of the timer in each state refines the same reaction |
| `Controller.Controller.HandleReset` | src/application/controller.cpp:270-293 | a reset is completed or refused as the reaction says |
| `ControllerRuns.FaultCodeExactlyInFault` | src/application/controller.cpp:351-365 | in every run a fault code is stored exactly in the fault state |
| `ControllerRuns.EmitterOf` | src/application/controller.cpp:295-308 | ignition and starter are each requested by one transition only, on an approved snapshot |
| `ControllerRuns.StarterFollowsApprovedPreparation` | src/application/controller.cpp:132-230 | every starter engagement follows, in the same session, an accepted request, an approved enabling of ignition and an unbroken approved preparation |
| `ControllerRuns.RankDecreases` | src/application/controller.cpp:132-251 | every change of state lowers a rank, except a start, a fall into fault and a reset |
| `ControllerRuns.SessionMovesForward` | src/application/controller.cpp:132-251 | a session makes at most five changes of state, whatever arrives |
| `ControllerRuns.OneCrankPerSession` | src/application/controller.cpp:211-230 | two engagements of the starter are separated by a return to idle |
| `ControllerRuns.FaultNeedsJustifiedReset` | src/application/controller.cpp:270-293 | fault is left only by a reset on a fresh stopped engine and a fresh absence of critical faults |
| `ControllerRuns.ResetWhileTurning` | src/application/controller.cpp:270-293 | a run in which a reset completes while the engine turns, for any speed below the running threshold |
| `ControllerRuns.ZeroSpeedExactly` | src/application/controller.cpp:270-293 | every completed reset of every run finds zero engine speed exactly under configurations whose running threshold is at most one |
| `ControllerTransitions.LandsExactly` | src/application/controller.cpp:77-358 | for every state, event and snapshot: the state a decision lands in, as a table on the event and on what the snapshot shows, both ways |
| `ControllerTransitions.FaultCodeExactly` | src/application/controller.cpp:132-293 | the code a decision raises: the three timeouts, the safety interlock and a reported failure, each exactly where it belongs; otherwise the stored code is kept, or cleared on the way to idle |
| `ControllerTransitions.StopLands` | src/application/controller.cpp:100-130 | a remote stop ends a session before running at once and begins stopping one that runs; it changes no other state |
| `ControllerTransitions.OutputsByLanding` | src/application/controller.cpp:295-358 | what a decision does to ignition, starter and timer follows from the states it leads from and to, timer durations included |
| `ControllerTransitions.AnnouncesExactly` | src/application/controller.cpp:77-358 | each notification and each question to the vehicle is made exactly on its own landing |
| `ControllerTransitions.ReasonsCarried` | src/application/controller.cpp:132-268 | a decision carries exactly the reasons its snapshot shows for the purpose it was judged by |
| `ControllerTransitions.ActionsInOrder` | src/application/controller.cpp:295-358 | every decision cancels first, then drives the outputs, then announces, and arms the timer last; only that carries a duration |
| `ActuatorSupervisor.ActuatorSafetySupervisor.Heartbeat` | src/infrastructure/actuator_safety_supervisor.cpp:35-51 | the object steps as the supervisor function, latching a fault as it says |
| `ActuatorSupervisor.ActuatorSafetySupervisor.Poll` | src/infrastructure/actuator_safety_supervisor.cpp:53-101 | verdict, order of checks and safing of a poll |
| `ActuatorSupervisor.ActuatorSafetySupervisor.ResetFault` | src/infrastructure/actuator_safety_supervisor.cpp:103-133 | which reset succeeds and what it rearms |
| `ActuatorSupervisor.ActuatorSafetySupervisor.EnableIgnition` | src/infrastructure/actuator_safety_supervisor.cpp:135-147 | success and new state of the command, driver failures included |
| `ActuatorSupervisor.ActuatorSafetySupervisor.EngageStarter` | src/infrastructure/actuator_safety_supervisor.cpp:149-166 | success and new state of the command, driver failures included |
| `ActuatorSupervisor.ActuatorSafetySupervisor.DisengageStarter` | src/infrastructure/actuator_safety_supervisor.cpp:168-176 | success and new state of the command, driver failures included |
| `ActuatorSupervisor.ActuatorSafetySupervisor.ReleaseRemoteControl` | src/infrastructure/actuator_safety_supervisor.cpp:178-195 | success and new state of the command, driver failures included |
| `ActuatorSupervisor.ActuatorSafetySupervisor.SecureOutputs` | src/infrastructure/actuator_safety_supervisor.cpp:197-203 | success and new state of the command, driver failures included |
| `SupervisorRuns.AlwaysSound` | src/infrastructure/actuator_safety_supervisor.cpp:19-33 | in every reachable state a latched fault means nothing is commanded, a failed safing or a missing initialization is latched, starter implies ignition, and unless a safing has failed the physical outputs are exactly those commanded |
| `SupervisorRuns.OnlyResetClears` | src/infrastructure/actuator_safety_supervisor.cpp:103-133 | only a successful reset clears a fault, and it leaves both outputs physically off |
| `SupervisorRuns.FirstFaultKeptExactly` | src/infrastructure/actuator_safety_supervisor.cpp:103-203 | for every input: the first latched fault is kept exactly unless a failing secureOutputs or a reset refused with another verdict overwrites it, or a successful reset clears it |
| `SupervisorRuns.ResetOverwrites` | src/infrastructure/actuator_safety_supervisor.cpp:103-133 | a run in which a refused reset replaces an expired watchdog by a feedback mismatch |
| `SupervisorRuns.SecureOverwrites` | src/infrastructure/actuator_safety_supervisor.cpp:197-203 | a run in which a failing secureOutputs replaces an expired watchdog by a safing failure |
| `SupervisorRuns.LatchHolds` | src/infrastructure/actuator_safety_supervisor.cpp:229-272 | from a fault until a successful reset nothing is commanded and no energizing command succeeds |
| `SupervisorRuns.CommandOutcome` | src/infrastructure/actuator_safety_supervisor.cpp:135-203 | a successful command commands exactly what it names, a failed one commands nothing |
| `SupervisorRuns.EnergizingNeedsEvidence` | src/infrastructure/actuator_safety_supervisor.cpp:229-250 | energizing needs a recent heartbeat, a permission and, for the starter, confirmed ignition |
| `SupervisorClock.WrappingLooksOnlyAtDifferences` | src/infrastructure/actuator_safety_supervisor.cpp:10-15 | decisions on real instants and on the same instants modulo 2^32 are the same |
| `SupervisorClock.VerdictAgreesExactly` | src/infrastructure/actuator_safety_supervisor.cpp:53-101 | a poll decides as on an unbounded clock exactly when it does not fall into a grace period reopened by 2^32 ms without an output change |
| `SupervisorClockRuns.FirmwareFollowsRealRun` | src/infrastructure/actuator_safety_supervisor.cpp:217-227 | over whole runs the firmware goes through the wrapped states of the real-time run |
| `SupervisorClockRuns.NeverClockRegression` | src/infrastructure/actuator_safety_supervisor.cpp:217-227 | with inputs recurring within 2^31 ms the wrapping clock never raises a regression |
| `SupervisorClockRuns.PollBoundsRealAges` | src/infrastructure/actuator_safety_supervisor.cpp:53-80 | a poll that leaves outputs commanded has real heartbeat age and real starter time within their limits |
| `SupervisorClockRuns.ClocksAgreeExactly` | src/infrastructure/actuator_safety_supervisor.cpp:53-101 | wrapped and unbounded supervisors agree through a whole run exactly when no poll slips into a reopened grace period |
| `SupervisorClockRuns.StuckOutputCanPass` | src/infrastructure/actuator_safety_supervisor.cpp:53-101 | a concrete run in which an output reported stuck passes a poll 2^32 ms after the last output change |
| `SupervisorEvidence.PollDecides` | src/infrastructure/actuator_safety_supervisor.cpp:53-101 | a poll that is heard latches exactly its first objection; without one it keeps the outputs, remembers the permission, and confirms the ignition only on feedback that is available and agrees with both commands |
| `SupervisorEvidence.PollUnheard` | src/infrastructure/actuator_safety_supervisor.cpp:53-61 | a poll under a clock running back makes safe and latches; one that finds a fault only notes the time |
| `SupervisorEvidence.HeartbeatDecides` | src/infrastructure/actuator_safety_supervisor.cpp:35-51 | a heartbeat succeeds exactly when no output is commanded under an old one, and is then the last one; otherwise the watchdog latches |
| `SupervisorEvidence.HeartbeatUnheard` | src/infrastructure/actuator_safety_supervisor.cpp:35-51 | a heartbeat under a clock running back, or that finds a fault, does not count |
| `SupervisorEvidence.ConstructDecides` | src/infrastructure/actuator_safety_supervisor.cpp:19-33 | a supervisor starts without a fault exactly within its configuration limits and after a successful safing |
| `SupervisorEvidence.ResetDecides` | src/infrastructure/actuator_safety_supervisor.cpp:103-133 | which code a reset leaves, in the order it looks; it always makes the outputs safe, and clears exactly when nothing stands against it |
| `SupervisorEvidence.CommandDecides` | src/infrastructure/actuator_safety_supervisor.cpp:135-195 | an energising or releasing command latches exactly its first refusal, or the driver's; otherwise the physical outputs are those it names |
| `SupervisorEvidence.LettingGoDecides` | src/infrastructure/actuator_safety_supervisor.cpp:168-203 | disengaging and securing are always passed on to the driver; a refusal of it latches |
| `SupervisorEvidence.NeverConfirmsOnDisagreement` | src/infrastructure/actuator_safety_supervisor.cpp:95-98 | missing or disagreeing feedback never sets the ignition confirmation |
| `SupervisorEvidence.FlagWasConfirmed` | src/infrastructure/actuator_safety_supervisor.cpp:95-98 | in every run a confirmed ignition was confirmed by an earlier poll whose feedback showed it on and the starter as commanded, with the ignition commanded ever since |
| `SupervisorEvidence.EngageWasConfirmed` | src/infrastructure/actuator_safety_supervisor.cpp:149-166 | where feedback is required, every successful engagement of the starter has such a poll before it |
| `SupervisorEvidence.EnergizingWasSupervised` | src/infrastructure/actuator_safety_supervisor.cpp:229-250 | every energising command follows a heartbeat heard within the watchdog and a poll that permits it with none since withdrawing it |
| `Runtime.Runtime.Dispatch` | src/infrastructure/runtime.cpp:19-49 | the object executes a decision, and on failure the fault's safing, as the plant function does, and leaves in its journal, if it has one, the records of that dispatch in order |
| `Runtime.Runtime.Execute` | src/infrastructure/runtime.cpp:51-61 | the action loop stops at the first failing action |
| `Runtime.Runtime.ExecuteAction` | src/infrastructure/runtime.cpp:63-133 | each action's effect on the ports and the fault code of its failure |
| `Runtime.Runtime.ExecuteSafing` | src/infrastructure/runtime.cpp:135-187 | safing goes on past failures and journals each |
| `StartControl.DispatchOutcome` | src/infrastructure/runtime.cpp:19-61 | a dispatch carries its reaction out in full or ends in fault with nothing commanded |
| `StartControl.FailedDispatchIsSafed` | src/infrastructure/runtime.cpp:135-187 | a failed action ends in fault with its own code and nothing commanded; of the notices the dispatch leaves, the last and no other announces a fault |
| `StartControlOutcomes.DispatchLands` | src/infrastructure/runtime.cpp:19-49 | a dispatch leaves the controller where its decision lands, or in the fault of the action that failed |
| `StartControlOutcomes.DispatchEffect` | src/infrastructure/runtime.cpp:51-133 | a dispatch whose actions succeed leaves the outputs and the timer its decision intends |
| `StartControlOutcomes.StopRequestStops` | src/application/controller.cpp:100-130 | in every reachable system a remote stop leaves nothing commanded and no session going on, whatever the ports do |
| `StartControlOutcomes.StartRequestAsks` | src/application/controller.cpp:77-98 | a start request in idle asks the vehicle once and waits under a timer, or ends in the fault of the port that refused, with nothing commanded |
| `StartControlOutcomes.CodeNamesPort` | src/infrastructure/runtime.cpp:63-133 | a failed action is reported with the code of the port that refused it, exactly when it did |
| `StartControl.AlwaysSafe` | src/infrastructure/runtime.cpp:19-187 | under every interleaving of events, supervision, time and port failures the starter is commanded only while cranking, ignition only in a powered state and with the timer armed |
| `StartControl.SessionTimeBound` | src/application/controller.cpp:295-340 | one stretch of commanded ignition lasts at most the sum of the four session timeouts |
| `StartControl.StarterTimeBound` | src/application/controller.cpp:211-230 | one stretch of commanded starter lasts at most the crank time |
| `StartControlTrace.SystemRunsController` | src/infrastructure/runtime.cpp:19-49 | inside the running system the controller goes through the states of its own history |
| `StartControlTrace.StarterCommandWasPrepared` | src/infrastructure/runtime.cpp:63-133 | whenever the supervisor starts commanding the starter, the controller's history shows an approved and unbroken preparation |
| `Crc32.Compute` | src/infrastructure/crc32.cpp:5-18 | the nested byte and bit loops compute the checksum function of the first bytes of the buffer |
| `Crc32.BitStepInjective` | src/infrastructure/crc32.cpp:11-15 | the bit step is injective on 32-bit registers |
| `Crc32.ShiftsFeed` | src/infrastructure/crc32.cpp:9-16 | loading a word and shifting it equals feeding its bits one by one |
| `Crc32Detection.FourBytesInjective` | src/infrastructure/crc32.cpp:8-17 | any two different words leave different registers |
| `Crc32Detection.BurstChangesRegister` | src/infrastructure/crc32.cpp:8-17 | messages that differ within 32 consecutive bits leave different registers, wherever the bits lie |
| `Crc32Detection.SpliceIsBurst` | src/infrastructure/crc32.cpp:8-17 | replacing at most four consecutive bytes is such a difference |
| `Crc32Detection.MatchesExactlySealed` | src/infrastructure/crc32.cpp:5-18 | a message ends in its own checksum exactly when its register is one fixed residue |
| `Crc32Detection.BurstIsDetected` | src/infrastructure/crc32.cpp:5-18 | a matching message changed by any burst of up to 32 bits, its checksum included, no longer matches |
| `Crc32Standard.RegisterIsRemainder` | src/infrastructure/crc32.cpp:11-15 | the masked step divides by the generator polynomial of section 3.2.9 of IEEE 802.3 |
| `Crc32Standard.ChecksumIsFrameCheckSequence` | src/infrastructure/crc32.cpp:5-18 | the checksum is the mirror image of the frame check sequence of that section |
| `SettingsPayload.Encode` | src/infrastructure/settings_payload.cpp:53-78 | fills the buffer with the payload of valid settings, leaves it alone otherwise |
| `UserSettings.ValidExactly` | src/application/user_settings.cpp:16-122 | settings are valid exactly when none of the fourteen reasons against them holds |
| `SettingsPayload.DecodeEncoded` | src/infrastructure/settings_payload.cpp:53-123 | decoding the payload of valid settings returns them |
| `SettingsPayload.EncodeDecoded` | src/infrastructure/settings_payload.cpp:86-123 | an accepted payload is the encoding of the valid settings it decodes to |
| `Bytes.ReadWriteU32` | src/infrastructure/settings_payload.cpp:21-36 | little-endian words read back as written |
| `Bytes.WriteReadU32` | src/infrastructure/settings_payload.cpp:21-36 | four bytes are the encoding of the word read from them |
| `Bytes.ReadWriteU64` | src/infrastructure/settings_payload.cpp:38-49 | little-endian double words read back as written |
| `Bytes.WriteReadU64` | src/infrastructure/settings_payload.cpp:38-49 | eight bytes are the encoding of the double word read from them |
| `WireLayout.PayloadLayout` | src/infrastructure/settings_payload.cpp:53-78 | every field of the settings lies in the payload at its own offset, least significant byte first |
| `WireLayout.RecordLayout` | src/infrastructure/settings_storage.cpp:60-81 | magic, version, payload size, generation, payload and checksum of a record, byte by byte |
| `WireLayout.FrameLayout` | src/infrastructure/settings_protocol.cpp:61-88 | magic, version, kind, status, request number, payload size, payload and checksum of a frame, byte by byte |
| `WireLayout.FaultExactly` | src/infrastructure/settings_protocol.cpp:90-145 | bytes are refused exactly for the first check they fail, and otherwise the frame is what they say, with zeros beyond its payload |
| `SettingsRecord.DecodeEncoded` | src/infrastructure/settings_storage.cpp:60-118 | decoding the record of valid settings returns settings and generation |
| `SettingsRecord.EncodeDecoded` | src/infrastructure/settings_storage.cpp:83-118 | accepted bytes are the encoding of the record they hold |
| `SettingsRecord.BurstNeverDecodes` | src/infrastructure/settings_storage.cpp:86-104 | a record changed by any burst of up to 32 bits holds no record |
| `SettingsStore.BuildRecord` | src/infrastructure/settings_storage.cpp:60-81 | the buffer ends up holding exactly the record |
| `SettingsStore.ParseRecord` | src/infrastructure/settings_storage.cpp:83-118 | the field-by-field checks return the record function of the bytes |
| `SettingsStore.JournaledUserSettingsStore.Load` | src/infrastructure/settings_storage.cpp:144-166 | the object loads what the load function says and asks for the two reads, refused ones included |
| `SettingsStore.JournaledUserSettingsStore.Save` | src/infrastructure/settings_storage.cpp:168-209 | result, new storage state and requests of a save, for every answer the storage gives |
| `SettingsStore.JournaledUserSettingsStore.LoadFailSafe` | src/infrastructure/settings_storage.cpp:211-225 | falls back to the defaults with remote start disabled exactly when nothing valid loads |
| `SettingsJournal.LoadedIsStored` | src/infrastructure/settings_storage.cpp:144-166 | what is loaded is valid and is what one visible slot encodes, byte for byte |
| `SettingsJournal.EnabledOnlyFromStorage` | src/infrastructure/settings_storage.cpp:211-225 | remote start is enabled after start-up only if a visible slot encodes valid settings enabling it |
| `SettingsJournal.SuccessIsStored` | src/infrastructure/settings_storage.cpp:195-208 | a save that reports success left exactly its record in the visible slot, whatever the storage did |
| `SettingsJournal.LoadAfterSave` | src/infrastructure/settings_storage.cpp:144-209 | the load after a successful save returns its settings exactly when the written slot can be read (or the other slot holds the same settings and can) |
| `SettingsJournal.TargetIsNewest` | src/infrastructure/settings_storage.cpp:120-124 | the next record is newer than the one kept and not the other way round, across the wrap of the generation |
| `JournalSaves.SavedExactly` | src/infrastructure/settings_storage.cpp:168-209 | a save is reported done exactly when the settings are valid, the storage large enough, all five calls succeed and the slot then holds exactly the new record |
| `JournalSaves.TargetExactly` | src/infrastructure/settings_storage.cpp:168-194 | the new record spares the newest one and has the generation after it; into empty slots it goes as the first |
| `JournalSaves.OneWrite` | src/infrastructure/settings_storage.cpp:168-209 | what a save asks of the storage, call by call: its one write carries the encoded record to its own slot, after both slots were read |
| `JournalSaves.SaveTouches` | src/infrastructure/settings_storage.cpp:168-209 | where a save stops at the first refused call, and that only its write and its commit touch the storage |
| `JournalSaves.LoadsNewest` | src/infrastructure/settings_storage.cpp:144-166 | a load returns the newest record among the slots that can be read |
| `SettingsService.FailSafeExactly` | src/infrastructure/settings_storage.cpp:211-225 | what is used after start-up is what loads, or else the defaults with remote start disabled and nothing else changed |
| `SettingsService.LoadFailsExactly` | src/infrastructure/settings_storage.cpp:144-166 | a load fails exactly when the storage is too small or no slot can be read and holds a record |
| `JournalRuns.StaysSafe` | src/infrastructure/settings_storage.cpp:168-209 | every run of saves, loads and power cuts on an honest storage keeps the journal invariant through every tear, refusal and cut |
| `JournalRuns.HonestSaveLands` | src/infrastructure/settings_storage.cpp:168-209 | an honest storage, which lands what it is asked to write, lands the record of a save in the slot it belongs to |
| `JournalRuns.LoadsLastLanded` | src/infrastructure/settings_storage.cpp:144-166 | a load that can read both slots returns the last record that ever landed completely, and fails only if none did |
| `JournalRuns.NeverOlderThanSaved` | src/infrastructure/settings_storage.cpp:144-209 | after a successful save every such load succeeds and returns those settings or a record landed since |
| `JournalRuns.ValidSlotsAreConsecutive` | src/infrastructure/settings_storage.cpp:120-124 | two valid slots hold the last two landed records with consecutive generations modulo 2^32 |
| `JournalRuns.CorruptedNewestFallsBack` | src/infrastructure/settings_storage.cpp:155-164 | with the newest slot destroyed a load returns the record landed before it |
| `JournalRuns.TearsRejected` | src/infrastructure/settings_storage.cpp:86-104 | records torn in their first twelve bytes over a valid one, in their last four over anything, or in their first seven over erased memory are always rejected |
| `JournalFromBlank.BlankRunLoadsLastLanded` | src/infrastructure/settings_storage.cpp:144-209 | from blank storage, after any events an honest storage allows, a load that can read both slots returns the last landed record, no older than the last save that reported success |
| `JournalFromBlank.RefusedReadLoadsOlder` | src/infrastructure/settings_storage.cpp:144-166 | a run from blank storage in which two saves succeed, the newer slot then refuses a read, and the load returns the older settings |
| `SettingsDevice.EncodeFrame` | src/infrastructure/settings_protocol.cpp:61-88 | the buffer starts with exactly the bytes of the frame; oversized payloads are refused |
| `SettingsDevice.DecodeFrame` | src/infrastructure/settings_protocol.cpp:90-145 | every check in its order, to the frame or the first fault |
| `SettingsProtocol.DecodeEncoded` | src/infrastructure/settings_protocol.cpp:61-145 | decoding an encoded frame returns it with the unused payload bytes cleared |
| `SettingsProtocol.EncodeDecoded` | src/infrastructure/settings_protocol.cpp:90-145 | accepted bytes are the encoding of the frame they decode to |
| `SettingsProtocol.BurstNeverDecodes` | src/infrastructure/settings_protocol.cpp:102-133 | an encoded frame changed by any burst of up to 32 bits is never accepted |
| `SettingsProtocol.ResponsesEncode` | src/infrastructure/settings_protocol.cpp:147-241 | every answer fits a frame |
| `SettingsDevice.SettingsProtocolService.Serve` | src/infrastructure/settings_protocol.cpp:147-241 | answer, storage effect and storage requests of every request |
| `SettingsService.StatusExactly` | src/infrastructure/settings_protocol.cpp:147-241 | each of the eight statuses is answered exactly under its own condition on the request, the access, the load and the save |
| `SettingsService.OkIsStored` | src/infrastructure/settings_protocol.cpp:202-241 | a write answered ok was well formed, authorized and in idle, encodes valid settings, and left exactly their record in its slot |
| `SettingsService.AnswerCarries` | src/infrastructure/settings_protocol.cpp:147-241 | kind, number and payload of an answer: settings go out only to an authorized read, an identity only to an authorized question, and every other payload byte is zero |
| `SettingsService.StoreTouched` | src/infrastructure/settings_protocol.cpp:147-241 | the store is loaded exactly by an authorized read, saved exactly by a write of valid settings, and otherwise left alone |
| `SettingsService.AskedExactly` | src/infrastructure/settings_protocol.cpp:147-241 | what the service asks of the storage: the calls of a load, those of a save, or none |
| `SettingsDevice.SettingsStreamReceiver.Consume` | src/infrastructure/settings_stream.cpp:18-35 | event and new state of one byte, timeout included |
| `SettingsDevice.SettingsStreamReceiver.ConsumeSynchronized` | src/infrastructure/settings_stream.cpp:53-107 | hunting, header, bounding and completion of a frame |
| `SettingsDevice.SettingsStreamReceiver.Poll` | src/infrastructure/settings_stream.cpp:37-44 | drops and reports a stalled frame exactly when it expired |
| `SettingsStream.RejectionsAreFour` | src/infrastructure/settings_stream.cpp:53-107 | only four rejections are reachable: the receiver's own over-long one and the decoder's size and magic ones are not |
| `SettingsStream.DeliveredIsEncoded` | src/infrastructure/settings_stream.cpp:89-106 | a delivered frame is exactly the bytes received for it |
| `SettingsStream.HuntingIsMatching` | src/infrastructure/settings_stream.cpp:55-66 | while hunting the buffer is the longest end of the input that starts the magic |
| `SettingsStreamRuns.NoiseThenFrame` | src/infrastructure/settings_stream.cpp:53-107 | after any noise without the magic a frame yields nothing but its delivery on the last byte |
| `SettingsStreamRuns.StreamDeliversFrames` | src/infrastructure/settings_stream.cpp:53-107 | frames separated by noise are delivered once each, in order, and nothing else happens |
| `SettingsStreamRuns.StallCostsNothing` | src/infrastructure/settings_stream.cpp:18-51 | a stalled frame is dropped and reported at the next byte and costs none of the frames after it |
| `SettingsStreamRuns.ExpiryIsReal` | src/infrastructure/settings_stream.cpp:109-113 | for every gap: a held frame expires exactly when the gap modulo 2^32 exceeds the timeout, which is the real gap exceeding it exactly below 2^32 ms or where the wrapped gap still exceeds it |
| `SettingsStreamRuns.StallUnnoticed` | src/infrastructure/settings_stream.cpp:18-51 | a frame begun and polled between 2^32 ms and 2^32 ms plus the timeout later is not dropped |
| `SettingsStreamRuns.HuntingResumes` | src/infrastructure/settings_stream.cpp:53-107 | whatever bytes come, a frame being collected ends before a maximum frame of bytes is held |
| `SettingsStreamRuns.ResynchronizesFrom` | src/infrastructure/settings_stream.cpp:53-107 | from any state, a maximum frame of bytes without the magic, counting those held, is enough for the next frame to be delivered |
| `SettingsStreamRuns.AnyNoiseThenQuiet` | src/infrastructure/settings_stream.cpp:53-107 | after any bytes, false magics included, such a quiet costs the next frame nothing |
| `SettingsDevice.SettingsProtocolEndpoint.Consume` | src/infrastructure/settings_stream.cpp:115-160 | the endpoint object steps as the endpoint function, transport failures included |
| `SettingsEndpoint.OnlyAdmittedWritesReachStorage` | src/infrastructure/settings_stream.cpp:131-160 | storage bytes change only on the last byte of the one encoding of a write of valid settings, authorized and idle |
| `EndpointAnswers.EveryFrameIsAnswered` | src/infrastructure/settings_stream.cpp:115-160 | frames sent in time with any noise between them are each answered once, in order, each against the storage its predecessors left, even after a frame that stalled |
| `EndpointAnswers.ServesDelivered` | src/infrastructure/settings_stream.cpp:115-160 | whatever bytes arrive, the endpoint answers exactly the requests its receiver delivers |
| `EndpointAnswers.ResultExactly` | src/infrastructure/settings_stream.cpp:115-160 | what is reported of each input: a time-out, a refusal, or the status of the answer and whether it was sent |
| `SettingsEndpoint.WrittenIsReadBack` | src/infrastructure/settings_protocol.cpp:187-241 | a write answered ok was admitted; then, after anything without an admitted write, an authorized read that can read the slot returns its payload byte for byte |
| `CounterField.CountBits` | include/bmw_remote/infrastructure/can_lock_command_adapter.hpp:33-39 | shifting the mask out counts its bits |
| `CounterField.Extract` | src/infrastructure/can_lock_command_adapter.cpp:19-40 | the loop packs the selected bits in order |
| `CounterField.SameCounterExactly` | src/infrastructure/can_lock_command_adapter.cpp:19-40 | two bytes carry the same counter exactly when they agree under the mask |
| `CounterField.EveryCounterOccurs` | src/infrastructure/can_lock_command_adapter.cpp:19-40 | every number below two to the number of mask bits is the counter of a byte inside the mask |
| `LockSequence.LockSequenceDetector.Observe` | src/application/lock_sequence_detector.cpp:5-43 | result and new state of a press |
| `LockSequence.LockCommandGate.Process` | src/application/lock_command_gate.cpp:25-89 | verdict and new state of a piece of evidence, in the order of the checks |
| `LockAdapter.CanLockCommandAdapter.Process` | src/infrastructure/can_lock_command_adapter.cpp:42-105 | status, evidence and new state of a frame |
| `LockAdapter.CanLockCommandPipeline.Process` | src/infrastructure/can_lock_command_adapter.cpp:145-156 | result and new state of the pipeline, gesture resets included |
| `LockGestureRuns.AlwaysSound` | src/infrastructure/can_lock_command_adapter.cpp:42-156 | over every run the detector's state is that of a train of qualified presses since the last disturbing rejection |
| `LockGestureRuns.RequestsAreBacked` | src/infrastructure/can_lock_command_adapter.cpp:145-156 | every remote start request is backed by exactly the required number of qualified edges of the run's frames, each looked at within the maximum evidence age and not before its frame, with increasing sequence numbers, allowed gaps and span, and only debounced presses rejected in between |
| `LockGestureRuns.PressesAreFrames` | src/infrastructure/can_lock_command_adapter.cpp:145-156 | every counted press is the frame of the run at its index, looked at when it came in, on an edge from an earlier frame of the run |
| `LockVerdicts.VerdictExactly` | src/application/lock_command_gate.cpp:25-89 | the gate rejects evidence for the first check that fails, each check stated on evidence, clock and the evidence before; otherwise it answers by how many presses stand |
| `LockVerdicts.MemoryExactly` | src/application/lock_command_gate.cpp:25-128 | what the gate remembers after each verdict: a debounced press leaves the train alone, every other rejection forgets it |
| `LockVerdicts.DecodedExactly` | src/infrastructure/can_lock_command_adapter.cpp:42-113 | in every run the adapter answers a frame by the first condition that applies to it and to the last frame it took, and what evidence it makes |
| `LockVerdicts.PipelineExactly` | src/infrastructure/can_lock_command_adapter.cpp:145-156 | a frame at fault clears adapter and gate together, one for someone else leaves both, and only evidence reaches the gate |
| `LockVerdicts.ConfigExactly` | src/infrastructure/can_lock_command_adapter.cpp:115-143 | an adapter is accepted exactly when its fields lie in its frames and no two of them share a bit |
| `LockVerdicts.MatchesExactly` | include/bmw_remote/infrastructure/can_lock_command_adapter.hpp:11-24 | a field matches exactly when each bit it looks at is the expected one |
| `LockGestureRuns.ExpandedIsCongruent` | src/infrastructure/can_lock_command_adapter.cpp:76-90 | the expanded sequence stays congruent to raw minus primed counter modulo the counter's width |
| `LockGestureTime.GapIsReal` | src/application/lock_sequence_detector.cpp:16-24 | the measured gap is the real one exactly when that is not negative and below 2^32 ms |
| `LockGestureTime.TrainIsRealExactly` | src/application/lock_sequence_detector.cpp:16-32 | a train of presses meets the configured gaps and window in real time, and measures them, exactly when it is in order and spans less than 2^32 ms |
| `LockGestureTime.RequestsAreReal` | src/infrastructure/can_lock_command_adapter.cpp:145-156 | the timing behind a request is real exactly when its presses span less than 2^32 ms, on any run of frames stamped in order |
| `LockGestureTime.WeeksApartAccepted` | src/infrastructure/can_lock_command_adapter.cpp:145-156 | a run of the pipeline whose two presses, 2^32 ms and 100 ms apart, request a start |
| `LockCompleteness.TrainIsRecognized` | src/application/lock_sequence_detector.cpp:12-42 | of well-timed fresh presses all but the required one are accepted and the required one requests a start |
| `LockCompleteness.ValidSettingsAreUsable` | src/application/user_settings.cpp:80-91 | for all valid settings, presses exactly the minimum gap apart request a start on the configured press |
| `SpscQueue.AlwaysSound` | libs/can-core/include/can_core/bounded_spsc_queue.hpp:19-57 | under every interleaving the counters stay ordered and within the capacity, unread slots hold what was published, and both endpoints' sizes stay in range |
| `SpscQueue.ProducerStepRefines` | libs/can-core/include/can_core/bounded_spsc_queue.hpp:19-28 | a push takes effect atomically at its head store and fails only if the queue was full at its tail load; size is exact |
| `SpscQueue.ConsumerStepRefines` | libs/can-core/include/can_core/bounded_spsc_queue.hpp:30-39 | a pop takes effect atomically at its tail store, returns the first value, and fails only if the queue was empty at its head load |
| `SpscQueue.FirstInFirstOut` | libs/can-core/include/can_core/bounded_spsc_queue.hpp:19-39 | what was published is what was popped followed by what is unread |
| `SpscQueue.ObserverInRangeExactly` | libs/can-core/include/can_core/bounded_spsc_queue.hpp:41-45 | in every run a size computed by any thread from two loads never exceeds the capacity, and is in range exactly when the tail loaded has not passed the head loaded |
| `SpscQueue.ObserverInRangeByPops` | libs/can-core/include/can_core/bounded_spsc_queue.hpp:41-45 | without clears it is in range exactly when no more values are popped between the loads than were unread at the first |
| `SpscQueue.ObserverOutOfRange` | libs/can-core/include/can_core/bounded_spsc_queue.hpp:41-45 | a third thread can compute a size of minus one |
| `BoundedQueue.BoundedSpscQueue.TryPush` | libs/can-core/include/can_core/bounded_spsc_queue.hpp:19-28 | the call appends exactly when there is room |
| `BoundedQueue.BoundedSpscQueue.TryPop` | libs/can-core/include/can_core/bounded_spsc_queue.hpp:30-39 | the call removes and returns the first value, if any |
| `BoundedQueue.BoundedSpscQueue.Clear` | libs/can-core/include/can_core/bounded_spsc_queue.hpp:54-57 | the call empties the queue |
| `BoundedQueue.UninterruptedPush` | libs/can-core/include/can_core/bounded_spsc_queue.hpp:19-28 | the atomic steps of an uninterrupted push do what the call does |
| `BoundedQueue.UninterruptedPop` | libs/can-core/include/can_core/bounded_spsc_queue.hpp:30-39 | the atomic steps of an uninterrupted pop do what the call does, and return nothing from an empty queue |
| `BoundedQueue.UninterruptedClear` | libs/can-core/include/can_core/bounded_spsc_queue.hpp:54-57 | an uninterrupted clear empties the queue and leaves everything else |
| `BoundedQueue.UninterruptedSize` | libs/can-core/include/can_core/bounded_spsc_queue.hpp:41-45 | a size asked by either thread without interruption is the number of unread values |
| `TwaiReceiver.CanReceiver.EnqueueReceivedFrame` | src/infrastructure/esp_idf_twai_receiver.cpp:276-318 | the built frame, status included, is queued or counted as overrun, and the accounts balance |
| `TwaiReceiver.CanReceiver.TryReceive` | src/infrastructure/esp_idf_twai_receiver.cpp:153-159 | the first queued frame is handed out and counted |
| `TwaiReceiver.CanReceiver.Restart` | src/infrastructure/esp_idf_twai_receiver.cpp:98-100 | clearing before resetting leaves balanced accounts |
| `ReceivePath.AccountsBalance` | src/infrastructure/esp_idf_twai_receiver.cpp:153-318 | with both threads between calls, received is queued plus overrun, queued is dequeued plus depth, and the missing sequence numbers are the overruns |
| `ReceivePath.ReceivedWhole` | src/infrastructure/esp_idf_twai_receiver.cpp:276-318 | a frame that the application does not interrupt is numbered, published and counted, and the high water raised to the depth |
| `ReceivePath.OverrunWhole` | src/infrastructure/esp_idf_twai_receiver.cpp:276-318 | without room it is numbered and counted as an overrun, and the queue is left alone |
| `ReceivePath.HandedOutWhole` | src/infrastructure/esp_idf_twai_receiver.cpp:153-159 | an uninterrupted receive hands out the first unread frame and counts it, if there is one |
| `ReceivePath.DeliveryIncreases` | src/infrastructure/esp_idf_twai_receiver.cpp:153-159 | frames are handed out with strictly increasing sequence numbers at every moment of every interleaving |
| `ReceivePath.ResetNeedsEmptyQueue` | src/infrastructure/esp_idf_twai_receiver.cpp:213-230 | resetting the statistics and the numbering leaves the whole accounts in balance exactly when the queue is empty; resetting the statistics alone, exactly when also no frame was numbered |
| `VehicleAssembly.VehicleStateAssembler.Consume` | src/infrastructure/vehicle_state_assembler.cpp:22-47 | acceptance, signals and statistics of a frame |
| `VehicleAssembly.VehicleStateAssembler.ValidateBatch` | src/infrastructure/vehicle_state_assembler.cpp:94-111 | the nested loop accepts exactly small batches of in-range signals without repetition |
| `VehicleAssembly.ConsumedSignal` | src/infrastructure/vehicle_state_assembler.cpp:152-158 | a rejected frame changes no signal; an accepted one stores exactly what it carries |
| `VehicleAssembly.FreshExactly` | include/bmw_remote/infrastructure/vehicle_state_assembler.hpp:87-100 | a signal is fresh exactly when its age modulo 2^32 is allowed, which is its real age being allowed exactly below 2^32 ms or where the wrapped age is not allowed either |
| `VehicleAssembly.LiveFreshness` | src/infrastructure/vehicle_state_assembler.cpp:49-74 | in a live run that age is counted from the last frame that carried the signal |
| `VehicleAssembly.OldReadsFresh` | include/bmw_remote/infrastructure/vehicle_state_assembler.hpp:87-100 | a signal last seen 2^32 ms ago reads as fresh |
| `SnapshotValues.LastSeenExactly` | src/infrastructure/vehicle_state_assembler.cpp:152-229 | the last value seen of a signal is the value, and its time the time, of the last accepted frame that carried it |
| `SnapshotValues.LiveSnapshot` | src/infrastructure/vehicle_state_assembler.cpp:49-74 | in every live run each of the ten fields shows exactly the last value seen of its own signal, judged by its own maximum age |
| `SnapshotValues.ApprovedExactlyBySeen` | src/application/safety_policy.cpp:17-172 | an assessment is approved on such a snapshot exactly when the last frames show what it needs, recently enough; so a start needs a last gear of park, or of neutral in a permitted manual gearbox |
| `SnapshotValues.FateExactly` | src/infrastructure/vehicle_state_assembler.cpp:22-150 | a frame is refused exactly when malformed, undecodable, or carrying no signals, too many, one out of its range or one twice |
| `SnapshotValues.StatisticsCount` | src/infrastructure/vehicle_state_assembler.cpp:22-47 | the statistics count, modulo 2^32, the frames of each fate and the signals stored |
| `TraceReplayObjects.CanTraceReplay.AdvanceTo` | src/infrastructure/can_trace_replay.cpp:10-37 | the loop replays as the advance function, to the first rejection |
| `TraceReplayObjects.CanTraceReplay.constructor` | src/infrastructure/can_trace_replay.cpp:43-60 | the trace is valid exactly when all frames are and time never runs back |
| `TraceReplayObjects.ReplayVehicleGateway.RequestState` | src/infrastructure/replay_vehicle_gateway.cpp:14-24 | the request replays to the elapsed time, or reports why not |
| `TraceReplayObjects.ReplayVehicleGateway.SetElapsedTime` | src/infrastructure/replay_vehicle_gateway.cpp:26-36 | time running backwards is refused and remembered |
| `TraceReplay.IncrementalIsOneShot` | src/infrastructure/can_trace_replay.cpp:10-37 | two advances leave the cursor and signals of one; they leave its statistics exactly when the first was not stopped by a rejected frame |
| `TraceReplay.ManyStepsAreOne` | src/infrastructure/can_trace_replay.cpp:10-37 | on an accepted trace any non-decreasing times leave what the last alone leaves, statistics included |
| `TraceReplay.ReplayedSignalsAreLast` | src/infrastructure/vehicle_state_assembler.cpp:152-158 | each stored signal is that of the last replayed frame carrying it |
| `TraceReplay.ReplayAgeIsReal` | include/bmw_remote/infrastructure/vehicle_state_assembler.hpp:87-100 | on a replay a signal is fresh exactly when its real age is allowed |
| `ReplayVerdicts.TraceExactly` | src/infrastructure/can_trace_replay.cpp:43-60 | a trace is valid exactly when no frame is malformed and no two frames are out of order |
| `ReplayVerdicts.StopsExactly` | src/infrastructure/can_trace_replay.cpp:10-37 | the frames passed over were due and accepted, and the one an advance stops at is not due or not accepted |
| `ReplayVerdicts.BatchExactly` | src/infrastructure/can_trace_replay.cpp:10-37 | a batch counts the frames passed over, and reports complete, stopped at a rejection or ready for more exactly when it is |
| `ReplayVerdicts.TimeExactly` | src/infrastructure/replay_vehicle_gateway.cpp:26-36 | an earlier time is refused and stops the gateway; any other becomes its time |
| `ReplayVerdicts.RequestExactly` | src/infrastructure/replay_vehicle_gateway.cpp:14-24 | a request replays to the gateway's time exactly when time never ran back and the trace is usable; else it moves nothing and says why |
| `SnapshotValues.ReplaySnapshot` | src/infrastructure/can_trace_replay.cpp:10-37 | in every replay each field shows the last value of the frames replayed |
| `SnapshotValues.GatewaySnapshot` | src/infrastructure/replay_vehicle_gateway.cpp:14-49 | whatever times the gateway is asked for, its snapshot shows, field by field, the last value of the frames replayed so far |
| `TraceReplayObjects.SnapshotIsOneShot` | src/infrastructure/replay_vehicle_gateway.cpp:14-49 | after any requests the snapshot is that of one request at the last time |
| `TraceReplayObjects.TimeStaysInvalid` | src/infrastructure/replay_vehicle_gateway.cpp:14-36 | time that once ran backwards is refused until a reset |
| `DiagnosticJournal.DiagnosticJournal.Append` | src/infrastructure/diagnostic_journal.cpp:165-181 | the ring refines appending to a log, with its counters |
| `DiagnosticJournal.DiagnosticJournal.Read` | src/infrastructure/diagnostic_journal.cpp:145-155 | reading index i returns the i-th of the last 32 records at most |
| `DiagnosticJournal.DiagnosticJournal.Observe` | src/infrastructure/diagnostic_journal.cpp:70-118 | which records an event leaves, in which order |
| `DiagnosticJournal.ReadsAreConsecutive` | src/infrastructure/diagnostic_journal.cpp:145-181 | records read back carry consecutive sequence numbers and end with the last |
| `DiagnosticJournal.JournalReconstructsState` | src/infrastructure/diagnostic_journal.cpp:70-118 | the transitions in the journal lead, step by step, from idle to the controller's state |
| `DiagnosticJournal.RefusalsAreNamed` | src/infrastructure/diagnostic_journal.cpp:28-47 | a refusal is recorded exactly when the controller refuses, with its reason |
| `JournalContents.RecordsExactly` | src/infrastructure/diagnostic_journal.cpp:70-118 | a decision leaves exactly the records that tell of it, each kind once and in order, all fields given |
| `JournalContents.JournalIsOfSteps` | src/infrastructure/diagnostic_journal.cpp:70-118 | in every run each record of the journal tells of one of its steps |
| `JournalContents.StepsAreJournaled` | src/infrastructure/diagnostic_journal.cpp:70-118 | and every record that tells of a step is in the journal |
| `JournalContents.FaultIsJournaled` | src/infrastructure/diagnostic_journal.cpp:70-118 | every fall into fault leaves its event, time, states, code and reason |
| `JournalContents.CommandIsJournaled` | src/infrastructure/diagnostic_journal.cpp:70-118 | every command leaves the state and the fault it found |
| `DiagnosticJournal.UnnamedExactly` | src/infrastructure/diagnostic_journal.cpp:70-118 | a decision stores a new fault code that none of its records names exactly when an infrastructure failure with another code reaches a controller in fault |
| `DispatchJournal.UnnamedChangeExactly` | src/infrastructure/runtime.cpp:19-49 | a dispatch leaves a new fault code that no record of it names exactly when such a second fault comes from outside and is made safe without a failure |
| `DispatchJournal.SecondFaultIsNotJournaled` | src/infrastructure/runtime.cpp:19-49 | a run of the system in which the second of two failures replaces the stored code and leaves no record |
| `DispatchJournal.JournalFollowsSystem` | src/infrastructure/runtime.cpp:19-49 | in every run of the whole system, failures and safing included, the journal's transitions lead step by step to the controller's state |
| `CanonicalTrace.OverrunsExactly` | tools/can_trace_csv.cpp:102-134 | the replay reader writes past the eight data bytes exactly on lines whose first three fields parse, whose length is 9 to 255 and half the bytes of the last field, and whose last field begins with eighteen hexadecimal digits; the strict reader refuses them |
| `CanonicalTrace.NineBytesOverrun` | tools/can_trace_csv.cpp:102-134 | a row of nine zero bytes is such a line |
| `CanonicalTrace.AccentedOverruns` | tools/can_trace_csv.cpp:102-134 | so is a row of eighteen zeros and the two bytes of an accented letter under length ten |
| `CanonicalTrace.TextOverrunsExactly` | tools/can_trace_csv.cpp:138-207 | a text overruns exactly when such a line is reached with room for one more frame |
| `CanonicalTrace.SameRow` | tools/can_trace_csv.cpp:121-134 | the two readers make the same of a line exactly when it does not overrun |
| `CanonicalTrace.SameLinesExactly` | tools/canonical_trace.py:58-74 | the two programs cut a text into the same lines exactly when every carriage return is followed by a newline or is last |
| `CanonicalTraceAgreement.OverrunTextRefused` | tools/canonical_trace.py:52-57 | a text that overruns in the replay tools is refused by the strict reader |
| `CanonicalTraceAgreement.StrictTextIsAscii` | tools/canonical_trace.py:31-57 | a text the strict reader accepts is ASCII but for a mark at its start |
| `CanonicalTraceAgreement.ReadersAgree` | tools/can_trace_csv.cpp:138-207 | on every text the two programs do the same exactly when it does not overrun and either its carriage returns are each followed by a newline or last, or the strict reader refuses it |
| `CanonicalTraceAgreement.LoneReturnsDiffer` | tools/canonical_trace.py:58-109 | a header ended by a carriage return alone, with a row after it, is read by one and refused by the other |
| `CanonicalTrace.TraceRoundTrip` | tools/canonical_trace.py:58-131 | reading a written trace returns it, for every valid, zero-based, ordered trace |
| `CanonicalTraceAgreement.WrittenTraceReplays` | tools/can_trace_csv.cpp:138-207 | the replay tools read a written trace as the same frames |
| `CanonicalTraceReaders.ParseCanonicalTrace` | tools/canonical_trace.py:58-109 | the reading loop of the strict reader |
| `CanonicalTraceReaders.SplitFields` | tools/can_trace_csv.cpp:24-43 | the cutting loop accepts exactly five fields |
| `CanonicalTraceReaders.ParseData` | tools/can_trace_csv.cpp:102-119 | the loop fills the data with what the digits say, refuses, or comes to the end of the array |
| `CanonicalTraceReaders.ParseFrame` | tools/can_trace_csv.cpp:121-134 | the fields in their machine widths, the fill, and only then the length, to a valid frame |
| `CanonicalTraceReaders.ParseCanonicalCanTrace` | tools/can_trace_csv.cpp:138-207 | the reading loop of the replay reader |
| `Text.ValueOfPrinted` | tools/canonical_trace.py:119-131 | printed numbers read back, in both bases |
| `SettingsFile.ParseUserSettings` | tools/user_settings_file.cpp:236-301 | the line loop accepts and fills as the parse function does |
| `SettingsFile.EntriesParse` | tools/user_settings_file.cpp:320-384 | after each written entry exactly the keys so far are filled in |
| `SettingsFileGrammar.LineExactly` | tools/user_settings_file.cpp:244-284 | on its characters: an empty line is skipped, a line that sets a key has it take the value, every other line is refused |
| `SettingsFileGrammar.ApplyExactly` | tools/user_settings_file.cpp:90-185 | a key takes a value exactly when it understands it, keeps what it means in its own width, and leaves every other key alone |
| `SettingsFileGrammar.FileExactly` | tools/user_settings_file.cpp:236-284 | a file parses exactly when every line is empty or gives a key something it understands and no key is given twice; the settings hold what is given and defaults elsewhere |
| `SettingsFileGrammar.TextExactly` | tools/user_settings_file.cpp:236-301 | a text is accepted exactly when its lines are well formed and what they hold is within bounds |
| `SettingsFile.FileRoundTrip` | tools/user_settings_file.cpp:236-384 | parsing the text that is written returns the settings, for all valid settings with whole-minute and whole-second durations |

## Left out

- `JournalRuns.StaysSafe`: assumes of the storage that writes touch one slot, that a write or commit reporting success took full effect, and that a slot torn between byte 13 and byte 51 does not happen to match its checksum; `JournalRuns.TearsRejected` proves the other tears rejected, and storage that shows nothing before its commit needs no such assumption.
- `SettingsEndpoint.WrittenIsReadBack`: requires that the save did not disturb the other slot and that the read can read the written one; without the latter it is false (see `SettingsJournal.LoadAfterSave`).
- `SupervisorClockRuns.PollBoundsRealAges`: assumes inputs recur within 2^31 ms of non-decreasing real time, as a counter of 32 bits needs.
- `SpscQueue.AlwaysSound`: takes atomic accesses as sequentially consistent, and the 64-bit counters as unbounded.
- `CounterField.Extract`: keeps the packed bits as a number; setting a bit above all those set is adding its weight.
- `CanonicalTraceAgreement.ReadersAgree`: compares results, not error messages. A text is the bytes of its file; the strict reader decodes them first, which changes nothing, because it refuses every text with a byte beyond ASCII outside the mark (`CanonicalTraceAgreement.StrictTextIsAscii`).
- `CanonicalTrace.SameRow`: reads decimal text of any length as a number; current CPython refuses one of more than 4300 digits, which the C++ reader accepts when the excess is leading zeros.
- `CanonicalTraceReaders.ParseData`: ends where the fill would leave the array; what the program does after that write is not defined and not modelled.
- `SettingsFile.FileRoundTrip`: is about the text of the file; replacing the file on disk is file-system behaviour.
- `ReceivePath.AccountsBalance`: raises the high-water mark in one step instead of a compare-and-exchange loop.
- `VehicleAssembly.VehicleStateAssembler.Consume`: keeps the fourteen stored signals in one map; the temperature and regeneration signals are stored but not part of the snapshot, because neither policy nor controller reads them.
- Profile readiness is one boolean of the controller's configuration; the reasons it reports are not modelled.
- The telemetry monitor is not part of this model.
- The serial and flash drivers, tasks and interrupts of the target, the configurator, simulator and importers: foreign calls and user interface.
- Printing tables, the feature catalogue, the inhibitor and start-observer decoders and the synthetic encoder: independent tables and decoders of one branch each, which no property above depends on.

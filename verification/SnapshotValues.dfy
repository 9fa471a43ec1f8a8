/**
 * What the snapshot handed to the safety policy shows: for every field, the
 * value of the last frame that carried that field's own signal, and how old it
 * is. Over live runs and replays alike.
 */
module SnapshotValues {
  import opened CanFrames
  import opened Clock32
  import opened Options
  import opened SafetyPolicy
  import Replaying = TraceReplay
  import Gateways = TraceReplayObjects
  import opened Vehicle
  import opened VehicleAssembly

  /** A value and the real time of the frame that carried it. */
  datatype Seen = Seen(value: int, realMs: nat)

  /** The value a batch gives a signal, if it carries it. */
  function ValueIn(batch: seq<DecodedSignal>, s: VehicleSignal): Option<int> {
    if batch == [] then None
    else if batch[|batch| - 1].signal == s then Some(batch[|batch| - 1].value)
    else ValueIn(batch[..|batch| - 1], s)
  }

  /** The last value of a signal that was carried, and when. */
  function LastSeen(decode: Decoder, frames: seq<CanFrame>, s: VehicleSignal): Option<Seen> {
    if frames == [] then None
    else
      var last := frames[|frames| - 1];
      match ValueIn(BatchOf(decode, last), s)
      case Some(v) => Some(Seen(v, last.RealMs()))
      case None => LastSeen(decode, frames[..|frames| - 1], s)
  }

  lemma {:induction false} ValueInCarries(batch: seq<DecodedSignal>, s: VehicleSignal)
    ensures ValueIn(batch, s).Some? ==> Carries(batch, s, ValueIn(batch, s).value)
    ensures ValueIn(batch, s).None? ==> forall v :: !Carries(batch, s, v)
  {
    if batch != [] {
      var front := batch[..|batch| - 1];
      ValueInCarries(front, s);
      forall v
        ensures Carries(front, s, v) ==> Carries(batch, s, v)
        ensures Carries(batch, s, v) ==> Carries(front, s, v) || batch[|batch| - 1] == DecodedSignal(s, v)
      {
        if i :| 0 <= i < |front| && front[i] == DecodedSignal(s, v) {
          assert batch[i] == DecodedSignal(s, v);
        }
        if i :| 0 <= i < |batch| && batch[i] == DecodedSignal(s, v) {
          assert i < |front| ==> front[i] == DecodedSignal(s, v);
        }
      }
      if batch[|batch| - 1].signal == s {
        assert Carries(batch, s, batch[|batch| - 1].value);
      }
    }
  }

  /** A store holds, of every signal, what was last seen of it, stamped with the wrapped time. */
  ghost predicate Reflects(decode: Decoder, frames: seq<CanFrame>, stored: Signals) {
    forall s ::
      match LastSeen(decode, frames, s)
      case None => s !in stored
      case Some(seen) => s in stored && stored[s] == StoredSignal(seen.value, Wrap(seen.realMs))
  }

  lemma {:induction false} AssemblyReflects(decode: Decoder, frames: seq<CanFrame>)
    ensures Reflects(decode, frames, ConsumedAll(decode, frames).stored)
  {
    if frames == [] {
    } else {
      var front, last := frames[..|frames| - 1], frames[|frames| - 1];
      AssemblyReflects(decode, front);
      var before := ConsumedAll(decode, front);
      forall s
        ensures match LastSeen(decode, frames, s)
                case None => s !in ConsumedAll(decode, frames).stored
                case Some(seen) =>
                  s in ConsumedAll(decode, frames).stored
                  && ConsumedAll(decode, frames).stored[s] == StoredSignal(seen.value, Wrap(seen.realMs))
      {
        StepReflects(decode, before, last, s);
      }
    }
  }

  lemma StepReflects(decode: Decoder, a: Assembly, f: CanFrame, s: VehicleSignal)
    ensures var stored := Consumed(decode, a, f).stored;
            match ValueIn(BatchOf(decode, f), s)
            case Some(v) => s in stored && stored[s] == StoredSignal(v, Wrap(f.RealMs()))
            case None => (s in stored <==> s in a.stored) && (s in stored ==> stored[s] == a.stored[s])
  {
    ValueInCarries(BatchOf(decode, f), s);
    var value := ValueIn(BatchOf(decode, f), s);
    hide BatchOf;
    hide ValueIn;
    hide Consumed;
    hide Carries;
    ConsumedSignal(decode, a, f, s, if value.Some? then value.value else 0);
  }

  // ---------- the values are in range ----------

  lemma {:induction false} SeenInRange(decode: Decoder, frames: seq<CanFrame>, s: VehicleSignal)
    requires LastSeen(decode, frames, s).Some?
    ensures ValidSignal(DecodedSignal(s, LastSeen(decode, frames, s).value.value))
  {
    hide ValidSignal;
    var front, last := frames[..|frames| - 1], frames[|frames| - 1];
    if ValueIn(BatchOf(decode, last), s).Some? {
      ValueInCarries(BatchOf(decode, last), s);
      BatchInRange(decode, last, s, ValueIn(BatchOf(decode, last), s).value);
    } else {
      SeenInRange(decode, front, s);
    }
  }

  lemma BatchInRange(decode: Decoder, f: CanFrame, s: VehicleSignal, v: int)
    requires Carries(BatchOf(decode, f), s, v)
    ensures ValidSignal(DecodedSignal(s, v))
  {
    hide ValidSignal;
  }

  // ---------- the fields ----------

  /** The quality of a field is that of its own signal, by its own maximum age. */
  predicate Judged<T>(field: Observed<T>, seen: Option<Seen>, nowMs: u32, maximumAgeMs: u32) {
    match seen
    case None => field.quality == Unavailable
    case Some(x) => field.quality == if (nowMs - Wrap(x.realMs)) % TWO32 <= maximumAgeMs then Fresh else Stale
  }

  predicate ShowsNumber(field: Observed<u16>, seen: Option<Seen>) {
    field.value == if seen.Some? then seen.value.value else 0
  }

  predicate ShowsFlag(field: Observed<bool>, seen: Option<Seen>) {
    field.value <==> seen.Some? && seen.value.value == 1
  }

  /** The place of a kind of gearbox among the declared ones. */
  function TransmissionOrdinal(t: Transmission): int {
    match t
    case UnknownTransmission => 0
    case Automatic => 1
    case Manual => 2
  }

  /** The place of a gear among the declared ones. */
  function GearOrdinal(g: Gear): int {
    match g
    case UnknownGear => 0
    case Park => 1
    case Neutral => 2
    case Reverse => 3
    case Drive => 4
  }

  /** Every field of a snapshot shows the last value seen of its own signal, judged by its own age. */
  ghost predicate SnapshotOf(c: Freshness, decode: Decoder, frames: seq<CanFrame>, nowMs: u32, v: VehicleState) {
    && ShowsNumber(v.batteryMillivolts, LastSeen(decode, frames, BatteryMillivolts))
    && Judged(v.batteryMillivolts, LastSeen(decode, frames, BatteryMillivolts), nowMs, c.batteryMaximumAgeMs)
    && ShowsNumber(v.engineRpm, LastSeen(decode, frames, EngineRpm))
    && Judged(v.engineRpm, LastSeen(decode, frames, EngineRpm), nowMs, c.engineRpmMaximumAgeMs)
    && ShowsFlag(v.hoodClosed, LastSeen(decode, frames, HoodClosed))
    && Judged(v.hoodClosed, LastSeen(decode, frames, HoodClosed), nowMs, c.bodyMaximumAgeMs)
    && ShowsFlag(v.doorsClosed, LastSeen(decode, frames, DoorsClosed))
    && Judged(v.doorsClosed, LastSeen(decode, frames, DoorsClosed), nowMs, c.bodyMaximumAgeMs)
    && ShowsFlag(v.trunkClosed, LastSeen(decode, frames, TrunkClosed))
    && Judged(v.trunkClosed, LastSeen(decode, frames, TrunkClosed), nowMs, c.bodyMaximumAgeMs)
    && ShowsFlag(v.brakePressed, LastSeen(decode, frames, VehicleSignal.BrakePressed))
    && Judged(v.brakePressed, LastSeen(decode, frames, VehicleSignal.BrakePressed), nowMs, c.bodyMaximumAgeMs)
    && ShowsFlag(v.parkingBrakeApplied, LastSeen(decode, frames, ParkingBrakeApplied))
    && Judged(v.parkingBrakeApplied, LastSeen(decode, frames, ParkingBrakeApplied), nowMs, c.bodyMaximumAgeMs)
    && ShowsFlag(v.criticalFaultPresent, LastSeen(decode, frames, CriticalFaultPresent))
    && Judged(v.criticalFaultPresent, LastSeen(decode, frames, CriticalFaultPresent), nowMs, c.faultMaximumAgeMs)
    && TransmissionOrdinal(v.transmission.value) == ValueOr(LastSeen(decode, frames, TransmissionKind))
    && Judged(v.transmission, LastSeen(decode, frames, TransmissionKind), nowMs, c.transmissionMaximumAgeMs)
    && GearOrdinal(v.gear.value) == ValueOr(LastSeen(decode, frames, SelectedGear))
    && Judged(v.gear, LastSeen(decode, frames, SelectedGear), nowMs, c.transmissionMaximumAgeMs)
  }

  function ValueOr(seen: Option<Seen>): int {
    if seen.Some? then seen.value.value else 0
  }

  lemma NumberShows(stored: Signals, s: VehicleSignal, nowMs: u32, maximumAgeMs: u32, seen: Option<Seen>)
    requires match seen
             case None => s !in stored
             case Some(x) => s in stored && stored[s] == StoredSignal(x.value, Wrap(x.realMs)) && 0 <= x.value < 0x1_0000
    ensures ShowsNumber(Number(stored, s, nowMs, maximumAgeMs), seen)
    ensures Judged(Number(stored, s, nowMs, maximumAgeMs), seen, nowMs, maximumAgeMs)
  {
  }

  lemma FlagShows(stored: Signals, s: VehicleSignal, nowMs: u32, maximumAgeMs: u32, seen: Option<Seen>)
    requires match seen
             case None => s !in stored
             case Some(x) => s in stored && stored[s] == StoredSignal(x.value, Wrap(x.realMs)) && 0 <= x.value <= 1
    ensures ShowsFlag(Flag(stored, s, nowMs, maximumAgeMs), seen)
    ensures Judged(Flag(stored, s, nowMs, maximumAgeMs), seen, nowMs, maximumAgeMs)
  {
  }

  lemma KindShows(stored: Signals, nowMs: u32, maximumAgeMs: u32, kind: Option<Seen>, gear: Option<Seen>)
    requires match kind
             case None => TransmissionKind !in stored
             case Some(x) =>
               TransmissionKind in stored && stored[TransmissionKind] == StoredSignal(x.value, Wrap(x.realMs)) && 0 <= x.value <= 2
    requires match gear
             case None => SelectedGear !in stored
             case Some(x) => SelectedGear in stored && stored[SelectedGear] == StoredSignal(x.value, Wrap(x.realMs)) && 0 <= x.value <= 4
    ensures TransmissionOrdinal(TransmissionFrom(ValueOf(stored, TransmissionKind))) == ValueOr(kind)
    ensures GearOrdinal(GearFrom(ValueOf(stored, SelectedGear))) == ValueOr(gear)
    ensures Judged(Observed(TransmissionFrom(ValueOf(stored, TransmissionKind)), QualityOf(stored, TransmissionKind, nowMs, maximumAgeMs)),
                   kind, nowMs, maximumAgeMs)
    ensures Judged(Observed(GearFrom(ValueOf(stored, SelectedGear)), QualityOf(stored, SelectedGear, nowMs, maximumAgeMs)),
                   gear, nowMs, maximumAgeMs)
  {
  }

  /** A stored signal as the field lemmas want it. */
  lemma SeenOf(decode: Decoder, frames: seq<CanFrame>, stored: Signals, s: VehicleSignal)
    requires Reflects(decode, frames, stored)
    ensures match LastSeen(decode, frames, s)
            case None => s !in stored
            case Some(x) =>
              s in stored && stored[s] == StoredSignal(x.value, Wrap(x.realMs)) && ValidSignal(DecodedSignal(s, x.value))
  {
    hide ValidSignal;
    if LastSeen(decode, frames, s).Some? {
      SeenInRange(decode, frames, s);
    }
  }

  lemma NumberField(decode: Decoder, frames: seq<CanFrame>, stored: Signals, s: VehicleSignal, nowMs: u32, maximumAgeMs: u32)
    requires Reflects(decode, frames, stored) && s in {BatteryMillivolts, EngineRpm}
    ensures ShowsNumber(Number(stored, s, nowMs, maximumAgeMs), LastSeen(decode, frames, s))
    ensures Judged(Number(stored, s, nowMs, maximumAgeMs), LastSeen(decode, frames, s), nowMs, maximumAgeMs)
  {
    SeenOf(decode, frames, stored, s);
    hide Reflects;
    hide LastSeen;
    NumberShows(stored, s, nowMs, maximumAgeMs, LastSeen(decode, frames, s));
  }

  lemma FlagField(decode: Decoder, frames: seq<CanFrame>, stored: Signals, s: VehicleSignal, nowMs: u32, maximumAgeMs: u32)
    requires Reflects(decode, frames, stored)
    requires s in {HoodClosed, DoorsClosed, TrunkClosed, VehicleSignal.BrakePressed, ParkingBrakeApplied, CriticalFaultPresent}
    ensures ShowsFlag(Flag(stored, s, nowMs, maximumAgeMs), LastSeen(decode, frames, s))
    ensures Judged(Flag(stored, s, nowMs, maximumAgeMs), LastSeen(decode, frames, s), nowMs, maximumAgeMs)
  {
    SeenOf(decode, frames, stored, s);
    hide Reflects;
    hide LastSeen;
    FlagShows(stored, s, nowMs, maximumAgeMs, LastSeen(decode, frames, s));
  }

  lemma SnapshotReflects(c: Freshness, decode: Decoder, frames: seq<CanFrame>, stored: Signals, nowMs: u32)
    requires Reflects(decode, frames, stored)
    ensures SnapshotOf(c, decode, frames, nowMs, Snapshot(c, stored, nowMs))
  {
    SeenOf(decode, frames, stored, TransmissionKind);
    SeenOf(decode, frames, stored, SelectedGear);
    hide Reflects;
    hide LastSeen;
    hide Judged;
    hide ShowsNumber;
    hide ShowsFlag;
    hide Number;
    hide Flag;
    hide QualityOf;
    hide ValueOf;
    hide TransmissionFrom;
    hide GearFrom;
    hide TransmissionOrdinal;
    hide GearOrdinal;
    hide ValueOr;
    KindShows(stored, nowMs, c.transmissionMaximumAgeMs,
              LastSeen(decode, frames, TransmissionKind), LastSeen(decode, frames, SelectedGear));
    hide ValidSignal;
    NumberField(decode, frames, stored, BatteryMillivolts, nowMs, c.batteryMaximumAgeMs);
    NumberField(decode, frames, stored, EngineRpm, nowMs, c.engineRpmMaximumAgeMs);
    FlagField(decode, frames, stored, HoodClosed, nowMs, c.bodyMaximumAgeMs);
    FlagField(decode, frames, stored, DoorsClosed, nowMs, c.bodyMaximumAgeMs);
    FlagField(decode, frames, stored, TrunkClosed, nowMs, c.bodyMaximumAgeMs);
    FlagField(decode, frames, stored, VehicleSignal.BrakePressed, nowMs, c.bodyMaximumAgeMs);
    FlagField(decode, frames, stored, ParkingBrakeApplied, nowMs, c.bodyMaximumAgeMs);
    FlagField(decode, frames, stored, CriticalFaultPresent, nowMs, c.faultMaximumAgeMs);
  }

  /** In a live run the snapshot shows, field by field, the last value the frames carried. */
  lemma LiveSnapshot(c: Freshness, decode: Decoder, frames: seq<CanFrame>, nowMs: u32)
    ensures SnapshotOf(c, decode, frames, nowMs, Snapshot(c, ConsumedAll(decode, frames).stored, nowMs))
  {
    AssemblyReflects(decode, frames);
    hide Reflects;
    hide SnapshotOf;
    hide Snapshot;
    SnapshotReflects(c, decode, frames, ConsumedAll(decode, frames).stored, nowMs);
  }

  // ---------- replays ----------

  lemma {:induction false} AssembledIsConsumed(s: Replaying.Setup, n: nat)
    requires n <= |s.frames|
    ensures Replaying.AssembledTo(s, n) == ConsumedAll(s.decode, s.frames[..n])
  {
    hide Consumed;
    if n > 0 {
      AssembledIsConsumed(s, n - 1);
      assert s.frames[..n][..n - 1] == s.frames[..n - 1];
    }
  }

  /** In a replay the snapshot shows, field by field, the last value the replayed frames carried. */
  lemma ReplaySnapshot(c: Freshness, s: Replaying.Setup, elapsedUs: nat, nowMs: u32)
    ensures var n := Replaying.Advanced(s, Replaying.REWOUND, elapsedUs);
            && n.cursor <= |s.frames|
            && SnapshotOf(c, s.decode, s.frames[..n.cursor], nowMs, Snapshot(c, n.assembly.stored, nowMs))
  {
    Replaying.ReplayAssembles(s, Replaying.REWOUND, elapsedUs);
    var n := Replaying.Advanced(s, Replaying.REWOUND, elapsedUs);
    hide Replaying.Advanced;
    hide Replaying.AssembledTo;
    hide SnapshotOf;
    hide Snapshot;
    AssembledIsConsumed(s, n.cursor);
    LiveSnapshot(c, s.decode, s.frames[..n.cursor], nowMs);
  }

  /** A replay's signals are those of the frames before its cursor. */
  ghost predicate FollowsTrace(s: Replaying.Setup, r: Replaying.Replay) {
    r.cursor <= |s.frames| && r.assembly.stored == Replaying.AssembledTo(s, r.cursor).stored
  }

  lemma {:induction false} RequestsFollowTrace(s: Replaying.Setup, times: seq<u32>)
    ensures FollowsTrace(s, Gateways.AfterRequests(s, Gateways.Opened(s), times).replay)
  {
    hide Replaying.Advanced;
    hide Replaying.BatchAfter;
    hide Replaying.ValidTrace;
    if times != [] {
      RequestsFollowTrace(s, times[..|times| - 1]);
      var g := Gateways.AfterTime(Gateways.AfterRequests(s, Gateways.Opened(s), times[..|times| - 1]), times[|times| - 1]);
      Replaying.ReplayAssembles(s, g.replay, g.elapsedMs * 1_000);
    }
  }

  /** Whatever times the gateway is asked for, its snapshot shows, field by field, the last value of the frames replayed so far. */
  lemma GatewaySnapshot(c: Freshness, s: Replaying.Setup, times: seq<u32>)
    ensures var g := Gateways.AfterRequests(s, Gateways.Opened(s), times);
            && g.replay.cursor <= |s.frames|
            && SnapshotOf(c, s.decode, s.frames[..g.replay.cursor], g.elapsedMs,
                          Snapshot(c, g.replay.assembly.stored, g.elapsedMs))
  {
    RequestsFollowTrace(s, times);
    var g := Gateways.AfterRequests(s, Gateways.Opened(s), times);
    hide Gateways.AfterRequests;
    hide Replaying.AssembledTo;
    hide SnapshotOf;
    hide Snapshot;
    AssembledIsConsumed(s, g.replay.cursor);
    LiveSnapshot(c, s.decode, s.frames[..g.replay.cursor], g.elapsedMs);
  }

  // ---------- what last seen means ----------

  /** The frame that was last to carry a signal, and the value it carried. */
  ghost predicate SeenAt(decode: Decoder, frames: seq<CanFrame>, s: VehicleSignal, i: nat, value: int) {
    && LastCarrier(decode, frames, s, i)
    && Carries(BatchOf(decode, frames[i]), s, value)
  }

  /** A value was last seen exactly when some frame carried the signal, and it is the value and the time of the last such frame. */
  lemma {:induction false} LastSeenExactly(decode: Decoder, frames: seq<CanFrame>, s: VehicleSignal)
    ensures LastSeen(decode, frames, s).Some? <==> exists i: nat, v :: SeenAt(decode, frames, s, i, v)
    ensures forall i: nat, v :: SeenAt(decode, frames, s, i, v) ==> LastSeen(decode, frames, s) == Some(Seen(v, frames[i].RealMs()))
  {
    hide CanFrame.RealMs;
    hide BatchOf;
    hide ValueIn;
    hide Carries;
    if frames != [] {
      var front, last := frames[..|frames| - 1], frames[|frames| - 1];
      var value := ValueIn(BatchOf(decode, last), s);
      LastSeenExactly(decode, front, s);
      ValueInCarries(BatchOf(decode, last), s);
      hide LastSeen;
      if value.Some? {
        CarriedByLast(decode, frames, s, value.value);
      } else {
        CarriedBefore(decode, frames, BatchOf(decode, last), s);
        if i: nat, v :| SeenAt(decode, front, s, i, v) {
          assert SeenAt(decode, frames, s, i, v);
        }
      }
      LastSeenStep(decode, frames, s);
    }
  }

  lemma LastSeenStep(decode: Decoder, frames: seq<CanFrame>, s: VehicleSignal)
    requires frames != []
    ensures var value := ValueIn(BatchOf(decode, frames[|frames| - 1]), s);
            LastSeen(decode, frames, s)
            == if value.Some? then Some(Seen(value.value, frames[|frames| - 1].RealMs()))
               else LastSeen(decode, frames[..|frames| - 1], s)
  {
  }

  lemma CarriedByLast(decode: Decoder, frames: seq<CanFrame>, s: VehicleSignal, value: int)
    requires frames != [] && Carries(BatchOf(decode, frames[|frames| - 1]), s, value)
    ensures SeenAt(decode, frames, s, |frames| - 1, value)
    ensures forall i: nat, v :: SeenAt(decode, frames, s, i, v) ==> i == |frames| - 1 && v == value
  {
    hide BatchOf;
    forall i: nat, v | SeenAt(decode, frames, s, i, v)
      ensures i == |frames| - 1 && v == value
    {
      BatchesAreValid(decode, frames[|frames| - 1]);
      assert i == |frames| - 1;
      CarriedOnce(BatchOf(decode, frames[i]), s, v, value);
    }
  }

  lemma CarriedBefore(decode: Decoder, frames: seq<CanFrame>, batch: seq<DecodedSignal>, s: VehicleSignal)
    requires frames != [] && batch == BatchOf(decode, frames[|frames| - 1])
    requires forall v :: !Carries(batch, s, v)
    ensures forall i: nat, v :: SeenAt(decode, frames, s, i, v) <==> i < |frames| - 1 && SeenAt(decode, frames[..|frames| - 1], s, i, v)
  {
    hide BatchOf;
    hide Carries;
    var front := frames[..|frames| - 1];
    forall i: nat, v | i < |front|
      ensures SeenAt(decode, frames, s, i, v) <==> SeenAt(decode, front, s, i, v)
    {
      assert front[i] == frames[i];
    }
  }

  lemma BatchesAreValid(decode: Decoder, f: CanFrame)
    ensures ValidBatch(BatchOf(decode, f))
  {
  }

  /** A valid batch gives a signal one value. */
  lemma CarriedOnce(batch: seq<DecodedSignal>, s: VehicleSignal, v: int, w: int)
    requires ValidBatch(batch) && Carries(batch, s, v) && Carries(batch, s, w)
    ensures v == w
  {
  }

  // ---------- what an approval rests on ----------

  /** The last value seen of a signal, if it is not older than allowed. */
  function FreshValue(decode: Decoder, frames: seq<CanFrame>, s: VehicleSignal, nowMs: u32, maximumAgeMs: u32): Option<int> {
    match LastSeen(decode, frames, s)
    case None => None
    case Some(x) => if (nowMs - Wrap(x.realMs)) % TWO32 <= maximumAgeMs then Some(x.value) else None
  }

  /** The last frames of the car show a gearbox out of gear: Park in an automatic one, or Neutral in a manual one where allowed. */
  ghost predicate SeenOutOfGear(p: SafetyPolicyConfig, kind: Option<int>, gear: Option<int>) {
    (kind == Some(1) && gear == Some(1)) || (kind == Some(2) && p.allowManualTransmission && gear == Some(2))
  }

  /** What the last frames of the car must show, and recently enough, for an assessment. */
  ghost predicate SeenReady(p: SafetyPolicyConfig, c: Freshness, purpose: Purpose,
                            decode: Decoder, frames: seq<CanFrame>, nowMs: u32) {
    var battery := FreshValue(decode, frames, BatteryMillivolts, nowMs, c.batteryMaximumAgeMs);
    var rpm := FreshValue(decode, frames, EngineRpm, nowMs, c.engineRpmMaximumAgeMs);
    && battery.Some? && battery.value >= p.minimumBatteryMillivolts
    && rpm.Some?
    && (purpose == ForStart ==> rpm.value < p.runningRpmThreshold)
    && (purpose == ForRemoteRun || purpose == ForTakeover ==> rpm.value >= p.runningRpmThreshold)
    && FreshValue(decode, frames, ParkingBrakeApplied, nowMs, c.bodyMaximumAgeMs) == Some(1)
    && FreshValue(decode, frames, CriticalFaultPresent, nowMs, c.faultMaximumAgeMs) == Some(0)
    && SeenOutOfGear(p, FreshValue(decode, frames, TransmissionKind, nowMs, c.transmissionMaximumAgeMs),
                     FreshValue(decode, frames, SelectedGear, nowMs, c.transmissionMaximumAgeMs))
    && (p.requireHoodClosed ==> FreshValue(decode, frames, HoodClosed, nowMs, c.bodyMaximumAgeMs) == Some(1))
    && (p.requireVehicleSecured ==> FreshValue(decode, frames, TrunkClosed, nowMs, c.bodyMaximumAgeMs) == Some(1))
    && (p.requireVehicleSecured && purpose != ForTakeover
        ==> FreshValue(decode, frames, DoorsClosed, nowMs, c.bodyMaximumAgeMs) == Some(1))
    && (purpose != ForTakeover
        ==> FreshValue(decode, frames, VehicleSignal.BrakePressed, nowMs, c.bodyMaximumAgeMs) == Some(0))
  }

  lemma NumberFresh(field: Observed<u16>, decode: Decoder, frames: seq<CanFrame>, s: VehicleSignal, nowMs: u32, maximumAgeMs: u32)
    requires ShowsNumber(field, LastSeen(decode, frames, s)) && Judged(field, LastSeen(decode, frames, s), nowMs, maximumAgeMs)
    ensures FreshValue(decode, frames, s, nowMs, maximumAgeMs) == if field.IsFresh() then Some(field.value) else None
  {
  }

  lemma FlagFresh(field: Observed<bool>, decode: Decoder, frames: seq<CanFrame>, s: VehicleSignal, nowMs: u32, maximumAgeMs: u32)
    requires ShowsFlag(field, LastSeen(decode, frames, s)) && Judged(field, LastSeen(decode, frames, s), nowMs, maximumAgeMs)
    requires s in {HoodClosed, DoorsClosed, TrunkClosed, VehicleSignal.BrakePressed, ParkingBrakeApplied, CriticalFaultPresent}
    ensures FreshValue(decode, frames, s, nowMs, maximumAgeMs)
            == if field.IsFresh() then Some(if field.value then 1 else 0) else None
  {
    FlagsAreBits(decode, frames, s);
  }

  lemma FlagsAreBits(decode: Decoder, frames: seq<CanFrame>, s: VehicleSignal)
    requires s in {HoodClosed, DoorsClosed, TrunkClosed, VehicleSignal.BrakePressed, ParkingBrakeApplied, CriticalFaultPresent}
    ensures LastSeen(decode, frames, s).Some? ==> 0 <= LastSeen(decode, frames, s).value.value <= 1
  {
    if LastSeen(decode, frames, s).Some? {
      SeenInRange(decode, frames, s);
    }
  }

  lemma GearboxFresh(p: SafetyPolicyConfig, c: Freshness, decode: Decoder, frames: seq<CanFrame>, nowMs: u32, v: VehicleState)
    requires TransmissionOrdinal(v.transmission.value) == ValueOr(LastSeen(decode, frames, TransmissionKind))
    requires Judged(v.transmission, LastSeen(decode, frames, TransmissionKind), nowMs, c.transmissionMaximumAgeMs)
    requires GearOrdinal(v.gear.value) == ValueOr(LastSeen(decode, frames, SelectedGear))
    requires Judged(v.gear, LastSeen(decode, frames, SelectedGear), nowMs, c.transmissionMaximumAgeMs)
    ensures SeenOutOfGear(p, FreshValue(decode, frames, TransmissionKind, nowMs, c.transmissionMaximumAgeMs),
                          FreshValue(decode, frames, SelectedGear, nowMs, c.transmissionMaximumAgeMs))
       <==> v.transmission.IsFresh() && v.gear.IsFresh() && GearIsSafe(p, v.transmission.value, v.gear.value)
  {
    hide LastSeen;
  }

  /**
   * An assessment is approved on an assembled snapshot exactly when the last
   * frames of the car show what it needs, recently enough. So a start needs a
   * last gear of Park, or of Neutral in a manual gearbox where that is allowed.
   */
  lemma ApprovedExactlyBySeen(p: SafetyPolicyConfig, c: Freshness, purpose: Purpose,
                              decode: Decoder, frames: seq<CanFrame>, nowMs: u32, v: VehicleState)
    requires SnapshotOf(c, decode, frames, nowMs, v)
    ensures Assess(p, purpose, v).Approved() <==> SeenReady(p, c, purpose, decode, frames, nowMs)
  {
    ApprovedExactly(p, purpose, v);
    hide LastSeen;
    hide Assess;
    hide ShowsNumber;
    hide ShowsFlag;
    hide Judged;
    hide FreshValue;
    GearboxFresh(p, c, decode, frames, nowMs, v);
    hide SeenOutOfGear;
    hide GearIsSafe;
    hide GearOrdinal;
    hide TransmissionOrdinal;
    hide ValueOr;
    NumberFresh(v.batteryMillivolts, decode, frames, BatteryMillivolts, nowMs, c.batteryMaximumAgeMs);
    NumberFresh(v.engineRpm, decode, frames, EngineRpm, nowMs, c.engineRpmMaximumAgeMs);
    FlagFresh(v.hoodClosed, decode, frames, HoodClosed, nowMs, c.bodyMaximumAgeMs);
    FlagFresh(v.doorsClosed, decode, frames, DoorsClosed, nowMs, c.bodyMaximumAgeMs);
    FlagFresh(v.trunkClosed, decode, frames, TrunkClosed, nowMs, c.bodyMaximumAgeMs);
    FlagFresh(v.brakePressed, decode, frames, VehicleSignal.BrakePressed, nowMs, c.bodyMaximumAgeMs);
    FlagFresh(v.parkingBrakeApplied, decode, frames, ParkingBrakeApplied, nowMs, c.bodyMaximumAgeMs);
    FlagFresh(v.criticalFaultPresent, decode, frames, CriticalFaultPresent, nowMs, c.faultMaximumAgeMs);
    hide SnapshotOf;
  }

  // ---------- statistics ----------

  /** What becomes of a frame offered to the assembler. */
  datatype Fate = Refused | PassedOver | Stored

  function FateOf(decode: Decoder, f: CanFrame): Fate {
    if !Accepted(decode, f) then Refused
    else if BatchOf(decode, f) == [] then PassedOver
    else Stored
  }

  function Lowest(s: VehicleSignal): int {
    if s in {CoolantTemperatureC, EngineOilTemperatureC, TransmissionOilTemperatureC} then -40 else 0
  }

  function Highest(s: VehicleSignal): int {
    match s
    case BatteryMillivolts => 20_000
    case EngineRpm => 10_000
    case CoolantTemperatureC | EngineOilTemperatureC | TransmissionOilTemperatureC => 215
    case TransmissionKind => 2
    case SelectedGear => 4
    case DpfRegenerationActive | HoodClosed | DoorsClosed | TrunkClosed | BrakePressed | ParkingBrakeApplied | CriticalFaultPresent => 1
  }

  /** What keeps decoded signals from being stored: none or more than ten, one out of its range, or one twice. */
  ghost predicate Unacceptable(batch: seq<DecodedSignal>) {
    || |batch| == 0 || |batch| > 10
    || (exists i :: 0 <= i < |batch| && !(Lowest(batch[i].signal) <= batch[i].value <= Highest(batch[i].signal)))
    || exists i, j :: 0 <= i < j < |batch| && batch[i].signal == batch[j].signal
  }

  lemma RangeExactly(s: DecodedSignal)
    ensures ValidSignal(s) <==> Lowest(s.signal) <= s.value <= Highest(s.signal)
  {
  }

  lemma BatchExactly(batch: seq<DecodedSignal>)
    ensures batch != [] && ValidBatch(batch) <==> !Unacceptable(batch)
  {
    forall s: DecodedSignal
      ensures ValidSignal(s) <==> Lowest(s.signal) <= s.value <= Highest(s.signal)
    {
      RangeExactly(s);
    }
    hide ValidSignal;
    hide Lowest;
    hide Highest;
  }

  /**
   * A frame is refused exactly when it is malformed, cannot be decoded, or
   * carries signals that cannot be stored; it is passed over exactly when it is
   * well formed and the decoder ignores it.
   */
  lemma FateExactly(decode: Decoder, f: CanFrame)
    ensures FateOf(decode, f)
            == if Malformed(f) then Refused
               else match decode(f)
                    case IgnoredFrame => PassedOver
                    case UndecodableFrame => Refused
                    case SignalsDecoded(batch) => if Unacceptable(batch) then Refused else Stored
    ensures FateOf(decode, f) == Stored ==> decode(f).SignalsDecoded? && BatchOf(decode, f) == decode(f).signals
  {
    if decode(f).SignalsDecoded? {
      BatchExactly(decode(f).signals);
    }
    hide ValidBatch;
    hide Unacceptable;
  }

  function Count(decode: Decoder, frames: seq<CanFrame>, fate: Fate): nat {
    if frames == [] then 0
    else Count(decode, frames[..|frames| - 1], fate) + if FateOf(decode, frames[|frames| - 1]) == fate then 1 else 0
  }

  function SignalsIn(decode: Decoder, frames: seq<CanFrame>): nat {
    if frames == [] then 0 else SignalsIn(decode, frames[..|frames| - 1]) + |BatchOf(decode, frames[|frames| - 1])|
  }

  lemma WrapNext(n: nat, k: nat)
    ensures Wrap(Wrap(n) + k) == Wrap(n + k)
  {
  }

  lemma CountedByFate(decode: Decoder, s: Statistics, f: CanFrame)
    ensures var n, fate := Counted(s, decode, f), FateOf(decode, f);
            && n.consumed == Wrap(s.consumed + 1)
            && n.rejected == (if fate == Refused then Wrap(s.rejected + 1) else s.rejected)
            && n.ignored == (if fate == PassedOver then Wrap(s.ignored + 1) else s.ignored)
            && n.decoded == (if fate == Stored then Wrap(s.decoded + 1) else s.decoded)
            && n.signals == Wrap(s.signals + |BatchOf(decode, f)|)
  {
    hide ValidBatch;
  }

  /** The statistics count, modulo 2^32, the frames offered, refused, passed over and decoded, and the signals stored. */
  lemma {:induction false} StatisticsCount(decode: Decoder, frames: seq<CanFrame>)
    ensures var s := ConsumedAll(decode, frames).statistics;
            && s.consumed == Wrap(|frames|)
            && s.rejected == Wrap(Count(decode, frames, Refused))
            && s.ignored == Wrap(Count(decode, frames, PassedOver))
            && s.decoded == Wrap(Count(decode, frames, Stored))
            && s.signals == Wrap(SignalsIn(decode, frames))
  {
    hide BatchOf;
    hide FateOf;
    hide Counted;
    if frames != [] {
      var front, last := frames[..|frames| - 1], frames[|frames| - 1];
      StatisticsCount(decode, front);
      CountedByFate(decode, ConsumedAll(decode, front).statistics, last);
      WrapNext(|front|, 1);
      WrapNext(Count(decode, front, FateOf(decode, last)), 1);
      WrapNext(SignalsIn(decode, front), |BatchOf(decode, last)|);
      hide Wrap;
    }
  }
}

/** Assembling the vehicle snapshot from decoded frames, and judging the freshness of each signal. */
module VehicleAssembly {
  import opened CanFrames
  import opened Clock32
  import opened Vehicle

  datatype VehicleSignal =
    | BatteryMillivolts | EngineRpm | CoolantTemperatureC | EngineOilTemperatureC | TransmissionOilTemperatureC
    | DpfRegenerationActive | HoodClosed | DoorsClosed | TrunkClosed | BrakePressed | ParkingBrakeApplied
    | TransmissionKind | SelectedGear | CriticalFaultPresent

  datatype DecodedSignal = DecodedSignal(signal: VehicleSignal, value: int)

  const MAXIMUM_SIGNALS: nat := 10

  datatype DecodeOutcome = IgnoredFrame | UndecodableFrame | SignalsDecoded(signals: seq<DecodedSignal>)

  /** Whatever decoder the vehicle profile supplies. */
  type Decoder = CanFrame -> DecodeOutcome

  datatype StoredSignal = StoredSignal(value: int, observedAtMs: u32)

  type Signals = map<VehicleSignal, StoredSignal>

  datatype Statistics = Statistics(consumed: u32, decoded: u32, ignored: u32, rejected: u32, signals: u32)

  datatype Assembly = Assembly(stored: Signals, statistics: Statistics)

  const NO_STATISTICS := Statistics(0, 0, 0, 0, 0)
  const NOTHING_OBSERVED := Assembly(map[], NO_STATISTICS)

  predicate ValidSignal(s: DecodedSignal) {
    match s.signal
    case BatteryMillivolts => 0 <= s.value <= 20_000
    case EngineRpm => 0 <= s.value <= 10_000
    case CoolantTemperatureC | EngineOilTemperatureC | TransmissionOilTemperatureC => -40 <= s.value <= 215
    case TransmissionKind => 0 <= s.value <= 2
    case SelectedGear => 0 <= s.value <= 4
    case _ => 0 <= s.value <= 1
  }

  /** Few enough, all in range, no signal twice. */
  predicate ValidBatch(batch: seq<DecodedSignal>) {
    && |batch| <= MAXIMUM_SIGNALS
    && (forall i :: 0 <= i < |batch| ==> ValidSignal(batch[i]))
    && (forall i, j :: 0 <= i < j < |batch| ==> batch[i].signal != batch[j].signal)
  }

  predicate Accepted(decode: Decoder, f: CanFrame) {
    && f.IsValid()
    && match decode(f)
       case IgnoredFrame => true
       case UndecodableFrame => false
       case SignalsDecoded(batch) => batch != [] && ValidBatch(batch)
  }

  /** The signals an accepted frame carries. */
  function BatchOf(decode: Decoder, f: CanFrame): seq<DecodedSignal> {
    if Accepted(decode, f) && decode(f).SignalsDecoded? then decode(f).signals else []
  }

  function Applied(stored: Signals, batch: seq<DecodedSignal>, atMs: u32): Signals {
    if batch == [] then stored
    else
      var last := batch[|batch| - 1];
      Applied(stored, batch[..|batch| - 1], atMs)[last.signal := StoredSignal(last.value, atMs)]
  }

  function Counted(s: Statistics, decode: Decoder, f: CanFrame): Statistics {
    var t := s.(consumed := Wrap(s.consumed + 1));
    if !Accepted(decode, f) then t.(rejected := Wrap(s.rejected + 1))
    else if decode(f).IgnoredFrame? then t.(ignored := Wrap(s.ignored + 1))
    else t.(decoded := Wrap(s.decoded + 1), signals := Wrap(s.signals + |BatchOf(decode, f)|))
  }

  function Consumed(decode: Decoder, a: Assembly, f: CanFrame): Assembly {
    Assembly(Applied(a.stored, BatchOf(decode, f), f.TimestampMs()), Counted(a.statistics, decode, f))
  }

  // ---------- signals ----------

  lemma {:induction false} AppliedSignal(stored: Signals, batch: seq<DecodedSignal>, atMs: u32, i: nat)
    requires ValidBatch(batch) && i < |batch|
    ensures batch[i].signal in Applied(stored, batch, atMs)
    ensures Applied(stored, batch, atMs)[batch[i].signal] == StoredSignal(batch[i].value, atMs)
  {
    hide ValidSignal;
    if i < |batch| - 1 {
      AppliedSignal(stored, batch[..|batch| - 1], atMs, i);
    }
  }

  lemma {:induction false} AppliedKeeps(stored: Signals, batch: seq<DecodedSignal>, atMs: u32, s: VehicleSignal)
    requires forall i :: 0 <= i < |batch| ==> batch[i].signal != s
    ensures s in Applied(stored, batch, atMs) <==> s in stored
    ensures s in stored ==> Applied(stored, batch, atMs)[s] == stored[s]
  {
    if batch != [] {
      AppliedKeeps(stored, batch[..|batch| - 1], atMs, s);
    }
  }

  /** The position of a signal in a batch. */
  ghost predicate Carries(batch: seq<DecodedSignal>, s: VehicleSignal, value: int) {
    exists i :: 0 <= i < |batch| && batch[i] == DecodedSignal(s, value)
  }

  /** A frame that is not accepted changes no signal, and an accepted one stores exactly the values it carries. */
  lemma ConsumedSignal(decode: Decoder, a: Assembly, f: CanFrame, s: VehicleSignal, value: int)
    ensures !Accepted(decode, f) ==> Consumed(decode, a, f).stored == a.stored
    ensures Carries(BatchOf(decode, f), s, value) ==>
              s in Consumed(decode, a, f).stored && Consumed(decode, a, f).stored[s] == StoredSignal(value, f.TimestampMs())
    ensures (forall v :: !Carries(BatchOf(decode, f), s, v)) ==>
              && (s in Consumed(decode, a, f).stored <==> s in a.stored)
              && (s in a.stored ==> Consumed(decode, a, f).stored[s] == a.stored[s])
  {
    var batch := BatchOf(decode, f);
    hide ValidSignal;
    hide Applied;
    if Carries(batch, s, value) {
      var i :| 0 <= i < |batch| && batch[i] == DecodedSignal(s, value);
      AppliedSignal(a.stored, batch, f.TimestampMs(), i);
    }
    if forall v :: !Carries(batch, s, v) {
      forall i | 0 <= i < |batch|
        ensures batch[i].signal != s
      {
        assert !Carries(batch, s, batch[i].value);
      }
      AppliedKeeps(a.stored, batch, f.TimestampMs(), s);
    }
    if !Accepted(decode, f) {
      NothingApplied(a.stored, f.TimestampMs());
    }
  }

  lemma NothingApplied(stored: Signals, atMs: u32)
    ensures Applied(stored, [], atMs) == stored
  {
  }

  // ---------- freshness ----------

  datatype Freshness = Freshness(
    batteryMaximumAgeMs: u32, engineRpmMaximumAgeMs: u32, telemetryMaximumAgeMs: u32,
    bodyMaximumAgeMs: u32, transmissionMaximumAgeMs: u32, faultMaximumAgeMs: u32)

  function QualityOf(stored: Signals, s: VehicleSignal, nowMs: u32, maximumAgeMs: u32): SignalQuality {
    if s !in stored then Unavailable
    else if Sub(nowMs, stored[s].observedAtMs) <= maximumAgeMs then Fresh
    else Stale
  }

  /**
   * A signal observed at one real instant and judged at a later one is fresh
   * exactly when its age modulo 2^32 is allowed. That is its real age being
   * allowed, exactly when it is below 2^32 ms or above what wraps to an allowed one.
   */
  lemma FreshExactly(stored: Signals, s: VehicleSignal, observedMs: nat, nowMs: nat, maximumAgeMs: u32)
    requires s in stored && stored[s].observedAtMs == Wrap(observedMs) && observedMs <= nowMs
    ensures var isFresh := QualityOf(stored, s, Wrap(nowMs), maximumAgeMs) == Fresh;
            && (isFresh <==> (nowMs - observedMs) % TWO32 <= maximumAgeMs)
            && ((isFresh <==> nowMs - observedMs <= maximumAgeMs)
                <==> (nowMs - observedMs < TWO32 || (nowMs - observedMs) % TWO32 > maximumAgeMs))
  {
    SubOfWrapped(nowMs, observedMs);
  }

  /** The assembly after the frames of a live run. */
  function ConsumedAll(decode: Decoder, frames: seq<CanFrame>): Assembly {
    if frames == [] then NOTHING_OBSERVED else Consumed(decode, ConsumedAll(decode, frames[..|frames| - 1]), frames[|frames| - 1])
  }

  /** The i-th frame is the last that carries the signal. */
  ghost predicate LastCarrier(decode: Decoder, frames: seq<CanFrame>, s: VehicleSignal, i: nat) {
    && i < |frames| && (exists v :: Carries(BatchOf(decode, frames[i]), s, v))
    && forall k, v :: i < k < |frames| ==> !Carries(BatchOf(decode, frames[k]), s, v)
  }

  /** In a live run a stored signal carries the wrapped time of the last frame that carried it. */
  lemma {:induction false} LastCarrierStamps(decode: Decoder, frames: seq<CanFrame>, s: VehicleSignal, i: nat)
    requires LastCarrier(decode, frames, s, i)
    ensures var stored := ConsumedAll(decode, frames).stored;
            s in stored && stored[s].observedAtMs == Wrap(frames[i].RealMs())
  {
    var front, last := frames[..|frames| - 1], frames[|frames| - 1];
    hide BatchOf;
    hide Consumed;
    hide Carries;
    if i == |front| {
      var v :| Carries(BatchOf(decode, frames[i]), s, v);
      ConsumedSignal(decode, ConsumedAll(decode, front), last, s, v);
    } else {
      LastCarrierStamps(decode, front, s, i);
      ConsumedSignal(decode, ConsumedAll(decode, front), last, s, 0);
    }
  }

  /** So in a live run freshness is that of the last frame carrying the signal, modulo 2^32 ms. */
  lemma LiveFreshness(decode: Decoder, frames: seq<CanFrame>, s: VehicleSignal, i: nat, nowMs: nat, maximumAgeMs: u32)
    requires LastCarrier(decode, frames, s, i) && frames[i].RealMs() <= nowMs
    ensures var isFresh := QualityOf(ConsumedAll(decode, frames).stored, s, Wrap(nowMs), maximumAgeMs) == Fresh;
            var age := nowMs - frames[i].RealMs();
            && (isFresh <==> age % TWO32 <= maximumAgeMs)
            && ((isFresh <==> age <= maximumAgeMs) <==> (age < TWO32 || age % TWO32 > maximumAgeMs))
  {
    LastCarrierStamps(decode, frames, s, i);
    hide LastCarrier;
    hide QualityOf;
    hide CanFrame.RealMs;
    FreshExactly(ConsumedAll(decode, frames).stored, s, frames[i].RealMs(), nowMs, maximumAgeMs);
  }

  /** A signal last seen 2^32 ms ago reads as fresh again, whatever its maximum age. */
  lemma OldReadsFresh(decode: Decoder, f: CanFrame, s: VehicleSignal, value: int, maximumAgeMs: u32)
    requires Carries(BatchOf(decode, f), s, value)
    ensures QualityOf(ConsumedAll(decode, [f]).stored, s, Wrap(f.RealMs() + TWO32), maximumAgeMs) == Fresh
  {
    hide BatchOf;
    hide Carries;
    hide QualityOf;
    hide ConsumedAll;
    hide CanFrame.RealMs;
    assert Carries(BatchOf(decode, [f][0]), s, value);
    assert LastCarrier(decode, [f], s, 0);
    LiveFreshness(decode, [f], s, 0, f.RealMs() + TWO32, maximumAgeMs);
  }

  function ValueOf(stored: Signals, s: VehicleSignal): int {
    if s in stored then stored[s].value else 0
  }

  function Number(stored: Signals, s: VehicleSignal, nowMs: u32, maximumAgeMs: u32): Observed<u16> {
    Observed(ValueOf(stored, s) % 0x1_0000, QualityOf(stored, s, nowMs, maximumAgeMs))
  }

  function Flag(stored: Signals, s: VehicleSignal, nowMs: u32, maximumAgeMs: u32): Observed<bool> {
    Observed(ValueOf(stored, s) != 0, QualityOf(stored, s, nowMs, maximumAgeMs))
  }

  function TransmissionFrom(value: int): Transmission {
    if value == 1 then Automatic else if value == 2 then Manual else UnknownTransmission
  }

  function GearFrom(value: int): Gear {
    if value == 1 then Park else if value == 2 then Neutral else if value == 3 then Reverse else if value == 4 then Drive else UnknownGear
  }

  /** The snapshot handed to the controller. */
  function Snapshot(c: Freshness, stored: Signals, nowMs: u32): VehicleState {
    VehicleState(
      Number(stored, BatteryMillivolts, nowMs, c.batteryMaximumAgeMs),
      Number(stored, EngineRpm, nowMs, c.engineRpmMaximumAgeMs),
      Flag(stored, HoodClosed, nowMs, c.bodyMaximumAgeMs),
      Flag(stored, DoorsClosed, nowMs, c.bodyMaximumAgeMs),
      Flag(stored, TrunkClosed, nowMs, c.bodyMaximumAgeMs),
      Flag(stored, BrakePressed, nowMs, c.bodyMaximumAgeMs),
      Flag(stored, ParkingBrakeApplied, nowMs, c.bodyMaximumAgeMs),
      Observed(TransmissionFrom(ValueOf(stored, TransmissionKind)), QualityOf(stored, TransmissionKind, nowMs, c.transmissionMaximumAgeMs)),
      Observed(GearFrom(ValueOf(stored, SelectedGear)), QualityOf(stored, SelectedGear, nowMs, c.transmissionMaximumAgeMs)),
      Flag(stored, CriticalFaultPresent, nowMs, c.faultMaximumAgeMs))
  }

  // ---------- the assembler ----------

  class VehicleStateAssembler {
    const decode: Decoder
    const freshness: Freshness
    var stored: Signals
    var statistics: Statistics

    constructor (decode: Decoder, freshness: Freshness)
      ensures this.decode == decode && this.freshness == freshness && State() == NOTHING_OBSERVED
    {
      this.decode, this.freshness := decode, freshness;
      stored, statistics := map[], NO_STATISTICS;
    }

    function State(): Assembly
      reads this
    {
      Assembly(stored, statistics)
    }

    method ValidateBatch(batch: seq<DecodedSignal>) returns (ok: bool)
      ensures ok == ValidBatch(batch)
    {
      if |batch| > MAXIMUM_SIGNALS {
        return false;
      }
      for index := 0 to |batch|
        invariant forall i :: 0 <= i < index ==> ValidSignal(batch[i])
        invariant forall i, j :: 0 <= i < j < index ==> batch[i].signal != batch[j].signal
      {
        if !ValidSignal(batch[index]) {
          return false;
        }
        for previous := 0 to index
          invariant forall i :: 0 <= i < previous ==> batch[i].signal != batch[index].signal
        {
          if batch[previous].signal == batch[index].signal {
            return false;
          }
        }
      }
      return true;
    }

    method ApplyBatch(batch: seq<DecodedSignal>, timestampMs: u32)
      modifies this`stored
      ensures stored == Applied(old(stored), batch, timestampMs)
    {
      for index := 0 to |batch|
        invariant stored == Applied(old(stored), batch[..index], timestampMs)
      {
        stored := stored[batch[index].signal := StoredSignal(batch[index].value, timestampMs)];
        assert batch[..index + 1][..index] == batch[..index];
      }
      assert batch[..|batch|] == batch;
    }

    method Consume(f: CanFrame) returns (ok: bool)
      modifies this
      ensures ok == Accepted(decode, f)
      ensures State() == Consumed(decode, old(State()), f)
    {
      hide ValidBatch;
      NothingApplied(stored, f.TimestampMs());
      statistics := statistics.(consumed := Wrap(statistics.consumed + 1));
      if !f.IsValid() {
        statistics := statistics.(rejected := Wrap(statistics.rejected + 1));
        return false;
      }
      var result := decode(f);
      if result.IgnoredFrame? {
        statistics := statistics.(ignored := Wrap(statistics.ignored + 1));
        return true;
      }
      var valid := false;
      if result.SignalsDecoded? && result.signals != [] {
        valid := ValidateBatch(result.signals);
      }
      if !valid {
        statistics := statistics.(rejected := Wrap(statistics.rejected + 1));
        return false;
      }
      ApplyBatch(result.signals, f.TimestampMs());
      statistics := statistics.(decoded := Wrap(statistics.decoded + 1), signals := Wrap(statistics.signals + |result.signals|));
      return true;
    }

    method Reset()
      modifies this
      ensures State() == NOTHING_OBSERVED
    {
      stored, statistics := map[], NO_STATISTICS;
    }
  }
}

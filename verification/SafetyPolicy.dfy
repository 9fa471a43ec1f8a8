/**
 * The four safety assessments. Each accumulates a mask of reasons; the lemmas
 * say which condition of the snapshot sets which bit, and that a snapshot is
 * approved exactly when it meets every requirement of the authorization matrix.
 */
module SafetyPolicy {
  import opened Vehicle

  datatype SafetyReason =
    | SignalUnavailable
    | BatteryTooLow
    | HoodOpen
    | DoorOpen
    | TrunkOpen
    | BrakePressed
    | ParkingBrakeReleased
    | TransmissionUnsafe
    | EngineAlreadyRunning
    | EngineNotRunning
    | CriticalVehicleFault

  /** The reason mask has one bit per reason: it is the set of reasons whose bit is set. */
  datatype SafetyAssessment = SafetyAssessment(reasons: set<SafetyReason>) {
    predicate Approved() {
      reasons == {}
    }

    predicate Contains(reason: SafetyReason) {
      reason in reasons
    }
  }

  const NO_REASON := SafetyAssessment({})

  function RequireFresh<T>(signal: Observed<T>): set<SafetyReason> {
    if signal.IsFresh() then {} else {SignalUnavailable}
  }

  datatype SafetyPolicyConfig = SafetyPolicyConfig(
    minimumBatteryMillivolts: u16,
    runningRpmThreshold: u16,
    requireVehicleSecured: bool,
    requireHoodClosed: bool,
    allowManualTransmission: bool)

  predicate GearIsSafe(config: SafetyPolicyConfig, transmission: Transmission, gear: Gear) {
    match transmission
    case Automatic => gear == Park
    case Manual => config.allowManualTransmission && gear == Neutral
    case UnknownTransmission => false
  }

  /** First half of assessCommon: the signals the policy relies on must be fresh. */
  function UnavailableSignals(config: SafetyPolicyConfig, v: VehicleState, requireDoors: bool,
                              requireTrunk: bool, prohibitBrake: bool): set<SafetyReason>
  {
    RequireFresh(v.batteryMillivolts)
    + RequireFresh(v.parkingBrakeApplied)
    + RequireFresh(v.transmission)
    + RequireFresh(v.gear)
    + RequireFresh(v.criticalFaultPresent)
    + (if prohibitBrake then RequireFresh(v.brakePressed) else {})
    + (if config.requireHoodClosed then RequireFresh(v.hoodClosed) else {})
    + (if requireDoors then RequireFresh(v.doorsClosed) else {})
    + (if requireTrunk then RequireFresh(v.trunkClosed) else {})
  }

  /** Second half of assessCommon: what the fresh signals show. */
  function UnsafeSignals(config: SafetyPolicyConfig, v: VehicleState, requireDoors: bool,
                         requireTrunk: bool, prohibitBrake: bool): set<SafetyReason>
  {
    (if v.batteryMillivolts.IsFresh() && v.batteryMillivolts.value < config.minimumBatteryMillivolts
     then {BatteryTooLow} else {})
    + (if config.requireHoodClosed && v.hoodClosed.IsFresh() && !v.hoodClosed.value then {HoodOpen} else {})
    + (if requireDoors && v.doorsClosed.IsFresh() && !v.doorsClosed.value then {DoorOpen} else {})
    + (if requireTrunk && v.trunkClosed.IsFresh() && !v.trunkClosed.value then {TrunkOpen} else {})
    + (if prohibitBrake && v.brakePressed.IsFresh() && v.brakePressed.value then {BrakePressed} else {})
    + (if v.parkingBrakeApplied.IsFresh() && !v.parkingBrakeApplied.value then {ParkingBrakeReleased} else {})
    + (if v.criticalFaultPresent.IsFresh() && v.criticalFaultPresent.value then {CriticalVehicleFault} else {})
    + (if v.transmission.IsFresh() && v.gear.IsFresh() &&
          !GearIsSafe(config, v.transmission.value, v.gear.value) then {TransmissionUnsafe} else {})
  }

  function CommonReasons(config: SafetyPolicyConfig, v: VehicleState, requireDoors: bool,
                         requireTrunk: bool, prohibitBrake: bool): set<SafetyReason>
  {
    UnavailableSignals(config, v, requireDoors, requireTrunk, prohibitBrake)
    + UnsafeSignals(config, v, requireDoors, requireTrunk, prohibitBrake)
  }

  /** Which of the four assessments is made. */
  datatype Purpose = ForStart | ForCranking | ForRemoteRun | ForTakeover

  function Assess(config: SafetyPolicyConfig, purpose: Purpose, v: VehicleState): SafetyAssessment {
    var attended := purpose.ForTakeover?;
    var secured := config.requireVehicleSecured;
    var rpmFresh := v.engineRpm.IsFresh();
    SafetyAssessment(
      CommonReasons(config, v, secured && !attended, secured, !attended)
      + RequireFresh(v.engineRpm)
      + (if purpose.ForStart? && rpmFresh && v.engineRpm.value >= config.runningRpmThreshold
         then {EngineAlreadyRunning} else {})
      + (if (purpose.ForRemoteRun? || attended) && rpmFresh && v.engineRpm.value < config.runningRpmThreshold
         then {EngineNotRunning} else {}))
  }

  // ---------- the authorization matrix, stated on the snapshot ----------

  /** A signal that is fresh and has the wanted boolean value. */
  predicate Shows(signal: Observed<bool>, wanted: bool) {
    signal.IsFresh() && signal.value == wanted
  }

  /** What the matrix demands of a snapshot for each purpose. */
  predicate MeetsMatrix(config: SafetyPolicyConfig, purpose: Purpose, v: VehicleState) {
    && v.batteryMillivolts.IsFresh() && v.batteryMillivolts.value >= config.minimumBatteryMillivolts
    && Shows(v.parkingBrakeApplied, true)
    && Shows(v.criticalFaultPresent, false)
    && v.transmission.IsFresh() && v.gear.IsFresh()
    && GearIsSafe(config, v.transmission.value, v.gear.value)
    && (config.requireHoodClosed ==> Shows(v.hoodClosed, true))
    && (config.requireVehicleSecured ==> Shows(v.trunkClosed, true))
    && (config.requireVehicleSecured && !purpose.ForTakeover? ==> Shows(v.doorsClosed, true))
    && (!purpose.ForTakeover? ==> Shows(v.brakePressed, false))
    && v.engineRpm.IsFresh()
    && (purpose.ForStart? ==> v.engineRpm.value < config.runningRpmThreshold)
    && (purpose.ForRemoteRun? || purpose.ForTakeover? ==> v.engineRpm.value >= config.runningRpmThreshold)
  }

  /** The condition CommonReasons reports a reason under. */
  predicate CommonReported(config: SafetyPolicyConfig, v: VehicleState, doors: bool, trunk: bool, brake: bool,
                           reason: SafetyReason)
  {
    match reason
    case SignalUnavailable =>
      || !v.batteryMillivolts.IsFresh() || !v.parkingBrakeApplied.IsFresh()
      || !v.transmission.IsFresh() || !v.gear.IsFresh() || !v.criticalFaultPresent.IsFresh()
      || (brake && !v.brakePressed.IsFresh())
      || (config.requireHoodClosed && !v.hoodClosed.IsFresh())
      || (doors && !v.doorsClosed.IsFresh())
      || (trunk && !v.trunkClosed.IsFresh())
    case BatteryTooLow =>
      v.batteryMillivolts.IsFresh() && v.batteryMillivolts.value < config.minimumBatteryMillivolts
    case HoodOpen => config.requireHoodClosed && Shows(v.hoodClosed, false)
    case DoorOpen => doors && Shows(v.doorsClosed, false)
    case TrunkOpen => trunk && Shows(v.trunkClosed, false)
    case BrakePressed => brake && Shows(v.brakePressed, true)
    case ParkingBrakeReleased => Shows(v.parkingBrakeApplied, false)
    case TransmissionUnsafe =>
      v.transmission.IsFresh() && v.gear.IsFresh() && !GearIsSafe(config, v.transmission.value, v.gear.value)
    case CriticalVehicleFault => Shows(v.criticalFaultPresent, true)
    case _ => false
  }

  /** The condition under which a reason is reported for a purpose. */
  predicate Reported(config: SafetyPolicyConfig, purpose: Purpose, v: VehicleState, reason: SafetyReason) {
    var secured := config.requireVehicleSecured;
    var attended := purpose.ForTakeover?;
    || CommonReported(config, v, secured && !attended, secured, !attended, reason)
    || (reason == SignalUnavailable && !v.engineRpm.IsFresh())
    || (reason == EngineAlreadyRunning && purpose.ForStart? &&
        v.engineRpm.IsFresh() && v.engineRpm.value >= config.runningRpmThreshold)
    || (reason == EngineNotRunning && (purpose.ForRemoteRun? || attended) &&
        v.engineRpm.IsFresh() && v.engineRpm.value < config.runningRpmThreshold)
  }

  lemma UnavailableExactly(config: SafetyPolicyConfig, v: VehicleState, doors: bool, trunk: bool, brake: bool,
                           reason: SafetyReason)
    ensures reason in UnavailableSignals(config, v, doors, trunk, brake)
       <==> reason == SignalUnavailable && CommonReported(config, v, doors, trunk, brake, reason)
  {
  }

  lemma UnsafeExactly(config: SafetyPolicyConfig, v: VehicleState, doors: bool, trunk: bool, brake: bool,
                      reason: SafetyReason)
    ensures reason in UnsafeSignals(config, v, doors, trunk, brake)
       <==> reason != SignalUnavailable && CommonReported(config, v, doors, trunk, brake, reason)
  {
  }

  lemma CommonExactly(config: SafetyPolicyConfig, v: VehicleState, doors: bool, trunk: bool, brake: bool,
                      reason: SafetyReason)
    ensures reason in CommonReasons(config, v, doors, trunk, brake)
       <==> CommonReported(config, v, doors, trunk, brake, reason)
  {
    UnavailableExactly(config, v, doors, trunk, brake, reason);
    UnsafeExactly(config, v, doors, trunk, brake, reason);
  }

  /** Every reason in the mask is there because its condition holds, and every condition that holds is reported. */
  lemma ReasonsAreExact(config: SafetyPolicyConfig, purpose: Purpose, v: VehicleState, reason: SafetyReason)
    ensures Assess(config, purpose, v).Contains(reason) <==> Reported(config, purpose, v, reason)
  {
    var secured, attended := config.requireVehicleSecured, purpose.ForTakeover?;
    CommonExactly(config, v, secured && !attended, secured, !attended, reason);
  }

  /** A snapshot is approved exactly when it meets the whole matrix. */
  lemma ApprovedExactly(config: SafetyPolicyConfig, purpose: Purpose, v: VehicleState)
    ensures Assess(config, purpose, v).Approved() <==> MeetsMatrix(config, purpose, v)
  {
    match purpose
    case ForStart =>
    case ForCranking =>
    case ForRemoteRun =>
    case ForTakeover =>
  }
}

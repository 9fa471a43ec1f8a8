/** The user's settings, in their stored widths, and the bounds they must respect. */
module UserSettings {

  const REQUIRED_HOOD: bv8 := 0
  const DISABLED_HOOD: bv8 := 1
  const REQUIRE_TAKEOVER: bv8 := 0
  const STOP_IMMEDIATELY: bv8 := 1

  /** One bit per known feature: cold engine guard, regeneration indicator, overheat alert. */
  const FEATURE_MASK: bv64 := 7

  /** Enumerations are kept as the byte they are cast from, so unknown values are possible until validated. */
  datatype UserSettings = UserSettings(
    remoteStartEnabled: bool,
    hoodMonitoring: bv8,
    driverEntryMode: bv8,
    maximumRemoteRunTimeMs: bv32,
    driverTakeoverTimeoutMs: bv32,
    lockPressCount: bv8,
    lockMinimumGapMs: bv32,
    lockMaximumGapMs: bv32,
    lockMaximumSequenceMs: bv32,
    features: bv64,
    coldEngineMaximumRpm: bv16,
    engineWarmTemperatureC: bv16,
    transmissionOverheatTemperatureC: bv16,
    temperatureAlertHysteresisC: bv16)

  const DEFAULT_SETTINGS := UserSettings(true, REQUIRED_HOOD, REQUIRE_TAKEOVER, 900_000, 60_000, 3, 80, 1_500, 3_000, 0,
                                         2_200, 75, 110, 5)

  /** The lock timing is consistent when the presses can fit the window at the smallest gap. */
  predicate LockTimingConsistent(s: UserSettings) {
    var intervals := if s.lockPressCount == 0 then 0 else s.lockPressCount as int - 1;
    && s.lockMinimumGapMs as int <= s.lockMaximumGapMs as int
    && s.lockMaximumGapMs as int <= s.lockMaximumSequenceMs as int
    && intervals * (s.lockMinimumGapMs as int) <= s.lockMaximumSequenceMs as int
  }

  predicate Valid(s: UserSettings) {
    && (s.hoodMonitoring == REQUIRED_HOOD || s.hoodMonitoring == DISABLED_HOOD)
    && (s.driverEntryMode == REQUIRE_TAKEOVER || s.driverEntryMode == STOP_IMMEDIATELY)
    && 60_000 <= s.maximumRemoteRunTimeMs <= 3_600_000
    && 10_000 <= s.driverTakeoverTimeoutMs <= 300_000
    && 2 <= s.lockPressCount <= 5
    && 50 <= s.lockMinimumGapMs <= 5_000
    && 50 <= s.lockMaximumGapMs <= 5_000
    && 500 <= s.lockMaximumSequenceMs <= 15_000
    && LockTimingConsistent(s)
    && s.features & !FEATURE_MASK == 0
    && 1_000 <= s.coldEngineMaximumRpm <= 4_500
    && 40 <= s.engineWarmTemperatureC <= 110
    && 80 <= s.transmissionOverheatTemperatureC <= 150
    && 1 <= s.temperatureAlertHysteresisC <= 20
  }

  // ---------- the reasons of a rejection ----------

  datatype SettingsReason =
    | UnsupportedHoodMode | UnsupportedDriverEntryMode | RemoteRunTimeOutOfRange | TakeoverTimeoutOutOfRange
    | LockPressCountOutOfRange | LockMinimumGapOutOfRange | LockMaximumGapOutOfRange | LockSequenceTimeOutOfRange
    | InconsistentLockTiming | InvalidFeatureMask | ColdEngineMaximumRpmOutOfRange | EngineWarmTemperatureOutOfRange
    | TransmissionOverheatTemperatureOutOfRange | TemperatureAlertHysteresisOutOfRange

  /** The condition a reason names. */
  predicate Reported(s: UserSettings, reason: SettingsReason) {
    match reason
    case UnsupportedHoodMode => s.hoodMonitoring > 1
    case UnsupportedDriverEntryMode => s.driverEntryMode > 1
    case RemoteRunTimeOutOfRange => s.maximumRemoteRunTimeMs < 60_000 || s.maximumRemoteRunTimeMs > 3_600_000
    case TakeoverTimeoutOutOfRange => s.driverTakeoverTimeoutMs < 10_000 || s.driverTakeoverTimeoutMs > 300_000
    case LockPressCountOutOfRange => s.lockPressCount < 2 || s.lockPressCount > 5
    case LockMinimumGapOutOfRange => s.lockMinimumGapMs < 50 || s.lockMinimumGapMs > 5_000
    case LockMaximumGapOutOfRange => s.lockMaximumGapMs < 50 || s.lockMaximumGapMs > 5_000
    case LockSequenceTimeOutOfRange => s.lockMaximumSequenceMs < 500 || s.lockMaximumSequenceMs > 15_000
    case InconsistentLockTiming => TimingFails(s)
    case InvalidFeatureMask => s.features > 7
    case ColdEngineMaximumRpmOutOfRange => s.coldEngineMaximumRpm < 1_000 || s.coldEngineMaximumRpm > 4_500
    case EngineWarmTemperatureOutOfRange => s.engineWarmTemperatureC < 40 || s.engineWarmTemperatureC > 110
    case TransmissionOverheatTemperatureOutOfRange =>
      s.transmissionOverheatTemperatureC < 80 || s.transmissionOverheatTemperatureC > 150
    case TemperatureAlertHysteresisOutOfRange => s.temperatureAlertHysteresisC < 1 || s.temperatureAlertHysteresisC > 20
  }

  /** The gaps are out of order, or the presses cannot fit the window even at the smallest gap. */
  predicate TimingFails(s: UserSettings) {
    var intervals := if s.lockPressCount == 0 then 0 else s.lockPressCount as int - 1;
    || s.lockMinimumGapMs as int > s.lockMaximumGapMs as int
    || s.lockMaximumGapMs as int > s.lockMaximumSequenceMs as int
    || intervals * (s.lockMinimumGapMs as int) > s.lockMaximumSequenceMs as int
  }

  lemma TimingExactly(s: UserSettings)
    ensures LockTimingConsistent(s) <==> !TimingFails(s)
  {
  }

  lemma FeaturesExactly(features: bv64)
    ensures features & !FEATURE_MASK == 0 <==> features <= 7
  {
  }

  lemma ModeExactly(mode: bv8)
    ensures mode == 0 || mode == 1 <==> !(mode > 1)
  {
  }

  /** Settings are valid exactly when no reason against them holds. */
  lemma ValidExactly(s: UserSettings)
    ensures Valid(s) <==> forall reason :: !Reported(s, reason)
  {
    TimingExactly(s);
    FeaturesExactly(s.features);
    ModeExactly(s.hoodMonitoring);
    ModeExactly(s.driverEntryMode);
    hide LockTimingConsistent;
    hide TimingFails;
    if forall reason :: !Reported(s, reason) {
      assert !Reported(s, UnsupportedHoodMode) && !Reported(s, UnsupportedDriverEntryMode);
      assert !Reported(s, RemoteRunTimeOutOfRange) && !Reported(s, TakeoverTimeoutOutOfRange);
      assert !Reported(s, LockPressCountOutOfRange) && !Reported(s, LockMinimumGapOutOfRange);
      assert !Reported(s, LockMaximumGapOutOfRange) && !Reported(s, LockSequenceTimeOutOfRange);
      assert !Reported(s, InconsistentLockTiming) && !Reported(s, InvalidFeatureMask);
      assert !Reported(s, ColdEngineMaximumRpmOutOfRange) && !Reported(s, EngineWarmTemperatureOutOfRange);
      assert !Reported(s, TransmissionOverheatTemperatureOutOfRange) && !Reported(s, TemperatureAlertHysteresisOutOfRange);
    }
  }
}

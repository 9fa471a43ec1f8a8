/** The vehicle snapshot the controller decides on. */
module Vehicle {

  type u16 = x: int | 0 <= x < 0x1_0000

  datatype SignalQuality = Unavailable | Stale | Fresh

  datatype Observed<T> = Observed(value: T, quality: SignalQuality) {
    predicate IsFresh() {
      quality.Fresh?
    }
  }

  datatype Transmission = UnknownTransmission | Automatic | Manual
  datatype Gear = UnknownGear | Park | Neutral | Reverse | Drive

  /** The signals the safety policy and the controller read. */
  datatype VehicleState = VehicleState(
    batteryMillivolts: Observed<u16>,
    engineRpm: Observed<u16>,
    hoodClosed: Observed<bool>,
    doorsClosed: Observed<bool>,
    trunkClosed: Observed<bool>,
    brakePressed: Observed<bool>,
    parkingBrakeApplied: Observed<bool>,
    transmission: Observed<Transmission>,
    gear: Observed<Gear>,
    criticalFaultPresent: Observed<bool>)
}

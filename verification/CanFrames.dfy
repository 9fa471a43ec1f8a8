/** A received CAN frame. */
module CanFrames {
  import opened Bytes
  import opened Clock32

  const MAXIMUM_STANDARD_IDENTIFIER: nat := 0x7FF
  const MAXIMUM_EXTENDED_IDENTIFIER: nat := 0x1FFF_FFFF
  const MAXIMUM_DATA_LENGTH: nat := 8

  type Octets = s: seq<byte> | |s| == MAXIMUM_DATA_LENGTH witness [0, 0, 0, 0, 0, 0, 0, 0]

  datatype FrameFlag = RemoteFrame | DlcNonCompliant | ErrorWarning | ErrorPassive | BusOff | PeripheralReset

  /** The status has one bit per flag: it is the set of flags whose bit is set. */
  type FrameStatus = set<FrameFlag>

  const NO_STATUS: FrameStatus := {}

  /** The 64-bit time stamp and sequence number never wrap here. */
  datatype CanFrame = CanFrame(
    timestampUs: nat, sequence: nat, bitrate: u32, identifier: u32, channel: byte, dataLength: nat, extended: bool,
    status: FrameStatus, data: Octets)
  {
    predicate IsValid() {
      && dataLength <= MAXIMUM_DATA_LENGTH
      && identifier <= (if extended then MAXIMUM_EXTENDED_IDENTIFIER else MAXIMUM_STANDARD_IDENTIFIER)
    }

    /** The real time of the frame in whole milliseconds. */
    function RealMs(): nat {
      timestampUs / 1_000
    }

    function TimestampMs(): u32 {
      Wrap(RealMs())
    }
  }

  /** Longer than eight bytes, or with an identifier of more than eleven bits, or twenty-nine when extended. */
  predicate Malformed(f: CanFrame) {
    f.dataLength > 8 || f.identifier > if f.extended then 0x1FFF_FFFF else 0x7FF
  }
}

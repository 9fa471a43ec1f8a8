/** Turning CAN frames into lock-command evidence, and the pipeline from frames to remote start requests. */
module LockAdapter {
  import opened Bytes
  import opened CanFrames
  import opened Clock32
  import opened CounterField
  import opened LockSequence

  datatype BitMatcher = BitMatcher(byteIndex: nat, mask: byte, expectedValue: byte)
  {
    predicate IsValid(dataLength: nat) {
      byteIndex < dataLength && mask != 0 && expectedValue & !mask == 0
    }

    predicate Matches(f: CanFrame) {
      && byteIndex < f.dataLength
      && byteIndex < MAXIMUM_DATA_LENGTH
      && mask != 0
      && f.data[byteIndex] & mask == expectedValue
    }
  }

  datatype Counter = Counter(byteIndex: nat, mask: byte)
  {
    predicate IsValid(dataLength: nat) {
      byteIndex < dataLength && BitCount(mask) >= 2
    }

    function Of(f: CanFrame): nat {
      if byteIndex >= f.dataLength || byteIndex >= MAXIMUM_DATA_LENGTH then 0 else Extracted(mask, f.data[byteIndex])
    }

    function Modulus(): nat {
      Pow2(BitCount(mask))
    }
  }

  /** Two fields share no bit. */
  predicate Apart(i: nat, a: byte, j: nat, b: byte) {
    i != j || a & b == 0
  }

  datatype AdapterConfig = AdapterConfig(
    enabled: bool, trust: Trust, identifier: u32, extended: bool, dataLength: nat,
    lockCommand: BitMatcher, vehicleSecured: BitMatcher, rollingCounter: Counter)
  {
    predicate IsValid() {
      && identifier <= (if extended then MAXIMUM_EXTENDED_IDENTIFIER else MAXIMUM_STANDARD_IDENTIFIER)
      && 0 != dataLength <= MAXIMUM_DATA_LENGTH
      && lockCommand.IsValid(dataLength)
      && vehicleSecured.IsValid(dataLength)
      && rollingCounter.IsValid(dataLength)
      && Apart(lockCommand.byteIndex, lockCommand.mask, rollingCounter.byteIndex, rollingCounter.mask)
      && Apart(vehicleSecured.byteIndex, vehicleSecured.mask, rollingCounter.byteIndex, rollingCounter.mask)
      && Apart(lockCommand.byteIndex, lockCommand.mask, vehicleSecured.byteIndex, vehicleSecured.mask)
    }

    predicate Addresses(f: CanFrame) {
      f.identifier == identifier && f.extended == extended
    }
  }

  datatype DecodeStatus =
    | Disabled | Ignored | Primed | NoCommand | EvidenceProduced
    | InvalidConfig | InvalidFrame | DuplicateCounter | OutOfOrderCounter | TimestampRegression

  predicate RequiresGestureReset(status: DecodeStatus) {
    status == InvalidConfig || status == InvalidFrame || status == DuplicateCounter
    || status == OutOfOrderCounter || status == TimestampRegression
  }

  datatype Adapter = Adapter(
    lastTimestampMs: u32, expandedSequence: u32, lastRawCounter: nat, lastCommandActive: bool, initialized: bool)

  const UNPRIMED := Adapter(0, 0, 0, false, false)

  /** How far the counter moved on, modulo its width. */
  function Distance(c: AdapterConfig, a: Adapter, f: CanFrame): nat {
    (c.rollingCounter.Of(f) + c.rollingCounter.Modulus() - a.lastRawCounter) % c.rollingCounter.Modulus()
  }

  predicate TimeRegressed(a: Adapter, f: CanFrame) {
    a.initialized && f.TimestampMs() != a.lastTimestampMs && !StrictlyNewer(f.TimestampMs(), a.lastTimestampMs)
  }

  function Decoded(c: AdapterConfig, a: Adapter, f: CanFrame): DecodeStatus {
    if !c.enabled then Disabled
    else if !c.IsValid() then InvalidConfig
    else if !f.IsValid() then InvalidFrame
    else if !c.Addresses(f) then Ignored
    else if f.dataLength != c.dataLength then InvalidFrame
    else if TimeRegressed(a, f) then TimestampRegression
    else if !a.initialized then Primed
    else if Distance(c, a, f) == 0 then DuplicateCounter
    else if Distance(c, a, f) >= c.rollingCounter.Modulus() / 2 then OutOfOrderCounter
    else if c.lockCommand.Matches(f) && !a.lastCommandActive then EvidenceProduced
    else NoCommand
  }

  function AfterDecode(c: AdapterConfig, a: Adapter, f: CanFrame): Adapter {
    match Decoded(c, a, f)
    case Disabled | Ignored => a
    case Primed => Adapter(f.TimestampMs(), a.expandedSequence, c.rollingCounter.Of(f), c.lockCommand.Matches(f), true)
    case NoCommand | EvidenceProduced =>
      Adapter(f.TimestampMs(), Wrap(a.expandedSequence + Distance(c, a, f)), c.rollingCounter.Of(f), c.lockCommand.Matches(f), true)
    case _ => UNPRIMED
  }

  function EvidenceOf(c: AdapterConfig, a: Adapter, f: CanFrame): Evidence {
    Evidence(VehicleAdapter, c.trust, AfterDecode(c, a, f).expandedSequence, f.TimestampMs(), c.vehicleSecured.Matches(f))
  }

  class CanLockCommandAdapter {
    const config: AdapterConfig
    var lastTimestampMs: u32
    var expandedSequence: u32
    var lastRawCounter: nat
    var lastCommandActive: bool
    var initialized: bool

    constructor (config: AdapterConfig)
      ensures this.config == config && State() == UNPRIMED
    {
      this.config := config;
      lastTimestampMs, expandedSequence, lastRawCounter, lastCommandActive, initialized := 0, 0, 0, false, false;
    }

    function State(): Adapter
      reads this
    {
      Adapter(lastTimestampMs, expandedSequence, lastRawCounter, lastCommandActive, initialized)
    }

    method Reset()
      modifies this
      ensures State() == UNPRIMED
    {
      lastTimestampMs, expandedSequence, lastRawCounter, lastCommandActive, initialized := 0, 0, 0, false, false;
    }

    method Reject(status: DecodeStatus) returns (r: DecodeStatus)
      modifies this
      ensures r == status && State() == UNPRIMED
    {
      Reset();
      return status;
    }

    method ReadCounter(f: CanFrame) returns (raw: nat)
      ensures raw == config.rollingCounter.Of(f)
    {
      if config.rollingCounter.byteIndex >= f.dataLength || config.rollingCounter.byteIndex >= MAXIMUM_DATA_LENGTH {
        return 0;
      }
      raw := Extract(config.rollingCounter.mask, f.data[config.rollingCounter.byteIndex]);
    }

    /** The decision once a counter value continues the stream of frames. */
    method Track(f: CanFrame, rawCounter: nat, commandActive: bool) returns (status: DecodeStatus)
      requires config.enabled && config.IsValid() && f.IsValid() && config.Addresses(f) && f.dataLength == config.dataLength
      requires initialized && !TimeRegressed(State(), f)
      requires rawCounter == config.rollingCounter.Of(f) && commandActive == config.lockCommand.Matches(f)
      modifies this
      ensures status == Decoded(config, old(State()), f)
      ensures State() == AfterDecode(config, old(State()), f)
    {
      hide Extracted;
      hide BitCount;
      hide Pow2;
      hide StrictlyNewer;
      var width := CountBits(config.rollingCounter.mask);
      var modulus := Pow2(width);
      var distance := (rawCounter + modulus - lastRawCounter) % modulus;
      if distance == 0 {
        status := Reject(DuplicateCounter);
        return;
      }
      if distance >= modulus / 2 {
        status := Reject(OutOfOrderCounter);
        return;
      }
      lastTimestampMs := f.TimestampMs();
      lastRawCounter := rawCounter;
      expandedSequence := Wrap(expandedSequence + distance);
      var risingEdge := commandActive && !lastCommandActive;
      lastCommandActive := commandActive;
      return if risingEdge then EvidenceProduced else NoCommand;
    }

    method Process(f: CanFrame) returns (status: DecodeStatus, evidence: Evidence)
      modifies this
      ensures status == Decoded(config, old(State()), f)
      ensures State() == AfterDecode(config, old(State()), f)
      ensures status == EvidenceProduced ==> evidence == EvidenceOf(config, old(State()), f)
    {
      hide Extracted;
      hide BitCount;
      hide Pow2;
      hide StrictlyNewer;
      hide Distance;
      evidence := Evidence(UnspecifiedSource, Unverified, 0, 0, false);
      if !config.enabled {
        return Disabled, evidence;
      }
      if !config.IsValid() {
        status := Reject(InvalidConfig);
        return;
      }
      if !f.IsValid() {
        status := Reject(InvalidFrame);
        return;
      }
      if f.identifier != config.identifier || f.extended != config.extended {
        return Ignored, evidence;
      }
      if f.dataLength != config.dataLength {
        status := Reject(InvalidFrame);
        return;
      }
      var timestampMs := f.TimestampMs();
      if initialized && timestampMs != lastTimestampMs && !StrictlyNewer(timestampMs, lastTimestampMs) {
        status := Reject(TimestampRegression);
        return;
      }
      var rawCounter := ReadCounter(f);
      var commandActive := config.lockCommand.Matches(f);
      if !initialized {
        lastTimestampMs, lastRawCounter, lastCommandActive, initialized := timestampMs, rawCounter, commandActive, true;
        return Primed, evidence;
      }
      status := Track(f, rawCounter, commandActive);
      if status == EvidenceProduced {
        evidence := Evidence(VehicleAdapter, config.trust, expandedSequence, timestampMs, config.vehicleSecured.Matches(f));
      }
    }
  }

  // ---------- the pipeline ----------

  datatype PipelineConfig = PipelineConfig(adapter: AdapterConfig, gate: GateConfig)

  datatype Pipeline = Pipeline(adapter: Adapter, gate: Gate)

  const FRESH_PIPELINE := Pipeline(UNPRIMED, CLOSED_GATE)

  datatype PipelineResult = NotEvaluated(status: DecodeStatus) | Evaluated(command: GateStatus)

  function PipelineResultOf(c: PipelineConfig, p: Pipeline, f: CanFrame, nowMs: u32): PipelineResult {
    if Decoded(c.adapter, p.adapter, f) == EvidenceProduced
    then Evaluated(Judged(c.gate, p.gate, EvidenceOf(c.adapter, p.adapter, f), nowMs))
    else NotEvaluated(Decoded(c.adapter, p.adapter, f))
  }

  function AfterFrame(c: PipelineConfig, p: Pipeline, f: CanFrame, nowMs: u32): Pipeline {
    var status := Decoded(c.adapter, p.adapter, f);
    Pipeline(
      AfterDecode(c.adapter, p.adapter, f),
      if RequiresGestureReset(status) then CLOSED_GATE
      else if status == EvidenceProduced then AfterProcess(c.gate, p.gate, EvidenceOf(c.adapter, p.adapter, f), nowMs)
      else p.gate)
  }

  class CanLockCommandPipeline {
    const adapter: CanLockCommandAdapter
    const gate: LockCommandGate

    constructor (adapterConfig: AdapterConfig, gateConfig: GateConfig)
      ensures fresh(adapter) && fresh(gate) && fresh(gate.detector) && Wired()
      ensures Configured() == PipelineConfig(adapterConfig, gateConfig) && State() == FRESH_PIPELINE
    {
      adapter := new CanLockCommandAdapter(adapterConfig);
      gate := new LockCommandGate(gateConfig);
    }

    predicate Wired() {
      gate.detector.config == gate.config.sequence
    }

    function Configured(): PipelineConfig {
      PipelineConfig(adapter.config, gate.config)
    }

    function State(): Pipeline
      reads adapter, gate, gate.detector
    {
      Pipeline(adapter.State(), gate.State())
    }

    method Process(f: CanFrame, nowMs: u32) returns (result: PipelineResult)
      requires Wired()
      modifies adapter, gate, gate.detector
      ensures result == PipelineResultOf(Configured(), old(State()), f, nowMs)
      ensures State() == AfterFrame(Configured(), old(State()), f, nowMs)
    {
      hide Judged;
      hide AfterProcess;
      hide AfterDecode;
      hide Decoded;
      var status, evidence := adapter.Process(f);
      if RequiresGestureReset(status) {
        gate.Reset();
      }
      if status != EvidenceProduced {
        return NotEvaluated(status);
      }
      var command := gate.Process(evidence, nowMs);
      return Evaluated(command);
    }

    method Reset()
      modifies adapter, gate, gate.detector
      ensures State() == FRESH_PIPELINE
    {
      adapter.Reset();
      gate.Reset();
    }
  }
}

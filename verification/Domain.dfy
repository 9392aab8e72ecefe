/**
  The records of the observatory. A field that the source stores as a `double` has type D: the
  state machine instantiates D with `real`, the codecs with the 64-bit pattern of the double.
  An enumeration is a byte with named values, as `enum class E : std::uint8_t` is: the decoders
  accept any byte, and no operation relies on a value being one of the named ones.
 */
module Domain {
  import opened Words

  datatype Option<+T> = None | Some(value: T)

  newtype InterferenceDomain = x: int | 0 <= x < 256

  newtype Outcome = x: int | 0 <= x < 256 {
    static const NoInterferenceDetected: Outcome := 0
    static const PotentialInterference: Outcome := 1
    static const InterferenceDetected: Outcome := 2
    static const SevereInterference: Outcome := 3
    static const InsufficientEvidence: Outcome := 4
    static const BaselineInvalid: Outcome := 5
    static const RevalidationRequired: Outcome := 6
    static const Unknown: Outcome := 8

    /** One of the four verdicts that a measured degradation can receive. */
    predicate Classified() {
      this <= SevereInterference
    }

    predicate Indicated() {
      PotentialInterference <= this <= SevereInterference
    }
  }

  newtype Attribution = x: int | 0 <= x < 256 {
    static const Unknown: Attribution := 0
    static const TemporallyAssociated: Attribution := 1
    static const Correlated: Attribution := 2
    static const ControlledComparison: Attribution := 3
    static const StrongCounterfactualEvidence: Attribution := 4
    static const DirectResourceEvidence: Attribution := 5
  }

  newtype Provenance = x: int | 0 <= x < 256 {
    static const Measured: Provenance := 0
    static const Controlled: Provenance := 3
    static const Unknown: Provenance := 6
  }

  newtype Freshness = x: int | 0 <= x < 256 {
    static const Current: Freshness := 0
    static const Stale: Freshness := 1
    static const Expired: Freshness := 2
    static const RevalidationRequired: Freshness := 3
    static const Historical: Freshness := 4
    static const Unknown: Freshness := 5
  }

  newtype SourceHealth = x: int | 0 <= x < 256

  newtype BaselineType = x: int | 0 <= x < 256 {
    static const HistoricalIsolated: BaselineType := 1
  }

  newtype MetricKind = x: int | 0 <= x < 256 {
    static const Latency: MetricKind := 0
    static const Throughput: MetricKind := 1
    static const DeviceTime: MetricKind := 2
    static const TransferTime: MetricKind := 3
    static const CollectiveTime: MetricKind := 4
    static const StallTime: MetricKind := 5
    static const MemoryBandwidth: MetricKind := 6
    static const TailLatency: MetricKind := 7
    static const CompletionRate: MetricKind := 8

    /** A metric of which more is better. */
    predicate Rate() {
      this == Throughput || this == CompletionRate || this == MemoryBandwidth
    }

    predicate Duration() {
      this == Latency || this == DeviceTime || this == TransferTime || this == CollectiveTime
      || this == StallTime || this == TailLatency
    }

    predicate Named() {
      this <= CompletionRate
    }
  }

  newtype Confounder = x: int | 0 <= x < 256 {
    static const ThermalThrottling: Confounder := 0
    static const PowerThrottling: Confounder := 1
    static const ClockChange: Confounder := 2
    static const DifferentWorkloadInput: Confounder := 4
    static const DifferentKernelVersion: Confounder := 5
    static const DifferentDriverRuntimeState: Confounder := 6
    static const WorkerRestart: Confounder := 14
    static const DifferentPlacement: Confounder := 15
    static const Unknown: Confounder := 16

    /** An alternative explanation that by itself invalidates attribution. */
    predicate Hard() {
      this == ThermalThrottling || this == PowerThrottling || this == ClockChange
      || this == DifferentWorkloadInput || this == DifferentKernelVersion
      || this == DifferentDriverRuntimeState || this == WorkerRestart || this == DifferentPlacement
    }

    /** One of the seventeen declared enumerators. */
    predicate Named() {
      this <= Unknown
    }
  }

  /** Strings are byte strings, as std::string is. */
  type Text = seq<u8>

  const CAPABILITIES: nat := 17

  /** The seventeen availability flags of `BackendCapabilities`, in declaration order. */
  type Capabilities = flags: seq<bool> | |flags| == CAPABILITIES witness seq(CAPABILITIES, i => false)

  datatype Source = Source(generation: u64, name: Text, caps: Capabilities, freshness: Freshness)

  datatype Worker = Worker(boot: u64, name: Text, connected: bool)

  datatype Workload = Workload(
    id: u64, generation: u64, name: Text, config: Text, problemSize: Text, deviceId: u64,
    deviceGeneration: u64, workerId: u64, workerBoot: u64, policyGeneration: Text,
    runtimeGeneration: Text, kernelGeneration: Text, topologyGeneration: u64, startMs: i64,
    endMs: i64, attemptId: u64, priorityClass: Text)

  datatype Baseline<D> = Baseline(
    id: u64, generation: u64, kind: BaselineType, workloadId: u64, workloadGeneration: u64,
    deviceId: u64, deviceGeneration: u64, workerId: u64, workerBoot: u64, config: Text,
    problemSize: Text, runtimeGeneration: Text, kernelGeneration: Text, policyGeneration: Text,
    topologyGeneration: u64, sourceGeneration: u64, evidenceGeneration: u64, timestampMs: i64,
    intervalMs: i64, provenance: Provenance, freshness: Freshness, sampleCount: u64, variance: D,
    confidence: D, mean: D, metric: MetricKind, valid: bool)

  datatype Measurement<D> = Measurement(
    kind: MetricKind, value: D, units: Text, sampleCount: u64, variance: D, p95: D, hasP95: bool)

  datatype Observation<D> = Observation(
    id: u64, generation: u64, sourceId: u64, sourceGeneration: u64, workerId: u64, workerBoot: u64,
    workloadId: u64, workloadGeneration: u64, deviceId: u64, deviceGeneration: u64, timestampMs: i64,
    measurement: Measurement<D>, provenance: Provenance, freshness: Freshness, health: SourceHealth,
    caps: Capabilities, peers: seq<u64>, confounders: seq<Confounder>)

  datatype MetricDelta<D> = MetricDelta(
    kind: MetricKind, absolute: D, relative: D, sampleCount: u64, variance: D)

  datatype Degradation<D> = Degradation(deltas: seq<MetricDelta<D>>, sampleCount: u64, worst: D)

  datatype Evidence = Evidence(
    id: u64, generation: u64, provenance: Provenance, strength: Attribution, outcome: Outcome,
    summary: Text)

  datatype Episode<D> = Episode(
    id: u64, generation: u64, startMs: i64, endMs: i64, open: bool, affected: u64,
    coRunning: seq<u64>, domains: seq<InterferenceDomain>, baselineId: u64,
    degradation: Degradation<D>, evidence: seq<Evidence>, confidence: D, classification: Outcome,
    provenance: Provenance, freshness: Freshness, epoch: u64)

  datatype Pairwise<D> = Pairwise(
    victim: u64, neighbor: u64, domain: InterferenceDomain, baselineId: u64,
    degradation: Degradation<D>, confidence: D, sampleCount: u64, freshness: Freshness,
    outcome: Outcome, attribution: Attribution, episodeId: u64, comparisonId: u64,
    comparisonGeneration: u64, epoch: u64, evidenceSources: seq<Provenance>, confounded: bool,
    unresolved: seq<Confounder>)

  /** A directed cell: what the neighbor does to the victim in one resource domain, never the reverse. */
  datatype CellKey = CellKey(victim: u64, neighbor: u64, domain: InterferenceDomain)

  function KeyOf<D>(p: Pairwise<D>): CellKey {
    CellKey(p.victim, p.neighbor, p.domain)
  }

  datatype State<D> = State(
    id: u64, generation: u64, epoch: u64,
    sources: map<u64, Source>,
    workers: map<u64, Worker>,
    workloads: map<u64, Workload>,
    baselines: map<u64, Baseline<D>>,
    observations: map<u64, Observation<D>>,
    episodes: map<u64, Episode<D>>,
    comparisons: map<u64, Pairwise<D>>,
    matrix: map<CellKey, Pairwise<D>>,
    recoveries: set<CellKey>)

  /** What the constructor leaves behind. */
  function Fresh<D>(id: u64, generation: u64): State<D> {
    State(id, generation, 1, map[], map[], map[], map[], map[], map[], map[], map[], {})
  }

  /** Every record sits under its own id; the payload stores the key and not the id. */
  ghost predicate Keyed<D>(st: State<D>) {
    && (forall i :: i in st.workloads ==> st.workloads[i].id == i)
    && (forall i :: i in st.baselines ==> st.baselines[i].id == i)
    && (forall i :: i in st.observations ==> st.observations[i].id == i)
    && (forall i :: i in st.episodes ==> st.episodes[i].id == i)
  }

  datatype Policy = Policy(
    potential: real, detected: real, severe: real, minSamples: u64, minConfidence: real,
    staleAfterMs: i64, maxAgeMs: i64)
  {
    predicate Valid() {
      && 0.0 <= potential <= detected <= severe
      && minSamples >= 1
      && 0.0 <= minConfidence <= 1.0
    }
  }

  datatype Status = Ok | InvalidInput | StaleAuthority | InsufficientEvidence
}

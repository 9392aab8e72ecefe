/** What a comparison computes: baseline selection, the gates, and the verdict. Doubles are reals. */
module Comparison {
  import opened Words
  import opened Domain
  import opened Ordering
  import opened Statistics

  /** The observations of one call; no vector can hold 2^63 of them. */
  type Batch = obs: seq<Observation<real>> | |obs| < 0x8000_0000_0000_0000 witness []

  // ---------- Degradation ----------

  function Ratio(a: real, b: real): real
    requires b > 0.0
  {
    a / b
  }

  function Magnitude(kind: MetricKind, relative: real): real {
    if kind.Duration() && relative > 0.0 then relative
    else if kind.Rate() && relative < 0.0 then 0.0 - relative
    else 0.0
  }

  /** The signed change relative to the reference; no reference, no change. */
  function Relative(reference: real, value: real): real {
    if reference <= 0.0 then 0.0 else Ratio(value - reference, reference)
  }

  function Classify(magnitude: real, policy: Policy): Outcome {
    if magnitude < policy.potential then Outcome.NoInterferenceDetected
    else if magnitude < policy.detected then Outcome.PotentialInterference
    else if magnitude < policy.severe then Outcome.InterferenceDetected
    else Outcome.SevereInterference
  }

  // ---------- Baseline selection ----------

  predicate Usable(b: Baseline<real>) {
    b.valid && b.sampleCount > 0 && b.confidence > 0.0 && b.mean >= 0.0
  }

  predicate BindingMatches(b: Baseline<real>, w: Workload) {
    && b.workloadGeneration == w.generation && b.deviceGeneration == w.deviceGeneration
    && b.workerBoot == w.workerBoot && b.config == w.config && b.problemSize == w.problemSize
    && b.runtimeGeneration == w.runtimeGeneration && b.kernelGeneration == w.kernelGeneration
    && b.policyGeneration == w.policyGeneration && b.topologyGeneration == w.topologyGeneration
  }

  /** A baseline for this workload on this device, whatever its binding. */
  predicate Concerns(b: Baseline<real>, w: Workload) {
    b.workloadId == w.id && b.deviceId == w.deviceId
  }

  predicate Candidate(b: Baseline<real>, w: Workload) {
    Concerns(b, w) && Usable(b) && BindingMatches(b, w)
  }

  /** Later reference time wins, then the larger id. */
  predicate Newer(a: Baseline<real>, b: Baseline<real>) {
    a.timestampMs > b.timestampMs || (a.timestampMs == b.timestampMs && a.id > b.id)
  }

  function Consider(best: Option<Baseline<real>>, b: Baseline<real>, w: Workload): Option<Baseline<real>> {
    if Candidate(b, w) && (best.None? || Newer(b, best.value)) then Some(b) else best
  }

  /** The selection loop over baselines in key order. */
  function Scan(bs: seq<Baseline<real>>, w: Workload): Option<Baseline<real>> {
    if bs == [] then None else Consider(Scan(bs[..|bs| - 1], w), bs[|bs| - 1], w)
  }

  function Selected(baselines: map<u64, Baseline<real>>, w: Workload): Option<Baseline<real>> {
    Scan(InOrder(baselines), w)
  }

  ghost predicate AnyConcerns(baselines: map<u64, Baseline<real>>, w: Workload) {
    exists i :: i in baselines && Concerns(baselines[i], w)
  }

  // ---------- Samples ----------

  predicate ValidMeasurement(m: Measurement<real>) {
    m.value >= 0.0 && m.sampleCount > 0 && m.variance >= 0.0
  }

  /** The observation is a sample of workload w for the given metric. */
  predicate Counts(o: Observation<real>, w: u64, kind: MetricKind) {
    o.workloadId == w && o.measurement.kind == kind && ValidMeasurement(o.measurement)
  }

  function Values(obs: seq<Observation<real>>, w: u64, kind: MetricKind): (vs: seq<real>)
    ensures |vs| <= |obs|
  {
    if obs == [] then []
    else
      var o, before := obs[|obs| - 1], Values(obs[..|obs| - 1], w, kind);
      if Counts(o, w, kind) then before + [o.measurement.value] else before
  }

  /** Some sample was taken while the peer was running. */
  ghost predicate Overlaps(obs: seq<Observation<real>>, w: u64, kind: MetricKind, peer: u64) {
    exists i :: 0 <= i < |obs| && Counts(obs[i], w, kind) && peer in obs[i].peers
  }

  ghost predicate AllMeasured(obs: seq<Observation<real>>, w: u64) {
    forall i :: 0 <= i < |obs| && obs[i].workloadId == w ==>
      obs[i].provenance == Provenance.Measured || obs[i].provenance == Provenance.Controlled
  }

  /** The time of the last observation. */
  function Now(obs: seq<Observation<real>>): i64 {
    if obs == [] then 0 else obs[|obs| - 1].timestampMs
  }

  // ---------- Confounders ----------

  function AddKind(kinds: seq<Confounder>, c: Confounder): seq<Confounder> {
    if c in kinds then kinds else kinds + [c]
  }

  function AddKinds(kinds: seq<Confounder>, cs: seq<Confounder>): seq<Confounder> {
    if cs == [] then kinds else AddKind(AddKinds(kinds, cs[..|cs| - 1]), cs[|cs| - 1])
  }

  /** The distinct confounders reported for workload w, in the order first seen. */
  function Kinds(obs: seq<Observation<real>>, w: u64): seq<Confounder> {
    if obs == [] then []
    else
      var o, before := obs[|obs| - 1], Kinds(obs[..|obs| - 1], w);
      if o.workloadId == w then AddKinds(before, o.confounders) else before
  }

  function Hards(cs: seq<Confounder>): seq<Confounder> {
    if cs == [] then []
    else Hards(cs[..|cs| - 1]) + if cs[|cs| - 1].Hard() then [cs[|cs| - 1]] else []
  }

  function Softs(cs: seq<Confounder>): seq<Confounder> {
    if cs == [] then []
    else Softs(cs[..|cs| - 1]) + if cs[|cs| - 1].Hard() then [] else [cs[|cs| - 1]]
  }

  // ---------- Confidence and attribution ----------

  function Power(x: real, k: nat): real {
    if k == 0 then 1.0 else Times(Power(x, k - 1), x)
  }

  /** One hard confounder caps the confidence; otherwise each soft one costs 15 percent. */
  function Discount(hard: nat, soft: nat): real {
    if hard > 0 then 0.2 else Power(0.85, soft)
  }

  /** Full credit at twice the minimum number of samples. */
  function Discipline(n: nat, minSamples: nat): real
    requires minSamples > 0
  {
    if n >= 2 * minSamples then 1.0 else Quotient(n as real, 2 * minSamples)
  }

  function Clamp(x: real): real {
    if x < 0.0 then 0.0 else if x > 1.0 then 1.0 else x
  }

  function Confidence(reference: real, n: nat, minSamples: nat, hard: nat, soft: nat): real
    requires minSamples > 0
  {
    Clamp(Times(Times(reference, Discipline(n, minSamples)), Discount(hard, soft)))
  }

  function Strength(overlap: bool, hard: nat, recovered: bool): Attribution {
    if !overlap then Attribution.Unknown
    else if hard >= 2 then Attribution.TemporallyAssociated
    else if hard == 1 then Attribution.Correlated
    else if recovered then Attribution.StrongCounterfactualEvidence
    else Attribution.ControlledComparison
  }

  // ---------- The gates ----------

  datatype Gate =
    | Refuse(outcome: Outcome, freshness: Freshness, baselineId: u64, sampleCount: u64)
    | Admit(baseline: Baseline<real>)

  /** A Current baseline ages; any other freshness is reported as it is. */
  function Aged(b: Baseline<real>, now: int, policy: Policy): Freshness {
    if b.freshness != Freshness.Current || now - b.timestampMs <= policy.staleAfterMs then b.freshness
    else if now - b.timestampMs <= policy.maxAgeMs then Freshness.Stale
    else Freshness.Expired
  }

  predicate FreshEnough(b: Baseline<real>, now: int, policy: Policy) {
    b.freshness == Freshness.Current && now - b.timestampMs <= policy.staleAfterMs
  }

  /** Every reason to refuse a comparison, in the order the source tests them. */
  ghost function GateOf(baselines: map<u64, Baseline<real>>, w: Workload, obs: Batch, policy: Policy): Gate {
    if !policy.Valid() then Refuse(Outcome.Unknown, Freshness.Unknown, 0, 0)
    else if !AnyConcerns(baselines, w) then Refuse(Outcome.InsufficientEvidence, Freshness.Unknown, 0, 0)
    else
      match Selected(baselines, w)
      case None => Refuse(Outcome.BaselineInvalid, Freshness.Unknown, 0, 0)
      case Some(b) =>
        var n := |Values(obs, w.id, b.metric)|;
        if !FreshEnough(b, Now(obs), policy) then
          Refuse(Outcome.RevalidationRequired, Aged(b, Now(obs), policy), 0, 0)
        else if n < policy.minSamples then Refuse(Outcome.InsufficientEvidence, b.freshness, b.id, n)
        else Admit(b)
  }

  // ---------- The verdict ----------

  /** The result before anything is known. */
  function Blank(epoch: u64, victim: u64, neighbor: u64, domain: InterferenceDomain): Pairwise<real> {
    Pairwise(victim, neighbor, domain, 0, Degradation([], 0, 0.0), 0.0, 0, Freshness.Unknown,
             Outcome.Unknown, Attribution.Unknown, 0, 0, 1, epoch, [], false, [])
  }

  function MeasuredDegradation(b: Baseline<real>, vs: seq<real>): Degradation<real>
    requires 0 < |vs| < 0x8000_0000_0000_0000
  {
    var mean := Mean(vs);
    var relative := Relative(b.mean, mean);
    Degradation([MetricDelta(b.metric, mean - b.mean, relative, |vs|, Variance(vs))], |vs|,
      Magnitude(b.metric, relative))
  }

  ghost function SourceOfEvidence(obs: seq<Observation<real>>, w: u64): Provenance {
    if AllMeasured(obs, w) then Provenance.Measured else Provenance.Controlled
  }

  /** Without overlap there is nothing to hold against the neighbor, however large the degradation. */
  ghost function OutcomeOf(b: Baseline<real>, obs: Batch, w: u64, peer: u64, policy: Policy): Outcome
    requires Values(obs, w, b.metric) != []
  {
    if Overlaps(obs, w, b.metric, peer)
    then Classify(MeasuredDegradation(b, Values(obs, w, b.metric)).worst, policy)
    else Outcome.NoInterferenceDetected
  }

  const ID_BYTES: nat := 8

  /** The identity of a comparison: what it compared, against what, over how many samples. */
  function ComparisonContent(victim: u64, neighbor: u64, domain: InterferenceDomain, baselineId: u64, n: u64): seq<u8> {
    [0xA1] + LittleEndian(victim, ID_BYTES) + LittleEndian(neighbor, ID_BYTES) + [domain as int]
      + LittleEndian(baselineId, ID_BYTES) + LittleEndian(n, ID_BYTES)
  }

  /** The identity of an episode does not mention the neighbor. */
  function EpisodeContent(victim: u64, domain: InterferenceDomain, baselineId: u64): seq<u8> {
    [0xB2] + LittleEndian(victim, ID_BYTES) + [domain as int] + LittleEndian(baselineId, ID_BYTES)
  }

  /** Zero is the nil identity, so it is never used. */
  function ContentId(digest: seq<u8> -> u64, content: seq<u8>): (id: u64)
    ensures id != 0
  {
    if digest(content) == 0 then 1 else digest(content)
  }

  /** The comparison as it is logged and put into the matrix: its episode is not yet known. */
  ghost function Verdict(digest: seq<u8> -> u64, epoch: u64, recovered: bool, b: Baseline<real>,
                         a: Workload, neighbor: u64, domain: InterferenceDomain,
                         obs: Batch, policy: Policy): Pairwise<real>
    requires policy.minSamples > 0 && Values(obs, a.id, b.metric) != []
  {
    var vs, kinds := Values(obs, a.id, b.metric), Kinds(obs, a.id);
    var overlap := Overlaps(obs, a.id, b.metric, neighbor);
    Pairwise(
      a.id, neighbor, domain, b.id, MeasuredDegradation(b, vs),
      Confidence(b.confidence, |vs|, policy.minSamples, |Hards(kinds)|, |Softs(kinds)|),
      |vs|, b.freshness, OutcomeOf(b, obs, a.id, neighbor, policy),
      Strength(overlap, |Hards(kinds)|, recovered), 0,
      ContentId(digest, ComparisonContent(a.id, neighbor, domain, b.id, |vs|)), 1, epoch,
      [SourceOfEvidence(obs, a.id)], |Hards(kinds)| > 0, Hards(kinds) + Softs(kinds))
  }

  const SUMMARY: Text :=
    [0x63, 0x6f, 0x6e, 0x74, 0x72, 0x6f, 0x6c, 0x6c, 0x65, 0x64, 0x20, 0x63, 0x6f, 0x2d, 0x72, 0x75, 0x6e, 0x20,
     0x64, 0x65, 0x67, 0x72, 0x61, 0x64, 0x61, 0x74, 0x69, 0x6f, 0x6e]

  function First(obs: seq<Observation<real>>): i64 {
    if obs == [] then 0 else obs[0].timestampMs
  }

  /** The episode that an indicated verdict opens or replaces. */
  function EpisodeFor(digest: seq<u8> -> u64, v: Pairwise<real>, source: Provenance, obs: Batch): Episode<real> {
    Episode(
      ContentId(digest, EpisodeContent(v.victim, v.domain, v.baselineId)), 1, First(obs), Now(obs), false,
      v.victim, [v.neighbor], [v.domain], v.baselineId, v.degradation,
      [Evidence(1, 1, source, v.attribution, v.outcome, SUMMARY)],
      v.confidence, v.outcome, source, v.freshness, v.epoch)
  }
}

/** The outcome of a comparison by its thresholds, in the unit of the samples and metric by metric. */
module Thresholds {
  import opened Words
  import opened Domain
  import opened Statistics
  import opened Comparison
  import opened Selection
  import opened Grading
  import opened Machine
  import opened Runs
  import opened Outcomes
  import opened Anatomy

  /** The metrics of which more is worse, by name. */
  const DURATIONS: set<MetricKind> :=
    {MetricKind.Latency, MetricKind.DeviceTime, MetricKind.TransferTime, MetricKind.CollectiveTime,
     MetricKind.StallTime, MetricKind.TailLatency}

  /** The metrics of which less is worse, by name. */
  const RATES: set<MetricKind> := {MetricKind.Throughput, MetricKind.CompletionRate, MetricKind.MemoryBandwidth}

  /** The loss lies in the band of this outcome, each threshold being a share of the reference. */
  predicate InBand(o: Outcome, loss: real, reference: real, policy: Policy) {
    && (o == Outcome.NoInterferenceDetected <==> loss < policy.potential * reference)
    && (o == Outcome.PotentialInterference <==> policy.potential * reference <= loss < policy.detected * reference)
    && (o == Outcome.InterferenceDetected <==> policy.detected * reference <= loss < policy.severe * reference)
    && (o == Outcome.SevereInterference <==> policy.severe * reference <= loss)
  }

  /** What exceeds zero. */
  function Excess(x: real): real {
    if x > 0.0 then x else 0.0
  }

  lemma RatioBelow(a: real, c: real, t: real)
    requires c > 0.0
    ensures Ratio(a, c) < t <==> a < t * c
  {
    RatioTimes(a, c);
    TimesAssociates(c, t, 1.0);
    if Ratio(a, c) < t {
      if Times(c, t) <= Times(c, Ratio(a, c)) {
        Cancel(c, t, Ratio(a, c));
      }
    } else {
      TimesMonotone(c, t, Ratio(a, c));
    }
  }

  lemma NegatedRatio(a: real, c: real)
    requires c > 0.0
    ensures Ratio(0.0 - a, c) == 0.0 - Ratio(a, c)
  {
    RatioTimes(a, c);
    RatioTimes(0.0 - a, c);
    TimesDistributes(c, 0.0, Ratio(a, c));
    TimesUnit(c);
    CancelEqual(c, Ratio(0.0 - a, c), 0.0 - Ratio(a, c));
  }

  lemma RatioSign(a: real, c: real)
    requires c > 0.0
    ensures (Ratio(a, c) > 0.0 <==> a > 0.0) && (Ratio(a, c) < 0.0 <==> a < 0.0) && Ratio(0.0, c) == 0.0
  {
    RatioBelow(a, c, 0.0);
    NegatedRatio(a, c);
    RatioBelow(0.0 - a, c, 0.0);
    RatioTimes(0.0, c);
    TimesUnit(c);
    CancelEqual(c, Ratio(0.0, c), 0.0);
  }

  lemma ClassBand(loss: real, reference: real, policy: Policy)
    requires reference > 0.0 && policy.Valid()
    ensures InBand(Classify(Ratio(loss, reference), policy), loss, reference, policy)
  {
    RatioBelow(loss, reference, policy.potential);
    RatioBelow(loss, reference, policy.detected);
    RatioBelow(loss, reference, policy.severe);
    TimesMonotone(reference, policy.potential, policy.detected);
    TimesMonotone(reference, policy.detected, policy.severe);
    TimesAssociates(reference, policy.potential, 1.0);
    TimesAssociates(reference, policy.detected, 1.0);
    TimesAssociates(reference, policy.severe, 1.0);
  }

  lemma DurationLoss(kind: MetricKind, reference: real, m: real)
    requires reference > 0.0
    requires kind in DURATIONS
    ensures Magnitude(kind, Relative(reference, m)) == Ratio(Excess(m - reference), reference)
  {
    RatioSign(m - reference, reference);
  }

  lemma RateLoss(kind: MetricKind, reference: real, m: real)
    requires reference > 0.0
    requires kind in RATES
    ensures Magnitude(kind, Relative(reference, m)) == Ratio(Excess(reference - m), reference)
  {
    RatioSign(m - reference, reference);
    NegatedRatio(m - reference, reference);
    assert 0.0 - (m - reference) == reference - m;
  }

  /** What a mean of m against the reference b is classified as. */
  ghost predicate Banded(o: Outcome, b: Baseline<real>, m: real, policy: Policy) {
    && (b.metric in DURATIONS && b.mean > 0.0 ==> InBand(o, Excess(m - b.mean), b.mean, policy))
    && (b.metric in RATES && b.mean > 0.0 ==> InBand(o, Excess(b.mean - m), b.mean, policy))
    && (b.mean <= 0.0 ==> InBand(o, 0.0, 1.0, policy))
  }

  lemma MeanBanded(b: Baseline<real>, m: real, policy: Policy)
    requires policy.Valid()
    ensures Banded(Classify(Magnitude(b.metric, Relative(b.mean, m)), policy), b, m, policy)
  {
    if b.mean <= 0.0 {
      RatioSign(0.0, 1.0);
      ClassBand(0.0, 1.0, policy);
    } else if b.metric in RATES {
      RateLoss(b.metric, b.mean, m);
      ClassBand(Excess(b.mean - m), b.mean, policy);
    } else if b.metric in DURATIONS {
      DurationLoss(b.metric, b.mean, m);
      ClassBand(Excess(m - b.mean), b.mean, policy);
    }
  }

  /**
    The returned outcome of an overlapping comparison is decided by how far the mean of the samples
    is from the reference, in the direction in which the metric is worse.
   */
  lemma ReturnedBand(digest: seq<u8> -> u64, st: Observatory, q: Request)
    requires Admitted(st, q) && Overlapping(q, Gated(st, q).baseline)
    ensures var b := Gated(st, q).baseline;
            SamplesFor(q, b) != [] && Banded(Result(digest, st, q).outcome, b, Mean(SamplesFor(q, b)), q.policy)
  {
    var b := Gated(st, q).baseline;
    AdmittedSamples(st, q);
    OutcomeReturned(digest, st, q);
    DegradationParts(b, SamplesFor(q, b));
    MeanBanded(b, Mean(SamplesFor(q, b)), q.policy);
  }

  /** The reported degradation is that distance as a share of the reference. */
  ghost predicate Share(worst: real, b: Baseline<real>, m: real) {
    && (b.metric in DURATIONS && b.mean > 0.0 ==> b.mean * worst == Excess(m - b.mean))
    && (b.metric in RATES && b.mean > 0.0 ==> b.mean * worst == Excess(b.mean - m))
    && (b.mean <= 0.0 ==> worst == 0.0)
  }

  lemma MagnitudeShare(b: Baseline<real>, m: real, worst: real)
    requires worst == Magnitude(b.metric, Relative(b.mean, m))
    ensures Share(worst, b, m)
  {
    if b.mean > 0.0 {
      RatioTimes(Excess(m - b.mean), b.mean);
      RatioTimes(Excess(b.mean - m), b.mean);
      if b.metric in RATES {
        RateLoss(b.metric, b.mean, m);
      } else if b.metric in DURATIONS {
        DurationLoss(b.metric, b.mean, m);
      }
    }
  }

  lemma ReturnedShare(digest: seq<u8> -> u64, st: Observatory, q: Request)
    requires Admitted(st, q)
    ensures var b := Gated(st, q).baseline;
            SamplesFor(q, b) != [] && Share(Result(digest, st, q).degradation.worst, b, Mean(SamplesFor(q, b)))
  {
    var b := Gated(st, q).baseline;
    ResultFigures(digest, st, q);
    DegradationParts(b, SamplesFor(q, b));
    MagnitudeShare(b, Mean(SamplesFor(q, b)), Result(digest, st, q).degradation.worst);
  }

  lemma NineNames(kind: MetricKind)
    ensures kind.Named() <==> kind in DURATIONS + RATES
  {
  }

  /** In a reachable state there is no other metric, so the bands decide every overlapping comparison. */
  lemma OneOfNine(digest: seq<u8> -> u64, st: Observatory, q: Request)
    requires Invariant(digest, st) && Admitted(st, q)
    ensures Gated(st, q).baseline.metric in DURATIONS + RATES
  {
    AdmittedBaseline(st.baselines, q.affected, q.obs, q.policy);
    NineNames(Gated(st, q).baseline.metric);
  }
}

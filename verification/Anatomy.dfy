/** What is in a result, field by field, from the fields of the records that went into it. */
module Anatomy {
  import opened Words
  import opened Domain
  import opened Statistics
  import opened Comparison
  import opened Selection
  import opened Grading
  import opened Confounding
  import opened Machine
  import opened Runs
  import opened History
  import opened Outcomes

  // ---------- Samples ----------

  /** Where the samples stand among the observations: exactly the valid measurements of that workload and metric. */
  lemma {:induction false} SamplesExactly(obs: seq<Observation<real>>, w: u64, kind: MetricKind) returns (at: seq<nat>)
    ensures |at| == |Values(obs, w, kind)|
    ensures forall j :: 0 <= j < |at| ==> at[j] < |obs| && Values(obs, w, kind)[j] == obs[at[j]].measurement.value
    ensures forall i, j :: 0 <= i < j < |at| ==> at[i] < at[j]
    ensures forall i: nat :: i < |obs| ==>
              (i in at <==>
                && obs[i].workloadId == w && obs[i].measurement.kind == kind && obs[i].measurement.value >= 0.0
                && obs[i].measurement.sampleCount > 0 && obs[i].measurement.variance >= 0.0)
  {
    at := [];
    if obs != [] {
      var n := |obs| - 1;
      at := SamplesExactly(obs[..n], w, kind);
      if Counts(obs[n], w, kind) {
        at := at + [n];
      }
    }
  }

  /** One of them was taken while the peer was running. */
  lemma OverlapExactly(obs: seq<Observation<real>>, w: u64, kind: MetricKind, peer: u64)
    ensures Overlaps(obs, w, kind, peer) <==>
              exists i :: 0 <= i < |obs| && peer in obs[i].peers
                && obs[i].workloadId == w && obs[i].measurement.kind == kind && obs[i].measurement.value >= 0.0
                && obs[i].measurement.sampleCount > 0 && obs[i].measurement.variance >= 0.0
  {
    forall i | 0 <= i < |obs|
      ensures Counts(obs[i], w, kind) <==>
                && obs[i].workloadId == w && obs[i].measurement.kind == kind && obs[i].measurement.value >= 0.0
                && obs[i].measurement.sampleCount > 0 && obs[i].measurement.variance >= 0.0
    {
    }
  }

  // ---------- The baseline ----------

  /** For this workload on this device, usable, and bound to the same nine generations and fingerprints. */
  predicate Suits(b: Baseline<real>, w: Workload) {
    && b.workloadId == w.id && b.deviceId == w.deviceId
    && b.valid && b.sampleCount > 0 && b.confidence > 0.0 && b.mean >= 0.0
    && b.workloadGeneration == w.generation && b.deviceGeneration == w.deviceGeneration && b.workerBoot == w.workerBoot
    && b.config == w.config && b.problemSize == w.problemSize
    && b.runtimeGeneration == w.runtimeGeneration && b.kernelGeneration == w.kernelGeneration
    && b.policyGeneration == w.policyGeneration && b.topologyGeneration == w.topologyGeneration
  }

  lemma CandidateSuits(b: Baseline<real>, w: Workload)
    ensures Candidate(b, w) <==> Suits(b, w)
  {
  }

  /** The latest suitable baseline is selected, the one of greater id among equally late ones. */
  lemma SelectedByFields(baselines: map<u64, Baseline<real>>, w: Workload, b: Baseline<real>)
    requires Selection.OwnIds(baselines)
    ensures Selected(baselines, w) == Some(b) <==>
              && b.id in baselines && baselines[b.id] == b && Suits(b, w)
              && forall i :: i in baselines && i != b.id && Suits(baselines[i], w) ==>
                   baselines[i].timestampMs < b.timestampMs || (baselines[i].timestampMs == b.timestampMs && i < b.id)
  {
    SelectsGreatest(baselines, w, b);
    forall x ensures Candidate(x, w) <==> Suits(x, w) {
      CandidateSuits(x, w);
    }
  }

  // ---------- Refusals ----------

  /** The time of the last observation, or 0. */
  function Latest(q: Request): int {
    if |q.obs| == 0 then 0 else q.obs[|q.obs| - 1].timestampMs
  }

  predicate Reasonable(p: Policy) {
    0.0 <= p.potential && p.potential <= p.detected && p.detected <= p.severe && p.minSamples >= 1
    && 0.0 <= p.minConfidence && p.minConfidence <= 1.0
  }

  /** A refusal names who was asked about and carries no finding. */
  predicate Empty(r: Pairwise<real>, st: Observatory, q: Request) {
    && r.victim == q.affected.id && r.neighbor == q.associated.id && r.domain == q.domain && r.epoch == st.epoch
    && r.comparisonGeneration == 1 && r.comparisonId == 0 && r.episodeId == 0
    && r.attribution == Attribution.Unknown && r.confidence == 0.0 && r.degradation == Degradation([], 0, 0.0)
    && r.evidenceSources == [] && !r.confounded && r.unresolved == []
  }

  lemma RefusedIsEmpty(digest: seq<u8> -> u64, st: Observatory, q: Request)
    requires !Admitted(st, q)
    ensures Empty(Result(digest, st, q), st, q)
  {
  }

  lemma GateOutright(m: map<u64, Baseline<real>>, w: Workload, obs: Batch, policy: Policy)
    requires Selection.OwnIds(m)
    ensures var g := GateOf(m, w, obs, policy);
            var suits := exists i :: i in m && Candidate(m[i], w);
            && (g.Refuse? && g.outcome == Outcome.Unknown <==> !policy.Valid())
            && (policy.Valid() && !AnyConcerns(m, w) ==> g.Refuse? && g.outcome == Outcome.InsufficientEvidence)
            && (g.Refuse? && g.outcome == Outcome.BaselineInvalid <==> policy.Valid() && AnyConcerns(m, w) && !suits)
            && (!policy.Valid() || !AnyConcerns(m, w) || !suits ==>
                  g.Refuse? && g.freshness == Freshness.Unknown && g.baselineId == 0 && g.sampleCount == 0)
  {
    SelectsNothing(m, w);
  }

  lemma RefusalReturned(digest: seq<u8> -> u64, st: Observatory, q: Request)
    ensures var g, r := Gated(st, q), Result(digest, st, q);
            && (g.Refuse? ==> r.outcome == g.outcome && r.freshness == g.freshness && r.baselineId == g.baselineId
                              && r.sampleCount == g.sampleCount)
            && (g.Admit? ==> r.outcome.Classified())
  {
    AdmittedOutcome(digest, st, q);
  }

  lemma SuitsSome(m: map<u64, Baseline<real>>, w: Workload)
    ensures (exists i :: i in m && Candidate(m[i], w)) <==> exists i :: i in m && Suits(m[i], w)
  {
    forall x ensures Candidate(x, w) <==> Suits(x, w) {
      CandidateSuits(x, w);
    }
  }

  /** No policy, no reference, none that suits: nothing is known of freshness, baseline or samples. */
  lemma RefusedOutright(digest: seq<u8> -> u64, st: Observatory, q: Request)
    requires Keyed(st)
    ensures var r, m := Result(digest, st, q), st.baselines;
            var any := exists i :: i in m && m[i].workloadId == q.affected.id && m[i].deviceId == q.affected.deviceId;
            var suits := exists i :: i in m && Suits(m[i], q.affected);
            && (r.outcome == Outcome.Unknown <==> !Reasonable(q.policy))
            && (Reasonable(q.policy) && !any ==> r.outcome == Outcome.InsufficientEvidence)
            && (r.outcome == Outcome.BaselineInvalid <==> Reasonable(q.policy) && any && !suits)
            && (!Reasonable(q.policy) || !any || !suits ==>
                  !Admitted(st, q) && r.freshness == Freshness.Unknown && r.baselineId == 0 && r.sampleCount == 0)
  {
    ConcernsByFields(st.baselines, q.affected);
    SuitsSome(st.baselines, q.affected);
    GateOutright(st.baselines, q.affected, q.obs, q.policy);
    RefusalReturned(digest, st, q);
  }

  lemma ConcernsByFields(m: map<u64, Baseline<real>>, w: Workload)
    ensures AnyConcerns(m, w) <==> exists i :: i in m && m[i].workloadId == w.id && m[i].deviceId == w.deviceId
  {
    if AnyConcerns(m, w) {
      var i :| i in m && Concerns(m[i], w);
      assert i in m && m[i].workloadId == w.id;
    }
    if i :| i in m && m[i].workloadId == w.id && m[i].deviceId == w.deviceId {
      assert Concerns(m[i], w);
    }
  }

  /**
    With a selected baseline, its age and its stored freshness decide: a current one may be as old as
    the policy's first limit; beyond it is reported stale, beyond the second expired; one that is not
    current is reported as it is. Then the samples are counted.
   */
  lemma RefusedByAge(digest: seq<u8> -> u64, st: Observatory, q: Request, b: Baseline<real>)
    requires Selected(st.baselines, q.affected) == Some(b) && AnyConcerns(st.baselines, q.affected)
               && Reasonable(q.policy)
    ensures var r, age := Result(digest, st, q), Latest(q) - b.timestampMs;
            var n := |Values(q.obs, q.affected.id, b.metric)|;
            && (r.outcome == Outcome.RevalidationRequired <==>
                  b.freshness != Freshness.Current || age > q.policy.staleAfterMs)
            && (b.freshness != Freshness.Current ==>
                  r.freshness == b.freshness && r.baselineId == 0 && r.sampleCount == 0)
            && (b.freshness == Freshness.Current && age > q.policy.staleAfterMs ==>
                  && r.freshness == (if age <= q.policy.maxAgeMs then Freshness.Stale else Freshness.Expired)
                  && r.baselineId == 0 && r.sampleCount == 0)
            && (b.freshness == Freshness.Current && age <= q.policy.staleAfterMs ==>
                  && (Admitted(st, q) <==> n >= q.policy.minSamples)
                  && r.freshness == Freshness.Current && r.baselineId == b.id && r.sampleCount == n
                  && (n < q.policy.minSamples ==> r.outcome == Outcome.InsufficientEvidence))
  {
  }

  // ---------- Confidence ----------

  /**
    The confidence from its four rules: full credit, proportional credit, 15 percent per soft kind, a
    fifth for hard ones.
   */
  lemma ConfidenceRules(reference: real, n: nat, minSamples: nat, hard: nat, soft: nat)
    requires minSamples > 0 && 0.0 <= reference <= 1.0
    ensures n >= 2 * minSamples ==> Confidence(reference, n, minSamples, 0, 0) == reference
    ensures n < 2 * minSamples ==>
              (2 * minSamples) as real * Confidence(reference, n, minSamples, 0, 0) == n as real * reference
    ensures Confidence(reference, n, minSamples, 0, soft + 1) == 0.85 * Confidence(reference, n, minSamples, 0, soft)
    ensures hard > 0 ==>
              Confidence(reference, n, minSamples, hard, soft) == 0.2 * Confidence(reference, n, minSamples, 0, 0)
  {
    Unclamped(reference, n, minSamples, 0, 0);
    Unclamped(reference, n, minSamples, 0, soft);
    Unclamped(reference, n, minSamples, 0, soft + 1);
    Unclamped(reference, n, minSamples, hard, soft);
    var base := Times(reference, Discipline(n, minSamples));
    TimesUnit(base);
    TimesAssociates(base, 1.0, 1.0);
    TimesUnit(reference);
    TimesAssociates(reference, 1.0, 1.0);
    TimesAssociates(base, Power(0.85, soft), 0.85);
    TimesAssociates(Times(base, Power(0.85, soft)), 0.85, 1.0);
    TimesAssociates(base, 0.2, 1.0);
    if n < 2 * minSamples {
      Proportional(reference, n, 2 * minSamples);
    }
  }

  lemma Proportional(reference: real, n: nat, d: nat)
    requires d > 0
    ensures d as real * Times(reference, Quotient(n as real, d)) == n as real * reference
  {
    QuotientTimes(n as real, d);
    TimesAssociates(reference, d as real, Quotient(n as real, d));
    TimesAssociates(d as real, reference, Quotient(n as real, d));
    TimesAssociates(reference, n as real, 1.0);
  }

  lemma Unclamped(reference: real, n: nat, minSamples: nat, hard: nat, soft: nat)
    requires minSamples > 0 && 0.0 <= reference <= 1.0
    ensures Confidence(reference, n, minSamples, hard, soft)
         == Times(Times(reference, Discipline(n, minSamples)), Discount(hard, soft))
  {
    DisciplineRange(n, minSamples);
    DiscountRange(hard, soft);
    ProductRange(reference, Discipline(n, minSamples));
    ProductRange(Times(reference, Discipline(n, minSamples)), Discount(hard, soft));
  }

  /** The confounders that by themselves invalidate an attribution. */
  const HARD: set<Confounder> :=
    {Confounder.ThermalThrottling, Confounder.PowerThrottling, Confounder.ClockChange,
     Confounder.DifferentWorkloadInput, Confounder.DifferentKernelVersion, Confounder.DifferentDriverRuntimeState,
     Confounder.WorkerRestart, Confounder.DifferentPlacement}

  lemma HardByName(c: Confounder)
    ensures c.Hard() <==> c in HARD
  {
  }

  // ---------- Admitted comparisons ----------

  /** How far the mean of the samples is from the reference, and how they spread. */
  ghost predicate Measures(d: Degradation<real>, b: Baseline<real>, vs: seq<real>)
    requires vs != []
  {
    && d.sampleCount == |vs| && |d.deltas| == 1
    && d.deltas[0].kind == b.metric && d.deltas[0].sampleCount == |vs| && d.deltas[0].variance == Variance(vs)
    && d.deltas[0].absolute == Mean(vs) - b.mean
    && (b.mean > 0.0 ==> b.mean * d.deltas[0].relative == Mean(vs) - b.mean)
    && (b.mean <= 0.0 ==> d.deltas[0].relative == 0.0)
  }

  lemma DeltaFigures(b: Baseline<real>, vs: seq<real>, d: Degradation<real>)
    requires 0 < |vs| < 0x8000_0000_0000_0000 && d == MeasuredDegradation(b, vs)
    ensures Measures(d, b, vs)
  {
    if b.mean > 0.0 {
      RatioTimes(Mean(vs) - b.mean, b.mean);
    }
  }

  /** Whom, where and against what, and over which samples. */
  lemma ResultFigures(digest: seq<u8> -> u64, st: Observatory, q: Request)
    requires Admitted(st, q)
    ensures var r, b := Result(digest, st, q), Gated(st, q).baseline;
            && r.victim == q.affected.id && r.neighbor == q.associated.id && r.domain == q.domain
            && r.baselineId == b.id && r.freshness == b.freshness && r.epoch == st.epoch && r.comparisonGeneration == 1
            && SamplesFor(q, b) != [] && r.sampleCount == |SamplesFor(q, b)|
            && r.degradation == MeasuredDegradation(b, SamplesFor(q, b))
  {
    AdmittedSamples(st, q);
  }

  lemma ResultDelta(digest: seq<u8> -> u64, st: Observatory, q: Request)
    requires Admitted(st, q)
    ensures var b := Gated(st, q).baseline;
            SamplesFor(q, b) != [] && Measures(Result(digest, st, q).degradation, b, SamplesFor(q, b))
  {
    var b := Gated(st, q).baseline;
    ResultFigures(digest, st, q);
    DeltaFigures(b, SamplesFor(q, b), Result(digest, st, q).degradation);
  }

  /** The confidence, and what is listed against it: the hard kinds first. */
  lemma ResultEvidence(digest: seq<u8> -> u64, st: Observatory, q: Request)
    requires Admitted(st, q)
    ensures var r, b, kinds := Result(digest, st, q), Gated(st, q).baseline, Kinds(q.obs, q.affected.id);
            && r.confidence == Confidence(b.confidence, |SamplesFor(q, b)|, q.policy.minSamples, |Hards(kinds)|,
              |Softs(kinds)|)
            && r.unresolved == Hards(kinds) + Softs(kinds) && r.confounded == (Hards(kinds) != [])
  {
  }

  /** The evidence counts as measured exactly when every observation of the workload is measured or controlled. */
  lemma ResultSource(digest: seq<u8> -> u64, st: Observatory, q: Request)
    requires Admitted(st, q)
    ensures Result(digest, st, q).evidenceSources
         == if forall i :: 0 <= i < |q.obs| && q.obs[i].workloadId == q.affected.id ==>
                 q.obs[i].provenance in {Provenance.Measured, Provenance.Controlled}
            then [Provenance.Measured] else [Provenance.Controlled]
  {
  }

  /** The bytes whose digest names a comparison and an episode. */
  lemma ResultIdentity(digest: seq<u8> -> u64, st: Observatory, q: Request)
    requires Admitted(st, q)
    ensures var r, b := Result(digest, st, q), Gated(st, q).baseline;
            var word := (x: nat) => LittleEndian(x, ID_BYTES);
            var c := digest([0xA1] + word(q.affected.id) + word(q.associated.id) + [q.domain as int] + word(b.id)
                            + word(|SamplesFor(q, b)|));
            var e := digest([0xB2] + word(q.affected.id) + [q.domain as int] + word(b.id));
            && r.comparisonId == (if c == 0 then 1 else c)
            && r.episodeId == (if !r.outcome.Indicated() then 0 else if e == 0 then 1 else e)
  {
  }

  /** The episode of an indicated comparison, field by field. */
  lemma EpisodeFigures(digest: seq<u8> -> u64, st: Observatory, q: Request)
    requires Admitted(st, q) && Result(digest, st, q).outcome.Indicated()
    ensures var e, r := Opened(digest, st, q), Result(digest, st, q);
            && Records(digest, st, q, e)
            && e.generation == 1 && !e.open && e.degradation == r.degradation && e.freshness == r.freshness
            && e.epoch == r.epoch && [e.provenance] == r.evidenceSources
            && q.obs != [] && e.startMs == q.obs[0].timestampMs && e.endMs == q.obs[|q.obs| - 1].timestampMs
            && |e.evidence| == 1 && e.evidence[0].id == 1 && e.evidence[0].generation == 1
            && [e.evidence[0].provenance] == r.evidenceSources && e.evidence[0].strength == r.attribution
            && e.evidence[0].outcome == r.outcome && e.evidence[0].summary == SUMMARY
  {
    OpenedRecords(digest, st, q);
    AdmittedSamples(st, q);
  }

  /** The summary that an episode's evidence carries. */
  lemma SummaryText(i: nat)
    requires i < 29
    ensures |SUMMARY| == 29 && SUMMARY[i] == "controlled co-run degradation"[i] as int
  {
  }
}

/** What a comparison does not depend on: the order of its observations and the unit of its metric. */
module Invariance {
  import opened Words
  import opened Domain
  import opened Statistics
  import opened Comparison
  import opened Confounding
  import opened Grading

  type Obs = Observation<real>

  // ---------- Order ----------

  function Contribution(o: Obs, w: u64, kind: MetricKind): seq<real> {
    if Counts(o, w, kind) then [o.measurement.value] else []
  }

  lemma ValuesNext(obs: seq<Obs>, w: u64, kind: MetricKind)
    requires obs != []
    ensures multiset(Values(obs, w, kind))
         == multiset(Values(obs[..|obs| - 1], w, kind)) + multiset(Contribution(obs[|obs| - 1], w, kind))
  {
    assert Values(obs, w, kind) == Values(obs[..|obs| - 1], w, kind) + Contribution(obs[|obs| - 1], w, kind);
  }

  lemma WithoutSplits(obs: seq<Obs>, i: nat)
    requires i < |obs| - 1
    ensures var n, rest := |obs| - 1, Without(obs, i);
            rest != [] && rest[..|rest| - 1] == Without(obs[..n], i) && rest[|rest| - 1] == obs[n]
  {
  }

  lemma {:induction false} ValuesWithout(obs: seq<Obs>, w: u64, kind: MetricKind, i: nat)
    requires i < |obs|
    ensures multiset(Values(obs, w, kind))
              == multiset(Values(Without(obs, i), w, kind)) + multiset(Contribution(obs[i], w, kind))
  {
    var n := |obs| - 1;
    ValuesNext(obs, w, kind);
    if i == n {
      assert Without(obs, i) == obs[..n];
    } else {
      ValuesWithout(obs[..n], w, kind, i);
      WithoutSplits(obs, i);
      ValuesNext(Without(obs, i), w, kind);
    }
  }

  lemma {:induction false} ValuesPermuted(xs: seq<Obs>, ys: seq<Obs>, w: u64, kind: MetricKind)
    requires multiset(xs) == multiset(ys)
    ensures multiset(Values(xs, w, kind)) == multiset(Values(ys, w, kind))
    decreases |xs|
  {
    PermutedSize(xs, ys);
    if xs != [] {
      var i := PermutedHead(xs, ys);
      ValuesPermuted(Without(xs, 0), Without(ys, i), w, kind);
      ValuesWithout(xs, w, kind, 0);
      ValuesWithout(ys, w, kind, i);
    }
  }

  lemma PermutedMembers(xs: seq<Obs>, ys: seq<Obs>)
    requires multiset(xs) == multiset(ys)
    ensures forall x :: x in xs <==> x in ys
  {
    forall x ensures x in xs <==> x in ys {
      assert x in multiset(xs) <==> x in multiset(ys);
    }
  }

  /** The properties that quantify over positions, restated over members. */
  lemma ByMembers(xs: seq<Obs>, w: u64, kind: MetricKind, peer: u64)
    ensures Overlaps(xs, w, kind, peer) <==> exists x :: x in xs && Counts(x, w, kind) && peer in x.peers
    ensures AllMeasured(xs, w) <==> forall x :: x in xs && x.workloadId == w ==>
              x.provenance == Provenance.Measured || x.provenance == Provenance.Controlled
  {
    if Overlaps(xs, w, kind, peer) {
      var i :| 0 <= i < |xs| && Counts(xs[i], w, kind) && peer in xs[i].peers;
      assert xs[i] in xs;
    }
  }

  lemma ReportsByMembers(xs: seq<Obs>, w: u64, c: Confounder)
    ensures Reports(xs, w, c) <==> exists x :: x in xs && x.workloadId == w && c in x.confounders
  {
    if Reports(xs, w, c) {
      var i :| 0 <= i < |xs| && xs[i].workloadId == w && c in xs[i].confounders;
      assert xs[i] in xs;
    }
  }

  lemma KindsPermuted(xs: seq<Obs>, ys: seq<Obs>, w: u64)
    requires multiset(xs) == multiset(ys)
    ensures |Hards(Kinds(xs, w))| == |Hards(Kinds(ys, w))| && |Softs(Kinds(xs, w))| == |Softs(Kinds(ys, w))|
  {
    KindsReported(xs, w);
    KindsReported(ys, w);
    PermutedMembers(xs, ys);
    forall c ensures c in Kinds(xs, w) <==> c in Kinds(ys, w) {
      ReportsByMembers(xs, w, c);
      ReportsByMembers(ys, w, c);
    }
    assert Elements(Kinds(xs, w)) == Elements(Kinds(ys, w));
    Counted(Kinds(xs, w));
    Counted(Kinds(ys, w));
  }

  lemma CircumstancesReordered(xs: seq<Obs>, ys: seq<Obs>, w: u64, kind: MetricKind, peer: u64)
    requires multiset(xs) == multiset(ys)
    ensures Overlaps(xs, w, kind, peer) == Overlaps(ys, w, kind, peer)
    ensures SourceOfEvidence(xs, w) == SourceOfEvidence(ys, w)
  {
    PermutedMembers(xs, ys);
    ByMembers(xs, w, kind, peer);
    ByMembers(ys, w, kind, peer);
  }

  lemma DegradationReordered(b: Baseline<real>, xs: Batch, ys: Batch, w: u64)
    requires Values(xs, w, b.metric) != [] && multiset(xs) == multiset(ys)
    ensures |Values(ys, w, b.metric)| == |Values(xs, w, b.metric)|
    ensures MeasuredDegradation(b, Values(xs, w, b.metric)) == MeasuredDegradation(b, Values(ys, w, b.metric))
  {
    ValuesPermuted(xs, ys, w, b.metric);
    StatisticsPermuted(Values(xs, w, b.metric), Values(ys, w, b.metric));
  }

  /** Reordering that keeps the last timestamp passes or fails the same gates. */
  lemma GateReordered(baselines: map<u64, Baseline<real>>, a: Workload, xs: Batch, ys: Batch, policy: Policy)
    requires multiset(xs) == multiset(ys) && Now(xs) == Now(ys)
    ensures GateOf(baselines, a, xs, policy) == GateOf(baselines, a, ys, policy)
  {
    if Selected(baselines, a).Some? {
      var kind := Selected(baselines, a).value.metric;
      ValuesPermuted(xs, ys, a.id, kind);
      PermutedSize(Values(xs, a.id, kind), Values(ys, a.id, kind));
    }
  }

  /** Reordering changes nothing in the verdict but the order in which confounders are listed. */
  lemma VerdictReordered(digest: seq<u8> -> u64, epoch: u64, recovered: bool, b: Baseline<real>, a: Workload,
                         neighbor: u64, domain: InterferenceDomain, xs: Batch, ys: Batch, policy: Policy)
    requires policy.minSamples > 0 && Values(xs, a.id, b.metric) != [] && multiset(xs) == multiset(ys)
    ensures Values(ys, a.id, b.metric) != []
    ensures var v := Verdict(digest, epoch, recovered, b, a, neighbor, domain, xs, policy);
            v == Verdict(digest, epoch, recovered, b, a, neighbor, domain, ys, policy).(unresolved := v.unresolved)
  {
    DegradationReordered(b, xs, ys, a.id);
    KindsPermuted(xs, ys, a.id);
    CircumstancesReordered(xs, ys, a.id, b.metric, neighbor);
  }

  // ---------- Unit ----------

  function Rescaled(k: real, obs: seq<Obs>): (r: seq<Obs>)
    ensures |r| == |obs|
  {
    seq(|obs|, i requires 0 <= i < |obs| =>
      obs[i].(measurement := obs[i].measurement.(value := Times(k, obs[i].measurement.value))))
  }

  lemma {:induction false} ValuesRescaled(k: real, obs: seq<Obs>, w: u64, kind: MetricKind)
    requires k > 0.0
    ensures Values(Rescaled(k, obs), w, kind) == Scale(k, Values(obs, w, kind))
  {
    if obs != [] {
      var n := |obs| - 1;
      ValuesRescaled(k, obs[..n], w, kind);
      assert Rescaled(k, obs)[..n] == Rescaled(k, obs[..n]);
      SignKept(k, obs[n].measurement.value);
    }
  }

  lemma SignKept(k: real, v: real)
    requires k > 0.0
    ensures Times(k, v) >= 0.0 <==> v >= 0.0
  {
    TimesUnit(k);
    if v >= 0.0 {
      TimesMonotone(k, 0.0, v);
    } else {
      TimesPositive(k, -v);
      TimesDistributes(k, 0.0, v);
    }
  }

  lemma {:induction false} KindsRescaled(k: real, obs: seq<Obs>, w: u64)
    ensures Kinds(Rescaled(k, obs), w) == Kinds(obs, w)
  {
    if obs != [] {
      var n := |obs| - 1;
      KindsRescaled(k, obs[..n], w);
      assert Rescaled(k, obs)[..n] == Rescaled(k, obs[..n]);
    }
  }

  lemma OverlapsRescaled(k: real, obs: seq<Obs>, w: u64, kind: MetricKind, peer: u64)
    requires k > 0.0
    ensures Overlaps(Rescaled(k, obs), w, kind, peer) <==> Overlaps(obs, w, kind, peer)
  {
    var scaled := Rescaled(k, obs);
    forall i | 0 <= i < |obs| ensures Counts(scaled[i], w, kind) <==> Counts(obs[i], w, kind) {
      SignKept(k, obs[i].measurement.value);
    }
    if Overlaps(obs, w, kind, peer) {
      var i :| 0 <= i < |obs| && Counts(obs[i], w, kind) && peer in obs[i].peers;
      assert Counts(scaled[i], w, kind) && peer in scaled[i].peers;
    }
  }

  /** Scaling the baseline and every sample by one positive factor keeps the whole judgement. */
  lemma VerdictRescaled(k: real, digest: seq<u8> -> u64, epoch: u64, recovered: bool, b: Baseline<real>, a: Workload,
                        neighbor: u64, domain: InterferenceDomain, obs: Batch, policy: Policy)
    requires k > 0.0 && policy.minSamples > 0 && Values(obs, a.id, b.metric) != []
    ensures Values(Rescaled(k, obs), a.id, b.metric) != []
    ensures var v := Verdict(digest, epoch, recovered, b, a, neighbor, domain, obs, policy);
            var s := Verdict(digest, epoch, recovered, b.(mean := Times(k, b.mean)), a, neighbor, domain,
              Rescaled(k, obs), policy);
            && s == v.(degradation := s.degradation)
            && s.degradation.worst == v.degradation.worst
            && s.degradation.deltas[0].relative == v.degradation.deltas[0].relative
  {
    var vs := Values(obs, a.id, b.metric);
    ValuesRescaled(k, obs, a.id, b.metric);
    KindsRescaled(k, obs, a.id);
    OverlapsRescaled(k, obs, a.id, b.metric, neighbor);
    OutcomeScales(k, b, vs, policy);
    MeasuredRescaled(k, obs, a.id);
  }

  lemma MeasuredRescaled(k: real, obs: seq<Obs>, w: u64)
    ensures SourceOfEvidence(Rescaled(k, obs), w) == SourceOfEvidence(obs, w)
  {
    var s := Rescaled(k, obs);
    assert forall i :: 0 <= i < |obs| ==> s[i].workloadId == obs[i].workloadId && s[i].provenance == obs[i].provenance;
  }
}

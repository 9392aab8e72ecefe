/** How the outcome of a comparison follows its samples. */
module Grading {
  import opened Words
  import opened Domain
  import opened Statistics
  import opened Comparison

  /** The outcome that a single sample of the given value would receive. */
  function Grade(b: Baseline<real>, value: real, policy: Policy): Outcome {
    Classify(Magnitude(b.metric, Relative(b.mean, value)), policy)
  }

  // ---------- Monotonicity ----------

  lemma RatioMonotone(a: real, b: real, c: real)
    requires c > 0.0 && a <= b
    ensures Ratio(a, c) <= Ratio(b, c)
  {
    RatioTimes(a, c);
    RatioTimes(b, c);
    Cancel(c, Ratio(a, c), Ratio(b, c));
  }

  lemma RatioTimes(a: real, c: real)
    requires c > 0.0
    ensures Times(c, Ratio(a, c)) == a
  {
  }

  lemma RelativeMonotone(reference: real, x: real, y: real)
    requires x <= y
    ensures Relative(reference, x) <= Relative(reference, y)
  {
    if reference > 0.0 {
      RatioMonotone(x - reference, y - reference, reference);
    }
  }

  /** More time, or a lower rate, never grades better. */
  lemma GradeMonotone(b: Baseline<real>, x: real, y: real, policy: Policy)
    requires x <= y && policy.Valid()
    ensures !b.metric.Rate() ==> Grade(b, x, policy) <= Grade(b, y, policy)
    ensures b.metric.Rate() ==> Grade(b, y, policy) <= Grade(b, x, policy)
  {
    RelativeMonotone(b.mean, x, y);
  }

  // ---------- Between the extremes ----------

  lemma {:induction false} Extremes(vs: seq<real>) returns (lo: nat, hi: nat)
    requires vs != []
    ensures lo < |vs| && hi < |vs| && forall i :: 0 <= i < |vs| ==> vs[lo] <= vs[i] <= vs[hi]
  {
    var n := |vs| - 1;
    if n == 0 {
      lo, hi := 0, 0;
    } else {
      lo, hi := Extremes(vs[..n]);
      assert forall i :: 0 <= i < n ==> vs[..n][i] == vs[i];
      lo := if vs[n] < vs[lo] then n else lo;
      hi := if vs[n] > vs[hi] then n else hi;
    }
  }

  /** The class of the measured degradation lies between the grades of the least and the most degraded sample. */
  lemma OutcomeBracketed(b: Baseline<real>, vs: seq<real>, policy: Policy) returns (least: nat, most: nat)
    requires 0 < |vs| < 0x8000_0000_0000_0000 && policy.Valid()
    ensures least < |vs| && most < |vs|
    ensures forall i :: 0 <= i < |vs| ==>
              Grade(b, vs[least], policy) <= Grade(b, vs[i], policy) <= Grade(b, vs[most], policy)
    ensures Grade(b, vs[least], policy)
         <= Classify(MeasuredDegradation(b, vs).worst, policy)
         <= Grade(b, vs[most], policy)
  {
    var lo, hi := Extremes(vs);
    MeanBetween(vs, vs[lo], vs[hi]);
    var mean := Mean(vs);
    GradeMonotone(b, vs[lo], mean, policy);
    GradeMonotone(b, mean, vs[hi], policy);
    least, most := if b.metric.Rate() then hi else lo, if b.metric.Rate() then lo else hi;
    forall i | 0 <= i < |vs|
      ensures Grade(b, vs[least], policy) <= Grade(b, vs[i], policy) <= Grade(b, vs[most], policy)
    {
      GradeMonotone(b, vs[lo], vs[i], policy);
      GradeMonotone(b, vs[i], vs[hi], policy);
    }
  }

  // ---------- Scale ----------

  lemma RelativeScales(k: real, reference: real, value: real)
    requires k > 0.0
    ensures Relative(Times(k, reference), Times(k, value)) == Relative(reference, value)
  {
    TimesUnit(k);
    if reference > 0.0 {
      TimesPositive(k, reference);
      var r, s := Times(k, reference), Relative(reference, value);
      RatioTimes(Times(k, value) - r, r);
      RatioTimes(value - reference, reference);
      TimesDistributes(k, value, reference);
      TimesAssociates(k, reference, s);
      CancelEqual(r, Relative(r, Times(k, value)), s);
    } else {
      TimesMonotone(k, reference, 0.0);
    }
  }

  lemma MeanRelativeScales(k: real, reference: real, vs: seq<real>)
    requires k > 0.0 && vs != []
    ensures Relative(Times(k, reference), Mean(Scale(k, vs))) == Relative(reference, Mean(vs))
    ensures Mean(Scale(k, vs)) - Times(k, reference) == Times(k, Mean(vs) - reference)
  {
    MeanScale(k, vs);
    RelativeScales(k, reference, Mean(vs));
    TimesDistributes(k, Mean(vs), reference);
  }

  /** Measuring in another unit changes neither the relative degradation nor the outcome. */
  lemma OutcomeScales(k: real, b: Baseline<real>, vs: seq<real>, policy: Policy)
    requires k > 0.0 && 0 < |vs| < 0x8000_0000_0000_0000
    ensures var scaled := MeasuredDegradation(b.(mean := Times(k, b.mean)), Scale(k, vs));
            var plain := MeasuredDegradation(b, vs);
            && scaled.worst == plain.worst
            && scaled.deltas[0].relative == plain.deltas[0].relative
            && scaled.deltas[0].absolute == Times(k, plain.deltas[0].absolute)
            && Classify(scaled.worst, policy) == Classify(plain.worst, policy)
  {
    MeanRelativeScales(k, b.mean, vs);
    DegradationParts(b, vs);
    DegradationParts(b.(mean := Times(k, b.mean)), Scale(k, vs));
  }

  lemma DegradationParts(b: Baseline<real>, vs: seq<real>)
    requires 0 < |vs| < 0x8000_0000_0000_0000
    ensures var d := MeasuredDegradation(b, vs);
            && d.worst == Magnitude(b.metric, Relative(b.mean, Mean(vs)))
            && |d.deltas| == 1 && d.deltas[0].relative == Relative(b.mean, Mean(vs))
              && d.deltas[0].absolute == Mean(vs) - b.mean
  {
  }

  // ---------- Rates ----------

  lemma {:induction false} ValuesSign(obs: seq<Observation<real>>, w: u64, kind: MetricKind)
    ensures forall i :: 0 <= i < |Values(obs, w, kind)| ==> Values(obs, w, kind)[i] >= 0.0
  {
    if obs != [] {
      ValuesSign(obs[..|obs| - 1], w, kind);
    }
  }

  /** A rate cannot lose more than all of itself. */
  lemma RateLossBounded(b: Baseline<real>, obs: Batch, w: u64)
    requires b.metric.Rate() && Values(obs, w, b.metric) != []
    ensures 0.0 <= MeasuredDegradation(b, Values(obs, w, b.metric)).worst <= 1.0
  {
    var vs := Values(obs, w, b.metric);
    ValuesSign(obs, w, b.metric);
    var lo, hi := Extremes(vs);
    MeanBetween(vs, vs[lo], vs[hi]);
    if b.mean > 0.0 {
      RatioTimes(Mean(vs) - b.mean, b.mean);
      TimesUnit(b.mean);
      TimesDistributes(b.mean, Relative(b.mean, Mean(vs)), 1.0);
      Cancel(b.mean, -1.0, Relative(b.mean, Mean(vs)));
    }
  }
}

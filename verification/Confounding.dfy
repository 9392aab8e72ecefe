/** Confounders: which ones a comparison sees, and what they do to its confidence. */
module Confounding {
  import opened Words
  import opened Domain
  import opened Statistics
  import opened Comparison

  // ---------- The distinct kinds are those reported ----------

  ghost predicate Distinct<T>(xs: seq<T>) {
    forall i, j :: 0 <= i < j < |xs| ==> xs[i] != xs[j]
  }

  function Elements<T>(xs: seq<T>): set<T> {
    set x | x in xs
  }

  /** Every confounder that some observation of workload w carries. */
  ghost predicate Reports(obs: seq<Observation<real>>, w: u64, c: Confounder) {
    exists i :: 0 <= i < |obs| && obs[i].workloadId == w && c in obs[i].confounders
  }

  lemma {:induction false} AddedKinds(kinds: seq<Confounder>, cs: seq<Confounder>)
    requires Distinct(kinds)
    ensures Distinct(AddKinds(kinds, cs))
    ensures forall c :: c in AddKinds(kinds, cs) <==> c in kinds || c in cs
  {
    if cs != [] {
      var n := |cs| - 1;
      AddedKinds(kinds, cs[..n]);
      assert cs == cs[..n] + [cs[n]];
    }
  }

  lemma ReportsNext(obs: seq<Observation<real>>, w: u64, c: Confounder)
    requires obs != []
    ensures var n := |obs| - 1;
            Reports(obs, w, c) <==> Reports(obs[..n], w, c) || (obs[n].workloadId == w && c in obs[n].confounders)
  {
    var n := |obs| - 1;
    assert forall i :: 0 <= i < n ==> obs[..n][i] == obs[i];
    if Reports(obs[..n], w, c) {
      var i :| 0 <= i < n && obs[..n][i].workloadId == w && c in obs[..n][i].confounders;
      assert obs[i].workloadId == w;
    }
  }

  lemma {:induction false} KindsReported(obs: seq<Observation<real>>, w: u64)
    ensures Distinct(Kinds(obs, w))
    ensures forall c :: c in Kinds(obs, w) <==> Reports(obs, w, c)
  {
    if obs != [] {
      var n := |obs| - 1;
      KindsReported(obs[..n], w);
      AddedKinds(Kinds(obs[..n], w), obs[n].confounders);
      forall c ensures c in Kinds(obs, w) <==> Reports(obs, w, c) {
        ReportsNext(obs, w, c);
      }
    }
  }

  // ---------- Counting them ----------

  function HardSet(cs: set<Confounder>): set<Confounder> {
    set c | c in cs && c.Hard()
  }

  function SoftSet(cs: set<Confounder>): set<Confounder> {
    set c | c in cs && !c.Hard()
  }

  lemma OneMoreKind(before: set<Confounder>, c: Confounder)
    requires c !in before
    ensures |HardSet(before + {c})| == |HardSet(before)| + if c.Hard() then 1 else 0
    ensures |SoftSet(before + {c})| == |SoftSet(before)| + if c.Hard() then 0 else 1
  {
    if c.Hard() {
      assert HardSet(before + {c}) == HardSet(before) + {c} && SoftSet(before + {c}) == SoftSet(before);
    } else {
      assert SoftSet(before + {c}) == SoftSet(before) + {c} && HardSet(before + {c}) == HardSet(before);
    }
  }

  lemma OneMoreElement<T>(xs: seq<T>)
    requires xs != [] && Distinct(xs)
    ensures var n := |xs| - 1;
            Distinct(xs[..n]) && Elements(xs) == Elements(xs[..n]) + {xs[n]} && xs[n] !in Elements(xs[..n])
  {
    var n := |xs| - 1;
    assert xs == xs[..n] + [xs[n]];
    assert forall i :: 0 <= i < n ==> xs[..n][i] == xs[i];
  }

  lemma {:induction false} Counted(cs: seq<Confounder>)
    requires Distinct(cs)
    ensures |Hards(cs)| == |HardSet(Elements(cs))| && |Softs(cs)| == |SoftSet(Elements(cs))|
  {
    if cs == [] {
      assert HardSet(Elements(cs)) == {} && SoftSet(Elements(cs)) == {};
    } else {
      OneMoreElement(cs);
      Counted(cs[..|cs| - 1]);
      OneMoreKind(Elements(cs[..|cs| - 1]), cs[|cs| - 1]);
    }
  }

  lemma {:induction false} SubsetSize<T>(a: set<T>, b: set<T>)
    requires a <= b
    ensures |a| <= |b|
    decreases |a|
  {
    if a != {} {
      var x :| x in a;
      SubsetSize(a - {x}, b - {x});
    }
  }

  /** Reporting more confounders never lowers either count. */
  lemma CountsGrow(a: seq<Confounder>, b: seq<Confounder>)
    requires Distinct(a) && Distinct(b) && Elements(a) <= Elements(b)
    ensures |Hards(a)| <= |Hards(b)| && |Softs(a)| <= |Softs(b)|
  {
    Counted(a);
    Counted(b);
    SubsetSize(HardSet(Elements(a)), HardSet(Elements(b)));
    SubsetSize(SoftSet(Elements(a)), SoftSet(Elements(b)));
  }

  const SOFT_KINDS: set<Confounder> := {3, 7, 8, 9, 10, 11, 12, 13, 16}

  const MAX_SOFT: nat := 9

  /** Of the declared enumerators, at most nine are soft. */
  lemma NamedSoftKinds(cs: seq<Confounder>)
    requires Distinct(cs) && forall c :: c in cs ==> c.Named()
    ensures |Softs(cs)| <= MAX_SOFT
  {
    Counted(cs);
    var soft := SoftSet(Elements(cs));
    assert soft <= SOFT_KINDS;
    SubsetSize(soft, SOFT_KINDS);
  }

  // ---------- The discount ----------

  lemma {:induction false} PowerShrinks(k: nat)
    ensures 0.0 < Power(0.85, k) <= 1.0
    ensures Power(0.85, k + 1) <= Power(0.85, k)
  {
    if k > 0 {
      PowerShrinks(k - 1);
    }
    Shrink(Power(0.85, k));
  }

  lemma Shrink(p: real)
    requires 0.0 < p
    ensures 0.0 < Times(p, 0.85) <= p
  {
  }

  lemma {:induction false} PowerAntitone(j: nat, k: nat)
    requires j <= k
    ensures Power(0.85, k) <= Power(0.85, j)
    decreases k
  {
    if j < k {
      PowerAntitone(j, k - 1);
      PowerShrinks(k - 1);
    }
  }

  lemma NextPower(k: nat, p: real)
    requires Power(0.85, k) == p
    ensures Power(0.85, k + 1) == p * 0.85
  {
  }

  /** Nine soft confounders leave more confidence than one hard one does, ten leave less. */
  lemma NinthAndTenth()
    ensures Power(0.85, MAX_SOFT) > 0.2 > Power(0.85, MAX_SOFT + 1)
  {
    var p1 := 0.85;
    NextPower(0, 1.0);
    var p2 := p1 * 0.85;
    NextPower(1, p1);
    var p3 := p2 * 0.85;
    NextPower(2, p2);
    var p4 := p3 * 0.85;
    NextPower(3, p3);
    var p5 := p4 * 0.85;
    NextPower(4, p4);
    var p6 := p5 * 0.85;
    NextPower(5, p5);
    var p7 := p6 * 0.85;
    NextPower(6, p6);
    var p8 := p7 * 0.85;
    NextPower(7, p7);
    var p9 := p8 * 0.85;
    NextPower(8, p8);
    NextPower(9, p9);
  }

  /** A first hard confounder never raises the discount factor exactly when at most nine soft ones were there. */
  lemma FirstHardConfounder(hard: nat, soft: nat)
    requires hard > 0
    ensures Discount(hard, soft) <= Discount(0, soft) <==> soft <= MAX_SOFT
  {
    NinthAndTenth();
    if soft <= MAX_SOFT {
      PowerAntitone(soft, MAX_SOFT);
    } else {
      PowerAntitone(MAX_SOFT + 1, soft);
    }
  }

  lemma DiscountRange(hard: nat, soft: nat)
    ensures 0.0 < Discount(hard, soft) <= 1.0
  {
    PowerShrinks(soft);
  }

  lemma DisciplineRange(n: nat, minSamples: nat)
    requires minSamples > 0
    ensures 0.0 <= Discipline(n, minSamples) <= 1.0
  {
    if n < 2 * minSamples {
      var m := 2 * minSamples;
      QuotientTimes(n as real, m);
      TimesUnit(m as real);
      Cancel(m as real, 0.0, Quotient(n as real, m));
      TimesAssociates(m as real, 1.0, 1.0);
      Cancel(m as real, Quotient(n as real, m), 1.0);
    }
  }

  // ---------- Confidence ----------

  lemma ProductRange(a: real, b: real)
    requires a >= 0.0 && 0.0 <= b <= 1.0
    ensures 0.0 <= Times(a, b) <= a
  {
    TimesMonotone(a, b, 1.0);
    TimesMonotone(a, 0.0, b);
    TimesUnit(a);
    TimesAssociates(a, 1.0, 1.0);
  }

  /** Confidence never exceeds that of the baseline, and lies between 0 and 1. */
  lemma ConfidenceRange(reference: real, n: nat, minSamples: nat, hard: nat, soft: nat)
    requires minSamples > 0 && reference >= 0.0
    ensures 0.0 <= Confidence(reference, n, minSamples, hard, soft) <= reference
    ensures Confidence(reference, n, minSamples, hard, soft) <= 1.0
  {
    DisciplineRange(n, minSamples);
    DiscountRange(hard, soft);
    ProductRange(reference, Discipline(n, minSamples));
    ProductRange(Times(reference, Discipline(n, minSamples)), Discount(hard, soft));
  }

  lemma ConfidenceFalls(reference: real, n: nat, minSamples: nat, hard: nat, soft: nat, hard': nat, soft': nat)
    requires minSamples > 0 && reference >= 0.0 && Discount(hard', soft') <= Discount(hard, soft)
    ensures Confidence(reference, n, minSamples, hard', soft') <= Confidence(reference, n, minSamples, hard, soft)
  {
    DisciplineRange(n, minSamples);
    ProductRange(reference, Discipline(n, minSamples));
    TimesMonotone(Times(reference, Discipline(n, minSamples)), Discount(hard', soft'), Discount(hard, soft));
  }

  lemma DisciplineMonotone(n: nat, m: nat, minSamples: nat)
    requires minSamples > 0 && n <= m
    ensures Discipline(n, minSamples) <= Discipline(m, minSamples)
  {
    DisciplineRange(n, minSamples);
    if m < 2 * minSamples {
      var d := 2 * minSamples;
      QuotientTimes(n as real, d);
      QuotientTimes(m as real, d);
      Cancel(d as real, Quotient(n as real, d), Quotient(m as real, d));
    }
  }

  /** More samples never lower the confidence, and twice the minimum gives all there is to gain. */
  lemma MoreSamplesMoreConfidence(reference: real, n: nat, m: nat, minSamples: nat, hard: nat, soft: nat)
    requires minSamples > 0 && reference >= 0.0 && n <= m
    ensures Confidence(reference, n, minSamples, hard, soft) <= Confidence(reference, m, minSamples, hard, soft)
    ensures n >= 2 * minSamples ==>
              Confidence(reference, n, minSamples, hard, soft) == Confidence(reference, m, minSamples, hard, soft)
  {
    var d := Discount(hard, soft);
    DiscountRange(hard, soft);
    DisciplineMonotone(n, m, minSamples);
    TimesMonotone(reference, Discipline(n, minSamples), Discipline(m, minSamples));
    TimesAssociates(Times(reference, Discipline(n, minSamples)), d, 1.0);
    TimesAssociates(Times(reference, Discipline(m, minSamples)), d, 1.0);
    TimesMonotone(d, Times(reference, Discipline(n, minSamples)), Times(reference, Discipline(m, minSamples)));
  }

  lemma {:induction false} HardMembers(cs: seq<Confounder>, c: Confounder)
    ensures c in Hards(cs) <==> c in cs && c.Hard()
  {
    if cs != [] {
      HardMembers(cs[..|cs| - 1], c);
    }
  }

  lemma {:induction false} HardsDistinct(cs: seq<Confounder>)
    requires Distinct(cs)
    ensures Distinct(Hards(cs))
  {
    if cs != [] {
      var n := |cs| - 1;
      OneMoreElement(cs);
      HardsDistinct(cs[..n]);
      HardMembers(cs[..n], cs[n]);
    }
  }

  /** The hard confounders counted by a comparison are those that its observations report, each once. */
  lemma HardsReported(obs: seq<Observation<real>>, w: u64)
    ensures Distinct(Hards(Kinds(obs, w)))
    ensures forall c :: c in Hards(Kinds(obs, w)) <==> Reports(obs, w, c) && c.Hard()
  {
    KindsReported(obs, w);
    HardsDistinct(Kinds(obs, w));
    forall c ensures c in Hards(Kinds(obs, w)) <==> Reports(obs, w, c) && c.Hard() {
      HardMembers(Kinds(obs, w), c);
    }
  }

  /** The same observations, each with at least the confounders it had. */
  ghost predicate Augments(obs: seq<Observation<real>>, more: seq<Observation<real>>) {
    && |more| == |obs|
    && forall i :: 0 <= i < |obs| ==>
         && more[i] == obs[i].(confounders := more[i].confounders)
         && forall c :: c in obs[i].confounders ==> c in more[i].confounders
  }

  lemma {:induction false} SameValues(obs: seq<Observation<real>>, more: seq<Observation<real>>, w: u64,
                                      kind: MetricKind)
    requires Augments(obs, more)
    ensures Values(obs, w, kind) == Values(more, w, kind)
  {
    if obs != [] {
      var n := |obs| - 1;
      SameValues(obs[..n], more[..n], w, kind);
    }
  }

  lemma MoreKinds(obs: seq<Observation<real>>, more: seq<Observation<real>>, w: u64)
    requires Augments(obs, more)
    ensures Elements(Kinds(obs, w)) <= Elements(Kinds(more, w))
  {
    KindsReported(obs, w);
    KindsReported(more, w);
    forall c | c in Kinds(obs, w) ensures c in Kinds(more, w) {
      var i :| 0 <= i < |obs| && obs[i].workloadId == w && c in obs[i].confounders;
      assert more[i].workloadId == w && c in more[i].confounders;
    }
  }

  /** A growing set of confounders raises the factor exactly when a first hard one joins more than nine soft ones. */
  predicate Eases(hard: nat, soft: nat, hard': nat) {
    hard == 0 && hard' > 0 && soft > MAX_SOFT
  }

  lemma DiscountExactly(hard: nat, soft: nat, hard': nat, soft': nat)
    requires hard <= hard' && soft <= soft'
    ensures Discount(hard', soft') <= Discount(hard, soft) <==> !Eases(hard, soft, hard')
  {
    if hard == 0 {
      if hard' == 0 {
        PowerAntitone(soft, soft');
      } else {
        FirstHardConfounder(hard', soft);
      }
    }
  }

  lemma DisciplinePositive(n: nat, minSamples: nat)
    requires minSamples > 0 && n > 0
    ensures 0.0 < Discipline(n, minSamples) <= 1.0
  {
    DisciplineRange(n, minSamples);
    if n < 2 * minSamples {
      QuotientSign(n as real, 2 * minSamples);
    }
  }

  lemma ProductPositive(a: real, b: real)
    requires 0.0 < a <= 1.0 && 0.0 < b <= 1.0
    ensures 0.0 < Times(a, b) <= 1.0
  {
    TimesPositive(a, b);
    ProductRange(a, b);
  }

  /** For a positive confidence the comparison of factors decides. */
  lemma ConfidenceFollowsDiscount(reference: real, n: nat, minSamples: nat, hard: nat, soft: nat, hard': nat,
                                  soft': nat)
    requires minSamples > 0 && n > 0 && 0.0 < reference <= 1.0
    ensures Confidence(reference, n, minSamples, hard', soft') <= Confidence(reference, n, minSamples, hard, soft)
       <==> Discount(hard', soft') <= Discount(hard, soft)
  {
    var base, d, d' := Times(reference, Discipline(n, minSamples)), Discount(hard, soft), Discount(hard', soft');
    DisciplinePositive(n, minSamples);
    ProductPositive(reference, Discipline(n, minSamples));
    DiscountRange(hard, soft);
    DiscountRange(hard', soft');
    ProductPositive(base, d);
    ProductPositive(base, d');
    if d' <= d {
      ConfidenceFalls(reference, n, minSamples, hard, soft, hard', soft');
    } else if Times(base, d') <= Times(base, d) {
      Cancel(base, d', d);
    }
  }

  /** When adding confounders to otherwise equal observations lets the confidence of a comparison rise. */
  ghost predicate ConfoundersEase(obs: seq<Observation<real>>, more: seq<Observation<real>>, w: u64) {
    Hards(Kinds(obs, w)) == [] && Hards(Kinds(more, w)) != [] && |Softs(Kinds(obs, w))| > MAX_SOFT
  }

  /** The discount for the confounders that the observations report. */
  ghost function DiscountFor(obs: seq<Observation<real>>, w: u64): real {
    Discount(|Hards(Kinds(obs, w))|, |Softs(Kinds(obs, w))|)
  }

  lemma DiscountForMore(obs: seq<Observation<real>>, more: seq<Observation<real>>, w: u64)
    requires Augments(obs, more)
    ensures DiscountFor(more, w) <= DiscountFor(obs, w) <==> !ConfoundersEase(obs, more, w)
  {
    KindsReported(obs, w);
    KindsReported(more, w);
    MoreKinds(obs, more, w);
    var ks, ks' := Kinds(obs, w), Kinds(more, w);
    CountsGrow(ks, ks');
    DiscountExactly(|Hards(ks)|, |Softs(ks)|, |Hards(ks')|, |Softs(ks')|);
  }

  /**
    Reporting further confounders does not raise the confidence of a comparison, except exactly when
    a hard one joins more than nine soft ones.
   */
  lemma MoreConfoundersExactly(digest: seq<u8> -> u64, epoch: u64, recovered: bool, b: Baseline<real>,
                               a: Workload, neighbor: u64, domain: InterferenceDomain,
                               obs: Batch, more: Batch, policy: Policy)
    requires policy.minSamples > 0 && Values(obs, a.id, b.metric) != [] && 0.0 < b.confidence <= 1.0
    requires Augments(obs, more)
    ensures Values(more, a.id, b.metric) == Values(obs, a.id, b.metric)
    ensures Verdict(digest, epoch, recovered, b, a, neighbor, domain, more, policy).confidence
         <= Verdict(digest, epoch, recovered, b, a, neighbor, domain, obs, policy).confidence
       <==> !ConfoundersEase(obs, more, a.id)
  {
    SameValues(obs, more, a.id, b.metric);
    DiscountForMore(obs, more, a.id);
    var ks, ks' := Kinds(obs, a.id), Kinds(more, a.id);
    ConfidenceFollowsDiscount(b.confidence, |Values(obs, a.id, b.metric)|, policy.minSamples,
                              |Hards(ks)|, |Softs(ks)|, |Hards(ks')|, |Softs(ks')|);
  }

  /** Declared enumerators cannot do it. */
  lemma NamedNeverEase(obs: seq<Observation<real>>, more: seq<Observation<real>>, w: u64)
    requires forall c :: Reports(obs, w, c) ==> c.Named()
    ensures !ConfoundersEase(obs, more, w)
  {
    KindsReported(obs, w);
    NamedSoftKinds(Kinds(obs, w));
  }

  /**
    Reporting further confounders never raises the confidence of a comparison, as long as the ones
    reported before are declared enumerators.
   */
  lemma MoreConfoundersLessConfidence(digest: seq<u8> -> u64, epoch: u64, recovered: bool, b: Baseline<real>,
                                      a: Workload, neighbor: u64, domain: InterferenceDomain,
                                      obs: Batch, more: Batch, policy: Policy)
    requires policy.minSamples > 0 && Values(obs, a.id, b.metric) != [] && b.confidence >= 0.0
    requires Augments(obs, more) && forall c :: Reports(obs, a.id, c) ==> c.Named()
    ensures Values(more, a.id, b.metric) == Values(obs, a.id, b.metric)
    ensures Verdict(digest, epoch, recovered, b, a, neighbor, domain, more, policy).confidence
         <= Verdict(digest, epoch, recovered, b, a, neighbor, domain, obs, policy).confidence
  {
    SameValues(obs, more, a.id, b.metric);
    NamedNeverEase(obs, more, a.id);
    DiscountForMore(obs, more, a.id);
    var ks, ks' := Kinds(obs, a.id), Kinds(more, a.id);
    ConfidenceFalls(b.confidence, |Values(obs, a.id, b.metric)|, policy.minSamples,
                    |Hards(ks)|, |Softs(ks)|, |Hards(ks')|, |Softs(ks')|);
  }
}

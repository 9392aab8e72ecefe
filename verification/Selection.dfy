/** The baseline that the selection loop finds, whatever order baselines were published in. */
module Selection {
  import opened Words
  import opened Domain
  import opened Ordering
  import opened Comparison

  /** b is the best candidate among bs. */
  ghost predicate Best(bs: seq<Baseline<real>>, w: Workload, b: Baseline<real>) {
    b in bs && Candidate(b, w) && forall x :: x in bs && Candidate(x, w) ==> !Newer(x, b)
  }

  lemma {:induction false} ScanFinds(bs: seq<Baseline<real>>, w: Workload)
    ensures Scan(bs, w).None? ==> forall x :: x in bs ==> !Candidate(x, w)
    ensures Scan(bs, w).Some? ==> Best(bs, w, Scan(bs, w).value)
  {
    if bs != [] {
      var n := |bs| - 1;
      ScanFinds(bs[..n], w);
      assert forall x :: x in bs <==> x in bs[..n] || x == bs[n] by {
        assert bs == bs[..n] + [bs[n]];
      }
    }
  }

  ghost predicate OwnIds(baselines: map<u64, Baseline<real>>) {
    forall i :: i in baselines ==> baselines[i].id == i
  }

  /** b beats every other candidate of the map. */
  ghost predicate Greatest(baselines: map<u64, Baseline<real>>, w: Workload, b: Baseline<real>) {
    && b.id in baselines && baselines[b.id] == b && Candidate(b, w)
    && forall i :: i in baselines && i != b.id && Candidate(baselines[i], w) ==> Newer(b, baselines[i])
  }

  lemma Members(baselines: map<u64, Baseline<real>>, x: Baseline<real>)
    requires OwnIds(baselines)
    ensures x in InOrder(baselines) <==> x.id in baselines && baselines[x.id] == x
  {
    InOrderOf(baselines);
    if x in InOrder(baselines) {
      var i :| 0 <= i < |baselines| && InOrder(baselines)[i] == x;
      assert Entries(baselines)[i].0 in baselines;
    }
  }

  lemma BestIsGreatest(baselines: map<u64, Baseline<real>>, w: Workload, b: Baseline<real>)
    requires OwnIds(baselines) && Best(InOrder(baselines), w, b)
    ensures Greatest(baselines, w, b)
  {
    Members(baselines, b);
    forall i | i in baselines && i != b.id && Candidate(baselines[i], w) ensures Newer(b, baselines[i]) {
      Members(baselines, baselines[i]);
    }
  }

  lemma GreatestIsUnique(baselines: map<u64, Baseline<real>>, w: Workload, a: Baseline<real>, b: Baseline<real>)
    requires Greatest(baselines, w, a) && Greatest(baselines, w, b)
    ensures a == b
  {
    assert a.id != b.id ==> Newer(a, b) && Newer(b, a);
  }

  /** The loop returns exactly the candidate that is greatest by reference time and then id. */
  lemma SelectsGreatest(baselines: map<u64, Baseline<real>>, w: Workload, b: Baseline<real>)
    requires OwnIds(baselines)
    ensures Selected(baselines, w) == Some(b) <==> Greatest(baselines, w, b)
  {
    ScanFinds(InOrder(baselines), w);
    if Greatest(baselines, w, b) {
      Members(baselines, b);
    }
    if Selected(baselines, w).Some? {
      var s := Selected(baselines, w).value;
      BestIsGreatest(baselines, w, s);
      if Greatest(baselines, w, b) {
        GreatestIsUnique(baselines, w, b, s);
      }
    }
  }

  /** It returns nothing exactly when no baseline is a candidate. */
  lemma SelectsNothing(baselines: map<u64, Baseline<real>>, w: Workload)
    requires OwnIds(baselines)
    ensures Selected(baselines, w).None? <==> forall i :: i in baselines ==> !Candidate(baselines[i], w)
  {
    ScanFinds(InOrder(baselines), w);
    InOrderOf(baselines);
    if Selected(baselines, w).Some? {
      SelectsGreatest(baselines, w, Selected(baselines, w).value);
    }
  }

  /** What an admitted comparison rests on. */
  lemma AdmittedBaseline(baselines: map<u64, Baseline<real>>, w: Workload, obs: Batch, policy: Policy)
    requires OwnIds(baselines) && GateOf(baselines, w, obs, policy).Admit?
    ensures var b := GateOf(baselines, w, obs, policy).baseline;
            && b.id in baselines && baselines[b.id] == b
            && Candidate(b, w) && b.freshness == Freshness.Current
            && policy.Valid() && |Values(obs, w.id, b.metric)| >= policy.minSamples
  {
    SelectsGreatest(baselines, w, Selected(baselines, w).value);
  }

  /** b is the best candidate, and it may be used now. */
  ghost predicate Serves(baselines: map<u64, Baseline<real>>, w: Workload, obs: Batch, policy: Policy,
                         b: Baseline<real>)
  {
    Greatest(baselines, w, b) && FreshEnough(b, Now(obs), policy)
  }

  lemma ServesSelected(baselines: map<u64, Baseline<real>>, w: Workload, obs: Batch, policy: Policy)
    requires OwnIds(baselines)
    ensures (exists b :: Serves(baselines, w, obs, policy, b)) <==>
            Selected(baselines, w).Some? && FreshEnough(Selected(baselines, w).value, Now(obs), policy)
  {
    if b :| Serves(baselines, w, obs, policy, b) {
      SelectsGreatest(baselines, w, b);
    }
    if Selected(baselines, w).Some? && FreshEnough(Selected(baselines, w).value, Now(obs), policy) {
      SelectsGreatest(baselines, w, Selected(baselines, w).value);
      assert Serves(baselines, w, obs, policy, Selected(baselines, w).value);
    }
  }

  /** b serves, and there are samples enough for it. */
  ghost predicate Suffices(baselines: map<u64, Baseline<real>>, w: Workload, obs: Batch, policy: Policy,
                           b: Baseline<real>)
  {
    Serves(baselines, w, obs, policy, b) && |Values(obs, w.id, b.metric)| >= policy.minSamples
  }

  /** When each answer is given, in terms of the stored baselines and the samples alone. */
  lemma RefusalsExact(baselines: map<u64, Baseline<real>>, w: Workload, obs: Batch, policy: Policy)
    requires OwnIds(baselines) && policy.Valid()
    ensures var g := GateOf(baselines, w, obs, policy);
            && (g.Refuse? && g.outcome == Outcome.BaselineInvalid <==>
                  AnyConcerns(baselines, w) && forall i :: i in baselines ==> !Candidate(baselines[i], w))
            && (g.Refuse? && g.outcome == Outcome.RevalidationRequired <==>
                  (exists i :: i in baselines && Candidate(baselines[i], w))
                  && !exists b :: Serves(baselines, w, obs, policy, b))
            && (g.Refuse? && g.outcome == Outcome.RevalidationRequired ==> g.freshness != Freshness.Current)
  {
    SelectsNothing(baselines, w);
    ServesSelected(baselines, w, obs, policy);
  }

  lemma AdmittedExactly(baselines: map<u64, Baseline<real>>, w: Workload, obs: Batch, policy: Policy, b: Baseline<real>)
    requires OwnIds(baselines) && policy.Valid()
    ensures GateOf(baselines, w, obs, policy) == Admit(b) <==> Suffices(baselines, w, obs, policy, b)
  {
    SelectsGreatest(baselines, w, b);
    if Greatest(baselines, w, b) {
      assert Concerns(baselines[b.id], w);
    }
    if Selected(baselines, w).Some? {
      SelectsGreatest(baselines, w, Selected(baselines, w).value);
    }
  }

  /** Evidence is insufficient exactly when no baseline concerns the workload, or the one that serves lacks samples. */
  lemma InsufficientExactly(baselines: map<u64, Baseline<real>>, w: Workload, obs: Batch, policy: Policy)
    requires OwnIds(baselines) && policy.Valid()
    ensures var g := GateOf(baselines, w, obs, policy);
            g.Refuse? && g.outcome == Outcome.InsufficientEvidence <==>
              !AnyConcerns(baselines, w)
              || exists b :: Serves(baselines, w, obs, policy, b) && |Values(obs, w.id, b.metric)| < policy.minSamples
  {
    ServesSelected(baselines, w, obs, policy);
    forall b | Serves(baselines, w, obs, policy, b)
      ensures Selected(baselines, w) == Some(b) && AnyConcerns(baselines, w)
    {
      SelectsGreatest(baselines, w, b);
      assert Concerns(baselines[b.id], w);
    }
  }
}

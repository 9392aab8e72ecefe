/** The read-only explanation of one cell. */
module Explanation {
  import opened Words
  import opened Domain
  import opened Machine
  import opened Runs
  import opened History

  datatype Advice = RunBaseline | IncreaseRepetitions | WaitForFreshness | Control(c: Confounder) | ConfirmRecovery

  datatype Explained = Explained(
    key: CellKey, baselineId: u64, hasBaseline: bool, degradation: Degradation<real>, sampleCount: u64,
    variance: real, unresolved: seq<Confounder>, provenance: Provenance, freshness: Freshness,
    confidence: real, attribution: Attribution, outcome: Outcome, advice: seq<Advice>)

  function Controls(cs: seq<Confounder>): seq<Advice> {
    if cs == [] then [] else Controls(cs[..|cs| - 1]) + [Control(cs[|cs| - 1])]
  }

  function Only(given: bool, a: Advice): (s: seq<Advice>)
    ensures forall x :: x in s <==> given && x == a
  {
    if given then [a] else []
  }

  function AdviceFor(c: Pairwise<real>, policy: Policy): seq<Advice> {
    Only(c.baselineId == 0, RunBaseline)
    + Only(c.sampleCount < policy.minSamples, IncreaseRepetitions)
    + Only(c.freshness != Freshness.Current, WaitForFreshness)
    + Controls(c.unresolved)
    + Only(c.attribution == Attribution.ControlledComparison, ConfirmRecovery)
  }

  function Explain(matrix: map<CellKey, Pairwise<real>>, k: CellKey, policy: Policy): Explained {
    if k !in matrix then
      Explained(k, 0, false, Degradation([], 0, 0.0), 0, 0.0, [], Provenance.Unknown, Freshness.Unknown, 0.0,
                Attribution.Unknown, Outcome.Unknown, [])
    else
      var c := matrix[k];
      Explained(
        k, c.baselineId, c.baselineId != 0, c.degradation, c.sampleCount,
        if c.degradation.deltas == [] then 0.0 else c.degradation.deltas[0].variance,
        c.unresolved, if c.evidenceSources == [] then Provenance.Unknown else c.evidenceSources[0],
        c.freshness, c.confidence, c.attribution,
        if c.sampleCount < policy.minSamples then Outcome.InsufficientEvidence else c.outcome,
        AdviceFor(c, policy))
  }

  /** A sound cell is explained by its own outcome exactly under policies that its samples satisfy. */
  lemma ExplainsOutcome(digest: seq<u8> -> u64, st: Observatory, k: CellKey, policy: Policy)
    requires Invariant(digest, st) && k in st.matrix
    ensures Explain(st.matrix, k, policy).outcome == st.matrix[k].outcome
       <==> st.matrix[k].sampleCount >= policy.minSamples
    ensures Explain(st.matrix, k, policy).hasBaseline && WaitForFreshness !in AdviceFor(st.matrix[k], policy)
  {
    var c := st.matrix[k];
    assert Sound(digest, st.baselines, st.episodes, c);
    assert Fault(st.baselines[c.baselineId]) == Ok && st.baselines[c.baselineId].id == c.baselineId;
    ControlsOnly(c.unresolved);
  }

  lemma {:induction false} ControlsOnly(cs: seq<Confounder>)
    ensures forall a :: a in Controls(cs) ==> a.Control?
  {
    if cs != [] {
      ControlsOnly(cs[..|cs| - 1]);
    }
  }

  /** No step of the run sets cell k. */
  ghost predicate Untouched(judge: Judge, st: Observatory, ops: seq<Op>, k: CellKey) {
    forall i: nat :: i < |ops| ==> !SetsAt(judge, st, ops, k, i)
  }

  lemma {:induction false} CellUntouched(judge: Judge, st: Observatory, ops: seq<Op>, k: CellKey)
    requires k in st.matrix && Untouched(judge, st, ops, k)
    ensures k in Run(judge, st, ops).matrix && Run(judge, st, ops).matrix[k] == st.matrix[k]
  {
    if ops != [] {
      var n := |ops| - 1;
      forall i: nat | i < n ensures !SetsAt(judge, st, ops[..n], k, i) {
        assert ops[..n][..i] == ops[..i];
        assert !SetsAt(judge, st, ops, k, i);
      }
      CellUntouched(judge, st, ops[..n], k);
      assert !SetsAt(judge, st, ops, k, n);
    }
  }

  /**
    Until that cell is set again, `explain` under the comparing policy repeats the outcome, the
    attribution, the confidence, the freshness and the degradation that the comparison returned.
   */
  lemma ExplainRepeats(digest: seq<u8> -> u64, st: Observatory, q: Request, ops: seq<Op>)
    requires Invariant(digest, st)
    ensures var r, later := Result(digest, st, q), Step(Judging(digest), st, Ask(q));
            var x := Explain(Run(Judging(digest), later, ops).matrix, q.Key(), q.policy);
            r.outcome.Classified() && Untouched(Judging(digest), later, ops, q.Key()) ==>
              && x.outcome == r.outcome && x.attribution == r.attribution && x.confidence == r.confidence
              && x.degradation == r.degradation && x.sampleCount == r.sampleCount && x.baselineId == r.baselineId
              && x.unresolved == r.unresolved && [x.provenance] == r.evidenceSources
              && x.key == q.Key() && x.hasBaseline && x.freshness == r.freshness == Freshness.Current
              && |r.degradation.deltas| == 1 && x.variance == r.degradation.deltas[0].variance
  {
    var r, later := Result(digest, st, q), Step(Judging(digest), st, Ask(q));
    AdmittedOutcome(digest, st, q);
    CompareFrame(digest, st, q);
    if r.outcome.Classified() && Untouched(Judging(digest), later, ops, q.Key()) {
      LoggedFacts(digest, st, q);
      OneSource(digest, st, q);
      CellUntouched(Judging(digest), later, ops, q.Key());
    }
  }

  lemma OneSource(digest: seq<u8> -> u64, st: Observatory, q: Request)
    requires Admitted(st, q)
    ensures |Result(digest, st, q).evidenceSources| == 1
              && Result(digest, st, q).sampleCount == Logged(digest, st, q).sampleCount
  {
  }

  // ---------- Pairs without a cell ----------

  /** Nothing is known: no outcome, no reference, no samples, nothing to blame and no advice. */
  predicate SaysNothing(x: Explained, k: CellKey) {
    && x.key == k && x.outcome == Outcome.Unknown && x.attribution == Attribution.Unknown
    && x.freshness == Freshness.Unknown && x.provenance == Provenance.Unknown
    && x.baselineId == 0 && !x.hasBaseline && x.sampleCount == 0 && x.confidence == 0.0 && x.variance == 0.0
    && x.degradation.deltas == [] && x.degradation.worst == 0.0 && x.unresolved == [] && x.advice == []
  }

  lemma NoCellNothing(digest: seq<u8> -> u64, st: Observatory, k: CellKey, policy: Policy)
    requires Invariant(digest, st)
    ensures Explain(st.matrix, k, policy).outcome == Outcome.Unknown <==> k !in st.matrix
    ensures k !in st.matrix ==> SaysNothing(Explain(st.matrix, k, policy), k)
  {
    if k in st.matrix {
      assert Sound(digest, st.baselines, st.episodes, st.matrix[k]);
    }
  }

  /**
    Over any run, a pair is explained as unknown exactly when no comparison of it in that domain was
    classified, and then nothing at all is said about it.
   */
  lemma UncomparedIsUnknown(digest: seq<u8> -> u64, id: u64, generation: u64, ops: seq<Op>, k: CellKey, policy: Policy)
    ensures var x := Explain(Run(Judging(digest), Fresh(id, generation), ops).matrix, k, policy);
            var compared := exists i: nat :: i < |ops| && ClassifiedAt(digest, Fresh(id, generation), ops, k, i);
            && (x.outcome == Outcome.Unknown <==> !compared)
            && (!compared ==> SaysNothing(x, k))
  {
    InvariantFresh(digest, id, generation);
    InvariantRun(digest, Fresh(id, generation), ops);
    CellsAreCompared(digest, id, generation, ops, k);
    NoCellNothing(digest, Run(Judging(digest), Fresh(id, generation), ops), k, policy);
  }

  /** Cells that no comparison made, read from a file, may lack deltas or sources: they count as 0 and Unknown. */
  lemma BareCell(matrix: map<CellKey, Pairwise<real>>, k: CellKey, policy: Policy)
    requires k in matrix
    ensures var x, c := Explain(matrix, k, policy), matrix[k];
            && (c.degradation.deltas == [] ==> x.variance == 0.0)
            && (c.evidenceSources == [] ==> x.provenance == Provenance.Unknown)
            && (x.hasBaseline <==> c.baselineId != 0)
            && (c.sampleCount < policy.minSamples ==> x.outcome == Outcome.InsufficientEvidence)
  {
  }

  // ---------- Advice ----------

  lemma {:induction false} ControlsAre(cs: seq<Confounder>, c: Confounder)
    ensures Control(c) in Controls(cs) <==> c in cs
  {
    if cs != [] {
      ControlsAre(cs[..|cs| - 1], c);
      assert cs == cs[..|cs| - 1] + [cs[|cs| - 1]];
    }
  }

  lemma InFive(a: seq<Advice>, b: seq<Advice>, c: seq<Advice>, d: seq<Advice>, e: seq<Advice>, x: Advice)
    ensures x in a + b + c + d + e <==> x in a || x in b || x in c || x in d || x in e
  {
  }

  lemma AdviceMember(c: Pairwise<real>, policy: Policy, x: Advice)
    ensures x in AdviceFor(c, policy) <==>
              || (c.baselineId == 0 && x == RunBaseline)
              || (c.sampleCount < policy.minSamples && x == IncreaseRepetitions)
              || (c.freshness != Freshness.Current && x == WaitForFreshness)
              || x in Controls(c.unresolved)
              || (c.attribution == Attribution.ControlledComparison && x == ConfirmRecovery)
  {
    InFive(Only(c.baselineId == 0, RunBaseline), Only(c.sampleCount < policy.minSamples, IncreaseRepetitions),
           Only(c.freshness != Freshness.Current, WaitForFreshness), Controls(c.unresolved),
           Only(c.attribution == Attribution.ControlledComparison, ConfirmRecovery), x);
  }

  /** What each piece of advice on a cell is given for. */
  lemma AdviceExactly(matrix: map<CellKey, Pairwise<real>>, k: CellKey, policy: Policy, x: Advice)
    requires k in matrix
    ensures var e := Explain(matrix, k, policy);
            x in e.advice <==>
              match x
              case RunBaseline => !e.hasBaseline
              case IncreaseRepetitions => e.sampleCount < policy.minSamples
              case WaitForFreshness => e.freshness != Freshness.Current
              case Control(c) => c in e.unresolved
              case ConfirmRecovery => e.attribution == Attribution.ControlledComparison
  {
    AdviceMember(matrix[k], policy, x);
    ControlsOnly(matrix[k].unresolved);
    if x.Control? {
      ControlsAre(matrix[k].unresolved, x.c);
    }
  }
}

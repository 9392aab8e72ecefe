/** What every run of the observatory keeps. A run is any sequence of steps without a load. */
module Runs {
  import opened Words
  import opened Domain
  import opened Comparison
  import opened Confounding
  import opened Selection
  import opened Machine

  type Baselines = map<u64, Baseline<real>>
  type Episodes = map<u64, Episode<real>>

  // ---------- Baselines only ever lose their freshness ----------

  /** A stored baseline is frozen, except that it may come to require revalidation. */
  predicate Weathered(b: Baseline<real>, later: Baseline<real>) {
    && later == b.(freshness := later.freshness)
    && (later.freshness == b.freshness || later.freshness == Freshness.RevalidationRequired)
  }

  ghost predicate Kept(before: Baselines, after: Baselines) {
    forall i :: i in before ==> i in after && Weathered(before[i], after[i])
  }

  lemma BaselinesStep(judge: Judge, st: Observatory, op: Op)
    ensures Kept(st.baselines, Step(judge, st, op).baselines)
  {
  }

  lemma {:induction false} BaselinesRun(judge: Judge, st: Observatory, ops: seq<Op>)
    ensures Kept(st.baselines, Run(judge, st, ops).baselines)
  {
    if ops != [] {
      BaselinesRun(judge, st, ops[..|ops| - 1]);
      BaselinesStep(judge, Run(judge, st, ops[..|ops| - 1]), ops[|ops| - 1]);
    }
  }

  /** No publication, no epoch and no order of steps makes such a baseline current again. */
  lemma {:induction false} RevalidationIsPermanent(judge: Judge, st: Observatory, ops: seq<Op>, i: u64)
    requires i in st.baselines && st.baselines[i].freshness != Freshness.Current
    ensures i in Run(judge, st, ops).baselines && Run(judge, st, ops).baselines[i].freshness != Freshness.Current
    ensures st.baselines[i].freshness == Freshness.RevalidationRequired ==>
              Run(judge, st, ops).baselines[i].freshness == Freshness.RevalidationRequired
  {
    BaselinesRun(judge, st, ops);
  }

  // ---------- The invariant ----------

  /** What any logged comparison and any cell of the matrix satisfies. */
  ghost predicate Sound(digest: seq<u8> -> u64, bs: Baselines, es: Episodes, c: Pairwise<real>) {
    && c.outcome.Classified()
    && c.freshness == Freshness.Current
    && c.baselineId in bs
    && 0.0 <= c.confidence <= bs[c.baselineId].confidence
    && |c.degradation.deltas| == 1
    && c.sampleCount > 0
    && c.attribution <= Attribution.StrongCounterfactualEvidence
    && c.comparisonId == ContentId(digest,
      ComparisonContent(c.victim, c.neighbor, c.domain, c.baselineId, c.sampleCount))
    && (c.outcome.Indicated() ==>
          && c.attribution != Attribution.Unknown
          && ContentId(digest, EpisodeContent(c.victim, c.domain, c.baselineId)) in es)
  }

  ghost predicate SoundCells(digest: seq<u8> -> u64, bs: Baselines, es: Episodes, m: map<CellKey, Pairwise<real>>) {
    forall k :: k in m ==> KeyOf(m[k]) == k && Sound(digest, bs, es, m[k])
  }

  ghost predicate SoundLog(digest: seq<u8> -> u64, bs: Baselines, es: Episodes, m: map<u64, Pairwise<real>>) {
    forall i :: i in m ==> m[i].comparisonId == i && Sound(digest, bs, es, m[i])
  }

  ghost predicate Admissible(st: Observatory) {
    && (forall i :: i in st.baselines ==> Fault(st.baselines[i]) == Ok)
    && (forall i :: i in st.observations ==> Recordable(st.observations[i]))
  }

  ghost predicate Invariant(digest: seq<u8> -> u64, st: Observatory) {
    && Keyed(st) && Admissible(st)
    && SoundCells(digest, st.baselines, st.episodes, st.matrix)
    && SoundLog(digest, st.baselines, st.episodes, st.comparisons)
  }

  lemma SoundKept(digest: seq<u8> -> u64, bs: Baselines, es: Episodes, bs': Baselines, es': Episodes, c: Pairwise<real>)
    requires Sound(digest, bs, es, c) && Kept(bs, bs') && es.Keys <= es'.Keys
    ensures Sound(digest, bs', es', c)
  {
  }

  /** An effect whose record is sound once its episode is there. */
  ghost predicate SoundEffect(digest: seq<u8> -> u64, bs: Baselines, es: Episodes, e: Effect) {
    e.Noted? ==> Sound(digest, bs, OpenEpisode(es, e), e.record)
  }

  lemma CellsKept(digest: seq<u8> -> u64, bs: Baselines, bs': Baselines, es: Episodes,
                  m: map<CellKey, Pairwise<real>>, e: Effect)
    requires SoundCells(digest, bs, es, m) && Kept(bs, bs') && SoundEffect(digest, bs', es, e)
    ensures SoundCells(digest, bs', OpenEpisode(es, e), SetCell(m, e))
  {
    var m', es' := SetCell(m, e), OpenEpisode(es, e);
    forall k | k in m' ensures KeyOf(m'[k]) == k && Sound(digest, bs', es', m'[k]) {
      if !(e.Noted? && k == KeyOf(e.record)) {
        SoundKept(digest, bs, es, bs', es', m[k]);
      }
    }
  }

  lemma LogKept(digest: seq<u8> -> u64, bs: Baselines, bs': Baselines, es: Episodes, m: map<u64, Pairwise<real>>,
                e: Effect)
    requires SoundLog(digest, bs, es, m) && Kept(bs, bs') && SoundEffect(digest, bs', es, e)
    ensures SoundLog(digest, bs', OpenEpisode(es, e), Log(m, e))
  {
    var m', es' := Log(m, e), OpenEpisode(es, e);
    forall i | i in m' ensures m'[i].comparisonId == i && Sound(digest, bs', es', m'[i]) {
      if !(e.Noted? && i == e.record.comparisonId) {
        SoundKept(digest, bs, es, bs', es', m[i]);
      }
    }
  }

  // ---------- Comparisons leave sound records behind ----------

  lemma LoggedFacts(digest: seq<u8> -> u64, st: Observatory, q: Request)
    requires Keyed(st) && Admissible(st) && Admitted(st, q)
    ensures var v, b := Logged(digest, st, q), Gated(st, q).baseline;
            && KeyOf(v) == q.Key() && v.baselineId == b.id && b.id in st.baselines && st.baselines[b.id] == b
            && v.outcome.Classified() && v.freshness == Freshness.Current
            && 0.0 <= v.confidence <= b.confidence && |v.degradation.deltas| == 1
            && v.sampleCount >= q.policy.minSamples > 0
  {
    AdmittedBaseline(st.baselines, q.affected, q.obs, q.policy);
    var b, kinds := Gated(st, q).baseline, Kinds(q.obs, q.affected.id);
    ConfidenceRange(b.confidence, |Values(q.obs, q.affected.id, b.metric)|, q.policy.minSamples, |Hards(kinds)|,
      |Softs(kinds)|);
  }

  lemma JudgedSound(digest: seq<u8> -> u64, st: Observatory, q: Request)
    requires Keyed(st) && Admissible(st)
    ensures SoundEffect(digest, st.baselines, st.episodes, EffectOf(digest, st, q))
  {
    if Admitted(st, q) {
      LoggedFacts(digest, st, q);
    }
  }

  // ---------- Every step keeps the invariant ----------

  lemma KeyedStep(judge: Judge, st: Observatory, op: Op)
    requires Keyed(st)
    ensures Keyed(Step(judge, st, op))
  {
  }

  lemma AdmissibleStep(judge: Judge, st: Observatory, op: Op)
    requires Admissible(st)
    ensures Admissible(Step(judge, st, op))
  {
  }

  lemma InvariantStep(digest: seq<u8> -> u64, judge: Judge, st: Observatory, op: Op)
    requires Invariant(digest, st) && SoundEffect(digest, st.baselines, st.episodes, EffectIn(judge, st, op))
    ensures Invariant(digest, Step(judge, st, op))
  {
    KeyedStep(judge, st, op);
    AdmissibleStep(judge, st, op);
    BaselinesStep(judge, st, op);
    var e, bs := EffectIn(judge, st, op), Step(judge, st, op).baselines;
    if e.Noted? {
      SoundKept(digest, st.baselines, OpenEpisode(st.episodes, e), bs, OpenEpisode(st.episodes, e), e.record);
    }
    CellsKept(digest, st.baselines, bs, st.episodes, st.matrix, e);
    LogKept(digest, st.baselines, bs, st.episodes, st.comparisons, e);
  }

  /** Every reachable state satisfies the invariant: each cell and each logged comparison is sound. */
  lemma {:induction false} InvariantRun(digest: seq<u8> -> u64, st: Observatory, ops: seq<Op>)
    requires Invariant(digest, st)
    ensures Invariant(digest, Run(Judging(digest), st, ops))
  {
    if ops != [] {
      var mid, op := Run(Judging(digest), st, ops[..|ops| - 1]), ops[|ops| - 1];
      InvariantRun(digest, st, ops[..|ops| - 1]);
      if op.Ask? {
        JudgedSound(digest, mid, op.request);
      }
      InvariantStep(digest, Judging(digest), mid, op);
    }
  }

  lemma InvariantFresh(digest: seq<u8> -> u64, id: u64, generation: u64)
    ensures Invariant(digest, Fresh(id, generation))
  {
  }

  // ---------- Epoch safety ----------

  /** Who is connected after an effective epoch change has registered since. */
  lemma {:induction false} WorkersReconnect(judge: Judge, st: Observatory, e: u64, after: seq<Op>, i: u64)
    requires e != st.epoch
    ensures var later := Run(judge, Step(judge, st, Epoch(e)), after);
            i in later.workers && later.workers[i].connected ==>
              exists op :: op in after && op.NewWorker? && op.id == i && op.connected
  {
    if after != [] {
      var n := |after| - 1;
      WorkersReconnect(judge, st, e, after[..n], i);
      assert after == after[..n] + [after[n]];
      var before := Run(judge, Step(judge, st, Epoch(e)), after[..n]);
      if i in before.workers && before.workers[i].connected {
        var op :| op in after[..n] && op.NewWorker? && op.id == i && op.connected;
        assert op in after;
      } else if after[n].NewWorker? && after[n].id == i && after[n].connected {
        assert after[n] in after;
      }
    }
  }

  /** A source that is current after an effective epoch change has registered since. */
  lemma {:induction false} SourcesReregister(judge: Judge, st: Observatory, e: u64, after: seq<Op>, i: u64)
    requires e != st.epoch
    ensures var later := Run(judge, Step(judge, st, Epoch(e)), after);
            i in later.sources && later.sources[i].freshness == Freshness.Current ==>
              exists op :: op in after && op.NewSource? && op.id == i && op.generation == later.sources[i].generation
  {
    if after != [] {
      var n := |after| - 1;
      SourcesReregister(judge, st, e, after[..n], i);
      assert after == after[..n] + [after[n]];
      var before := Run(judge, Step(judge, st, Epoch(e)), after[..n]);
      if i in before.sources && before.sources[i].freshness == Freshness.Current {
        var op :| op in after[..n] && op.NewSource? && op.id == i && op.generation == before.sources[i].generation;
        assert op in after;
      }
      if after[n].NewSource? && after[n].id == i {
        assert after[n] in after;
      }
    }
  }

  /**
    An effective epoch change disconnects every worker and makes every source that is not historical
    require revalidation; an equal epoch changes nothing.
   */
  lemma EpochStep(judge: Judge, st: Observatory, e: u64)
    ensures e == st.epoch ==> Step(judge, st, Epoch(e)) == st
    ensures var later := Step(judge, st, Epoch(e));
            e != st.epoch ==>
              && later.epoch == e && later.workers.Keys == st.workers.Keys && later.sources.Keys == st.sources.Keys
              && (forall i :: i in later.workers ==> !later.workers[i].connected)
              && (forall i :: i in later.sources ==>
                    (if st.sources[i].freshness == Freshness.Historical then later.sources[i] == st.sources[i]
                     else later.sources[i] == st.sources[i].(freshness := Freshness.RevalidationRequired)))
              && later.observations == st.observations && later.matrix == st.matrix
  {
  }

  lemma ClassifiedIsAdmitted(digest: seq<u8> -> u64, st: Observatory, q: Request)
    ensures Result(digest, st, q).outcome.Classified() ==> Admitted(st, q)
    ensures Admitted(st, q) ==> Result(digest, st, q).baselineId == Gated(st, q).baseline.id
  {
  }

  lemma UsedBaseline(st: Observatory, q: Request)
    requires Keyed(st) && Admitted(st, q)
    ensures var i := Gated(st, q).baseline.id;
            i in st.baselines && st.baselines[i].freshness == Freshness.Current
  {
    AdmittedBaseline(st.baselines, q.affected, q.obs, q.policy);
  }

  /** A baseline of the historical type never changes at all, in any run. */
  lemma {:induction false} HistoricalIsFrozen(judge: Judge, st: Observatory, ops: seq<Op>, i: u64)
    requires i in st.baselines && st.baselines[i].kind == BaselineType.HistoricalIsolated
    ensures i in Run(judge, st, ops).baselines && Run(judge, st, ops).baselines[i] == st.baselines[i]
  {
    if ops != [] {
      HistoricalIsFrozen(judge, st, ops[..|ops| - 1], i);
    }
  }

  /**
    Of the baselines that an effective epoch change met, exactly those of the historical type that
    were current before it are current afterwards, however the run goes on.
   */
  lemma {:induction false} EpochOutlives(judge: Judge, st: Observatory, e: u64, after: seq<Op>, i: u64)
    requires e != st.epoch && i in st.baselines
    ensures var later := Run(judge, Step(judge, st, Epoch(e)), after);
            && i in later.baselines
            && (later.baselines[i].freshness == Freshness.Current <==>
                  st.baselines[i].kind == BaselineType.HistoricalIsolated
                    && st.baselines[i].freshness == Freshness.Current)
  {
    var changed := Step(judge, st, Epoch(e));
    assert i in changed.baselines && changed.baselines[i] == Revalidate(st.baselines[i]);
    if st.baselines[i].kind == BaselineType.HistoricalIsolated {
      HistoricalIsFrozen(judge, changed, after, i);
    } else {
      RevalidationIsPermanent(judge, changed, after, i);
    }
  }

  /**
    Whenever a comparison is classified, no effective epoch change separates it from the first
    publication of the baseline it used, unless that baseline is a historical reference.
   */
  lemma EpochSafety(digest: seq<u8> -> u64, st: Observatory, e: u64, after: seq<Op>, q: Request)
    requires Invariant(digest, st) && e != st.epoch
    ensures var later := Run(Judging(digest), Step(Judging(digest), st, Epoch(e)), after);
            var r := Result(digest, later, q);
            r.outcome.Classified() ==>
              && r.baselineId in later.baselines
              && (r.baselineId !in st.baselines || st.baselines[r.baselineId].kind == BaselineType.HistoricalIsolated)
  {
    var judge := Judging(digest);
    var changed := Step(judge, st, Epoch(e));
    var later := Run(judge, changed, after);
    InvariantStep(digest, judge, st, Epoch(e));
    InvariantRun(digest, changed, after);
    ClassifiedIsAdmitted(digest, later, q);
    if Admitted(later, q) {
      UsedBaseline(later, q);
      var i := Gated(later, q).baseline.id;
      if i in st.baselines {
        EpochOutlives(judge, st, e, after, i);
      }
    }
  }
}

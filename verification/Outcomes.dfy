/** What `compare` returns, in terms that its caller can check beforehand. */
module Outcomes {
  import opened Words
  import opened Domain
  import opened Statistics
  import opened Comparison
  import opened Selection
  import opened Grading
  import opened Confounding
  import opened Invariance
  import opened Machine
  import opened Runs
  import opened History
  import opened Ledger
  import opened Identities
  import Digest

  function SamplesFor(q: Request, b: Baseline<real>): seq<real> {
    Values(q.obs, q.affected.id, b.metric)
  }

  ghost predicate Overlapping(q: Request, b: Baseline<real>) {
    Overlaps(q.obs, q.affected.id, b.metric, q.associated.id)
  }

  /** Under a valid policy, b is the best baseline, fresh enough and with samples enough. */
  ghost predicate Comparable(st: Observatory, q: Request, b: Baseline<real>) {
    q.policy.Valid() && Suffices(st.baselines, q.affected, q.obs, q.policy, b)
  }

  /** A comparison is admitted against b exactly when it is comparable with b. */
  lemma ComparableExactly(st: Observatory, q: Request, b: Baseline<real>)
    requires Keyed(st)
    ensures Gated(st, q) == Admit(b) <==> Comparable(st, q, b)
  {
    if q.policy.Valid() {
      AdmittedExactly(st.baselines, q.affected, q.obs, q.policy, b);
    }
  }

  lemma AdmittedSamples(st: Observatory, q: Request)
    requires Admitted(st, q)
    ensures q.policy.Valid() && SamplesFor(q, Gated(st, q).baseline) != []
  {
  }

  // ---------- The returned outcome and the samples ----------

  /** The outcome is the class of the measured degradation, unless no sample overlaps the neighbor. */
  lemma OutcomeReturned(digest: seq<u8> -> u64, st: Observatory, q: Request)
    requires Admitted(st, q)
    ensures var b := Gated(st, q).baseline;
            SamplesFor(q, b) != [] &&
            Result(digest, st, q).outcome
              == if Overlapping(q, b) then Classify(MeasuredDegradation(b, SamplesFor(q, b)).worst, q.policy)
                 else Outcome.NoInterferenceDetected
  {
    AdmittedSamples(st, q);
  }

  /**
    The returned outcome is never above the grade of the most degraded sample; it is at least that of
    the least degraded one exactly when a sample overlaps the neighbor or that grade is the lowest.
   */
  lemma ResultBracketed(digest: seq<u8> -> u64, st: Observatory, q: Request) returns (least: nat, most: nat)
    requires Admitted(st, q)
    ensures var b := Gated(st, q).baseline;
            var vs, r := SamplesFor(q, b), Result(digest, st, q);
            && least < |vs| && most < |vs|
            && (forall i :: 0 <= i < |vs| ==>
              Grade(b, vs[least], q.policy) <= Grade(b, vs[i], q.policy) <= Grade(b, vs[most], q.policy))
            && r.outcome <= Grade(b, vs[most], q.policy)
            && (Grade(b, vs[least], q.policy) <= r.outcome <==>
                  Overlapping(q, b) || Grade(b, vs[least], q.policy) == Outcome.NoInterferenceDetected)
  {
    var b := Gated(st, q).baseline;
    AdmittedSamples(st, q);
    OutcomeReturned(digest, st, q);
    least, most := OutcomeBracketed(b, SamplesFor(q, b), q.policy);
  }

  /** The samples overlap the neighbor and their mean is degraded by the first threshold or more. */
  ghost predicate Interferes(q: Request, b: Baseline<real>) {
    && Overlapping(q, b) && SamplesFor(q, b) != []
    && MeasuredDegradation(b, SamplesFor(q, b)).worst >= q.policy.potential
  }

  lemma IndicatedExactly(digest: seq<u8> -> u64, st: Observatory, q: Request)
    requires Admitted(st, q)
    ensures Result(digest, st, q).outcome.Indicated() <==> Interferes(q, Gated(st, q).baseline)
  {
    OutcomeReturned(digest, st, q);
  }

  lemma NamesBaseline(digest: seq<u8> -> u64, st: Observatory, q: Request)
    requires Admitted(st, q)
    ensures var r, b := Result(digest, st, q), Gated(st, q).baseline;
            && r.baselineId == b.id && r.outcome.Classified() && |SamplesFor(q, b)| < 0x1_0000_0000_0000_0000
            && r.comparisonId == ContentId(digest,
              ComparisonContent(q.affected.id, q.associated.id, q.domain, b.id, |SamplesFor(q, b)|))
  {
  }

  function EpisodeKey(digest: seq<u8> -> u64, q: Request, b: Baseline<real>): u64 {
    ContentId(digest, EpisodeContent(q.affected.id, q.domain, b.id))
  }

  lemma InterferenceOpens(digest: seq<u8> -> u64, st: Observatory, q: Request, b: Baseline<real>)
    requires Keyed(st) && Comparable(st, q, b) && Interferes(q, b)
    ensures Result(digest, st, q).outcome.Indicated() && Result(digest, st, q).episodeId == EpisodeKey(digest, q, b)
  {
    ComparableExactly(st, q, b);
    IndicatedExactly(digest, st, q);
    NamesBaseline(digest, st, q);
    EpisodeOfResult(digest, st, q);
  }

  /**
    Two neighbors interfere, one after the other. The second one's episode is there, and the first
    one's still names its neighbor exactly when the episodes' ids differ or the neighbors do not.
   */
  lemma NeighborsShareEpisode(digest: seq<u8> -> u64, st: Observatory, q: Request, b: Baseline<real>, p: Request,
                              c: Baseline<real>)
    requires Keyed(st) && Comparable(st, q, b) && Interferes(q, b) && Comparable(st, p, c) && Interferes(p, c)
    ensures var judge := Judging(digest);
            var i, j := EpisodeKey(digest, q, b), EpisodeKey(digest, p, c);
            var both := Step(judge, Step(judge, st, Ask(q)), Ask(p)).episodes;
            && both.Keys == st.episodes.Keys + {i, j} && both[j].coRunning == [p.associated.id]
            && (both[i].coRunning == [q.associated.id] <==> i != j || q.associated.id == p.associated.id)
  {
    InterferenceOpens(digest, st, q, b);
    InterferenceOpens(digest, st, p, c);
    EpisodeReplaced(digest, st, q, p);
    EpisodeOfResult(digest, st, p);
  }

  /**
    Under the digest in use, two neighbors that interfere with one workload against baselines of ids
    below 256 in one domain share their episode exactly when the baseline is the same: the first
    neighbor stays named exactly when the baselines differ or the neighbors do not.
   */
  lemma BaselinesKeepEpisodes(st: Observatory, q: Request, b: Baseline<real>, p: Request, c: Baseline<real>)
    requires Keyed(st) && Comparable(st, q, b) && Interferes(q, b) && Comparable(st, p, c) && Interferes(p, c)
    requires q.affected.id == p.affected.id && q.domain == p.domain && b.id < 256 && c.id < 256
    ensures var judge := Judging(Digest.Fnv64);
            var both := Step(judge, Step(judge, st, Ask(q)), Ask(p)).episodes;
            var i := EpisodeKey(Digest.Fnv64, q, b);
            i in both && (both[i].coRunning == [q.associated.id]
              <==> b.id != c.id || q.associated.id == p.associated.id)
  {
    NeighborsShareEpisode(Digest.Fnv64, st, q, b, p, c);
    if b.id != c.id {
      BaselinesSeparate(q.affected.id, q.domain, b.id, c.id);
    }
  }

  /**
    Against one baseline, the first neighbor stays named exactly when the domains differ or the
    neighbors do not, as long as neither content has the digest 0, which is replaced by 1.
   */
  lemma DomainsKeepEpisodes(st: Observatory, q: Request, p: Request, b: Baseline<real>)
    requires Keyed(st) && Comparable(st, q, b) && Interferes(q, b) && Comparable(st, p, b) && Interferes(p, b)
    requires q.affected.id == p.affected.id
    requires Digest.Fnv64(EpisodeContent(q.affected.id, q.domain, b.id)) != 0
    requires Digest.Fnv64(EpisodeContent(p.affected.id, p.domain, b.id)) != 0
    ensures var judge := Judging(Digest.Fnv64);
            var both := Step(judge, Step(judge, st, Ask(q)), Ask(p)).episodes;
            var i := EpisodeKey(Digest.Fnv64, q, b);
            i in both && (both[i].coRunning == [q.associated.id]
              <==> q.domain != p.domain || q.associated.id == p.associated.id)
  {
    NeighborsShareEpisode(Digest.Fnv64, st, q, b, p, b);
    if q.domain != p.domain {
      DomainsSeparate(q.affected.id, q.domain, p.domain, b.id);
    }
  }

  /**
    Under the digest in use, two comparisons of one pair over different numbers of samples below 256
    leave the same log and different matrices in the two orders.
   */
  lemma CountsMakeOrderMatter(st: Observatory, q: Request, p: Request, b: Baseline<real>)
    requires Keyed(st) && q.affected == p.affected && q.associated.id == p.associated.id && q.domain == p.domain
    requires Comparable(st, q, b) && Comparable(st, p, b)
    requires |SamplesFor(q, b)| != |SamplesFor(p, b)| && |SamplesFor(q, b)| < 256 && |SamplesFor(p, b)| < 256
    ensures var judge := Judging(Digest.Fnv64);
            var qp, pq := Step(judge, Step(judge, st, Ask(q)), Ask(p)), Step(judge, Step(judge, st, Ask(p)), Ask(q));
            qp.comparisons == pq.comparisons && qp.matrix != pq.matrix
  {
    ComparableExactly(st, q, b);
    ComparableExactly(st, p, b);
    NamesBaseline(Digest.Fnv64, st, q);
    NamesBaseline(Digest.Fnv64, st, p);
    CountsSeparate(q.affected.id, q.associated.id, q.domain, b.id, |SamplesFor(q, b)|, |SamplesFor(p, b)|);
    OrderMatters(Digest.Fnv64, st, q, p);
  }

  // ---------- What the result does not depend on ----------

  lemma LoggedReordered(digest: seq<u8> -> u64, st: Observatory, q: Request, ys: Batch)
    requires Admitted(st, q) && Admitted(st, q.(obs := ys)) && Gated(st, q.(obs := ys)) == Gated(st, q)
    requires multiset(q.obs) == multiset(ys)
    ensures var v, w := Logged(digest, st, q), Logged(digest, st, q.(obs := ys));
            w == v.(unresolved := w.unresolved)
  {
    AdmittedSamples(st, q);
    VerdictReordered(digest, st.epoch, q.Key() in st.recoveries, Gated(st, q).baseline, q.affected, q.associated.id,
                     q.domain, q.obs, ys, q.policy);
  }

  /** The returned record: the logged one, with its episode when there is one. */
  function Finished(digest: seq<u8> -> u64, v: Pairwise<real>): Pairwise<real> {
    v.(episodeId := if v.outcome.Indicated()
      then ContentId(digest, EpisodeContent(v.victim, v.domain, v.baselineId)) else v.episodeId)
  }

  lemma ResultOfLogged(digest: seq<u8> -> u64, st: Observatory, q: Request)
    requires Admitted(st, q)
    ensures Result(digest, st, q) == Finished(digest, Logged(digest, st, q))
  {
  }

  /**
    Reordering observations that keeps the last timestamp changes at most the order in which
    confounders are listed.
   */
  lemma ResultReordered(digest: seq<u8> -> u64, st: Observatory, q: Request, ys: Batch)
    requires multiset(q.obs) == multiset(ys) && Now(q.obs) == Now(ys)
    ensures var r, s := Result(digest, st, q), Result(digest, st, q.(obs := ys));
            s == r.(unresolved := s.unresolved)
  {
    GateReordered(st.baselines, q.affected, q.obs, ys, q.policy);
    if Admitted(st, q) {
      LoggedReordered(digest, st, q, ys);
      ResultOfLogged(digest, st, q);
      ResultOfLogged(digest, st, q.(obs := ys));
    }
  }

  // ---------- Another unit for the whole observatory ----------

  function RescaledBaseline(k: real, b: Baseline<real>): Baseline<real> {
    b.(mean := Times(k, b.mean))
  }

  function RescaledAll(k: real, m: map<u64, Baseline<real>>): map<u64, Baseline<real>> {
    map i | i in m :: RescaledBaseline(k, m[i])
  }

  lemma CandidateRescaled(k: real, b: Baseline<real>, w: Workload)
    requires k > 0.0
    ensures Candidate(RescaledBaseline(k, b), w) <==> Candidate(b, w)
  {
    SignKept(k, b.mean);
  }

  lemma GreatestRescaled(k: real, m: map<u64, Baseline<real>>, w: Workload, b: Baseline<real>)
    requires k > 0.0 && Greatest(m, w, b)
    ensures Greatest(RescaledAll(k, m), w, RescaledBaseline(k, b))
  {
    var m', b' := RescaledAll(k, m), RescaledBaseline(k, b);
    CandidateRescaled(k, b, w);
    forall i | i in m' && i != b'.id && Candidate(m'[i], w) ensures Newer(b', m'[i]) {
      CandidateRescaled(k, m[i], w);
    }
  }

  lemma SelectedRescaled(k: real, m: map<u64, Baseline<real>>, w: Workload)
    requires k > 0.0 && Selection.OwnIds(m)
    ensures Selected(RescaledAll(k, m), w)
         == match Selected(m, w) case None => None case Some(b) => Some(RescaledBaseline(k, b))
  {
    var m' := RescaledAll(k, m);
    if Selected(m, w).Some? {
      var b := Selected(m, w).value;
      SelectsGreatest(m, w, b);
      GreatestRescaled(k, m, w, b);
      SelectsGreatest(m', w, RescaledBaseline(k, b));
    } else {
      SelectsNothing(m, w);
      forall i | i in m' ensures !Candidate(m'[i], w) {
        CandidateRescaled(k, m[i], w);
      }
      SelectsNothing(m', w);
    }
  }

  lemma ConcernsRescaled(k: real, m: map<u64, Baseline<real>>, w: Workload)
    ensures AnyConcerns(RescaledAll(k, m), w) <==> AnyConcerns(m, w)
  {
    var m' := RescaledAll(k, m);
    if AnyConcerns(m, w) {
      var i :| i in m && Concerns(m[i], w);
      assert i in m' && Concerns(m'[i], w);
    }
  }

  lemma SamplesRescaled(k: real, obs: Batch, w: u64, kind: MetricKind)
    requires k > 0.0
    ensures |Values(Rescaled(k, obs), w, kind)| == |Values(obs, w, kind)| && Now(Rescaled(k, obs)) == Now(obs)
  {
    ValuesRescaled(k, obs, w, kind);
  }

  function GateInUnit(k: real, g: Gate): Gate {
    match g
    case Admit(b) => Admit(RescaledBaseline(k, b))
    case Refuse(_, _, _, _) => g
  }

  /** Measuring everything in another unit passes or fails the same gates. */
  lemma GateRescaled(k: real, m: map<u64, Baseline<real>>, w: Workload, obs: Batch, policy: Policy)
    requires k > 0.0 && Selection.OwnIds(m)
    ensures GateOf(RescaledAll(k, m), w, Rescaled(k, obs), policy) == GateInUnit(k, GateOf(m, w, obs, policy))
  {
    SelectedRescaled(k, m, w);
    ConcernsRescaled(k, m, w);
    GateFollows(k, m, RescaledAll(k, m), w, obs, Rescaled(k, obs), policy);
  }

  lemma GateFollows(k: real, m: map<u64, Baseline<real>>, m': map<u64, Baseline<real>>, w: Workload, obs: Batch,
                    obs': Batch, policy: Policy)
    requires k > 0.0 && obs' == Rescaled(k, obs) && (AnyConcerns(m', w) <==> AnyConcerns(m, w))
    requires Selected(m', w) == match Selected(m, w) case None => None case Some(b) => Some(RescaledBaseline(k, b))
    ensures GateOf(m', w, obs', policy) == GateInUnit(k, GateOf(m, w, obs, policy))
  {
    if Selected(m, w).Some? {
      SamplesRescaled(k, obs, w.id, Selected(m, w).value.metric);
    }
  }

  /** The observatory and the request, measured in another unit. */
  function InUnit(k: real, st: Observatory): Observatory {
    st.(baselines := RescaledAll(k, st.baselines))
  }

  function AskInUnit(k: real, q: Request): Request {
    q.(obs := Rescaled(k, q.obs))
  }

  /** Equal but for the absolute figures of the degradation. */
  predicate SameVerdict(r: Pairwise<real>, s: Pairwise<real>) {
    && s == r.(degradation := s.degradation) && s.degradation.worst == r.degradation.worst
    && |s.degradation.deltas| == |r.degradation.deltas|
    && (r.degradation.deltas != [] ==> s.degradation.deltas[0].relative == r.degradation.deltas[0].relative)
  }

  lemma LoggedRescaled(k: real, digest: seq<u8> -> u64, st: Observatory, q: Request)
    requires k > 0.0 && Admitted(st, q) && Admitted(InUnit(k, st), AskInUnit(k, q))
    requires Gated(InUnit(k, st), AskInUnit(k, q)).baseline == RescaledBaseline(k, Gated(st, q).baseline)
    ensures SameVerdict(Logged(digest, st, q), Logged(digest, InUnit(k, st), AskInUnit(k, q)))
  {
    AdmittedSamples(st, q);
    VerdictRescaled(k, digest, st.epoch, q.Key() in st.recoveries, Gated(st, q).baseline, q.affected, q.associated.id,
                    q.domain, q.obs, q.policy);
  }

  lemma FinishedAlike(digest: seq<u8> -> u64, v: Pairwise<real>, w: Pairwise<real>)
    requires SameVerdict(v, w)
    ensures SameVerdict(Finished(digest, v), Finished(digest, w))
  {
  }

  lemma RefusalRescaled(k: real, digest: seq<u8> -> u64, st: Observatory, q: Request)
    requires Gated(st, q).Refuse? && Gated(InUnit(k, st), AskInUnit(k, q)) == Gated(st, q)
    ensures SameVerdict(Result(digest, st, q), Result(digest, InUnit(k, st), AskInUnit(k, q)))
  {
  }

  lemma AdmittedRescaled(k: real, digest: seq<u8> -> u64, st: Observatory, q: Request)
    requires k > 0.0 && Admitted(st, q)
               && Gated(InUnit(k, st), AskInUnit(k, q)) == Admit(RescaledBaseline(k, Gated(st, q).baseline))
    ensures SameVerdict(Result(digest, st, q), Result(digest, InUnit(k, st), AskInUnit(k, q)))
  {
    var v, w := Logged(digest, st, q), Logged(digest, InUnit(k, st), AskInUnit(k, q));
    LoggedRescaled(k, digest, st, q);
    FinishedAlike(digest, v, w);
    ResultOfLogged(digest, st, q);
    ResultOfLogged(digest, InUnit(k, st), AskInUnit(k, q));
  }

  /** Measuring every baseline and every sample in another unit changes only the absolute figures of a result. */
  lemma ResultRescaled(k: real, digest: seq<u8> -> u64, st: Observatory, q: Request)
    requires k > 0.0 && Keyed(st)
    ensures SameVerdict(Result(digest, st, q), Result(digest, InUnit(k, st), AskInUnit(k, q)))
  {
    GateRescaled(k, st.baselines, q.affected, q.obs, q.policy);
    if Admitted(st, q) {
      AdmittedRescaled(k, digest, st, q);
    } else {
      RefusalRescaled(k, digest, st, q);
    }
  }

  // ---------- Further confounders ----------

  lemma GateAugmented(m: map<u64, Baseline<real>>, w: Workload, obs: Batch, more: Batch, policy: Policy)
    requires Augments(obs, more)
    ensures GateOf(m, w, more, policy) == GateOf(m, w, obs, policy)
  {
    if Selected(m, w).Some? {
      SameValues(obs, more, w.id, Selected(m, w).value.metric);
    }
  }

  /**
    In a reachable state, reporting further confounders does not raise the returned confidence, except
    exactly when a hard one joins more than nine soft ones.
   */
  lemma ResultConfounded(digest: seq<u8> -> u64, st: Observatory, q: Request, more: Batch)
    requires Invariant(digest, st) && Admitted(st, q) && Augments(q.obs, more)
    ensures Result(digest, st, q.(obs := more)).confidence <= Result(digest, st, q).confidence
       <==> !ConfoundersEase(q.obs, more, q.affected.id)
  {
    var p, b := q.(obs := more), Gated(st, q).baseline;
    GateAugmented(st.baselines, q.affected, q.obs, more, q.policy);
    AdmittedSamples(st, q);
    AdmittedBaseline(st.baselines, q.affected, q.obs, q.policy);
    MoreConfoundersExactly(digest, st.epoch, q.Key() in st.recoveries, b, q.affected, q.associated.id, q.domain,
                           q.obs, more, q.policy);
    ResultOfLogged(digest, st, q);
    ResultOfLogged(digest, st, p);
  }
}

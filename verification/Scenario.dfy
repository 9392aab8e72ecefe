/** One small run, and the expectations that it disappoints. */
module Scenario {
  import opened Words
  import opened Domain
  import opened Comparison
  import opened Confounding
  import opened Selection
  import opened Grading
  import opened Machine
  import opened Runs
  import opened Ledger
  import opened Outcomes
  import Digest

  // ---------- One baseline, one workload ----------

  const REFERENCE: Baseline<real> :=
    Baseline(1, 1, 0, 1, 1, 1, 1, 1, 1, [], [], [], [], [], 0, 0, 0, 0, 0, Provenance.Controlled, Freshness.Current,
             1, 0.0, 1.0, 1.0, MetricKind.Latency, true)

  function Someone(id: u64): Workload {
    Workload(id, 1, [], [], [], 1, 1, 1, 1, [], [], [], 0, 0, 0, 0, [])
  }

  const VICTIM: u64 := 1

  const STRICT: Policy := Policy(0.02, 0.1, 0.5, 1, 0.6, 900_000, 3_600_000)

  const NONE: Capabilities :=
    [false, false, false, false, false, false, false, false, false, false, false, false, false, false, false, false,
      false]

  /** A latency twice the reference, beside the given peers. */
  function Sample(peers: seq<u64>, confounders: seq<Confounder>): Observation<real> {
    Observation(1, 1, 1, 1, 1, 1, VICTIM, 1, 1, 1, 0, Measurement(MetricKind.Latency, 2.0, [], 1, 0.0, 0.0, false),
                Provenance.Measured, Freshness.Current, 0, NONE, peers, confounders)
  }

  function Asking(neighbor: u64, obs: Batch): Request {
    Request(Someone(VICTIM), Someone(neighbor), 0, obs, STRICT)
  }

  /** The state after publishing the reference. */
  function Published(judge: Judge): Observatory {
    Run(judge, Fresh(1, 1), [Publish(REFERENCE)])
  }

  lemma PublishedState(judge: Judge)
    ensures Published(judge) == Fresh<real>(1, 1).(baselines := map[1 := REFERENCE])
    ensures Keyed(Published(judge))
  {
    var ops := [Publish(REFERENCE)];
    assert ops[..0] == [];
    assert Fault(REFERENCE) == Ok && Stored(REFERENCE) == REFERENCE;
    assert Run(judge, Fresh(1, 1), ops) == Step(judge, Fresh(1, 1), Publish(REFERENCE));
  }

  lemma Serviceable(st: Observatory, neighbor: u64, obs: Batch)
    requires st.baselines == map[1 := REFERENCE]
    requires Values(obs, VICTIM, MetricKind.Latency) != [] && Now(obs) == 0
    ensures Comparable(st, Asking(neighbor, obs), REFERENCE)
  {
    assert Candidate(REFERENCE, Someone(VICTIM));
    assert Greatest(st.baselines, Someone(VICTIM), REFERENCE);
  }

  lemma OneSample(o: Observation<real>)
    requires Counts(o, VICTIM, MetricKind.Latency)
    ensures Values([o], VICTIM, MetricKind.Latency) == [o.measurement.value]
    ensures Values([o, o], VICTIM, MetricKind.Latency) == [o.measurement.value, o.measurement.value]
  {
    assert [o][..0] == [] && [o, o][..1] == [o];
  }

  lemma TwiceTheReference(policy: Policy)
    requires policy == STRICT
    ensures Relative(1.0, 2.0) == 1.0 && Grade(REFERENCE, 2.0, policy) == Outcome.SevereInterference
  {
  }

  // ---------- No overlap: the outcome leaves the bracket of its samples ----------

  lemma Unreported(digest: seq<u8> -> u64, st: Observatory, q: Request)
    requires Keyed(st) && Comparable(st, q, REFERENCE) && !Overlapping(q, REFERENCE)
    ensures Admitted(st, q) && Result(digest, st, q).outcome == Outcome.NoInterferenceDetected
  {
    ComparableExactly(st, q, REFERENCE);
    OutcomeReturned(digest, st, q);
  }

  lemma NobodyBeside(q: Request, o: Observation<real>)
    requires q.obs == [o] && q.associated.id !in o.peers
    ensures !Overlapping(q, REFERENCE)
  {
  }

  /** The only sample is severely degraded, and no interference is reported: the neighbor was not there. */
  lemma OutsideTheBracket(digest: seq<u8> -> u64)
    ensures var st, q := Published(Judging(digest)), Asking(3, [Sample([2], [])]);
            && Admitted(st, q) && Result(digest, st, q).outcome == Outcome.NoInterferenceDetected
            && SamplesFor(q, REFERENCE) == [2.0] && Grade(REFERENCE, 2.0, STRICT) == Outcome.SevereInterference
  {
    var o := Sample([2], []);
    var st, q := Published(Judging(digest)), Asking(3, [o]);
    PublishedState(Judging(digest));
    OneSample(o);
    Serviceable(st, 3, [o]);
    NobodyBeside(q, o);
    Unreported(digest, st, q);
    TwiceTheReference(STRICT);
  }

  // ---------- Two orders, two matrices ----------

  /**
    One sample and then two, or two and then one: the same log, and a reload restores at most one of
    the two matrices.
   */
  lemma OneLogTwoMatrices()
    ensures var judge := Judging(Digest.Fnv64);
            var o := Sample([2], []);
            var q, p := Asking(2, [o]), Asking(2, [o, o]);
            var qp, pq := Step(judge, Step(judge, Published(judge), Ask(q)), Ask(p)),
              Step(judge, Step(judge, Published(judge), Ask(p)), Ask(q));
            && qp.comparisons == pq.comparisons && qp.matrix != pq.matrix
            && !(Rebuilt(qp.comparisons) == qp.matrix && Rebuilt(pq.comparisons) == pq.matrix)
  {
    var judge := Judging(Digest.Fnv64);
    var o := Sample([2], []);
    var st := Published(judge);
    PublishedState(judge);
    OneSample(o);
    Serviceable(st, 2, [o]);
    Serviceable(st, 2, [o, o]);
    CountsMakeOrderMatter(st, Asking(2, [o]), Asking(2, [o, o]), REFERENCE);
  }

  // ---------- Two neighbors, one episode ----------

  lemma SevereBeside(neighbor: u64, o: Observation<real>)
    requires o == Sample([2, 3], []) && (neighbor == 2 || neighbor == 3)
    ensures Interferes(Asking(neighbor, [o]), REFERENCE)
  {
    OneSample(o);
    var q := Asking(neighbor, [o]);
    assert Counts(q.obs[0], VICTIM, MetricKind.Latency) && neighbor in q.obs[0].peers;
    OneValueMean();
    DegradationParts(REFERENCE, [2.0]);
    TwiceTheReference(STRICT);
  }

  lemma OneValueMean()
    ensures Statistics.Mean([2.0]) == 2.0
  {
    Statistics.MeanBetween([2.0], 2.0, 2.0);
  }

  lemma OneRemains(digest: seq<u8> -> u64, st: Observatory, o: Observation<real>, q: Request, p: Request)
    requires st == Published(Judging(digest)) && o == Sample([2, 3], []) && q == Asking(2, [o]) && p == Asking(3, [o])
    ensures var both := Step(Judging(digest), Step(Judging(digest), st, Ask(q)), Ask(p)).episodes;
            var id := ContentId(digest, EpisodeContent(VICTIM, 0, 1));
            both.Keys == {id} && both[id].coRunning == [3]
  {
    PublishedState(Judging(digest));
    OneSample(o);
    Serviceable(st, 2, [o]);
    Serviceable(st, 3, [o]);
    SevereBeside(2, o);
    SevereBeside(3, o);
    NeighborsShareEpisode(digest, st, q, REFERENCE, p, REFERENCE);
  }

  /** Neighbors 2 and 3 both interfere severely; one episode remains, and it names neighbor 3 only. */
  lemma EpisodeLost(digest: seq<u8> -> u64)
    ensures var judge := Judging(digest);
            var o := Sample([2, 3], []);
            var both := Step(judge, Step(judge, Published(judge), Ask(Asking(2, [o]))), Ask(Asking(3, [o]))).episodes;
            var id := ContentId(digest, EpisodeContent(VICTIM, 0, 1));
            both.Keys == {id} && both[id].coRunning == [3]
  {
    var o := Sample([2, 3], []);
    OneRemains(digest, Published(Judging(digest)), o, Asking(2, [o]), Asking(3, [o]));
  }

  // ---------- Ten soft confounders and a hard one ----------

  /** Nine declared soft kinds and one byte that is not declared. */
  const TEN: seq<Confounder> := [3, 7, 8, 9, 10, 11, 12, 13, 16, 17]

  lemma KindsOfOne(o: Observation<real>)
    requires o.workloadId == VICTIM
    ensures Distinct(Kinds([o], VICTIM)) && Elements(Kinds([o], VICTIM)) == Elements(o.confounders)
  {
    KindsReported([o], VICTIM);
    forall c ensures Reports([o], VICTIM, c) <==> c in o.confounders {
      if c in o.confounders {
        assert [o][0].workloadId == VICTIM && c in [o][0].confounders;
      }
    }
  }

  const TEN_KINDS: set<Confounder> := {3, 7, 8, 9, 10, 11, 12, 13, 16, 17}

  lemma TenMembers(cs: seq<Confounder>)
    requires cs == TEN
    ensures TEN_KINDS <= Elements(cs)
  {
    assert cs[0] == 3 && cs[1] == 7 && cs[2] == 8 && cs[3] == 9 && cs[4] == 10;
    assert cs[5] == 11 && cs[6] == 12 && cs[7] == 13 && cs[8] == 16 && cs[9] == 17;
  }

  lemma TenAreSoft(cs: seq<Confounder>)
    requires cs == TEN
    ensures forall c :: c in cs ==> !c.Hard()
  {
  }

  lemma TenAreTen()
    ensures |TEN_KINDS| == 10
  {
  }

  lemma AllSoft(ks: seq<Confounder>, kinds: set<Confounder>)
    requires Distinct(ks) && kinds <= Elements(ks) && forall c :: c in Elements(ks) ==> !c.Hard()
    ensures |Softs(ks)| >= |kinds| && Hards(ks) == []
  {
    Counted(ks);
    assert HardSet(Elements(ks)) == {};
    SubsetSize(kinds, SoftSet(Elements(ks)));
  }

  lemma TenSoftKinds(o: Observation<real>)
    requires o.workloadId == VICTIM && o.confounders == TEN
    ensures |Softs(Kinds([o], VICTIM))| >= 10 && Hards(Kinds([o], VICTIM)) == []
  {
    KindsOfOne(o);
    TenMembers(o.confounders);
    TenAreSoft(o.confounders);
    TenAreTen();
    AllSoft(Kinds([o], VICTIM), TEN_KINDS);
  }

  lemma AndOneHard()
    ensures Hards(Kinds([Sample([2], TEN + [0])], VICTIM)) != []
  {
    var o := Sample([2], TEN + [0]);
    var ks := Kinds([o], VICTIM);
    KindsOfOne(o);
    Counted(ks);
    var throttled: Confounder := 0;
    assert o.confounders[10] == throttled && throttled in Elements(ks);
    assert throttled in HardSet(Elements(ks));
  }

  lemma Reached(digest: seq<u8> -> u64, o: Observation<real>)
    requires Counts(o, VICTIM, MetricKind.Latency) && o.timestampMs == 0
    ensures Invariant(digest, Published(Judging(digest))) && Admitted(Published(Judging(digest)), Asking(2, [o]))
  {
    var judge := Judging(digest);
    PublishedState(judge);
    InvariantFresh(digest, 1, 1);
    InvariantRun(digest, Fresh(1, 1), [Publish(REFERENCE)]);
    OneSample(o);
    Serviceable(Published(judge), 2, [o]);
    ComparableExactly(Published(judge), Asking(2, [o]), REFERENCE);
  }

  lemma HardEases(o: Observation<real>, more: Observation<real>)
    requires o == Sample([2], TEN) && more == Sample([2], TEN + [0])
    ensures Augments([o], [more]) && ConfoundersEase([o], [more], VICTIM)
  {
    TenSoftKinds(o);
    AndOneHard();
  }

  lemma Rises(digest: seq<u8> -> u64, st: Observatory, o: Observation<real>, more: Observation<real>, q: Request,
              p: Request)
    requires st == Published(Judging(digest)) && o == Sample([2], TEN) && more == Sample([2], TEN + [0])
    requires q == Asking(2, [o]) && p == Asking(2, [more])
    ensures Result(digest, st, p).confidence > Result(digest, st, q).confidence
  {
    Reached(digest, o);
    HardEases(o, more);
    ResultConfounded(digest, st, q, [more]);
  }

  /** Reporting thermal throttling on top of ten soft confounders raises the confidence. */
  lemma ConfidenceRises(digest: seq<u8> -> u64)
    ensures var st := Published(Judging(digest));
            var few, more := Asking(2, [Sample([2], TEN)]), Asking(2, [Sample([2], TEN + [0])]);
            Result(digest, st, more).confidence > Result(digest, st, few).confidence
  {
    var o, more := Sample([2], TEN), Sample([2], TEN + [0]);
    Rises(digest, Published(Judging(digest)), o, more, Asking(2, [o]), Asking(2, [more]));
  }
}

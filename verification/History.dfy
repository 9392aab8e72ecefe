/** What the matrix and the verdicts say about the run that produced them. */
module History {
  import opened Words
  import opened Domain
  import opened Comparison
  import opened Confounding
  import opened Machine
  import opened Runs

  // ---------- One comparison ----------

  predicate RefusalOutcome(o: Outcome) {
    o == Outcome.Unknown || o == Outcome.InsufficientEvidence || o == Outcome.BaselineInvalid
    || o == Outcome.RevalidationRequired
  }

  /** A comparison is admitted exactly when its outcome is one of the four verdicts. */
  lemma AdmittedOutcome(digest: seq<u8> -> u64, st: Observatory, q: Request)
    ensures Admitted(st, q) <==> Result(digest, st, q).outcome.Classified()
    ensures !Admitted(st, q) ==> RefusalOutcome(Result(digest, st, q).outcome)
  {
    ClassifiedIsAdmitted(digest, st, q);
  }

  lemma EffectShape(digest: seq<u8> -> u64, st: Observatory, q: Request)
    ensures var e, r := EffectOf(digest, st, q), Result(digest, st, q);
            if r.outcome.Classified() then
              && e.Noted? && e.record == r.(episodeId := 0) && KeyOf(r) == q.Key()
              && (r.outcome.Indicated() ==> e.episode.id == r.episodeId)
            else e.Refused? && RefusalOutcome(r.outcome)
  {
    AdmittedOutcome(digest, st, q);
  }

  /**
    A comparison leaves the whole state unchanged and returns one of four refusals, or it writes
    one log entry, one directed cell, and an episode only when interference is indicated.
   */
  lemma CompareFrame(digest: seq<u8> -> u64, st: Observatory, q: Request)
    ensures var later, r := Step(Judging(digest), st, Ask(q)), Result(digest, st, q);
            var cell := r.(episodeId := 0);
            if r.outcome.Classified() then
              && later == st.(matrix := st.matrix[q.Key() := cell],
                              comparisons := st.comparisons[r.comparisonId := cell],
                              episodes := later.episodes)
              && (if r.outcome.Indicated()
                  then r.episodeId in later.episodes
                    && later.episodes == st.episodes[r.episodeId := later.episodes[r.episodeId]]
                  else later.episodes == st.episodes)
            else later == st && RefusalOutcome(r.outcome)
  {
    EffectShape(digest, st, q);
    EffectFrame(Judging(digest), st, q);
  }

  lemma EffectFrame(judge: Judge, st: Observatory, q: Request)
    ensures var e := judge(st, q);
            Step(judge, st, Ask(q)) == st.(episodes := OpenEpisode(st.episodes, e),
                                           comparisons := Log(st.comparisons, e),
                                           matrix := SetCell(st.matrix, e))
  {
  }

  /** The effect depends on the baselines, the epoch and the recoveries only. */
  lemma EffectDepends(digest: seq<u8> -> u64, a: Observatory, b: Observatory, q: Request)
    requires a.baselines == b.baselines && a.epoch == b.epoch && a.recoveries == b.recoveries
    ensures EffectOf(digest, a, q) == EffectOf(digest, b, q) && Result(digest, a, q) == Result(digest, b, q)
  {
  }

  lemma AppliedTwice(judge: Judge, st: Observatory, q: Request)
    requires judge(Step(judge, st, Ask(q)), q) == judge(st, q)
    ensures Step(judge, Step(judge, st, Ask(q)), Ask(q)) == Step(judge, st, Ask(q))
  {
    var once := Step(judge, st, Ask(q));
    EffectFrame(judge, st, q);
    EffectFrame(judge, once, q);
  }

  /** Repeating a comparison returns the same result and adds no record. */
  lemma CompareIdempotent(digest: seq<u8> -> u64, st: Observatory, q: Request)
    ensures var once := Step(Judging(digest), st, Ask(q));
            Step(Judging(digest), once, Ask(q)) == once && Result(digest, once, q) == Result(digest, st, q)
  {
    var once := Step(Judging(digest), st, Ask(q));
    EffectFrame(Judging(digest), st, q);
    EffectDepends(digest, once, st, q);
    AppliedTwice(Judging(digest), st, q);
  }

  lemma EpisodeOfResult(digest: seq<u8> -> u64, st: Observatory, q: Request)
    ensures var e, r := EffectOf(digest, st, q), Result(digest, st, q);
            r.outcome.Indicated() ==>
            && e.Noted? && e.record.outcome.Indicated() && e.episode.id == r.episodeId
            && r.episodeId == ContentId(digest, EpisodeContent(q.affected.id, q.domain, r.baselineId))
            && e.episode.coRunning == [q.associated.id] && e.episode.classification == r.outcome
  {
  }

  lemma TwoEpisodes(m: map<u64, Episode<real>>, e: Effect, f: Effect)
    requires e.Noted? && f.Noted? && e.record.outcome.Indicated() && f.record.outcome.Indicated()
    ensures var i, j, both := e.episode.id, f.episode.id, OpenEpisode(OpenEpisode(m, e), f);
            && both.Keys == m.Keys + {i, j} && both[j] == f.episode
            && both[i] == (if i == j then f.episode else e.episode)
            && (forall k :: k in m && k != i && k != j ==> both[k] == m[k])
  {
  }

  /**
    Episode ids do not mention the neighbor. After two indicated comparisons the second one's episode
    is there, and the first one's is still there exactly when its id is another or its content the
    same; it still names the first neighbor exactly when its id is another or the neighbor the same.
   */
  lemma EpisodeReplaced(digest: seq<u8> -> u64, st: Observatory, q: Request, p: Request)
    requires Result(digest, st, q).outcome.Indicated() && Result(digest, st, p).outcome.Indicated()
    ensures Admitted(st, q) && Admitted(st, p)
    ensures var judge := Judging(digest);
            var i, j := Result(digest, st, q).episodeId, Result(digest, st, p).episodeId;
            var first, second := Opened(digest, st, q), Opened(digest, st, p);
            var both := Step(judge, Step(judge, st, Ask(q)), Ask(p)).episodes;
            && both.Keys == st.episodes.Keys + {i, j} && both[j] == second
            && (both[i] == first <==> i != j || first == second)
            && (both[i].coRunning == [q.associated.id] <==> i != j || q.associated.id == p.associated.id)
  {
    var judge := Judging(digest);
    EffectFrame(judge, st, q);
    EffectFrame(judge, Step(judge, st, Ask(q)), p);
    EffectDepends(digest, Step(judge, st, Ask(q)), st, p);
    EpisodeOfResult(digest, st, q);
    EpisodeOfResult(digest, st, p);
    TwoEpisodes(st.episodes, EffectOf(digest, st, q), EffectOf(digest, st, p));
  }

  // ---------- Which cells a run has ----------

  /** Step i of the run sets cell k. */
  ghost predicate SetsAt(judge: Judge, st: Observatory, ops: seq<Op>, k: CellKey, i: nat)
    requires i < |ops|
  {
    var e := EffectIn(judge, Run(judge, st, ops[..i]), ops[i]);
    e.Noted? && KeyOf(e.record) == k
  }

  lemma {:induction false} CellHistory(judge: Judge, st: Observatory, ops: seq<Op>, k: CellKey)
    ensures k in Run(judge, st, ops).matrix
       <==> k in st.matrix || exists i: nat :: i < |ops| && SetsAt(judge, st, ops, k, i)
  {
    if ops != [] {
      var n := |ops| - 1;
      CellHistory(judge, st, ops[..n], k);
      forall i: nat | i < n ensures SetsAt(judge, st, ops, k, i) == SetsAt(judge, st, ops[..n], k, i) {
        assert ops[..n][..i] == ops[..i];
      }
      assert k in Run(judge, st, ops).matrix <==> k in Run(judge, st, ops[..n]).matrix || SetsAt(judge, st, ops, k, n);
    }
  }

  /** Step i of the run is a comparison of exactly this directed pair and domain, and it is classified. */
  ghost predicate ClassifiedAt(digest: seq<u8> -> u64, st: Observatory, ops: seq<Op>, k: CellKey, i: nat)
    requires i < |ops|
  {
    && ops[i].Ask? && ops[i].request.Key() == k
    && Result(digest, Run(Judging(digest), st, ops[..i]), ops[i].request).outcome.Classified()
  }

  lemma SetsWhenClassified(digest: seq<u8> -> u64, st: Observatory, ops: seq<Op>, k: CellKey, i: nat)
    requires i < |ops|
    ensures SetsAt(Judging(digest), st, ops, k, i) <==> ClassifiedAt(digest, st, ops, k, i)
  {
    if ops[i].Ask? {
      EffectShape(digest, Run(Judging(digest), st, ops[..i]), ops[i].request);
    }
  }

  /**
    A cell exists exactly when that directed pair was compared in that domain and classified. So a
    reverse or third-party cell exists only if it was compared separately.
   */
  lemma CellsAreCompared(digest: seq<u8> -> u64, id: u64, generation: u64, ops: seq<Op>, k: CellKey)
    ensures k in Run(Judging(digest), Fresh(id, generation), ops).matrix
       <==> exists i: nat :: i < |ops| && ClassifiedAt(digest, Fresh(id, generation), ops, k, i)
  {
    CellHistory(Judging(digest), Fresh(id, generation), ops, k);
    forall i: nat | i < |ops|
      ensures SetsAt(Judging(digest), Fresh(id, generation), ops, k, i)
         <==> ClassifiedAt(digest, Fresh(id, generation), ops, k, i)
    {
      SetsWhenClassified(digest, Fresh(id, generation), ops, k, i);
    }
  }

  // ---------- Which episodes a run has ----------

  /** Step i of the run opens, or replaces, the episode of this id. */
  ghost predicate OpensAt(judge: Judge, st: Observatory, ops: seq<Op>, id: u64, i: nat)
    requires i < |ops|
  {
    var e := EffectIn(judge, Run(judge, st, ops[..i]), ops[i]);
    e.Noted? && e.record.outcome.Indicated() && e.episode.id == id
  }

  /** No step from i on does. */
  ghost predicate NoneOpens(judge: Judge, st: Observatory, ops: seq<Op>, id: u64, i: nat) {
    forall j: nat :: i <= j < |ops| ==> !OpensAt(judge, st, ops, id, j)
  }

  ghost predicate LastOpens(judge: Judge, st: Observatory, ops: seq<Op>, id: u64, i: nat) {
    i < |ops| && OpensAt(judge, st, ops, id, i) && NoneOpens(judge, st, ops, id, i + 1)
  }

  lemma OpensInPrefix(judge: Judge, st: Observatory, ops: seq<Op>, n: nat, id: u64, i: nat)
    requires i < n <= |ops|
    ensures OpensAt(judge, st, ops[..n], id, i) <==> OpensAt(judge, st, ops, id, i)
  {
    assert ops[..n][..i] == ops[..i];
  }

  lemma EpisodesStep(judge: Judge, st: Observatory, op: Op)
    ensures Step(judge, st, op).episodes == OpenEpisode(st.episodes, EffectIn(judge, st, op))
  {
  }

  lemma {:induction false} Untouched(judge: Judge, st: Observatory, ops: seq<Op>, id: u64)
    requires NoneOpens(judge, st, ops, id, 0)
    ensures id in Run(judge, st, ops).episodes <==> id in st.episodes
    ensures id in st.episodes ==> Run(judge, st, ops).episodes[id] == st.episodes[id]
  {
    if ops != [] {
      var n := |ops| - 1;
      forall j: nat | j < n ensures !OpensAt(judge, st, ops[..n], id, j) {
        OpensInPrefix(judge, st, ops, n, id, j);
      }
      Untouched(judge, st, ops[..n], id);
      EpisodesStep(judge, Run(judge, st, ops[..n]), ops[n]);
      assert !OpensAt(judge, st, ops, id, n);
    }
  }

  /** The episode under an id is that of the last step that opened it. */
  lemma {:induction false} EpisodeHistory(judge: Judge, st: Observatory, ops: seq<Op>, id: u64, i: nat)
    requires LastOpens(judge, st, ops, id, i)
    ensures id in Run(judge, st, ops).episodes
    ensures Run(judge, st, ops).episodes[id] == EffectIn(judge, Run(judge, st, ops[..i]), ops[i]).episode
    decreases |ops|
  {
    var n := |ops| - 1;
    EpisodesStep(judge, Run(judge, st, ops[..n]), ops[n]);
    if i < n {
      forall j: nat | i + 1 <= j < n ensures !OpensAt(judge, st, ops[..n], id, j) {
        OpensInPrefix(judge, st, ops, n, id, j);
      }
      OpensInPrefix(judge, st, ops, n, id, i);
      EpisodeHistory(judge, st, ops[..n], id, i);
      assert ops[..n][..i] == ops[..i];
      assert !OpensAt(judge, st, ops, id, n);
    }
  }

  /** Some step is the last one, unless none is. */
  lemma {:induction false} LastOpener(judge: Judge, st: Observatory, ops: seq<Op>, id: u64, n: nat) returns (i: nat)
    requires n <= |ops| && NoneOpens(judge, st, ops, id, n)
    ensures LastOpens(judge, st, ops, id, i) || NoneOpens(judge, st, ops, id, 0)
  {
    i := 0;
    if n > 0 {
      i := n - 1;
      if !OpensAt(judge, st, ops, id, n - 1) {
        i := LastOpener(judge, st, ops, id, n - 1);
      }
    }
  }

  /** Step i is a comparison that indicates interference under this episode id. */
  ghost predicate IndicatedAt(digest: seq<u8> -> u64, st: Observatory, ops: seq<Op>, id: u64, i: nat)
    requires i < |ops|
  {
    ops[i].Ask? &&
    var r := Result(digest, Run(Judging(digest), st, ops[..i]), ops[i].request);
    r.outcome.Indicated() && r.episodeId == id
  }

  lemma OpensWhenIndicated(digest: seq<u8> -> u64, st: Observatory, ops: seq<Op>, id: u64, i: nat)
    requires i < |ops|
    ensures OpensAt(Judging(digest), st, ops, id, i) <==> IndicatedAt(digest, st, ops, id, i)
  {
    if ops[i].Ask? {
      EffectShape(digest, Run(Judging(digest), st, ops[..i]), ops[i].request);
    }
  }

  /** What the episode of step i says about the comparison made there. */
  ghost predicate Records(digest: seq<u8> -> u64, st: Observatory, q: Request, e: Episode<real>) {
    var r := Result(digest, st, q);
    && e.id == r.episodeId && e.affected == q.affected.id && e.coRunning == [q.associated.id] && e.domains == [q.domain]
    && e.baselineId == r.baselineId && e.classification == r.outcome && e.confidence == r.confidence
  }

  lemma OpenedRecords(digest: seq<u8> -> u64, st: Observatory, q: Request)
    ensures Result(digest, st, q).outcome.Indicated() ==>
              EffectOf(digest, st, q).Noted? && Records(digest, st, q, EffectOf(digest, st, q).episode)
  {
  }

  ghost predicate LastIndicated(digest: seq<u8> -> u64, st: Observatory, ops: seq<Op>, id: u64, i: nat) {
    && i < |ops| && IndicatedAt(digest, st, ops, id, i)
    && forall j: nat :: i < j < |ops| ==> !IndicatedAt(digest, st, ops, id, j)
  }

  /**
    An episode exists exactly when some comparison of the run indicated interference under its id, and
    it records the last of these.
   */
  lemma EpisodesAreIndicated(digest: seq<u8> -> u64, st: Observatory, ops: seq<Op>, id: u64) returns (i: nat)
    ensures var now := Run(Judging(digest), st, ops).episodes;
            if LastIndicated(digest, st, ops, id, i)
            then id in now && Records(digest, Run(Judging(digest), st, ops[..i]), ops[i].request, now[id])
            else && (forall j: nat :: j < |ops| ==> !IndicatedAt(digest, st, ops, id, j))
                 && (id in now <==> id in st.episodes) && (id in now ==> now[id] == st.episodes[id])
  {
    var judge := Judging(digest);
    forall j: nat | j < |ops| ensures OpensAt(judge, st, ops, id, j) <==> IndicatedAt(digest, st, ops, id, j) {
      OpensWhenIndicated(digest, st, ops, id, j);
    }
    i := LastOpener(judge, st, ops, id, |ops|);
    if LastOpens(judge, st, ops, id, i) {
      EpisodeHistory(judge, st, ops, id, i);
      OpenedRecords(digest, Run(judge, st, ops[..i]), ops[i].request);
    } else {
      Untouched(judge, st, ops, id);
    }
  }

  /**
    An episode opened by a comparison still names that neighbor at the end of the run exactly when
    the last comparison that indicated interference under its id was with the same neighbor.
   */
  lemma EpisodeSurvives(digest: seq<u8> -> u64, st: Observatory, ops: seq<Op>, id: u64, i: nat) returns (last: nat)
    requires i < |ops| && IndicatedAt(digest, st, ops, id, i)
    ensures i <= last && LastIndicated(digest, st, ops, id, last)
    ensures var now := Run(Judging(digest), st, ops).episodes;
            id in now && (now[id].coRunning == [ops[i].request.associated.id] <==>
                            ops[last].request.associated.id == ops[i].request.associated.id)
  {
    last := EpisodesAreIndicated(digest, st, ops, id);
  }

  // ---------- The matrix is written and never read ----------

  function WithCells(st: Observatory, m: map<CellKey, Pairwise<real>>): Observatory {
    st.(matrix := m)
  }

  lemma SetBeneath(m: map<CellKey, Pairwise<real>>, x: map<CellKey, Pairwise<real>>, e: Effect)
    ensures SetCell(m + x, e) == m + SetCell(x, e)
  {
  }

  lemma StepUnread(judge: Judge, bare: Observatory, m: map<CellKey, Pairwise<real>>, op: Op)
    requires EffectIn(judge, WithCells(bare, m + bare.matrix), op) == EffectIn(judge, bare, op)
    ensures Step(judge, WithCells(bare, m + bare.matrix), op)
         == WithCells(Step(judge, bare, op), m + Step(judge, bare, op).matrix)
  {
    SetBeneath(m, bare.matrix, EffectIn(judge, bare, op));
  }

  /** Whatever cells a run starts with, it does what it does with none, and lays its cells over them. */
  lemma {:induction false} MatrixUnread(digest: seq<u8> -> u64, st: Observatory, m: map<CellKey, Pairwise<real>>,
                                        ops: seq<Op>)
    ensures var bare := Run(Judging(digest), WithCells(st, map[]), ops);
            Run(Judging(digest), WithCells(st, m), ops) == WithCells(bare, m + bare.matrix)
  {
    var judge := Judging(digest);
    if ops == [] {
      assert m + map[] == m;
    } else {
      var n := |ops| - 1;
      var bare := Run(judge, WithCells(st, map[]), ops[..n]);
      MatrixUnread(digest, st, m, ops[..n]);
      if ops[n].Ask? {
        EffectDepends(digest, WithCells(bare, m + bare.matrix), bare, ops[n].request);
      }
      StepUnread(judge, bare, m, ops[n]);
    }
  }

  /**
    States that are equal apart from the matrix stay so in every run, return the same results, and
    agree on every cell that the run sets.
   */
  lemma SameButCells(digest: seq<u8> -> u64, a: Observatory, b: Observatory, ops: seq<Op>, q: Request)
    requires b == WithCells(a, b.matrix)
    ensures var judge := Judging(digest);
            var a', b' := Run(judge, a, ops), Run(judge, b, ops);
            && b' == WithCells(a', b'.matrix) && Result(digest, a', q) == Result(digest, b', q)
            && forall i: nat, k :: i < |ops| && SetsAt(judge, a, ops, k, i) ==>
                 k in a'.matrix && k in b'.matrix && a'.matrix[k] == b'.matrix[k]
  {
    var judge := Judging(digest);
    var bare, a', b' := Run(judge, WithCells(a, map[]), ops), Run(judge, a, ops), Run(judge, b, ops);
    assert a == WithCells(a, a.matrix);
    MatrixUnread(digest, a, a.matrix, ops);
    MatrixUnread(digest, a, b.matrix, ops);
    EffectDepends(digest, a', b', q);
    forall i: nat, k | i < |ops| && SetsAt(judge, a, ops, k, i) ensures k in bare.matrix {
      SetsBare(digest, a, ops, k, i);
      CellHistory(judge, WithCells(a, map[]), ops, k);
    }
  }

  lemma SetsBare(digest: seq<u8> -> u64, st: Observatory, ops: seq<Op>, k: CellKey, i: nat)
    requires i < |ops|
    ensures SetsAt(Judging(digest), WithCells(st, map[]), ops, k, i) <==> SetsAt(Judging(digest), st, ops, k, i)
  {
    var judge := Judging(digest);
    assert st == WithCells(st, st.matrix);
    MatrixUnread(digest, st, st.matrix, ops[..i]);
    if ops[i].Ask? {
      EffectDepends(digest, Run(judge, st, ops[..i]), Run(judge, WithCells(st, map[]), ops[..i]), ops[i].request);
    }
  }

  // ---------- Counterfactual evidence ----------

  /** A recovery is known exactly when it was recorded, for this ordered pair and domain. */
  lemma {:induction false} RecoveryHistory(judge: Judge, st: Observatory, ops: seq<Op>, k: CellKey)
    ensures k in Run(judge, st, ops).recoveries
       <==> k in st.recoveries || (Recover(k) in ops && k.victim != 0 && k.neighbor != 0)
  {
    if ops != [] {
      var n := |ops| - 1;
      RecoveryHistory(judge, st, ops[..n], k);
      assert ops == ops[..n] + [ops[n]];
    }
  }

  /** The samples overlap the neighbor and no hard confounder is reported. */
  ghost predicate Unconfounded(b: Baseline<real>, q: Request) {
    && Overlaps(q.obs, q.affected.id, b.metric, q.associated.id)
    && Hards(Kinds(q.obs, q.affected.id)) == []
  }

  lemma AttributionExact(digest: seq<u8> -> u64, st: Observatory, q: Request)
    requires Admitted(st, q)
    ensures Result(digest, st, q).attribution == Attribution.StrongCounterfactualEvidence
       <==> Unconfounded(Gated(st, q).baseline, q) && q.Key() in st.recoveries
    ensures Result(digest, st, q).attribution == Attribution.ControlledComparison
       <==> Unconfounded(Gated(st, q).baseline, q) && q.Key() !in st.recoveries
    ensures Result(digest, st, q).attribution != Attribution.DirectResourceEvidence
  {
  }

  /** Some hard confounder is reported for the victim. */
  ghost predicate HardReported(q: Request, c: Confounder) {
    Reports(q.obs, q.affected.id, c) && c.Hard()
  }

  lemma HardCounts(q: Request)
    ensures var hard := Hards(Kinds(q.obs, q.affected.id));
            && (|hard| == 0 <==> forall c :: !HardReported(q, c))
            && (|hard| >= 2 <==> exists c, d :: c != d && HardReported(q, c) && HardReported(q, d))
  {
    var hard := Hards(Kinds(q.obs, q.affected.id));
    HardsReported(q.obs, q.affected.id);
    forall c ensures HardReported(q, c) <==> c in hard {
    }
    if |hard| >= 1 {
      assert HardReported(q, hard[0]);
    }
    if |hard| >= 2 {
      assert hard[0] != hard[1] && HardReported(q, hard[1]);
    }
    if c, d :| c != d && HardReported(q, c) && HardReported(q, d) {
      assert c in hard && d in hard;
    }
  }

  /**
    The ladder below controlled evidence: without overlap nothing is attributed and no interference
    is reported; two hard confounders leave a temporal association, one a correlation.
   */
  lemma AttributionLadder(digest: seq<u8> -> u64, st: Observatory, q: Request)
    requires Admitted(st, q)
    ensures var r, overlap := Result(digest, st, q),
              Overlaps(q.obs, q.affected.id, Gated(st, q).baseline.metric, q.associated.id);
            && (r.attribution == Attribution.Unknown <==> !overlap)
            && (!overlap ==> r.outcome == Outcome.NoInterferenceDetected)
            && (r.attribution == Attribution.TemporallyAssociated <==>
                  overlap && exists c, d :: c != d && HardReported(q, c) && HardReported(q, d))
            && (r.attribution <= Attribution.Correlated && overlap <==> overlap && exists c :: HardReported(q, c))
  {
    HardCounts(q);
    LadderByCount(digest, st, q);
  }

  lemma LadderByCount(digest: seq<u8> -> u64, st: Observatory, q: Request)
    requires Admitted(st, q)
    ensures var r, overlap := Result(digest, st, q),
              Overlaps(q.obs, q.affected.id, Gated(st, q).baseline.metric, q.associated.id);
            var n := |Hards(Kinds(q.obs, q.affected.id))|;
            && (r.attribution == Attribution.Unknown <==> !overlap)
            && (!overlap ==> r.outcome == Outcome.NoInterferenceDetected)
            && (r.attribution == Attribution.TemporallyAssociated <==> overlap && n >= 2)
            && (r.attribution == Attribution.Correlated <==> overlap && n == 1)
  {
  }

  /** Over any run, counterfactual evidence is claimed exactly when that recovery was recorded before. */
  lemma CounterfactualExact(digest: seq<u8> -> u64, id: u64, generation: u64, ops: seq<Op>, q: Request)
    requires Admitted(Run(Judging(digest), Fresh(id, generation), ops), q)
    ensures var st := Run(Judging(digest), Fresh(id, generation), ops);
            (Result(digest, st, q).attribution == Attribution.StrongCounterfactualEvidence) <==>
            (Unconfounded(Gated(st, q).baseline, q) && Recover(q.Key()) in ops
               && q.affected.id != 0 && q.associated.id != 0)
  {
    AttributionExact(digest, Run(Judging(digest), Fresh(id, generation), ops), q);
    RecoveryHistory(Judging(digest), Fresh(id, generation), ops, q.Key());
  }

  /** Recording the recovery changes nothing else in the result of the same comparison. */
  lemma RecoveryOnlyUpgrades(digest: seq<u8> -> u64, st: Observatory, q: Request)
    requires Nameable(q.Key())
    ensures var later := Step(Judging(digest), st, Recover(q.Key()));
            var r, r' := Result(digest, st, q), Result(digest, later, q);
            && r' == r.(attribution := r'.attribution)
            && (r'.attribution == r.attribution
                || (r.attribution == Attribution.ControlledComparison
                  && r'.attribution == Attribution.StrongCounterfactualEvidence))
  {
    var later := Step(Judging(digest), st, Recover(q.Key()));
    RecoveryStep(Judging(digest), st, q.Key());
    ResultUnder(digest, st, later, q);
  }

  lemma RecoveryStep(judge: Judge, st: Observatory, k: CellKey)
    ensures Step(judge, st, Recover(k)) == st.(recoveries := RecordRecovery(st.recoveries, k))
  {
  }

  lemma ResultUnder(digest: seq<u8> -> u64, a: Observatory, b: Observatory, q: Request)
    requires a.baselines == b.baselines && a.epoch == b.epoch && q.Key() in b.recoveries
    ensures var r, r' := Result(digest, a, q), Result(digest, b, q);
            && r' == r.(attribution := r'.attribution)
            && (r'.attribution == r.attribution
                || (r.attribution == Attribution.ControlledComparison
                  && r'.attribution == Attribution.StrongCounterfactualEvidence))
  {
  }
}

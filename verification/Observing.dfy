/** The observatory itself: an object whose methods update its collections in place, step by step. */
module Observing {
  import opened Words
  import opened Domain
  import opened Ordering
  import opened Statistics
  import opened Folding
  import opened Comparison
  import opened Machine
  import opened History
  import opened Explanation
  import Digest

  // ---------- Loops over collections ----------

  /** The map with the records under the given keys rewritten. */
  ghost function Rewritten<R>(m: map<u64, R>, f: R -> R, ks: seq<u64>): map<u64, R> {
    map i | i in m :: if i in ks then f(m[i]) else m[i]
  }

  lemma RewriteOne<R>(m: map<u64, R>, f: R -> R, done: seq<u64>, k: u64)
    requires k in m && k !in done
    ensures Rewritten(m, f, done)[k] == m[k]
    ensures Rewritten(m, f, done)[k := f(m[k])] == Rewritten(m, f, done + [k])
  {
  }

  lemma NewInOrder(ks: seq<u64>, n: nat)
    requires n < |ks| && forall j :: 0 <= j < n ==> ks[j] < ks[n]
    ensures ks[n] !in ks[..n] && ks[..n + 1] == ks[..n] + [ks[n]]
  {
  }

  lemma NextKey<R>(m: map<u64, R>, n: nat)
    requires n < |m|
    ensures Keys(m)[n] in m && Keys(m)[n] !in Keys(m)[..n] && Keys(m)[..n + 1] == Keys(m)[..n] + [Keys(m)[n]]
  {
    KeysOf(m);
    assert Keys(m)[n] in Keys(m);
    NewInOrder(Keys(m), n);
  }

  /** Rewrite every record in place. */
  method UpdateAll<R>(m: map<u64, R>, f: R -> R) returns (r: map<u64, R>)
    ensures r == map i | i in m :: f(m[i])
  {
    r := m;
    var ks := Keys(m);
    assert r == Rewritten(m, f, ks[..0]);
    for n := 0 to |ks|
      invariant r == Rewritten(m, f, ks[..n])
    {
      NextKey(m, n);
      RewriteOne(m, f, ks[..n], ks[n]);
      r := r[ks[n] := f(r[ks[n]])];
    }
    RewriteAll(m, f);
  }

  lemma RewriteAll<R>(m: map<u64, R>, f: R -> R)
    ensures Rewritten(m, f, Keys(m)[..|m|]) == map i | i in m :: f(m[i])
  {
    KeysOf(m);
    assert Keys(m)[..|m|] == Keys(m);
  }

  /** The selection loop: whether any baseline concerns the workload, and the best usable one. */
  method SelectBaseline(baselines: map<u64, Baseline<real>>, w: Workload)
    returns (any: bool, usable: Option<Baseline<real>>)
    ensures any <==> AnyConcerns(baselines, w)
    ensures usable == Selected(baselines, w)
  {
    any, usable := false, None;
    var bs := InOrder(baselines);
    for n := 0 to |bs|
      invariant any <==> exists j :: 0 <= j < n && Concerns(bs[j], w)
      invariant usable == Scan(bs[..n], w)
    {
      assert bs[..n + 1][..n] == bs[..n];
      var b := bs[n];
      if Concerns(b, w) {
        any := true;
        if Usable(b) && BindingMatches(b, w) {
          if usable.None? || Newer(b, usable.value) {
            usable := Some(b);
          }
        }
      }
    }
    assert bs[..|bs|] == bs;
    ConcernsInOrder(baselines, w);
  }

  lemma ConcernsInOrder(baselines: map<u64, Baseline<real>>, w: Workload)
    ensures AnyConcerns(baselines, w) <==> exists j :: 0 <= j < |baselines| && Concerns(InOrder(baselines)[j], w)
  {
    InOrderOf(baselines);
    var bs := InOrder(baselines);
    if AnyConcerns(baselines, w) {
      var i :| i in baselines && Concerns(baselines[i], w);
      var j :| 0 <= j < |bs| && bs[j] == baselines[i];
      assert Concerns(bs[j], w);
    }
    if exists j :: 0 <= j < |bs| && Concerns(bs[j], w) {
      var j :| 0 <= j < |bs| && Concerns(bs[j], w);
      assert Entries(baselines)[j].0 in baselines;
    }
  }

  /** The accepted values, and whether any of them was taken beside the peer. */
  method CollectSamples(obs: Batch, w: u64, kind: MetricKind, peer: u64) returns (vals: seq<real>, overlap: bool)
    ensures vals == Values(obs, w, kind)
    ensures overlap <==> Overlaps(obs, w, kind, peer)
  {
    vals, overlap := [], false;
    for n := 0 to |obs|
      invariant vals == Values(obs[..n], w, kind)
      invariant overlap <==> exists j :: 0 <= j < n && Counts(obs[j], w, kind) && peer in obs[j].peers
    {
      assert obs[..n + 1][..n] == obs[..n];
      var o := obs[n];
      if Counts(o, w, kind) {
        vals := vals + [o.measurement.value];
        var beside := Contains(o.peers, peer);
        if beside {
          overlap := true;
        }
      }
    }
    assert obs[..|obs|] == obs;
  }

  method Contains(peers: seq<u64>, peer: u64) returns (found: bool)
    ensures found <==> peer in peers
  {
    found := false;
    for n := 0 to |peers|
      invariant found <==> peer in peers[..n]
    {
      if peers[n] == peer {
        found := true;
      }
    }
    assert peers[..|peers|] == peers;
  }

  method RevalidateBaselines(m: map<u64, Baseline<real>>) returns (r: map<u64, Baseline<real>>)
    ensures r == RevalidateAll(m)
  {
    r := UpdateAll(m, Revalidate);
  }

  method RevalidateRegistered(m: map<u64, Source>) returns (r: map<u64, Source>)
    ensures r == Machine.RevalidateSources(m)
  {
    r := UpdateAll(m, RevalidateSource);
  }

  method DisconnectWorkers(m: map<u64, Worker>) returns (r: map<u64, Worker>)
    ensures r == Disconnect(m)
  {
    r := UpdateAll(m, (w: Worker) => w.(connected := false));
  }

  // ---------- Confounders ----------

  lemma SplitNext(kinds: seq<Confounder>, c: Confounder)
    ensures Hards(kinds + [c]) == Hards(kinds) + if c.Hard() then [c] else []
    ensures Softs(kinds + [c]) == Softs(kinds) + if c.Hard() then [] else [c]
  {
    assert (kinds + [c])[..|kinds|] == kinds;
  }

  lemma {:induction false} SplitMembers(kinds: seq<Confounder>, c: Confounder)
    ensures c in Hards(kinds) || c in Softs(kinds) <==> c in kinds
  {
    if kinds != [] {
      SplitMembers(kinds[..|kinds| - 1], c);
    }
  }

  method AddConfounders(hard: seq<Confounder>, soft: seq<Confounder>, cs: seq<Confounder>, ghost kinds: seq<Confounder>)
    returns (hard': seq<Confounder>, soft': seq<Confounder>)
    requires hard == Hards(kinds) && soft == Softs(kinds)
    ensures hard' == Hards(AddKinds(kinds, cs)) && soft' == Softs(AddKinds(kinds, cs))
  {
    hard', soft' := hard, soft;
    for n := 0 to |cs|
      invariant hard' == Hards(AddKinds(kinds, cs[..n])) && soft' == Softs(AddKinds(kinds, cs[..n]))
    {
      assert cs[..n + 1][..n] == cs[..n];
      ghost var seen := AddKinds(kinds, cs[..n]);
      SplitMembers(seen, cs[n]);
      SplitNext(seen, cs[n]);
      if cs[n] !in hard' && cs[n] !in soft' {
        if cs[n].Hard() {
          hard' := hard' + [cs[n]];
        } else {
          soft' := soft' + [cs[n]];
        }
      }
    }
    assert cs[..|cs|] == cs;
  }

  method CollectConfounders(obs: Batch, w: u64) returns (hard: seq<Confounder>, soft: seq<Confounder>)
    ensures hard == Hards(Kinds(obs, w)) && soft == Softs(Kinds(obs, w))
  {
    hard, soft := [], [];
    for n := 0 to |obs|
      invariant hard == Hards(Kinds(obs[..n], w)) && soft == Softs(Kinds(obs[..n], w))
    {
      assert obs[..n + 1][..n] == obs[..n];
      if obs[n].workloadId == w {
        hard, soft := AddConfounders(hard, soft, obs[n].confounders, Kinds(obs[..n], w));
      }
    }
    assert obs[..|obs|] == obs;
  }

  /** Each soft confounder multiplies once more. */
  method ComputeConfidence(reference: real, n: nat, minSamples: nat, hard: nat, soft: nat) returns (c: real)
    requires minSamples > 0
    ensures c == Confidence(reference, n, minSamples, hard, soft)
  {
    c := Times(reference, Discipline(n, minSamples));
    ghost var base := c;
    if hard == 0 {
      TimesUnit(base);
      TimesAssociates(1.0, base, 1.0);
      for i := 0 to soft
        invariant c == Times(base, Power(0.85, i))
      {
        TimesAssociates(base, Power(0.85, i), 0.85);
        c := Times(c, 0.85);
      }
    } else {
      c := Times(c, 0.2);
    }
    c := Clamp(c);
  }

  method EvidenceSource(obs: Batch, w: u64) returns (p: Provenance)
    ensures p == SourceOfEvidence(obs, w)
  {
    var all := true;
    for n := 0 to |obs|
      invariant all <==> AllMeasured(obs[..n], w)
    {
      if obs[n].workloadId == w && obs[n].provenance != Provenance.Measured
        && obs[n].provenance != Provenance.Controlled {
        all := false;
      }
      assert forall j :: 0 <= j < n ==> obs[..n + 1][j] == obs[..n][j];
      assert obs[..n + 1][n] == obs[n];
    }
    assert obs[..|obs|] == obs;
    p := if all then Provenance.Measured else Provenance.Controlled;
  }

  // ---------- Content-derived identities ----------

  lemma Fed(h: u64, xs: seq<u8>, ys: seq<u8>)
    ensures Fold(Digest.Step, Fold(Digest.Step, h, xs), ys) == Fold(Digest.Step, h, xs + ys)
  {
    FoldAppend(Digest.Step, h, xs, ys);
  }

  method ComparisonId(victim: u64, neighbor: u64, domain: InterferenceDomain, baselineId: u64, n: u64) returns (id: u64)
    ensures id == ContentId(Digest.Fnv64, ComparisonContent(victim, neighbor, domain, baselineId, n))
  {
    var db := new Digest.DigestBuilder();
    db.AddU8(0xA1);
    FoldSingle(Digest.Step, Digest.OFFSET, 0xA1);
    ghost var fed: seq<u8> := [0xA1];
    db.AddU64(victim);
    Fed(Digest.OFFSET, fed, LittleEndian(victim, ID_BYTES));
    fed := fed + LittleEndian(victim, ID_BYTES);
    db.AddU64(neighbor);
    Fed(Digest.OFFSET, fed, LittleEndian(neighbor, ID_BYTES));
    fed := fed + LittleEndian(neighbor, ID_BYTES);
    FoldSingle(Digest.Step, db.hash, domain as int);
    db.AddU8(domain as int);
    Fed(Digest.OFFSET, fed, [domain as int]);
    fed := fed + [domain as int];
    db.AddU64(baselineId);
    Fed(Digest.OFFSET, fed, LittleEndian(baselineId, ID_BYTES));
    fed := fed + LittleEndian(baselineId, ID_BYTES);
    db.AddU64(n);
    Fed(Digest.OFFSET, fed, LittleEndian(n, ID_BYTES));
    id := if db.hash == 0 then 1 else db.hash;
  }

  method EpisodeId(victim: u64, domain: InterferenceDomain, baselineId: u64) returns (id: u64)
    ensures id == ContentId(Digest.Fnv64, EpisodeContent(victim, domain, baselineId))
  {
    var db := new Digest.DigestBuilder();
    db.AddU8(0xB2);
    FoldSingle(Digest.Step, Digest.OFFSET, 0xB2);
    ghost var fed: seq<u8> := [0xB2];
    db.AddU64(victim);
    Fed(Digest.OFFSET, fed, LittleEndian(victim, ID_BYTES));
    fed := fed + LittleEndian(victim, ID_BYTES);
    FoldSingle(Digest.Step, db.hash, domain as int);
    db.AddU8(domain as int);
    Fed(Digest.OFFSET, fed, [domain as int]);
    fed := fed + [domain as int];
    db.AddU64(baselineId);
    Fed(Digest.OFFSET, fed, LittleEndian(baselineId, ID_BYTES));
    id := if db.hash == 0 then 1 else db.hash;
  }

  // ---------- The verdict ----------

  method MeasureDegradation(b: Baseline<real>, vals: seq<real>) returns (d: Degradation<real>)
    requires 0 < |vals| < 0x8000_0000_0000_0000
    ensures d == MeasuredDegradation(b, vals)
  {
    var mean := ComputeMean(vals);
    var variance := ComputeVariance(vals, mean);
    var relative := Relative(b.mean, mean);
    var magnitude := Magnitude(b.metric, relative);
    d := Degradation([MetricDelta(b.metric, mean - b.mean, relative, |vals|, variance)], |vals|, magnitude);
  }

  /** Statistics, confounders, classification, confidence, attribution and provenance, in that order. */
  method Assess(epoch: u64, recovered: bool, b: Baseline<real>, a: Workload, neighbor: u64, domain: InterferenceDomain,
                obs: Batch, policy: Policy, vals: seq<real>, overlap: bool)
    returns (v: Pairwise<real>)
    requires policy.minSamples > 0 && vals != [] && vals == Values(obs, a.id, b.metric)
    requires overlap <==> Overlaps(obs, a.id, b.metric, neighbor)
    ensures v == Verdict(Digest.Fnv64, epoch, recovered, b, a, neighbor, domain, obs, policy)
  {
    var degradation := MeasureDegradation(b, vals);
    var hard, soft := CollectConfounders(obs, a.id);
    var outcome := if overlap then Classify(degradation.worst, policy) else Outcome.NoInterferenceDetected;
    var confidence := ComputeConfidence(b.confidence, |vals|, policy.minSamples, |hard|, |soft|);
    var source := EvidenceSource(obs, a.id);
    var id := ComparisonId(a.id, neighbor, domain, b.id, |vals|);
    v := Pairwise(a.id, neighbor, domain, b.id, degradation, confidence, |vals|, b.freshness, outcome,
                  Strength(overlap, |hard|, recovered), 0, id, 1, epoch, [source], |hard| > 0, hard + soft);
  }

  ghost function Live(): Judge {
    Judging(Digest.Fnv64)
  }

  /** The gates in order; past them, the baseline, its samples and whether they overlap. */
  method Admission(baselines: map<u64, Baseline<real>>, a: Workload, neighbor: u64, obs: Batch, policy: Policy)
    returns (g: Gate, vals: seq<real>, overlap: bool)
    ensures g == GateOf(baselines, a, obs, policy)
    ensures g.Admit? ==> vals != [] && vals == Values(obs, a.id, g.baseline.metric)
    ensures g.Admit? ==> (overlap <==> Overlaps(obs, a.id, g.baseline.metric, neighbor))
    ensures g.Admit? ==> policy.Valid()
  {
    vals, overlap := [], false;
    if !policy.Valid() {
      return Refuse(Outcome.Unknown, Freshness.Unknown, 0, 0), vals, overlap;
    }
    var any, usable := SelectBaseline(baselines, a);
    if !any {
      return Refuse(Outcome.InsufficientEvidence, Freshness.Unknown, 0, 0), vals, overlap;
    }
    if usable.None? {
      return Refuse(Outcome.BaselineInvalid, Freshness.Unknown, 0, 0), vals, overlap;
    }
    var b, now := usable.value, Now(obs);
    if !FreshEnough(b, now, policy) {
      return Refuse(Outcome.RevalidationRequired, Aged(b, now, policy), 0, 0), vals, overlap;
    }
    vals, overlap := CollectSamples(obs, a.id, b.metric, neighbor);
    if |vals| < policy.minSamples {
      return Refuse(Outcome.InsufficientEvidence, b.freshness, b.id, |vals|), vals, overlap;
    }
    g := Admit(b);
  }

  method MakeEpisode(v: Pairwise<real>, w: u64, obs: Batch) returns (ep: Episode<real>)
    ensures ep == EpisodeFor(Digest.Fnv64, v, SourceOfEvidence(obs, w), obs)
  {
    var source := EvidenceSource(obs, w);
    var id := EpisodeId(v.victim, v.domain, v.baselineId);
    ep := Episode(id, 1, First(obs), Now(obs), false, v.victim, [v.neighbor], [v.domain], v.baselineId,
                  v.degradation, [Evidence(1, 1, source, v.attribution, v.outcome, SUMMARY)],
                  v.confidence, v.outcome, source, v.freshness, v.epoch);
  }

  /** The three writes of a comparison. */
  ghost function Written(st: Observatory, v: Pairwise<real>, key: CellKey, ep: Episode<real>): Observatory {
    st.(comparisons := st.comparisons[v.comparisonId := v], matrix := st.matrix[key := v],
        episodes := if v.outcome.Indicated() then st.episodes[ep.id := ep] else st.episodes)
  }

  ghost function Returned(v: Pairwise<real>, ep: Episode<real>): Pairwise<real> {
    if v.outcome.Indicated() then v.(episodeId := ep.id) else v
  }

  /** The new state and the result are those of the specification. */
  ghost predicate Prescribed(st: Observatory, q: Request, later: Observatory, r: Pairwise<real>) {
    && later == Machine.Step(Live(), st, Ask(q))
    && r == Result(Digest.Fnv64, st, q)
  }

  lemma NotedSettles(st: Observatory, q: Request)
    requires Admitted(st, q)
    ensures var v, ep := Logged(Digest.Fnv64, st, q), Opened(Digest.Fnv64, st, q);
            Prescribed(st, q, Written(st, v, q.Key(), ep), Returned(v, ep))
  {
    EffectFrame(Live(), st, q);
  }

  lemma RefusalSettles(st: Observatory, q: Request)
    requires !Admitted(st, q)
    ensures Prescribed(st, q, st, Result(Digest.Fnv64, st, q))
  {
    EffectFrame(Live(), st, q);
  }

  /** Everything that `compare` computes before it writes: a refusal, or the record to log. */
  method Decide(ghost st: Observatory, q: Request, baselines: map<u64, Baseline<real>>, epoch: u64,
                recoveries: set<CellKey>)
    returns (noted: bool, r: Pairwise<real>)
    requires st.baselines == baselines && st.epoch == epoch && st.recoveries == recoveries
    ensures noted ==>
              var ep := EpisodeFor(Digest.Fnv64, r, SourceOfEvidence(q.obs, q.affected.id), q.obs);
              Prescribed(st, q, Written(st, r, q.Key(), ep), Returned(r, ep))
    ensures !noted ==> Prescribed(st, q, st, r)
  {
    var g, vals, overlap := Admission(baselines, q.affected, q.associated.id, q.obs, q.policy);
    if g.Refuse? {
      RefusalSettles(st, q);
      return false, Blank(epoch, q.affected.id, q.associated.id, q.domain)
                    .(outcome := g.outcome, freshness := g.freshness, baselineId := g.baselineId,
                      sampleCount := g.sampleCount);
    }
    noted := true;
    r := Assess(epoch, q.Key() in recoveries, g.baseline, q.affected, q.associated.id, q.domain, q.obs, q.policy,
      vals, overlap);
    NotedSettles(st, q);
  }

  method Advise(p: Pairwise<real>, policy: Policy) returns (advice: seq<Advice>)
    ensures advice == AdviceFor(p, policy)
  {
    var reference := if p.baselineId == 0 then [RunBaseline] else [];
    var samples := if p.sampleCount < policy.minSamples then [IncreaseRepetitions] else [];
    var freshness := if p.freshness != Freshness.Current then [WaitForFreshness] else [];
    var controls: seq<Advice> := [];
    for i := 0 to |p.unresolved|
      invariant controls == Controls(p.unresolved[..i])
    {
      assert p.unresolved[..i + 1][..i] == p.unresolved[..i];
      controls := controls + [Control(p.unresolved[i])];
    }
    assert p.unresolved[..|p.unresolved|] == p.unresolved;
    var recovery := if p.attribution == Attribution.ControlledComparison then [ConfirmRecovery] else [];
    advice := reference + samples + freshness + controls + recovery;
  }

  class InterferenceObservatory {
    const id: u64
    const generation: u64
    var epoch: u64
    var sources: map<u64, Source>
    var workers: map<u64, Worker>
    var workloads: map<u64, Workload>
    var baselines: map<u64, Baseline<real>>
    var observations: map<u64, Observation<real>>
    var episodes: map<u64, Episode<real>>
    var comparisons: map<u64, Pairwise<real>>
    var matrix: map<CellKey, Pairwise<real>>
    var recoveries: set<CellKey>

    function Contents(): Observatory
      reads this
    {
      State(id, generation, epoch, sources, workers, workloads, baselines, observations, episodes,
            comparisons, matrix, recoveries)
    }

    constructor (id: u64, generation: u64)
      ensures Contents() == Fresh(id, generation)
    {
      this.id, this.generation, epoch := id, generation, 1;
      sources, workers, workloads, baselines, observations := map[], map[], map[], map[], map[];
      episodes, comparisons, matrix, recoveries := map[], map[], map[], {};
    }

    method SetCoordinatorEpoch(e: u64)
      modifies this
      ensures Contents() == Machine.Step(Live(), old(Contents()), Epoch(e))
    {
      if e == epoch {
        return;
      }
      epoch := e;
      baselines := RevalidateBaselines(baselines);
      sources := RevalidateRegistered(sources);
      workers := DisconnectWorkers(workers);
    }

    method RegisterSource(source: u64, gen: u64, name: Text, caps: Capabilities) returns (status: Status)
      modifies `sources
      ensures status == SourceStatus(old(sources), source, gen)
      ensures Contents() == Machine.Step(Live(), old(Contents()), NewSource(source, gen, name, caps))
    {
      if source == 0 || gen == 0 {
        return InvalidInput;
      }
      if source in sources {
        if sources[source].generation != gen {
          sources := sources[source := Source(gen, name, caps, Freshness.RevalidationRequired)];
          return StaleAuthority;
        }
        sources := sources[source := sources[source].(name := name, caps := caps, freshness := Freshness.Current)];
        return Ok;
      }
      sources := sources[source := Source(gen, name, caps, Freshness.Current)];
      return Ok;
    }

    method RegisterWorker(worker: u64, boot: u64, name: Text, connected: bool) returns (status: Status)
      modifies `workers
      ensures status == WorkerStatus(old(workers), worker, boot)
      ensures Contents() == Machine.Step(Live(), old(Contents()), NewWorker(worker, boot, name, connected))
    {
      if worker == 0 || boot == 0 {
        return InvalidInput;
      }
      if worker in workers {
        if workers[worker].boot != boot {
          workers := workers[worker := Worker(boot, name, connected)];
          return StaleAuthority;
        }
        workers := workers[worker := workers[worker].(name := name, connected := connected)];
        return Ok;
      }
      workers := workers[worker := Worker(boot, name, connected)];
      return Ok;
    }

    method RegisterWorkload(w: Workload) returns (status: Status)
      modifies `workloads
      ensures status == if w.id == 0 || w.generation == 0 then InvalidInput else Ok
      ensures Contents() == Machine.Step(Live(), old(Contents()), NewWorkload(w))
    {
      if w.id == 0 || w.generation == 0 {
        return InvalidInput;
      }
      workloads := workloads[w.id := w];
      return Ok;
    }

    method PublishBaseline(b: Baseline<real>) returns (status: Status)
      modifies `baselines
      ensures status == PublishStatus(old(baselines), b)
      ensures Contents() == Machine.Step(Live(), old(Contents()), Publish(b))
    {
      if b.id == 0 || b.generation == 0 {
        return InvalidInput;
      }
      if !Usable(b) {
        return InsufficientEvidence;
      }
      if b.confidence < 0.0 || b.confidence > 1.0 || b.variance < 0.0 {
        return InvalidInput;
      }
      if !b.metric.Named() {
        return InvalidInput;
      }
      if b.id in baselines {
        return if SameBaseline(baselines[b.id], b) then Ok else InvalidInput;
      }
      baselines := baselines[b.id := Stored(b)];
      return Ok;
    }

    method RecordObservation(o: Observation<real>) returns (status: Status)
      modifies `observations
      ensures status == RecordStatus(old(observations), o)
      ensures Contents() == Machine.Step(Live(), old(Contents()), Record(o))
    {
      if o.id == 0 || o.generation == 0 || o.workloadId == 0 || !ValidMeasurement(o.measurement) {
        return InvalidInput;
      }
      if o.id in observations {
        return if SameObservation(observations[o.id], o) then Ok else InvalidInput;
      }
      observations := observations[o.id := o];
      return Ok;
    }

    method RecordRecovery(victim: u64, neighbor: u64, domain: InterferenceDomain) returns (status: Status)
      modifies `recoveries
      ensures status == if victim == 0 || neighbor == 0 then InvalidInput else Ok
      ensures Contents() == Machine.Step(Live(), old(Contents()), Recover(CellKey(victim, neighbor, domain)))
    {
      if victim == 0 || neighbor == 0 {
        return InvalidInput;
      }
      recoveries := recoveries + {CellKey(victim, neighbor, domain)};
      return Ok;
    }

    /** The three writes; the stored record does not know its episode, the returned one does. */
    method Note(v: Pairwise<real>, key: CellKey, w: u64, obs: Batch) returns (r: Pairwise<real>)
      modifies `comparisons, `matrix, `episodes
      ensures var ep := EpisodeFor(Digest.Fnv64, v, SourceOfEvidence(obs, w), obs);
              Contents() == Written(old(Contents()), v, key, ep) && r == Returned(v, ep)
    {
      r := v;
      comparisons := comparisons[v.comparisonId := v];
      matrix := matrix[key := v];
      if v.outcome.Indicated() {
        var ep := MakeEpisode(v, w, obs);
        episodes := episodes[ep.id := ep];
        r := r.(episodeId := ep.id);
      }
    }

    /** The returned result and the new state are those of the specification, step for step. */
    method Compare(q: Request) returns (r: Pairwise<real>)
      modifies `comparisons, `matrix, `episodes
      ensures Prescribed(old(Contents()), q, Contents(), r)
    {
      var noted, v := Decide(Contents(), q, baselines, epoch, recoveries);
      if !noted {
        return v;
      }
      r := Note(v, q.Key(), q.affected.id, q.obs);
    }

    method ExplainCell(affected: u64, associated: u64, domain: InterferenceDomain, policy: Policy)
      returns (x: Explained)
      ensures x == Explain(matrix, CellKey(affected, associated, domain), policy)
    {
      var k := CellKey(affected, associated, domain);
      x := Explained(k, 0, false, Degradation([], 0, 0.0), 0, 0.0, [], Provenance.Unknown, Freshness.Unknown, 0.0,
                     Attribution.Unknown, Outcome.Unknown, []);
      if k !in matrix {
        return;
      }
      var p := matrix[k];
      var outcome := p.outcome;
      if p.sampleCount < policy.minSamples {
        outcome := Outcome.InsufficientEvidence;
      }
      var advice := Advise(p, policy);
      x := Explained(k, p.baselineId, p.baselineId != 0, p.degradation, p.sampleCount,
                     if p.degradation.deltas == [] then 0.0 else p.degradation.deltas[0].variance,
                     p.unresolved, if p.evidenceSources == [] then Provenance.Unknown else p.evidenceSources[0],
                     p.freshness, p.confidence, p.attribution, outcome, advice);
    }
  }
}

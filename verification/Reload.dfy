/** A reachable state on disk: its doubles become bit patterns, and a fresh observatory loads it back. */
module Reload {
  import opened Words
  import opened Domain
  import opened Bounds
  import opened Records
  import opened Ordering
  import opened StateCodec
  import opened Payload
  import opened Machine
  import opened Runs
  import opened Ledger
  import Digest

  // ---------- Doubles as bit patterns, record by record ----------

  function BaselineBits(b: Baseline<real>, f: real -> Bits): Baseline<Bits> {
    Baseline(
      b.id, b.generation, b.kind, b.workloadId, b.workloadGeneration, b.deviceId, b.deviceGeneration, b.workerId,
      b.workerBoot, b.config, b.problemSize, b.runtimeGeneration, b.kernelGeneration, b.policyGeneration,
      b.topologyGeneration, b.sourceGeneration, b.evidenceGeneration, b.timestampMs, b.intervalMs, b.provenance,
      b.freshness, b.sampleCount, f(b.variance), f(b.confidence), f(b.mean), b.metric, b.valid)
  }

  function MeasurementBits(m: Measurement<real>, f: real -> Bits): Measurement<Bits> {
    Measurement(m.kind, f(m.value), m.units, m.sampleCount, f(m.variance), f(m.p95), m.hasP95)
  }

  function ObservationBits(o: Observation<real>, f: real -> Bits): Observation<Bits> {
    Observation(
      o.id, o.generation, o.sourceId, o.sourceGeneration, o.workerId, o.workerBoot, o.workloadId,
      o.workloadGeneration, o.deviceId, o.deviceGeneration, o.timestampMs, MeasurementBits(o.measurement, f),
      o.provenance, o.freshness, o.health, o.caps, o.peers, o.confounders)
  }

  function DegradationBits(d: Degradation<real>, f: real -> Bits): Degradation<Bits> {
    var ds := d.deltas;
    Degradation(
      seq(|ds|, i requires 0 <= i < |ds| =>
        MetricDelta(ds[i].kind, f(ds[i].absolute), f(ds[i].relative), ds[i].sampleCount, f(ds[i].variance))),
      d.sampleCount, f(d.worst))
  }

  function EpisodeBits(e: Episode<real>, f: real -> Bits): Episode<Bits> {
    Episode(
      e.id, e.generation, e.startMs, e.endMs, e.open, e.affected, e.coRunning, e.domains, e.baselineId,
      DegradationBits(e.degradation, f), e.evidence, f(e.confidence), e.classification, e.provenance, e.freshness,
        e.epoch)
  }

  function PairwiseBits(p: Pairwise<real>, f: real -> Bits): Pairwise<Bits> {
    Pairwise(
      p.victim, p.neighbor, p.domain, p.baselineId, DegradationBits(p.degradation, f), f(p.confidence), p.sampleCount,
      p.freshness, p.outcome, p.attribution, p.episodeId, p.comparisonId, p.comparisonGeneration, p.epoch,
      p.evidenceSources, p.confounded, p.unresolved)
  }

  /** The state as the codec sees it, under any reading of doubles as bit patterns. */
  function AsBits(st: Observatory, f: real -> Bits): State<Bits> {
    State(
      st.id, st.generation, st.epoch, st.sources, st.workers, st.workloads,
      map i | i in st.baselines :: BaselineBits(st.baselines[i], f),
      map i | i in st.observations :: ObservationBits(st.observations[i], f),
      map i | i in st.episodes :: EpisodeBits(st.episodes[i], f),
      map i | i in st.comparisons :: PairwiseBits(st.comparisons[i], f),
      map k | k in st.matrix :: PairwiseBits(st.matrix[k], f),
      st.recoveries)
  }

  lemma KeyedBits(st: Observatory, f: real -> Bits)
    requires Keyed(st)
    ensures Keyed(AsBits(st, f))
  {
  }

  lemma AgreedBits(st: Observatory, f: real -> Bits)
    requires Agreed(st.matrix, st.comparisons) && Covered(st.matrix, st.comparisons)
    ensures Agreed(AsBits(st, f).matrix, AsBits(st, f).comparisons)
              && Covered(AsBits(st, f).matrix, AsBits(st, f).comparisons)
  {
  }

  lemma CoveredBits(st: Observatory, f: real -> Bits)
    requires Covered(st.matrix, st.comparisons) && Ledger.OwnIds(st.comparisons)
    ensures Covered(AsBits(st, f).matrix, AsBits(st, f).comparisons) && Ledger.OwnIds(AsBits(st, f).comparisons)
  {
  }

  // ---------- Limits ----------

  lemma Wider<R(!new)>(m: map<u64, R>, within: (R, Limits) -> bool)
    requires forall r :: within(r, READER) ==> within(r, WRITER)
    ensures AllWithin(m, READER, within) ==> AllWithin(m, WRITER, within)
  {
  }

  lemma RegistriesWider(st: State<Bits>)
    ensures AllWithin(st.sources, READER, SourceWithin) ==> AllWithin(st.sources, WRITER, SourceWithin)
    ensures AllWithin(st.workers, READER, WorkerWithin) ==> AllWithin(st.workers, WRITER, WorkerWithin)
    ensures AllWithin(st.workloads, READER, WorkloadWithin) ==> AllWithin(st.workloads, WRITER, WorkloadWithin)
  {
    Wider(st.sources, SourceWithin);
    Wider(st.workers, WorkerWithin);
    Wider(st.workloads, WorkloadWithin);
  }

  lemma EvidenceWider(st: State<Bits>)
    ensures AllWithin(st.baselines, READER, BaselineWithin) ==> AllWithin(st.baselines, WRITER, BaselineWithin)
    ensures AllWithin(st.observations, READER, ObservationWithin) ==>
              AllWithin(st.observations, WRITER, ObservationWithin)
  {
    Wider(st.baselines, BaselineWithin);
    Wider(st.observations, ObservationWithin);
  }

  lemma VerdictsWider(st: State<Bits>)
    ensures AllWithin(st.episodes, READER, EpisodeWithin) ==> AllWithin(st.episodes, WRITER, EpisodeWithin)
    ensures AllWithin(st.comparisons, READER, PairwiseWithin) ==> AllWithin(st.comparisons, WRITER, PairwiseWithin)
  {
    Wider(st.episodes, EpisodeWithin);
    Wider(st.comparisons, PairwiseWithin);
  }

  lemma ReaderWithinWriter(st: State<Bits>)
    requires StateWithin(st, READER)
    ensures StateWithin(st, WRITER)
  {
    RegistriesWider(st);
    EvidenceWider(st);
    VerdictsWider(st);
  }

  // ---------- Reloading ----------

  /** A saved state loads into any observatory, which keeps the cells it has where the log has none. */
  lemma Reloaded(st: State<Bits>, into: State<Bits>)
    requires Keyed(st) && StateWithin(st, READER)
    ensures Load(Serialize(st), into) == Loaded(st.(matrix := into.matrix + Rebuilt(st.comparisons)), true)
  {
    ReaderWithinWriter(st);
    Restore(st, into);
    SetAllOver(into.matrix, InOrder(st.comparisons));
  }

  /**
    Loading into a used observatory gives the saved state exactly when, of the saved cells, those of
    pairs with comparisons hold the one of greatest id and the others are the ones it had.
   */
  lemma LoadsIntoExactly(st: State<Bits>, into: State<Bits>)
    requires Keyed(st) && StateWithin(st, READER) && Ledger.OwnIds(st.comparisons)
    ensures Load(Serialize(st), into).ok
    ensures Load(Serialize(st), into).state == st <==> Recovers(into.matrix, st.matrix, st.comparisons)
  {
    Reloaded(st, into);
    OverlaidExactly(into.matrix, st.matrix, st.comparisons);
  }

  /**
    With an agreeing log: exactly when it had no cell that the saved state has not, and each saved
    cell is the latest.
   */
  lemma LoadsIntoUsed(st: State<Bits>, into: State<Bits>)
    requires Keyed(st) && StateWithin(st, READER) && Ledger.OwnIds(st.comparisons)
    requires Agreed(st.matrix, st.comparisons) && Covered(st.matrix, st.comparisons)
    ensures Load(Serialize(st), into).state == st
       <==> into.matrix.Keys <= st.matrix.Keys && HoldsLatest(st.matrix, st.comparisons)
  {
    LoadsIntoExactly(st, into);
    RecoversAgreed(into.matrix, st.matrix, st.comparisons);
  }

  /**
    The state comes back from disk: identity, epoch and the eight collections exactly, with the same
    bytes and fingerprint. The matrix is rebuilt from the log (see RebuiltCell): no cell is new, and
    it is the one that was saved exactly when each cell holds its pair's comparison of greatest id.
   */
  ghost predicate Reloads(st: State<Bits>, id: u64, generation: u64) {
    ComesBack(st, Load(Serialize(st), Fresh(id, generation)))
  }

  ghost predicate ComesBack(st: State<Bits>, back: Loaded) {
    && back.ok && back.state == st.(matrix := Rebuilt(st.comparisons))
    && SameBytes(st, back.state)
    && back.state.matrix.Keys <= st.matrix.Keys
    && (back.state == st <==> HoldsLatest(st.matrix, st.comparisons))
  }

  ghost predicate SameBytes(st: State<Bits>, later: State<Bits>) {
    && Savable(st) && Savable(later) && Serialize(later) == Serialize(st)
    && StateFingerprint(later) == StateFingerprint(st)
  }

  lemma BytesStay(st: State<Bits>, matrix: map<CellKey, Pairwise<Bits>>)
    requires Keyed(st) && StateWithin(st, READER)
    ensures SameBytes(st, st.(matrix := matrix))
  {
    ReaderWithinWriter(st);
    MatrixNotSaved(st, matrix);
  }

  lemma CellsComeBack(st: State<Bits>, back: Loaded)
    requires back == Loaded(st.(matrix := Rebuilt(st.comparisons)), true) && SameBytes(st, back.state)
    requires Covered(st.matrix, st.comparisons) && Ledger.OwnIds(st.comparisons)
    ensures ComesBack(st, back)
  {
    RebuiltWithin(st.matrix, st.comparisons);
    RebuiltExactly(st.matrix, st.comparisons);
  }

  lemma ReloadRestores(st: State<Bits>, id: u64, generation: u64)
    requires Keyed(st) && StateWithin(st, READER) && Covered(st.matrix, st.comparisons) && Ledger.OwnIds(st.comparisons)
    ensures Reloads(st, id, generation)
  {
    var cells := Rebuilt(st.comparisons);
    assert map[] + cells == cells;
    Reloaded(st, Fresh(id, generation));
    BytesStay(st, cells);
    CellsComeBack(st, Load(Serialize(st), Fresh(id, generation)));
  }

  lemma ReachedInOrder(digest: seq<u8> -> u64, id: u64, generation: u64, ops: seq<Op>)
    ensures var st := Run(Judging(digest), Fresh(id, generation), ops);
            Keyed(st) && Covered(st.matrix, st.comparisons) && Ledger.OwnIds(st.comparisons)
  {
    var judge, origin := Judging(digest), Fresh<real>(id, generation);
    CoveredRun(judge, origin, ops);
    InvariantFresh(digest, id, generation);
    InvariantRun(digest, origin, ops);
  }

  /**
    Every state that a run reaches reloads, whenever it is within the reader's limits, whatever the
    encoding of its doubles.
   */
  lemma RunReloads(digest: seq<u8> -> u64, id: u64, generation: u64, ops: seq<Op>, f: real -> Bits)
    requires StateWithin(AsBits(Run(Judging(digest), Fresh(id, generation), ops), f), READER)
    ensures Reloads(AsBits(Run(Judging(digest), Fresh(id, generation), ops), f), id, generation)
  {
    var st := Run(Judging(digest), Fresh(id, generation), ops);
    ReachedInOrder(digest, id, generation, ops);
    KeyedBits(st, f);
    CoveredBits(st, f);
    ReloadRestores(AsBits(st, f), id, generation);
  }

  /** The same into an observatory that has been in use: exactly when its matrix supplies what the log does not. */
  lemma RunReloadsInto(digest: seq<u8> -> u64, id: u64, generation: u64, ops: seq<Op>, f: real -> Bits,
                       into: State<Bits>)
    requires StateWithin(AsBits(Run(Judging(digest), Fresh(id, generation), ops), f), READER)
    ensures var st := AsBits(Run(Judging(digest), Fresh(id, generation), ops), f);
            && Load(Serialize(st), into) == Loaded(st.(matrix := into.matrix + Rebuilt(st.comparisons)), true)
            && (Load(Serialize(st), into).state == st <==> Recovers(into.matrix, st.matrix, st.comparisons))
  {
    var st := Run(Judging(digest), Fresh(id, generation), ops);
    ReachedInOrder(digest, id, generation, ops);
    KeyedBits(st, f);
    CoveredBits(st, f);
    Reloaded(AsBits(st, f), into);
    LoadsIntoExactly(AsBits(st, f), into);
  }

  /** In a run whose ids do not clash the same cells come back; with one comparison per pair, the same matrix. */
  lemma RunReloadsCells(digest: seq<u8> -> u64, id: u64, generation: u64, ops: seq<Op>, f: real -> Bits)
    requires NoClash(Judging(digest), Fresh(id, generation), ops)
    ensures var st := AsBits(Run(Judging(digest), Fresh(id, generation), ops), f);
            && Rebuilt(st.comparisons).Keys == st.matrix.Keys
            && (SingleComparisons(st.comparisons) ==> Rebuilt(st.comparisons) == st.matrix)
  {
    var st := Run(Judging(digest), Fresh(id, generation), ops);
    AgreementRun(Judging(digest), Fresh(id, generation), ops);
    AgreedBits(st, f);
    AgreedCells(AsBits(st, f).matrix, AsBits(st, f).comparisons);
  }

  // ---------- Fingerprints ----------

  function StateFingerprint(st: State<Bits>): string {
    Digest.Fingerprint(Serialize(st))
  }

  /** A saved and reloaded state has the fingerprint it had. */
  lemma FingerprintSurvives(st: State<Bits>, into: State<Bits>)
    requires Keyed(st) && StateWithin(st, READER)
    ensures Savable(Load(Serialize(st), into).state)
    ensures StateFingerprint(Load(Serialize(st), into).state) == StateFingerprint(st)
  {
    ReaderWithinWriter(st);
    SaveLoadSave(st, into);
  }

  /** States whose payloads have one length and differ in exactly one byte have different fingerprints. */
  lemma FingerprintsDiffer(a: State<Bits>, b: State<Bits>, i: nat)
    ensures DifferAt(Serialize(a), Serialize(b), i) ==> StateFingerprint(a) != StateFingerprint(b)
  {
    var x, y := Serialize(a), Serialize(b);
    if DifferAt(x, y, i) {
      assert y == x[i := y[i]];
      Digest.FingerprintDetects(x, i, y[i]);
    }
  }

  /** The byte strings have one length and differ in position i only. */
  predicate DifferAt(x: seq<u8>, y: seq<u8>, i: nat) {
    i < |x| == |y| && x[i] != y[i] && forall j :: 0 <= j < |x| && j != i ==> x[j] == y[j]
  }
}

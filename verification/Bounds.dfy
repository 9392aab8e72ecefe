/** The size limits of the payload, stated on the records themselves. */
module Bounds {
  import opened Words
  import opened Domain
  import opened Codec
  import opened Records

  /** A limit on string lengths and one on vector lengths. */
  datatype Limits = Limits(text: nat, count: nat)

  /** What the reader accepts. */
  const READER := Limits(MAX_STRING, COUNT_BOUND)

  /** What the writer's length and count prefixes can express. */
  const WRITER := Limits(0xFFFF_FFFF_FFFF_FFFF, 0xFFFF_FFFF)

  predicate SourceWithin(s: Source, l: Limits) {
    |s.name| <= l.text
  }

  predicate WorkerWithin(w: Worker, l: Limits) {
    |w.name| <= l.text
  }

  predicate WorkloadWithin(w: Workload, l: Limits) {
    && |w.name| <= l.text && |w.config| <= l.text && |w.problemSize| <= l.text
    && |w.policyGeneration| <= l.text && |w.runtimeGeneration| <= l.text && |w.kernelGeneration| <= l.text
    && |w.priorityClass| <= l.text
  }

  predicate BaselineWithin(b: Baseline<Bits>, l: Limits) {
    && |b.config| <= l.text && |b.problemSize| <= l.text && |b.runtimeGeneration| <= l.text
    && |b.kernelGeneration| <= l.text && |b.policyGeneration| <= l.text
  }

  predicate ObservationWithin(o: Observation<Bits>, l: Limits) {
    |o.measurement.units| <= l.text && |o.peers| <= l.count && |o.confounders| <= l.count
  }

  predicate EpisodeWithin(e: Episode<Bits>, l: Limits) {
    && |e.coRunning| <= l.count && |e.domains| <= l.count && |e.degradation.deltas| <= l.count
    && |e.evidence| <= l.count && forall i :: 0 <= i < |e.evidence| ==> |e.evidence[i].summary| <= l.text
  }

  predicate PairwiseWithin(p: Pairwise<Bits>, l: Limits) {
    |p.degradation.deltas| <= l.count && |p.evidenceSources| <= l.count && |p.unresolved| <= l.count
  }

  /** A record's parts meet the limits that its fields meet. */
  ghost predicate Matches(ps: seq<Part>, read: bool, write: bool) {
    && (PartsBounded(ps) <==> read)
    && (PartsWritable(ps) <==> write)
  }

  ghost predicate PartsBounded(ps: seq<Part>) {
    forall i :: 0 <= i < |ps| ==> ps[i].Bounded()
  }

  ghost predicate PartsWritable(ps: seq<Part>) {
    forall i :: 0 <= i < |ps| ==> ps[i].Writable()
  }

  lemma SourceMatches(id: u64, s: Source)
    ensures Matches(SourceParts(id, s), SourceWithin(s, READER), SourceWithin(s, WRITER))
  {
    Widths();
    var ps := SourceParts(id, s);
    assert ps[1] == Strings([s.name]) && [s.name][0] == s.name;
  }

  lemma WorkerMatches(id: u64, w: Worker)
    ensures Matches(WorkerParts(id, w), WorkerWithin(w, READER), WorkerWithin(w, WRITER))
  {
    Widths();
    var ps := WorkerParts(id, w);
    assert ps[1] == Strings([w.name]) && [w.name][0] == w.name;
  }

  lemma WorkloadMatches(id: u64, w: Workload)
    ensures Matches(WorkloadParts(id, w), WorkloadWithin(w, READER), WorkloadWithin(w, WRITER))
  {
    Widths();
    var ps := WorkloadParts(id, w);
    var a, b, c := [w.name, w.config, w.problemSize],
                   [w.policyGeneration, w.runtimeGeneration, w.kernelGeneration], [w.priorityClass];
    assert ps[1] == Strings(a) && a[0] == w.name && a[1] == w.config && a[2] == w.problemSize;
    assert ps[3] == Strings(b) && b[0] == w.policyGeneration && b[1] == w.runtimeGeneration
        && b[2] == w.kernelGeneration;
    assert ps[5] == Strings(c) && c[0] == w.priorityClass;
  }

  lemma BaselineMatches(id: u64, b: Baseline<Bits>)
    ensures Matches(BaselineParts(id, b), BaselineWithin(b, READER), BaselineWithin(b, WRITER))
  {
    Widths();
    var ps, ss := BaselineParts(id, b), BaselineStrings(b);
    assert ps[3] == Strings(ss) && ss[0] == b.config && ss[1] == b.problemSize
        && ss[2] == b.runtimeGeneration && ss[3] == b.kernelGeneration && ss[4] == b.policyGeneration;
  }

  lemma ObservationMatches(id: u64, o: Observation<Bits>)
    ensures Matches(ObservationParts(id, o), ObservationWithin(o, READER), ObservationWithin(o, WRITER))
  {
    Widths();
    var ps := ObservationParts(id, o);
    assert ps[3] == Strings([o.measurement.units]) && [o.measurement.units][0] == o.measurement.units;
    assert ps[8] == NumberVec(o.peers) && ps[9] == OctetVec(ConfounderCodes(o.confounders));
  }

  lemma EpisodeVectors(id: u64, e: Episode<Bits>)
    ensures var ps := EpisodeParts(id, e);
            && |ps| == 11
            && ps[3] == NumberVec(e.coRunning) && ps[4] == OctetVec(DomainCodes(e.domains))
            && ps[6] == RecordVec(DeltaFormat, Mapped(e.degradation.deltas, DeltaValue))
            && ps[10] == RecordVec(EvidenceFormat, Mapped(e.evidence, EvidenceValue))
            && !ps[0].Strings? && !ps[1].Strings? && !ps[2].Strings? && !ps[5].Strings? && !ps[7].Strings?
            && !ps[8].Strings? && !ps[9].Strings?
  {
  }

  lemma EpisodeReadable(id: u64, e: Episode<Bits>)
    ensures PartsBounded(EpisodeParts(id, e)) <==> EpisodeWithin(e, READER)
  {
    DeltasFit(e.degradation.deltas);
    EvidencesFit(e.evidence);
    EpisodeVectors(id, e);
  }

  lemma EpisodeStorable(id: u64, e: Episode<Bits>)
    ensures PartsWritable(EpisodeParts(id, e)) <==> EpisodeWithin(e, WRITER)
  {
    Widths();
    DeltasFit(e.degradation.deltas);
    EvidencesFit(e.evidence);
    EpisodeVectors(id, e);
  }

  lemma EpisodeMatches(id: u64, e: Episode<Bits>)
    ensures Matches(EpisodeParts(id, e), EpisodeWithin(e, READER), EpisodeWithin(e, WRITER))
  {
    EpisodeReadable(id, e);
    EpisodeStorable(id, e);
  }

  lemma PairwiseMatches(cid: u64, p: Pairwise<Bits>)
    ensures Matches(PairwiseParts(cid, p), PairwiseWithin(p, READER), PairwiseWithin(p, WRITER))
  {
    Widths();
    DeltasFit(p.degradation.deltas);
    var ps := PairwiseParts(cid, p);
    assert ps[3] == RecordVec(DeltaFormat, Mapped(p.degradation.deltas, DeltaValue));
    assert ps[7] == OctetVec(ProvenanceCodes(p.evidenceSources));
    assert ps[9] == OctetVec(ConfounderCodes(p.unresolved));
  }
}

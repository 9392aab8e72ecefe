/** The state payload: printing, parsing, and what survives the trip. */
module StateCodec {
  import opened Words
  import opened Domain
  import opened Codec
  import opened Records
  import opened Bounds
  import opened Ordering

  // ---------- Sections: a map as a counted vector in key order ----------

  function RecordValue(ps: seq<Part>): Value {
    Items(Contents(ps))
  }

  function Section<R>(es: seq<(u64, R)>, parts: (u64, R) -> seq<Part>): (vs: seq<Value>)
    ensures |vs| == |es|
    ensures forall i :: 0 <= i < |es| ==> vs[i] == RecordValue(parts(es[i].0, es[i].1))
  {
    seq(|es|, i requires 0 <= i < |es| => RecordValue(parts(es[i].0, es[i].1)))
  }

  /** Records are keyed by their first number and emplaced in the order read. */
  function Parsed<R>(vs: seq<Value>, of: Value -> R): (es: seq<(u64, R)>)
    ensures |es| == |vs| && forall i :: 0 <= i < |vs| ==> es[i] == (N(vs[i], 0, 0), of(vs[i]))
  {
    seq(|vs|, i requires 0 <= i < |vs| => (N(vs[i], 0, 0), of(vs[i])))
  }

  function SectionMap<R>(vs: seq<Value>, of: Value -> R): map<u64, R> {
    EmplaceAll(Parsed(vs, of))
  }

  lemma SectionInverse<R>(m: map<u64, R>, parts: (u64, R) -> seq<Part>, of: Value -> R)
    requires forall k :: k in m ==>
               N(RecordValue(parts(k, m[k])), 0, 0) == k && of(RecordValue(parts(k, m[k]))) == m[k]
    ensures SectionMap(Section(Entries(m), parts), of) == m
  {
    EntriesOf(m);
    EmplaceEntries(m);
    assert Parsed(Section(Entries(m), parts), of) == Entries(m);
  }

  lemma RecordFits(ps: seq<Part>, format: Format, read: bool, write: bool)
    requires format.Rec? && Layouts(ps) == format.fields && Matches(ps, read, write)
    ensures Fits(format, RecordValue(ps)) <==> read
    ensures Shaped(format, RecordValue(ps)) <==> write
  {
    PartsFit(ps);
    assert format == Rec(Layouts(ps));
  }

  lemma EntriesAll<R>(m: map<u64, R>, p: R -> bool)
    ensures (forall i :: 0 <= i < |m| ==> p(Entries(m)[i].1)) <==> forall k :: k in m ==> p(m[k])
  {
    var es := Entries(m);
    EntriesOf(m);
    if forall i :: 0 <= i < |m| ==> p(es[i].1) {
      forall k | k in m ensures p(m[k]) {
        assert (k, m[k]) in es;
      }
    }
  }

  lemma SectionFits<R>(m: map<u64, R>, parts: (u64, R) -> seq<Part>, format: Format,
                       read: R -> bool, write: R -> bool)
    requires format.Rec?
    requires forall k :: k in m ==> Layouts(parts(k, m[k])) == format.fields
    requires forall k :: k in m ==> Matches(parts(k, m[k]), read(m[k]), write(m[k]))
    ensures ItemsFit(format, Section(Entries(m), parts)) <==> forall k :: k in m ==> read(m[k])
    ensures ItemsShaped(format, Section(Entries(m), parts)) <==> forall k :: k in m ==> write(m[k])
  {
    var es, vs := Entries(m), Section(Entries(m), parts);
    forall i | 0 <= i < |m|
      ensures Fits(format, vs[i]) <==> read(es[i].1)
      ensures Shaped(format, vs[i]) <==> write(es[i].1)
    {
      EntryFits(m, parts, format, read, write, i);
    }
    ItemsFitAll(format, vs);
    ItemsShapedAll(format, vs);
    EntriesAll(m, read);
    EntriesAll(m, write);
  }

  lemma EntryFits<R>(m: map<u64, R>, parts: (u64, R) -> seq<Part>, format: Format,
                     read: R -> bool, write: R -> bool, i: nat)
    requires format.Rec? && i < |m|
    requires forall k :: k in m ==> Layouts(parts(k, m[k])) == format.fields
    requires forall k :: k in m ==> Matches(parts(k, m[k]), read(m[k]), write(m[k]))
    ensures var e, v := Entries(m)[i], Section(Entries(m), parts)[i];
            (Fits(format, v) <==> read(e.1)) && (Shaped(format, v) <==> write(e.1))
  {
    EntriesOf(m);
    var e := Entries(m)[i];
    RecordFits(parts(e.0, e.1), format, read(e.1), write(e.1));
  }

  // ---------- The seven keyed sections ----------

  lemma SourceEntry(k: u64, r: Source)
    ensures N(RecordValue(SourceParts(k, r)), 0, 0) == k && SourceOf(RecordValue(SourceParts(k, r))) == r
    ensures Layouts(SourceParts(k, r)) == SourceFormat.fields
              && Matches(SourceParts(k, r), SourceWithin(r, READER), SourceWithin(r, WRITER))
  {
    ReadsBack(SourceParts(k, r));
    SourceInverse(k, r, RecordValue(SourceParts(k, r)));
    SourceMatches(k, r);
  }

  lemma SourceSection(m: map<u64, Source>)
    ensures SectionMap(Section(Entries(m), SourceParts), SourceOf) == m
    ensures ItemsFit(SourceFormat, Section(Entries(m), SourceParts))
       <==> forall k :: k in m ==> SourceWithin(m[k], READER)
    ensures ItemsShaped(SourceFormat, Section(Entries(m), SourceParts))
       <==> forall k :: k in m ==> SourceWithin(m[k], WRITER)
  {
    forall k | k in m
      ensures N(RecordValue(SourceParts(k, m[k])), 0, 0) == k && SourceOf(RecordValue(SourceParts(k, m[k]))) == m[k]
      ensures Layouts(SourceParts(k, m[k])) == SourceFormat.fields
                && Matches(SourceParts(k, m[k]), SourceWithin(m[k], READER), SourceWithin(m[k], WRITER))
    {
      SourceEntry(k, m[k]);
    }
    SectionInverse(m, SourceParts, SourceOf);
    SectionFits(m, SourceParts, SourceFormat, r => SourceWithin(r, READER), r => SourceWithin(r, WRITER));
  }

  lemma WorkerEntry(k: u64, r: Worker)
    ensures N(RecordValue(WorkerParts(k, r)), 0, 0) == k && WorkerOf(RecordValue(WorkerParts(k, r))) == r
    ensures Layouts(WorkerParts(k, r)) == WorkerFormat.fields
              && Matches(WorkerParts(k, r), WorkerWithin(r, READER), WorkerWithin(r, WRITER))
  {
    ReadsBack(WorkerParts(k, r));
    WorkerInverse(k, r, RecordValue(WorkerParts(k, r)));
    WorkerMatches(k, r);
  }

  lemma WorkerSection(m: map<u64, Worker>)
    ensures SectionMap(Section(Entries(m), WorkerParts), WorkerOf) == m
    ensures ItemsFit(WorkerFormat, Section(Entries(m), WorkerParts))
       <==> forall k :: k in m ==> WorkerWithin(m[k], READER)
    ensures ItemsShaped(WorkerFormat, Section(Entries(m), WorkerParts))
       <==> forall k :: k in m ==> WorkerWithin(m[k], WRITER)
  {
    forall k | k in m
      ensures N(RecordValue(WorkerParts(k, m[k])), 0, 0) == k && WorkerOf(RecordValue(WorkerParts(k, m[k]))) == m[k]
      ensures Layouts(WorkerParts(k, m[k])) == WorkerFormat.fields
                && Matches(WorkerParts(k, m[k]), WorkerWithin(m[k], READER), WorkerWithin(m[k], WRITER))
    {
      WorkerEntry(k, m[k]);
    }
    SectionInverse(m, WorkerParts, WorkerOf);
    SectionFits(m, WorkerParts, WorkerFormat, r => WorkerWithin(r, READER), r => WorkerWithin(r, WRITER));
  }

  lemma WorkloadEntry(k: u64, r: Workload)
    requires r.id == k
    ensures N(RecordValue(WorkloadParts(k, r)), 0, 0) == k && WorkloadOf(RecordValue(WorkloadParts(k, r))) == r
    ensures Layouts(WorkloadParts(k, r)) == WorkloadFormat.fields
              && Matches(WorkloadParts(k, r), WorkloadWithin(r, READER), WorkloadWithin(r, WRITER))
  {
    ReadsBack(WorkloadParts(k, r));
    WorkloadInverse(k, r, RecordValue(WorkloadParts(k, r)));
    WorkloadMatches(k, r);
  }

  lemma WorkloadSection(m: map<u64, Workload>)
    requires forall k :: k in m ==> m[k].id == k
    ensures SectionMap(Section(Entries(m), WorkloadParts), WorkloadOf) == m
    ensures ItemsFit(WorkloadFormat, Section(Entries(m), WorkloadParts))
       <==> forall k :: k in m ==> WorkloadWithin(m[k], READER)
    ensures ItemsShaped(WorkloadFormat, Section(Entries(m), WorkloadParts))
       <==> forall k :: k in m ==> WorkloadWithin(m[k], WRITER)
  {
    forall k | k in m
      ensures N(RecordValue(WorkloadParts(k, m[k])), 0, 0) == k
                && WorkloadOf(RecordValue(WorkloadParts(k, m[k]))) == m[k]
      ensures Layouts(WorkloadParts(k, m[k])) == WorkloadFormat.fields
                && Matches(WorkloadParts(k, m[k]), WorkloadWithin(m[k], READER), WorkloadWithin(m[k], WRITER))
    {
      WorkloadEntry(k, m[k]);
    }
    SectionInverse(m, WorkloadParts, WorkloadOf);
    SectionFits(m, WorkloadParts, WorkloadFormat, r => WorkloadWithin(r, READER), r => WorkloadWithin(r, WRITER));
  }

  lemma BaselineEntry(k: u64, r: Baseline<Bits>)
    requires r.id == k
    ensures N(RecordValue(BaselineParts(k, r)), 0, 0) == k && BaselineOf(RecordValue(BaselineParts(k, r))) == r
    ensures Layouts(BaselineParts(k, r)) == BaselineFormat.fields
              && Matches(BaselineParts(k, r), BaselineWithin(r, READER), BaselineWithin(r, WRITER))
  {
    ReadsBack(BaselineParts(k, r));
    BaselineInverse(k, r, RecordValue(BaselineParts(k, r)));
    BaselineLayout(k, r);
    BaselineMatches(k, r);
  }

  lemma BaselineSection(m: map<u64, Baseline<Bits>>)
    requires forall k :: k in m ==> m[k].id == k
    ensures SectionMap(Section(Entries(m), BaselineParts), BaselineOf) == m
    ensures ItemsFit(BaselineFormat, Section(Entries(m), BaselineParts))
       <==> forall k :: k in m ==> BaselineWithin(m[k], READER)
    ensures ItemsShaped(BaselineFormat, Section(Entries(m), BaselineParts))
       <==> forall k :: k in m ==> BaselineWithin(m[k], WRITER)
  {
    forall k | k in m
      ensures N(RecordValue(BaselineParts(k, m[k])), 0, 0) == k
                && BaselineOf(RecordValue(BaselineParts(k, m[k]))) == m[k]
      ensures Layouts(BaselineParts(k, m[k])) == BaselineFormat.fields
                && Matches(BaselineParts(k, m[k]), BaselineWithin(m[k], READER), BaselineWithin(m[k], WRITER))
    {
      BaselineEntry(k, m[k]);
    }
    SectionInverse(m, BaselineParts, BaselineOf);
    SectionFits(m, BaselineParts, BaselineFormat, r => BaselineWithin(r, READER), r => BaselineWithin(r, WRITER));
  }

  lemma ObservationEntry(k: u64, r: Observation<Bits>)
    requires r.id == k
    ensures N(RecordValue(ObservationParts(k, r)), 0, 0) == k && ObservationOf(RecordValue(ObservationParts(k, r))) == r
    ensures Layouts(ObservationParts(k, r)) == ObservationFormat.fields
              && Matches(ObservationParts(k, r), ObservationWithin(r, READER), ObservationWithin(r, WRITER))
  {
    ReadsBack(ObservationParts(k, r));
    ObservationInverse(k, r, RecordValue(ObservationParts(k, r)));
    ObservationLayout(k, r);
    ObservationMatches(k, r);
  }

  lemma ObservationSection(m: map<u64, Observation<Bits>>)
    requires forall k :: k in m ==> m[k].id == k
    ensures SectionMap(Section(Entries(m), ObservationParts), ObservationOf) == m
    ensures ItemsFit(ObservationFormat, Section(Entries(m), ObservationParts))
       <==> forall k :: k in m ==> ObservationWithin(m[k], READER)
    ensures ItemsShaped(ObservationFormat, Section(Entries(m), ObservationParts))
       <==> forall k :: k in m ==> ObservationWithin(m[k], WRITER)
  {
    forall k | k in m
      ensures N(RecordValue(ObservationParts(k, m[k])), 0, 0) == k
                && ObservationOf(RecordValue(ObservationParts(k, m[k]))) == m[k]
      ensures Layouts(ObservationParts(k, m[k])) == ObservationFormat.fields
                && Matches(ObservationParts(k, m[k]), ObservationWithin(m[k], READER), ObservationWithin(m[k], WRITER))
    {
      ObservationEntry(k, m[k]);
    }
    SectionInverse(m, ObservationParts, ObservationOf);
    SectionFits(m, ObservationParts, ObservationFormat, r => ObservationWithin(r, READER),
      r => ObservationWithin(r, WRITER));
  }

  lemma EpisodeEntry(k: u64, r: Episode<Bits>)
    requires r.id == k
    ensures N(RecordValue(EpisodeParts(k, r)), 0, 0) == k && EpisodeOf(RecordValue(EpisodeParts(k, r))) == r
    ensures Layouts(EpisodeParts(k, r)) == EpisodeFormat.fields
              && Matches(EpisodeParts(k, r), EpisodeWithin(r, READER), EpisodeWithin(r, WRITER))
  {
    ReadsBack(EpisodeParts(k, r));
    EpisodeInverse(k, r, RecordValue(EpisodeParts(k, r)));
    EpisodeLayout(k, r);
    EpisodeMatches(k, r);
  }

  lemma EpisodeSection(m: map<u64, Episode<Bits>>)
    requires forall k :: k in m ==> m[k].id == k
    ensures SectionMap(Section(Entries(m), EpisodeParts), EpisodeOf) == m
    ensures ItemsFit(EpisodeFormat, Section(Entries(m), EpisodeParts))
       <==> forall k :: k in m ==> EpisodeWithin(m[k], READER)
    ensures ItemsShaped(EpisodeFormat, Section(Entries(m), EpisodeParts))
       <==> forall k :: k in m ==> EpisodeWithin(m[k], WRITER)
  {
    forall k | k in m
      ensures N(RecordValue(EpisodeParts(k, m[k])), 0, 0) == k && EpisodeOf(RecordValue(EpisodeParts(k, m[k]))) == m[k]
      ensures Layouts(EpisodeParts(k, m[k])) == EpisodeFormat.fields
                && Matches(EpisodeParts(k, m[k]), EpisodeWithin(m[k], READER), EpisodeWithin(m[k], WRITER))
    {
      EpisodeEntry(k, m[k]);
    }
    SectionInverse(m, EpisodeParts, EpisodeOf);
    SectionFits(m, EpisodeParts, EpisodeFormat, r => EpisodeWithin(r, READER), r => EpisodeWithin(r, WRITER));
  }

  lemma ComparisonEntry(k: u64, r: Pairwise<Bits>)
    ensures N(RecordValue(PairwiseParts(k, r)), 0, 0) == k && PairwiseOf(RecordValue(PairwiseParts(k, r))) == r
    ensures Layouts(PairwiseParts(k, r)) == PairwiseFormat.fields
              && Matches(PairwiseParts(k, r), PairwiseWithin(r, READER), PairwiseWithin(r, WRITER))
  {
    ReadsBack(PairwiseParts(k, r));
    PairwiseInverse(k, r, RecordValue(PairwiseParts(k, r)));
    PairwiseLayout(k, r);
    PairwiseMatches(k, r);
  }

  lemma ComparisonSection(m: map<u64, Pairwise<Bits>>)
    ensures SectionMap(Section(Entries(m), PairwiseParts), PairwiseOf) == m
    ensures ItemsFit(PairwiseFormat, Section(Entries(m), PairwiseParts))
       <==> forall k :: k in m ==> PairwiseWithin(m[k], READER)
    ensures ItemsShaped(PairwiseFormat, Section(Entries(m), PairwiseParts))
       <==> forall k :: k in m ==> PairwiseWithin(m[k], WRITER)
  {
    forall k | k in m
      ensures N(RecordValue(PairwiseParts(k, m[k])), 0, 0) == k
                && PairwiseOf(RecordValue(PairwiseParts(k, m[k]))) == m[k]
      ensures Layouts(PairwiseParts(k, m[k])) == PairwiseFormat.fields
                && Matches(PairwiseParts(k, m[k]), PairwiseWithin(m[k], READER), PairwiseWithin(m[k], WRITER))
    {
      ComparisonEntry(k, m[k]);
    }
    SectionInverse(m, PairwiseParts, PairwiseOf);
    SectionFits(m, PairwiseParts, PairwiseFormat, r => PairwiseWithin(r, READER), r => PairwiseWithin(r, WRITER));
  }

  // ---------- Recoveries: a set of cells in key order ----------

  function Cells(s: set<CellKey>): seq<CellKey> {
    RanksInjective();
    Ascending(s, CellRank)
  }

  function RecoveryValue(k: CellKey): Value {
    RecordValue(RecoveryParts(k))
  }

  function RecoverySet(vs: seq<Value>): set<CellKey> {
    set i | 0 <= i < |vs| :: RecoveryOf(vs[i])
  }

  lemma RecoveryReads(k: CellKey)
    ensures RecoveryOf(RecoveryValue(k)) == k
    ensures Fits(RecoveryFormat, RecoveryValue(k)) && Shaped(RecoveryFormat, RecoveryValue(k))
  {
    ReadsBack(RecoveryParts(k));
    RecoveryInverse(k, RecoveryValue(k));
    RecordFits(RecoveryParts(k), RecoveryFormat, true, true);
  }

  lemma RecoverySetInverse(s: set<CellKey>)
    ensures RecoverySet(Mapped(Cells(s), RecoveryValue)) == s
  {
    RanksInjective();
    AscendingMembers(s, CellRank);
    var ks, vs := Cells(s), Mapped(Cells(s), RecoveryValue);
    forall i | 0 <= i < |vs| ensures RecoveryOf(vs[i]) == ks[i] {
      RecoveryReads(ks[i]);
    }
    forall k | k in s ensures k in RecoverySet(vs) {
      assert k in ks;
      var i :| 0 <= i < |ks| && ks[i] == k;
      assert RecoveryOf(vs[i]) == k;
    }
    forall k | k in RecoverySet(vs) ensures k in s {
      var i :| 0 <= i < |vs| && RecoveryOf(vs[i]) == k;
      assert ks[i] in ks;
    }
  }

  lemma RecoverySection(s: set<CellKey>)
    ensures ItemsFit(RecoveryFormat, Mapped(Cells(s), RecoveryValue))
    ensures ItemsShaped(RecoveryFormat, Mapped(Cells(s), RecoveryValue))
    ensures |Cells(s)| == |s|
  {
    RanksInjective();
    var ks, vs := Cells(s), Mapped(Cells(s), RecoveryValue);
    forall i | 0 <= i < |vs|
      ensures Fits(RecoveryFormat, vs[i]) && Shaped(RecoveryFormat, vs[i])
    {
      RecoveryReads(ks[i]);
    }
    ItemsFitAll(RecoveryFormat, vs);
    ItemsShapedAll(RecoveryFormat, vs);
  }

  // ---------- The whole state ----------

  const StateFormat :=
    Rec([Group(1, U8), Group(3, U64),
         Vec(COUNT_BOUND, SourceFormat), Vec(COUNT_BOUND, WorkerFormat), Vec(COUNT_BOUND, WorkloadFormat),
         Vec(COUNT_BOUND, BaselineFormat), Vec(COUNT_BOUND, ObservationFormat), Vec(COUNT_BOUND, EpisodeFormat),
         Vec(COUNT_BOUND, PairwiseFormat), Vec(COUNT_BOUND, RecoveryFormat)])

  /** Payload version, identity and epoch, then the eight collections; the matrix is not stored. */
  function StateParts(st: State<Bits>): seq<Part> {
    [Octets([1]),
     Numbers([st.id, st.generation, st.epoch]),
     RecordVec(SourceFormat, Section(Entries(st.sources), SourceParts)),
     RecordVec(WorkerFormat, Section(Entries(st.workers), WorkerParts)),
     RecordVec(WorkloadFormat, Section(Entries(st.workloads), WorkloadParts)),
     RecordVec(BaselineFormat, Section(Entries(st.baselines), BaselineParts)),
     RecordVec(ObservationFormat, Section(Entries(st.observations), ObservationParts)),
     RecordVec(EpisodeFormat, Section(Entries(st.episodes), EpisodeParts)),
     RecordVec(PairwiseFormat, Section(Entries(st.comparisons), PairwiseParts)),
     RecordVec(RecoveryFormat, Mapped(Cells(st.recoveries), RecoveryValue))]
  }

  function StateValue(st: State<Bits>): Value {
    RecordValue(StateParts(st))
  }

  /** Comparisons in the order read; each one is also set into the matrix, the last one winning. */
  function Comparisons(vs: seq<Value>): seq<Pairwise<Bits>> {
    seq(|vs|, i requires 0 <= i < |vs| => PairwiseOf(vs[i]))
  }

  function SetAll<D>(matrix: map<CellKey, Pairwise<D>>, ps: seq<Pairwise<D>>): map<CellKey, Pairwise<D>> {
    if ps == [] then matrix
    else SetAll(matrix, ps[..|ps| - 1])[KeyOf(ps[|ps| - 1]) := ps[|ps| - 1]]
  }

  /** The state after loading: every collection is replaced, the matrix is only added to. */
  function StateOf(v: Value, matrix: map<CellKey, Pairwise<Bits>>): State<Bits> {
    State(
      N(v, 1, 0), N(v, 1, 1), N(v, 1, 2),
      SectionMap(RecordList(v, 2), SourceOf),
      SectionMap(RecordList(v, 3), WorkerOf),
      SectionMap(RecordList(v, 4), WorkloadOf),
      SectionMap(RecordList(v, 5), BaselineOf),
      SectionMap(RecordList(v, 6), ObservationOf),
      SectionMap(RecordList(v, 7), EpisodeOf),
      SectionMap(RecordList(v, 8), PairwiseOf),
      SetAll(matrix, Comparisons(RecordList(v, 8))),
      RecoverySet(RecordList(v, 9)))
  }

  predicate AllWithin<R>(m: map<u64, R>, l: Limits, within: (R, Limits) -> bool) {
    |m| <= l.count && forall k :: k in m ==> within(m[k], l)
  }

  predicate StateWithin(st: State<Bits>, l: Limits) {
    && AllWithin(st.sources, l, SourceWithin)
    && AllWithin(st.workers, l, WorkerWithin)
    && AllWithin(st.workloads, l, WorkloadWithin)
    && AllWithin(st.baselines, l, BaselineWithin)
    && AllWithin(st.observations, l, ObservationWithin)
    && AllWithin(st.episodes, l, EpisodeWithin)
    && AllWithin(st.comparisons, l, PairwiseWithin)
    && |st.recoveries| <= l.count
  }

  lemma StateLayout(st: State<Bits>)
    ensures Layouts(StateParts(st)) == StateFormat.fields
  {
  }

  lemma ComparisonsInverse(m: map<u64, Pairwise<Bits>>)
    ensures Comparisons(Section(Entries(m), PairwiseParts)) == InOrder(m)
  {
    var es, vs := Entries(m), Section(Entries(m), PairwiseParts);
    forall i | 0 <= i < |es| ensures PairwiseOf(vs[i]) == es[i].1 {
      ComparisonEntry(es[i].0, es[i].1);
    }
  }

  lemma VecReads(v: Value, g: nat, ps: seq<Part>, e: Format, vs: seq<Value>)
    requires ReadsAs(v, ps) && g < |ps| && ps[g] == RecordVec(e, vs)
    ensures RecordList(v, g) == vs
  {
    assert PartReads(v, g, ps[g]);
  }

  /** The parts of a state, one by one: cheaper to reason about than the whole list. */
  ghost predicate PartsOf(st: State<Bits>, ps: seq<Part>) {
    && |ps| == 10 && ps[0] == Octets([1]) && ps[1] == Numbers([st.id, st.generation, st.epoch])
    && ps[2] == RecordVec(SourceFormat, Section(Entries(st.sources), SourceParts))
    && ps[3] == RecordVec(WorkerFormat, Section(Entries(st.workers), WorkerParts))
    && ps[4] == RecordVec(WorkloadFormat, Section(Entries(st.workloads), WorkloadParts))
    && ps[5] == RecordVec(BaselineFormat, Section(Entries(st.baselines), BaselineParts))
    && ps[6] == RecordVec(ObservationFormat, Section(Entries(st.observations), ObservationParts))
    && ps[7] == RecordVec(EpisodeFormat, Section(Entries(st.episodes), EpisodeParts))
    && ps[8] == RecordVec(PairwiseFormat, Section(Entries(st.comparisons), PairwiseParts))
    && ps[9] == RecordVec(RecoveryFormat, Mapped(Cells(st.recoveries), RecoveryValue))
  }

  lemma TenAt<T>(ps: seq<T>, p0: T, p1: T, p2: T, p3: T, p4: T, p5: T, p6: T, p7: T, p8: T, p9: T)
    requires ps == [p0, p1, p2, p3, p4, p5, p6, p7, p8, p9]
    ensures |ps| == 10 && ps[0] == p0 && ps[1] == p1 && ps[2] == p2 && ps[3] == p3 && ps[4] == p4
    ensures ps[5] == p5 && ps[6] == p6 && ps[7] == p7 && ps[8] == p8 && ps[9] == p9
  {
  }

  lemma StatePartsOf(st: State<Bits>)
    ensures PartsOf(st, StateParts(st))
  {
    TenAt(StateParts(st),
          Octets([1]),
          Numbers([st.id, st.generation, st.epoch]),
          RecordVec(SourceFormat, Section(Entries(st.sources), SourceParts)),
          RecordVec(WorkerFormat, Section(Entries(st.workers), WorkerParts)),
          RecordVec(WorkloadFormat, Section(Entries(st.workloads), WorkloadParts)),
          RecordVec(BaselineFormat, Section(Entries(st.baselines), BaselineParts)),
          RecordVec(ObservationFormat, Section(Entries(st.observations), ObservationParts)),
          RecordVec(EpisodeFormat, Section(Entries(st.episodes), EpisodeParts)),
          RecordVec(PairwiseFormat, Section(Entries(st.comparisons), PairwiseParts)),
          RecordVec(RecoveryFormat, Mapped(Cells(st.recoveries), RecoveryValue)));
  }

  /** The stretches of a parsed state are the sections they came from. */
  ghost predicate SectionsOf(st: State<Bits>, v: Value) {
    && N(v, 1, 0) == st.id && N(v, 1, 1) == st.generation && N(v, 1, 2) == st.epoch
    && RecordList(v, 2) == Section(Entries(st.sources), SourceParts)
    && RecordList(v, 3) == Section(Entries(st.workers), WorkerParts)
    && RecordList(v, 4) == Section(Entries(st.workloads), WorkloadParts)
    && RecordList(v, 5) == Section(Entries(st.baselines), BaselineParts)
    && RecordList(v, 6) == Section(Entries(st.observations), ObservationParts)
    && RecordList(v, 7) == Section(Entries(st.episodes), EpisodeParts)
    && RecordList(v, 8) == Section(Entries(st.comparisons), PairwiseParts)
    && RecordList(v, 9) == Mapped(Cells(st.recoveries), RecoveryValue)
  }

  lemma SectionsRead(st: State<Bits>, v: Value, ps: seq<Part>)
    requires ReadsAs(v, ps) && PartsOf(st, ps)
    ensures SectionsOf(st, v)
  {
    assert PartReads(v, 1, ps[1]);
    VecReads(v, 2, ps, SourceFormat, Section(Entries(st.sources), SourceParts));
    VecReads(v, 3, ps, WorkerFormat, Section(Entries(st.workers), WorkerParts));
    VecReads(v, 4, ps, WorkloadFormat, Section(Entries(st.workloads), WorkloadParts));
    VecReads(v, 5, ps, BaselineFormat, Section(Entries(st.baselines), BaselineParts));
    VecReads(v, 6, ps, ObservationFormat, Section(Entries(st.observations), ObservationParts));
    VecReads(v, 7, ps, EpisodeFormat, Section(Entries(st.episodes), EpisodeParts));
    VecReads(v, 8, ps, PairwiseFormat, Section(Entries(st.comparisons), PairwiseParts));
    VecReads(v, 9, ps, RecoveryFormat, Mapped(Cells(st.recoveries), RecoveryValue));
  }

  lemma SectionsInverse(st: State<Bits>, v: Value, matrix: map<CellKey, Pairwise<Bits>>)
    requires Keyed(st) && SectionsOf(st, v)
    ensures StateOf(v, matrix) == st.(matrix := SetAll(matrix, InOrder(st.comparisons)))
  {
    assert SectionMap(RecordList(v, 2), SourceOf) == st.sources by {
      SourceSection(st.sources);
    }
    assert SectionMap(RecordList(v, 3), WorkerOf) == st.workers by {
      WorkerSection(st.workers);
    }
    assert SectionMap(RecordList(v, 4), WorkloadOf) == st.workloads by {
      WorkloadSection(st.workloads);
    }
    assert SectionMap(RecordList(v, 5), BaselineOf) == st.baselines by {
      BaselineSection(st.baselines);
    }
    assert SectionMap(RecordList(v, 6), ObservationOf) == st.observations by {
      ObservationSection(st.observations);
    }
    assert SectionMap(RecordList(v, 7), EpisodeOf) == st.episodes by {
      EpisodeSection(st.episodes);
    }
    assert SectionMap(RecordList(v, 8), PairwiseOf) == st.comparisons by {
      ComparisonSection(st.comparisons);
    }
    ComparisonsInverse(st.comparisons);
    RecoverySetInverse(st.recoveries);
  }

  lemma StateInverse(st: State<Bits>, v: Value, matrix: map<CellKey, Pairwise<Bits>>)
    requires Keyed(st) && ReadsAs(v, StateParts(st))
    ensures StateOf(v, matrix) == st.(matrix := SetAll(matrix, InOrder(st.comparisons)))
  {
    StatePartsOf(st);
    SectionsRead(st, v, StateParts(st));
    SectionsInverse(st, v, matrix);
  }

  // ---------- Which states fit ----------

  /** A part is readable and writable exactly as said. */
  ghost predicate Agrees(p: Part, read: bool, write: bool) {
    (p.Bounded() <==> read) && (p.Writable() <==> write)
  }

  lemma SectionAgrees<R>(m: map<u64, R>, parts: (u64, R) -> seq<Part>, format: Format, within: (R, Limits) -> bool)
    requires ItemsFit(format, Section(Entries(m), parts)) <==> forall k :: k in m ==> within(m[k], READER)
    requires ItemsShaped(format, Section(Entries(m), parts)) <==> forall k :: k in m ==> within(m[k], WRITER)
    ensures Agrees(RecordVec(format, Section(Entries(m), parts)), AllWithin(m, READER, within),
              AllWithin(m, WRITER, within))
  {
    Widths();
  }

  lemma SourcesAgree(m: map<u64, Source>)
    ensures Agrees(RecordVec(SourceFormat, Section(Entries(m), SourceParts)),
                   AllWithin(m, READER, SourceWithin), AllWithin(m, WRITER, SourceWithin))
  {
    SourceSection(m);
    SectionAgrees(m, SourceParts, SourceFormat, SourceWithin);
  }

  lemma WorkersAgree(m: map<u64, Worker>)
    ensures Agrees(RecordVec(WorkerFormat, Section(Entries(m), WorkerParts)),
                   AllWithin(m, READER, WorkerWithin), AllWithin(m, WRITER, WorkerWithin))
  {
    WorkerSection(m);
    SectionAgrees(m, WorkerParts, WorkerFormat, WorkerWithin);
  }

  lemma WorkloadsAgree(m: map<u64, Workload>)
    requires forall k :: k in m ==> m[k].id == k
    ensures Agrees(RecordVec(WorkloadFormat, Section(Entries(m), WorkloadParts)),
                   AllWithin(m, READER, WorkloadWithin), AllWithin(m, WRITER, WorkloadWithin))
  {
    WorkloadSection(m);
    SectionAgrees(m, WorkloadParts, WorkloadFormat, WorkloadWithin);
  }

  lemma BaselinesAgree(m: map<u64, Baseline<Bits>>)
    requires forall k :: k in m ==> m[k].id == k
    ensures Agrees(RecordVec(BaselineFormat, Section(Entries(m), BaselineParts)),
                   AllWithin(m, READER, BaselineWithin), AllWithin(m, WRITER, BaselineWithin))
  {
    BaselineSection(m);
    SectionAgrees(m, BaselineParts, BaselineFormat, BaselineWithin);
  }

  lemma ObservationsAgree(m: map<u64, Observation<Bits>>)
    requires forall k :: k in m ==> m[k].id == k
    ensures Agrees(RecordVec(ObservationFormat, Section(Entries(m), ObservationParts)),
                   AllWithin(m, READER, ObservationWithin), AllWithin(m, WRITER, ObservationWithin))
  {
    ObservationSection(m);
    SectionAgrees(m, ObservationParts, ObservationFormat, ObservationWithin);
  }

  lemma EpisodesAgree(m: map<u64, Episode<Bits>>)
    requires forall k :: k in m ==> m[k].id == k
    ensures Agrees(RecordVec(EpisodeFormat, Section(Entries(m), EpisodeParts)),
                   AllWithin(m, READER, EpisodeWithin), AllWithin(m, WRITER, EpisodeWithin))
  {
    EpisodeSection(m);
    SectionAgrees(m, EpisodeParts, EpisodeFormat, EpisodeWithin);
  }

  lemma ComparisonsAgree(m: map<u64, Pairwise<Bits>>)
    ensures Agrees(RecordVec(PairwiseFormat, Section(Entries(m), PairwiseParts)),
                   AllWithin(m, READER, PairwiseWithin), AllWithin(m, WRITER, PairwiseWithin))
  {
    ComparisonSection(m);
    SectionAgrees(m, PairwiseParts, PairwiseFormat, PairwiseWithin);
  }

  lemma RecoveriesAgree(s: set<CellKey>)
    ensures Agrees(RecordVec(RecoveryFormat, Mapped(Cells(s), RecoveryValue)), |s| <= READER.count, |s| <= WRITER.count)
  {
    Widths();
    RecoverySection(s);
  }

  lemma PlainAgrees(p: Part)
    requires p.Octets? || p.Numbers?
    ensures Agrees(p, true, true)
  {
  }

  /** Each part is readable and writable exactly when its collection is within the limits. */
  ghost predicate SectionsAgree(st: State<Bits>, ps: seq<Part>) {
    && |ps| == 10 && Agrees(ps[0], true, true) && Agrees(ps[1], true, true)
    && Agrees(ps[2], AllWithin(st.sources, READER, SourceWithin), AllWithin(st.sources, WRITER, SourceWithin))
    && Agrees(ps[3], AllWithin(st.workers, READER, WorkerWithin), AllWithin(st.workers, WRITER, WorkerWithin))
    && Agrees(ps[4], AllWithin(st.workloads, READER, WorkloadWithin), AllWithin(st.workloads, WRITER, WorkloadWithin))
    && Agrees(ps[5], AllWithin(st.baselines, READER, BaselineWithin), AllWithin(st.baselines, WRITER, BaselineWithin))
    && Agrees(ps[6], AllWithin(st.observations, READER, ObservationWithin),
      AllWithin(st.observations, WRITER, ObservationWithin))
    && Agrees(ps[7], AllWithin(st.episodes, READER, EpisodeWithin), AllWithin(st.episodes, WRITER, EpisodeWithin))
    && Agrees(ps[8], AllWithin(st.comparisons, READER, PairwiseWithin),
      AllWithin(st.comparisons, WRITER, PairwiseWithin))
    && Agrees(ps[9], |st.recoveries| <= READER.count, |st.recoveries| <= WRITER.count)
  }

  lemma PartsAgree(st: State<Bits>, ps: seq<Part>)
    requires Keyed(st) && PartsOf(st, ps)
    ensures SectionsAgree(st, ps)
  {
    PlainAgrees(ps[0]);
    PlainAgrees(ps[1]);
    SourcesAgree(st.sources);
    WorkersAgree(st.workers);
    WorkloadsAgree(st.workloads);
    BaselinesAgree(st.baselines);
    ObservationsAgree(st.observations);
    EpisodesAgree(st.episodes);
    ComparisonsAgree(st.comparisons);
    RecoveriesAgree(st.recoveries);
  }

  lemma AgreeingMatch(st: State<Bits>, ps: seq<Part>)
    requires SectionsAgree(st, ps)
    ensures Matches(ps, StateWithin(st, READER), StateWithin(st, WRITER))
  {
    TenParts(ps);
  }

  lemma TenParts(ps: seq<Part>)
    requires |ps| == 10
    ensures PartsBounded(ps) <==>
              && ps[0].Bounded() && ps[1].Bounded() && ps[2].Bounded() && ps[3].Bounded() && ps[4].Bounded()
              && ps[5].Bounded() && ps[6].Bounded() && ps[7].Bounded() && ps[8].Bounded() && ps[9].Bounded()
    ensures PartsWritable(ps) <==>
              && ps[0].Writable() && ps[1].Writable() && ps[2].Writable() && ps[3].Writable() && ps[4].Writable()
              && ps[5].Writable() && ps[6].Writable() && ps[7].Writable() && ps[8].Writable() && ps[9].Writable()
  {
  }

  /** A keyed state's parts meet the limits exactly when the state does. */
  lemma StateMatches(st: State<Bits>)
    requires Keyed(st)
    ensures Matches(StateParts(st), StateWithin(st, READER), StateWithin(st, WRITER))
  {
    StatePartsOf(st);
    PartsAgree(st, StateParts(st));
    AgreeingMatch(st, StateParts(st));
  }
}

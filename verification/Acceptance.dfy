/** Whatever payload is accepted, saved by this program or not, leaves a state that can be saved and loaded again. */
module Acceptance {
  import opened Words
  import opened Domain
  import opened Codec
  import opened Records
  import opened Bounds
  import opened Ordering
  import opened StateCodec
  import opened Payload
  import opened Reload
  import opened Ledger
  import opened Machine
  import opened Sizes
  import opened Storage

  // ---------- Bounds of what was read ----------

  lemma FieldIn(f: Format, v: Value, g: nat)
    requires f.Rec? && Fits(f, v) && g < |f.fields|
    ensures Fits(f.fields[g], Records.At(v, g))
  {
    FieldsFitAll(f.fields, v.items);
  }

  lemma StringIn(v: Value, g: nat, i: nat, k: nat)
    requires Fits(Group(k, Str), Records.At(v, g))
    ensures |S(v, g, i)| <= MAX_STRING
  {
    var x := Records.At(v, g);
    FieldsFitAll(Repeat(k, Str), x.items);
    if i < |x.items| {
      assert Fits(Repeat(k, Str)[i], x.items[i]);
    }
  }

  lemma ListIn(v: Value, g: nat, e: Format)
    requires Fits(Vec(COUNT_BOUND, e), Records.At(v, g))
    ensures |NumberList(v, g)| <= COUNT_BOUND && |OctetList(v, g)| <= COUNT_BOUND
    ensures |RecordList(v, g)| <= COUNT_BOUND && ItemsFit(e, RecordList(v, g))
  {
  }

  // ---------- Record by record ----------

  lemma SourceIn(v: Value)
    requires Fits(SourceFormat, v)
    ensures SourceWithin(SourceOf(v), READER)
  {
    FieldIn(SourceFormat, v, 1);
    StringIn(v, 1, 0, 1);
  }

  lemma WorkerIn(v: Value)
    requires Fits(WorkerFormat, v)
    ensures WorkerWithin(WorkerOf(v), READER)
  {
    FieldIn(WorkerFormat, v, 1);
    StringIn(v, 1, 0, 1);
  }

  lemma WorkloadIn(v: Value)
    requires Fits(WorkloadFormat, v)
    ensures WorkloadWithin(WorkloadOf(v), READER)
  {
    FieldIn(WorkloadFormat, v, 1);
    FieldIn(WorkloadFormat, v, 3);
    FieldIn(WorkloadFormat, v, 5);
    StringIn(v, 1, 0, 3);
    StringIn(v, 1, 1, 3);
    StringIn(v, 1, 2, 3);
    StringIn(v, 3, 0, 3);
    StringIn(v, 3, 1, 3);
    StringIn(v, 3, 2, 3);
    StringIn(v, 5, 0, 1);
  }

  lemma BaselineIn(v: Value)
    requires Fits(BaselineFormat, v)
    ensures BaselineWithin(BaselineOf(v), READER)
  {
    FieldIn(BaselineFormat, v, 3);
    StringIn(v, 3, 0, 5);
    StringIn(v, 3, 1, 5);
    StringIn(v, 3, 2, 5);
    StringIn(v, 3, 3, 5);
    StringIn(v, 3, 4, 5);
  }

  lemma ObservationIn(v: Value)
    requires Fits(ObservationFormat, v)
    ensures ObservationWithin(ObservationOf(v), READER)
  {
    FieldIn(ObservationFormat, v, 3);
    FieldIn(ObservationFormat, v, 8);
    FieldIn(ObservationFormat, v, 9);
    StringIn(v, 3, 0, 1);
    ListIn(v, 8, U64);
    ListIn(v, 9, U8);
  }

  lemma EvidenceIn(v: Value)
    requires Fits(EvidenceFormat, v)
    ensures |EvidenceOf(v).summary| <= MAX_STRING
  {
    FieldIn(EvidenceFormat, v, 2);
    StringIn(v, 2, 0, 1);
  }

  lemma EvidencesIn(vs: seq<Value>)
    requires ItemsFit(EvidenceFormat, vs)
    ensures forall i :: 0 <= i < |vs| ==> |EvidencesOf(vs)[i].summary| <= MAX_STRING
  {
    ItemsFitAll(EvidenceFormat, vs);
    forall i | 0 <= i < |vs| ensures |EvidencesOf(vs)[i].summary| <= MAX_STRING {
      EvidenceIn(vs[i]);
    }
  }

  lemma EpisodeIn(v: Value)
    requires Fits(EpisodeFormat, v)
    ensures EpisodeWithin(EpisodeOf(v), READER)
  {
    FieldIn(EpisodeFormat, v, 3);
    FieldIn(EpisodeFormat, v, 4);
    FieldIn(EpisodeFormat, v, 6);
    FieldIn(EpisodeFormat, v, 10);
    ListIn(v, 3, U64);
    ListIn(v, 4, U8);
    ListIn(v, 6, DeltaFormat);
    ListIn(v, 10, EvidenceFormat);
    EvidencesIn(RecordList(v, 10));
  }

  lemma PairwiseIn(v: Value)
    requires Fits(PairwiseFormat, v)
    ensures PairwiseWithin(PairwiseOf(v), READER)
  {
    FieldIn(PairwiseFormat, v, 3);
    FieldIn(PairwiseFormat, v, 7);
    FieldIn(PairwiseFormat, v, 9);
    ListIn(v, 3, DeltaFormat);
    ListIn(v, 7, U8);
    ListIn(v, 9, U8);
  }

  // ---------- Section by section ----------

  lemma {:induction false} EmplacedFrom<R>(es: seq<(u64, R)>)
    ensures |EmplaceAll(es)| <= |es|
    ensures forall k :: k in EmplaceAll(es) ==> exists i :: 0 <= i < |es| && es[i] == (k, EmplaceAll(es)[k])
  {
    if es != [] {
      var n := |es| - 1;
      var before := EmplaceAll(es[..n]);
      EmplacedFrom(es[..n]);
      forall k | k in EmplaceAll(es) ensures exists i :: 0 <= i < |es| && es[i] == (k, EmplaceAll(es)[k]) {
        if k in before {
          var i :| 0 <= i < n && es[..n][i] == (k, before[k]);
          assert es[i] == (k, EmplaceAll(es)[k]);
        } else {
          assert es[n] == (k, EmplaceAll(es)[k]);
        }
      }
    }
  }

  lemma SectionIn<R>(vs: seq<Value>, of: Value -> R, within: (R, Limits) -> bool)
    requires |vs| <= COUNT_BOUND && forall i :: 0 <= i < |vs| ==> within(of(vs[i]), READER)
    ensures AllWithin(SectionMap(vs, of), READER, within)
    ensures forall k :: k in SectionMap(vs, of) ==>
              exists i :: 0 <= i < |vs| && N(vs[i], 0, 0) == k && of(vs[i]) == SectionMap(vs, of)[k]
  {
    var es, m := Parsed(vs, of), SectionMap(vs, of);
    EmplacedFrom(es);
    forall k | k in m
      ensures within(m[k], READER) && exists i :: 0 <= i < |vs| && N(vs[i], 0, 0) == k && of(vs[i]) == m[k]
    {
      var i :| 0 <= i < |es| && es[i] == (k, m[k]);
      assert N(vs[i], 0, 0) == k && of(vs[i]) == m[k];
    }
  }

  /** The vector at position g is within the reader's bound and its records fit their format. */
  ghost predicate Bounded(v: Value, g: nat, e: Format) {
    |RecordList(v, g)| <= COUNT_BOUND && forall i :: 0 <= i < |RecordList(v, g)| ==> Fits(e, RecordList(v, g)[i])
  }

  lemma VectorIn(v: Value, g: nat, e: Format)
    requires Fits(StateFormat, v) && g < |StateFormat.fields| && StateFormat.fields[g] == Vec(COUNT_BOUND, e)
    ensures Bounded(v, g, e)
  {
    FieldIn(StateFormat, v, g);
    ListIn(v, g, e);
    ItemsFitAll(e, RecordList(v, g));
  }

  lemma SourcesIn(v: Value, m: map<u64, Source>)
    requires Bounded(v, 2, SourceFormat) && m == SectionMap(RecordList(v, 2), SourceOf)
    ensures AllWithin(m, READER, SourceWithin)
  {
    var vs := RecordList(v, 2);
    forall i | 0 <= i < |vs| ensures SourceWithin(SourceOf(vs[i]), READER) {
      SourceIn(vs[i]);
    }
    SectionIn(vs, SourceOf, SourceWithin);
  }

  lemma WorkersIn(v: Value, m: map<u64, Worker>)
    requires Bounded(v, 3, WorkerFormat) && m == SectionMap(RecordList(v, 3), WorkerOf)
    ensures AllWithin(m, READER, WorkerWithin)
  {
    var vs := RecordList(v, 3);
    forall i | 0 <= i < |vs| ensures WorkerWithin(WorkerOf(vs[i]), READER) {
      WorkerIn(vs[i]);
    }
    SectionIn(vs, WorkerOf, WorkerWithin);
  }

  lemma WorkloadsIn(v: Value, m: map<u64, Workload>)
    requires Bounded(v, 4, WorkloadFormat) && m == SectionMap(RecordList(v, 4), WorkloadOf)
    ensures AllWithin(m, READER, WorkloadWithin) && forall k :: k in m ==> m[k].id == k
  {
    var vs := RecordList(v, 4);
    forall i | 0 <= i < |vs| ensures WorkloadWithin(WorkloadOf(vs[i]), READER) {
      WorkloadIn(vs[i]);
    }
    SectionIn(vs, WorkloadOf, WorkloadWithin);
  }

  lemma BaselinesIn(v: Value, m: map<u64, Baseline<Bits>>)
    requires Bounded(v, 5, BaselineFormat) && m == SectionMap(RecordList(v, 5), BaselineOf)
    ensures AllWithin(m, READER, BaselineWithin) && forall k :: k in m ==> m[k].id == k
  {
    var vs := RecordList(v, 5);
    forall i | 0 <= i < |vs| ensures BaselineWithin(BaselineOf(vs[i]), READER) {
      BaselineIn(vs[i]);
    }
    SectionIn(vs, BaselineOf, BaselineWithin);
  }

  lemma ObservationsIn(v: Value, m: map<u64, Observation<Bits>>)
    requires Bounded(v, 6, ObservationFormat) && m == SectionMap(RecordList(v, 6), ObservationOf)
    ensures AllWithin(m, READER, ObservationWithin) && forall k :: k in m ==> m[k].id == k
  {
    var vs := RecordList(v, 6);
    forall i | 0 <= i < |vs| ensures ObservationWithin(ObservationOf(vs[i]), READER) {
      ObservationIn(vs[i]);
    }
    SectionIn(vs, ObservationOf, ObservationWithin);
  }

  lemma EpisodesIn(v: Value, m: map<u64, Episode<Bits>>)
    requires Bounded(v, 7, EpisodeFormat) && m == SectionMap(RecordList(v, 7), EpisodeOf)
    ensures AllWithin(m, READER, EpisodeWithin) && forall k :: k in m ==> m[k].id == k
  {
    var vs := RecordList(v, 7);
    forall i | 0 <= i < |vs| ensures EpisodeWithin(EpisodeOf(vs[i]), READER) {
      EpisodeIn(vs[i]);
    }
    SectionIn(vs, EpisodeOf, EpisodeWithin);
  }

  lemma ComparisonsIn(v: Value, m: map<u64, Pairwise<Bits>>)
    requires Bounded(v, 8, PairwiseFormat) && m == SectionMap(RecordList(v, 8), PairwiseOf)
    ensures AllWithin(m, READER, PairwiseWithin)
  {
    var vs := RecordList(v, 8);
    forall i | 0 <= i < |vs| ensures PairwiseWithin(PairwiseOf(vs[i]), READER) {
      PairwiseIn(vs[i]);
    }
    SectionIn(vs, PairwiseOf, PairwiseWithin);
  }

  lemma {:induction false} RecoveriesIn(vs: seq<Value>)
    ensures |RecoverySet(vs)| <= |vs|
  {
    if vs != [] {
      var n := |vs| - 1;
      RecoveriesIn(vs[..n]);
      InsertOne(vs, n);
      assert vs[..n + 1] == vs;
    } else {
      assert RecoverySet(vs) == {};
    }
  }

  // ---------- The accepted state ----------

  /** Every section of v is within the reader's bounds. */
  ghost predicate AllBounded(v: Value) {
    && Bounded(v, 2, SourceFormat) && Bounded(v, 3, WorkerFormat) && Bounded(v, 4, WorkloadFormat)
    && Bounded(v, 5, BaselineFormat) && Bounded(v, 6, ObservationFormat) && Bounded(v, 7, EpisodeFormat)
    && Bounded(v, 8, PairwiseFormat) && Bounded(v, 9, RecoveryFormat)
  }

  lemma VectorsIn(v: Value)
    requires Fits(StateFormat, v)
    ensures AllBounded(v)
  {
    VectorIn(v, 2, SourceFormat);
    VectorIn(v, 3, WorkerFormat);
    VectorIn(v, 4, WorkloadFormat);
    VectorIn(v, 5, BaselineFormat);
    VectorIn(v, 6, ObservationFormat);
    VectorIn(v, 7, EpisodeFormat);
    VectorIn(v, 8, PairwiseFormat);
    VectorIn(v, 9, RecoveryFormat);
  }

  lemma BoundedState(v: Value, matrix: map<CellKey, Pairwise<Bits>>, st: State<Bits>)
    requires AllBounded(v) && st == StateOf(v, matrix)
    ensures Keyed(st) && StateWithin(st, READER)
  {
    SourcesIn(v, st.sources);
    WorkersIn(v, st.workers);
    WorkloadsIn(v, st.workloads);
    BaselinesIn(v, st.baselines);
    ObservationsIn(v, st.observations);
    EpisodesIn(v, st.episodes);
    ComparisonsIn(v, st.comparisons);
    RecoveriesIn(RecordList(v, 9));
  }

  lemma AcceptedValue(payload: seq<u8>, into: State<Bits>) returns (v: Value)
    requires Load(payload, into).ok
    ensures Fits(StateFormat, v) && Load(payload, into).state == StateOf(v, into.matrix)
  {
    GetExact(StateFormat, payload, Start());
    v := Get(StateFormat, payload, Start()).value;
  }

  /** A state left by an accepted payload is keyed by its own ids and within the reader's limits. */
  lemma AcceptedWithin(payload: seq<u8>, into: State<Bits>)
    requires Load(payload, into).ok
    ensures Keyed(Load(payload, into).state) && StateWithin(Load(payload, into).state, READER)
  {
    var v := AcceptedValue(payload, into);
    VectorsIn(v);
    BoundedState(v, into.matrix, Load(payload, into).state);
  }

  /** So it loads again from its own payload, wherever it is loaded, with its cells where the log has none. */
  lemma AcceptedReloads(payload: seq<u8>, into: State<Bits>, other: State<Bits>)
    requires Load(payload, into).ok
    ensures var back := Load(payload, into).state;
            Load(Serialize(back), other) == Loaded(back.(matrix := other.matrix + Rebuilt(back.comparisons)), true)
  {
    AcceptedWithin(payload, into);
    Reloaded(Load(payload, into).state, other);
  }

  /** Some state within the limits is saved as this payload. */
  ghost predicate IsSaved(payload: seq<u8>) {
    exists st: State<Bits> :: Keyed(st) && StateWithin(st, READER) && Serialize(st) == payload
  }

  /** An accepted payload is what the loaded state is saved as, exactly when some state is saved as it. */
  lemma PayloadImage(payload: seq<u8>, into: State<Bits>)
    requires Load(payload, into).ok
    ensures Serialize(Load(payload, into).state) == payload <==> IsSaved(payload)
  {
    AcceptedWithin(payload, into);
    if IsSaved(payload) {
      var st :| Keyed(st) && StateWithin(st, READER) && Serialize(st) == payload;
      ReaderWithinWriter(st);
      SaveLoadSave(st, into);
    }
  }

  /** A complete payload with more bytes behind it is accepted and is nobody's payload. */
  lemma TrailingIsNotSaved(payload: seq<u8>, t: seq<u8>, into: State<Bits>)
    requires IsSaved(payload) && t != []
    ensures Load(payload + t, into).ok && !IsSaved(payload + t)
    ensures Serialize(Load(payload + t, into).state) == payload
  {
    var st :| Keyed(st) && StateWithin(st, READER) && Serialize(st) == payload;
    ReaderWithinWriter(st);
    Restore(st, into);
    SaveLoadSave(st, into);
    TrailingBytesUnread(payload, t, into);
    PayloadImage(payload + t, into);
  }

  // ---------- A save that no load accepts ----------

  lemma OneRegistration(judge: Judge, name: Text, f: real -> Bits)
    ensures AsBits(Run(judge, Fresh(1, 1), [NewWorker(1, 1, name, true)]), f) == OneWorker(name)
  {
    var ops := [NewWorker(1, 1, name, true)];
    assert ops[..0] == [];
    assert Run(judge, Fresh(1, 1), ops) == Step(judge, Fresh(1, 1), ops[0]);
  }

  /** Registering one worker under a name over 16 MiB leaves a state that is saved and that nobody can load. */
  lemma SavedAndRefused(judge: Judge, name: Text, f: real -> Bits, into: State<Bits>)
    requires MAX_STRING < |name| && |name| + 29 <= LARGEST
    ensures var st := AsBits(Run(judge, Fresh(1, 1), [NewWorker(1, 1, name, true)]), f);
            Saved(st).Some? && !LoadFile(Saved(st).value, into).ok
  {
    OneRegistration(judge, name, f);
    LongNameRefused(name, into);
  }
}

/** A payload small enough for the envelope has room for every count and length prefix in it. */
module Sizes {
  import opened Words
  import opened Domain
  import opened Codec
  import opened Records
  import opened Bounds
  import opened Ordering
  import opened StateCodec
  import opened Payload

  const ROOM: nat := 0x1_0000_0000

  // ---------- A printed value is as long as its parts ----------

  lemma {:induction false} FieldPrinted(fs: seq<Format>, vs: seq<Value>, i: nat)
    requires i < |fs| == |vs|
    ensures |Print(fs[i], vs[i])| <= |PrintFields(fs, vs)|
    decreases |fs|
  {
    if i > 0 {
      FieldPrinted(fs[1..], vs[1..], i - 1);
    }
  }

  lemma {:induction false} ItemPrinted(e: Format, vs: seq<Value>, i: nat)
    requires i < |vs|
    ensures |Print(e, vs[i])| <= |PrintItems(e, vs)|
    decreases |vs|
  {
    if i > 0 {
      ItemPrinted(e, vs[1..], i - 1);
    }
  }

  lemma {:induction false} ItemsPrinted(e: Format, vs: seq<Value>)
    requires forall i :: 0 <= i < |vs| ==> Print(e, vs[i]) != []
    ensures |vs| <= |PrintItems(e, vs)|
    decreases |vs|
  {
    if vs != [] {
      ItemsPrinted(e, vs[1..]);
    }
  }

  /** The value prints something, and unless that is too long every prefix in it has room. */
  ghost predicate Stout(e: Format, v: Value) {
    Print(e, v) != [] && (|Print(e, v)| < ROOM ==> Shaped(e, v))
  }

  // ---------- Parts ----------

  lemma StringPrinted(s: Text)
    ensures |s| <= |Print(Str, Letters(s))|
  {
  }

  lemma StringsRoom(ss: seq<Text>)
    requires |PrintFields(Repeat(|ss|, Str), Mapped(ss, Letters))| < ROOM
    ensures Storable(ss)
  {
    Widths();
    var fs, vs := Repeat(|ss|, Str), Mapped(ss, Letters);
    forall i | 0 <= i < |ss| ensures |ss[i]| < Pow256(LENGTH) {
      FieldPrinted(fs, vs, i);
      StringPrinted(ss[i]);
      assert fs[i] == Str && vs[i] == Letters(ss[i]);
    }
  }

  lemma VectorRoom<T>(bound: nat, e: Format, xs: seq<T>, f: T -> Value)
    requires |Print(Vec(bound, e), Items(Mapped(xs, f)))| < ROOM && forall x :: x in xs ==> Print(e, f(x)) != []
    ensures |xs| < Pow256(COUNT)
  {
    Widths();
    ItemsPrinted(e, Mapped(xs, f));
  }

  lemma RecordsRoom(e: Format, vs: seq<Value>)
    requires |Print(Vec(COUNT_BOUND, e), Items(vs))| < ROOM && forall i :: 0 <= i < |vs| ==> Stout(e, vs[i])
    ensures RecordVec(e, vs).Writable()
  {
    Widths();
    ItemsPrinted(e, vs);
    forall i | 0 <= i < |vs| ensures Shaped(e, vs[i]) {
      ItemPrinted(e, vs, i);
    }
    ItemsShapedAll(e, vs);
  }

  ghost predicate StoutPart(p: Part) {
    p.RecordVec? ==> forall i :: 0 <= i < |p.vs| ==> Stout(p.e, p.vs[i])
  }

  lemma PartRoom(p: Part)
    requires |Print(p.Layout(), p.Content())| < ROOM
    requires StoutPart(p)
    ensures p.Writable()
  {
    match p
    case Strings(ss) => StringsRoom(ss);
    case NumberVec(ns) => VectorRoom(COUNT_BOUND, U64, ns, Number);
    case Peers(ns) => VectorRoom(COUNT_MAX, U64, ns, Number);
    case OctetVec(os) => VectorRoom(COUNT_BOUND, U8, os, Octet);
    case RecordVec(e, vs) => RecordsRoom(e, vs);
    case _ =>
  }

  // ---------- Records ----------

  ghost predicate StoutParts(ps: seq<Part>) {
    forall g :: 0 <= g < |ps| ==> StoutPart(ps[g])
  }

  lemma RecordRoom(ps: seq<Part>, format: Format)
    requires format == Rec(Layouts(ps)) && StoutParts(ps) && |Print(format, RecordValue(ps))| < ROOM
    ensures Shaped(format, RecordValue(ps))
  {
    forall g | 0 <= g < |ps| ensures ps[g].Writable() {
      FieldPrinted(Layouts(ps), Contents(ps), g);
      PartRoom(ps[g]);
    }
    PartsFit(ps);
  }

  lemma NumbersPrint(p: Part)
    requires (p.Numbers? && p.ns != []) || (p.Octets? && p.os != [])
    ensures Print(p.Layout(), p.Content()) != []
  {
    var fs, vs := p.Layout().fields, p.Content().items;
    FieldPrinted(fs, vs, 0);
  }

  /** A record that starts with a number. */
  lemma RecordStout(ps: seq<Part>, format: Format)
    requires format.Rec? && format.fields == Layouts(ps) && StoutParts(ps) && ps != []
    requires (ps[0].Numbers? && ps[0].ns != []) || (ps[0].Octets? && ps[0].os != [])
    ensures Stout(format, RecordValue(ps))
  {
    assert format == Rec(Layouts(ps));
    NumbersPrint(ps[0]);
    FieldPrinted(Layouts(ps), Contents(ps), 0);
    if |Print(format, RecordValue(ps))| < ROOM {
      RecordRoom(ps, format);
    }
  }

  lemma DeltasStout(ds: seq<MetricDelta<Bits>>)
    ensures forall i :: 0 <= i < |ds| ==> Stout(DeltaFormat, Mapped(ds, DeltaValue)[i])
  {
    forall i | 0 <= i < |ds| ensures Stout(DeltaFormat, Mapped(ds, DeltaValue)[i]) {
      DeltaReads(ds[i]);
      RecordStout(DeltaParts(ds[i]), DeltaFormat);
    }
  }

  lemma EvidencesStout(es: seq<Evidence>)
    ensures forall i :: 0 <= i < |es| ==> Stout(EvidenceFormat, Mapped(es, EvidenceValue)[i])
  {
    forall i | 0 <= i < |es| ensures Stout(EvidenceFormat, Mapped(es, EvidenceValue)[i]) {
      EvidenceReads(es[i]);
      RecordStout(EvidenceParts(es[i]), EvidenceFormat);
    }
  }

  lemma SourceStout(k: u64, r: Source)
    ensures Stout(SourceFormat, RecordValue(SourceParts(k, r)))
  {
    ReadsBack(SourceParts(k, r));
    SourceInverse(k, r, RecordValue(SourceParts(k, r)));
    RecordStout(SourceParts(k, r), SourceFormat);
  }

  lemma WorkerStout(k: u64, r: Worker)
    ensures Stout(WorkerFormat, RecordValue(WorkerParts(k, r)))
  {
    ReadsBack(WorkerParts(k, r));
    WorkerInverse(k, r, RecordValue(WorkerParts(k, r)));
    RecordStout(WorkerParts(k, r), WorkerFormat);
  }

  lemma WorkloadStout(k: u64, r: Workload)
    ensures Stout(WorkloadFormat, RecordValue(WorkloadParts(k, r)))
  {
    ReadsBack(WorkloadParts(k, r));
    WorkloadInverse(k, r, RecordValue(WorkloadParts(k, r)));
    RecordStout(WorkloadParts(k, r), WorkloadFormat);
  }

  lemma BaselineStout(k: u64, r: Baseline<Bits>)
    ensures Stout(BaselineFormat, RecordValue(BaselineParts(k, r)))
  {
    BaselineLayout(k, r);
    RecordStout(BaselineParts(k, r), BaselineFormat);
  }

  lemma ObservationStout(k: u64, r: Observation<Bits>)
    ensures Stout(ObservationFormat, RecordValue(ObservationParts(k, r)))
  {
    ObservationLayout(k, r);
    RecordStout(ObservationParts(k, r), ObservationFormat);
  }

  lemma EpisodeStout(k: u64, r: Episode<Bits>)
    ensures Stout(EpisodeFormat, RecordValue(EpisodeParts(k, r)))
  {
    EpisodeLayout(k, r);
    DeltasStout(r.degradation.deltas);
    EvidencesStout(r.evidence);
    EpisodeVectors(k, r);
    RecordStout(EpisodeParts(k, r), EpisodeFormat);
  }

  lemma PairwiseStout(k: u64, r: Pairwise<Bits>)
    ensures Stout(PairwiseFormat, RecordValue(PairwiseParts(k, r)))
  {
    PairwiseLayout(k, r);
    DeltasStout(r.degradation.deltas);
    RecordStout(PairwiseParts(k, r), PairwiseFormat);
  }

  lemma RecoveryStout(k: CellKey)
    ensures Stout(RecoveryFormat, RecoveryValue(k))
  {
    ReadsBack(RecoveryParts(k));
    RecoveryInverse(k, RecoveryValue(k));
    RecordStout(RecoveryParts(k), RecoveryFormat);
  }

  // ---------- The state ----------

  ghost predicate StoutSection<R>(m: map<u64, R>, parts: (u64, R) -> seq<Part>, format: Format) {
    StoutPart(RecordVec(format, Section(Entries(m), parts)))
  }

  lemma SectionStout<R>(m: map<u64, R>, parts: (u64, R) -> seq<Part>, format: Format)
    requires forall k: u64, r :: Stout(format, RecordValue(parts(k, r)))
    ensures StoutSection(m, parts, format)
  {
    var es, vs := Entries(m), Section(Entries(m), parts);
    forall i | 0 <= i < |vs| ensures Stout(format, vs[i]) {
      assert vs[i] == RecordValue(parts(es[i].0, es[i].1));
    }
  }

  lemma RegistriesStout(st: State<Bits>)
    ensures StoutSection(st.sources, SourceParts, SourceFormat)
    ensures StoutSection(st.workers, WorkerParts, WorkerFormat)
    ensures StoutSection(st.workloads, WorkloadParts, WorkloadFormat)
  {
    forall k: u64, r ensures Stout(SourceFormat, RecordValue(SourceParts(k, r))) {
      SourceStout(k, r);
    }
    forall k: u64, r ensures Stout(WorkerFormat, RecordValue(WorkerParts(k, r))) {
      WorkerStout(k, r);
    }
    forall k: u64, r ensures Stout(WorkloadFormat, RecordValue(WorkloadParts(k, r))) {
      WorkloadStout(k, r);
    }
    SectionStout(st.sources, SourceParts, SourceFormat);
    SectionStout(st.workers, WorkerParts, WorkerFormat);
    SectionStout(st.workloads, WorkloadParts, WorkloadFormat);
  }

  lemma EvidenceStout(st: State<Bits>)
    ensures StoutSection(st.baselines, BaselineParts, BaselineFormat)
    ensures StoutSection(st.observations, ObservationParts, ObservationFormat)
  {
    forall k: u64, r ensures Stout(BaselineFormat, RecordValue(BaselineParts(k, r))) {
      BaselineStout(k, r);
    }
    forall k: u64, r ensures Stout(ObservationFormat, RecordValue(ObservationParts(k, r))) {
      ObservationStout(k, r);
    }
    SectionStout(st.baselines, BaselineParts, BaselineFormat);
    SectionStout(st.observations, ObservationParts, ObservationFormat);
  }

  lemma FindingsStout(st: State<Bits>)
    ensures StoutSection(st.episodes, EpisodeParts, EpisodeFormat)
    ensures StoutSection(st.comparisons, PairwiseParts, PairwiseFormat)
  {
    forall k: u64, r ensures Stout(EpisodeFormat, RecordValue(EpisodeParts(k, r))) {
      EpisodeStout(k, r);
    }
    forall k: u64, r ensures Stout(PairwiseFormat, RecordValue(PairwiseParts(k, r))) {
      PairwiseStout(k, r);
    }
    SectionStout(st.episodes, EpisodeParts, EpisodeFormat);
    SectionStout(st.comparisons, PairwiseParts, PairwiseFormat);
  }

  lemma RecoveriesStout(s: set<CellKey>)
    ensures StoutPart(RecordVec(RecoveryFormat, Mapped(Cells(s), RecoveryValue)))
  {
    forall k ensures Stout(RecoveryFormat, RecoveryValue(k)) {
      RecoveryStout(k);
    }
  }

  lemma TenOf<T>(xs: seq<T>, ok: T -> bool)
    requires |xs| == 10 && ok(xs[0]) && ok(xs[1]) && ok(xs[2]) && ok(xs[3]) && ok(xs[4])
    requires ok(xs[5]) && ok(xs[6]) && ok(xs[7]) && ok(xs[8]) && ok(xs[9])
    ensures forall g :: 0 <= g < |xs| ==> ok(xs[g])
  {
  }

  lemma StateStout(st: State<Bits>, ps: seq<Part>)
    requires PartsOf(st, ps)
    ensures StoutParts(ps)
  {
    RegistriesStout(st);
    EvidenceStout(st);
    FindingsStout(st);
    RecoveriesStout(st.recoveries);
    TenOf(ps, StoutPart);
  }

  /** Whatever is saved within the envelope's bound was printed without a cut. */
  lemma SmallIsSavable(st: State<Bits>)
    requires Keyed(st) && |Serialize(st)| < ROOM
    ensures Savable(st)
  {
    StatePartsOf(st);
    StateStout(st, StateParts(st));
    StateLayout(st);
    assert StateFormat == Rec(Layouts(StateParts(st)));
    RecordRoom(StateParts(st), StateFormat);
    StateFits(st);
  }

  // ---------- One worker with a long name ----------

  const LARGEST: nat := 20 * 1024 * 1024

  lemma {:induction false} FieldsAtMost(fs: seq<Format>, vs: seq<Value>)
    requires |fs| == |vs| && forall i :: 0 <= i < |fs| ==> |Print(fs[i], vs[i])| <= LARGEST
    ensures |PrintFields(fs, vs)| <= LARGEST * |fs|
  {
    if fs != [] {
      FieldsAtMost(fs[1..], vs[1..]);
    }
  }

  lemma ThreeFields(fs: seq<Format>, vs: seq<Value>)
    requires |fs| == |vs| <= 3
    ensures |fs| == 1 ==> |PrintFields(fs, vs)| == |Print(fs[0], vs[0])|
    ensures |fs| == 2 ==> |PrintFields(fs, vs)| == |Print(fs[0], vs[0])| + |Print(fs[1], vs[1])|
    ensures |fs| == 3 ==>
              |PrintFields(fs, vs)| == |Print(fs[0], vs[0])| + |Print(fs[1], vs[1])| + |Print(fs[2], vs[2])|
  {
    assert PrintFields([], []) == [];
    if |fs| > 1 {
      assert fs[1..][1..] == fs[2..] && vs[1..][1..] == vs[2..];
    }
    if |fs| > 2 {
      assert fs[2..][1..] == fs[3..] && vs[2..][1..] == vs[3..];
    }
  }

  lemma PairPrinted(a: u64, b: u64)
    ensures var p := Numbers([a, b]); |Print(p.Layout(), p.Content())| == 16
  {
    ThreeFields(Repeat(2, U64), Mapped([a, b], Number));
  }

  lemma NamePrinted(name: Text)
    ensures var p := Strings([name]); |Print(p.Layout(), p.Content())| == 8 + |name|
  {
    ThreeFields(Repeat(1, Str), Mapped([name], Letters));
  }

  lemma WorkerPrinted(id: u64, w: Worker)
    ensures |Print(WorkerFormat, RecordValue(WorkerParts(id, w)))| == 25 + |w.name|
  {
    WorkerEntry(id, w);
    var ps := WorkerParts(id, w);
    PairPrinted(id, w.boot);
    NamePrinted(w.name);
    ThreeFields(Layouts(ps), Contents(ps));
    assert WorkerFormat == Rec(Layouts(ps));
  }

  /** The part prints at most that much. */
  predicate Small(p: Part) {
    |Print(p.Layout(), p.Content())| <= LARGEST
  }

  lemma EmptyVector(p: Part)
    requires p.RecordVec? && p.vs == []
    ensures Small(p)
  {
    assert PrintItems(p.e, []) == [];
  }

  lemma EmptySection<R>(m: map<u64, R>, parts: (u64, R) -> seq<Part>, format: Format)
    requires m == map[]
    ensures Small(RecordVec(format, Section(Entries(m), parts)))
  {
    EmptyVector(RecordVec(format, Section(Entries(m), parts)));
  }

  lemma OneItem(p: Part, v: Value)
    requires p.RecordVec? && p.vs == [v]
    ensures |Print(p.Layout(), p.Content())| == 4 + |Print(p.e, v)|
  {
    assert [v][1..] == [];
    assert PrintItems(p.e, [v]) == Print(p.e, v) + PrintItems(p.e, []);
  }

  /** An observatory that knows one worker. */
  function OneWorker(name: Text): State<Bits> {
    Fresh<Bits>(1, 1).(workers := map[1 := Worker(1, name, true)])
  }

  lemma OneWorkerEntries(name: Text)
    ensures Entries(OneWorker(name).workers) == [(1, Worker(1, name, true))]
  {
    EntriesOf(OneWorker(name).workers);
  }

  lemma IdentityPrinted(p: Part)
    requires (p.Octets? && |p.os| == 1) || (p.Numbers? && |p.ns| == 3)
    ensures Small(p)
  {
    ThreeFields(p.Layout().fields, p.Content().items);
  }

  lemma OneWorkerPart(name: Text, p: Part)
    requires p == RecordVec(WorkerFormat, Section(Entries(OneWorker(name).workers), WorkerParts))
    ensures |name| + 29 <= LARGEST ==> Small(p)
  {
    OneWorkerEntries(name);
    var w := Worker(1, name, true);
    assert p.vs == [RecordValue(WorkerParts(1, w))];
    WorkerPrinted(1, w);
    OneItem(p, RecordValue(WorkerParts(1, w)));
  }

  lemma OneWorkerParts(name: Text, st: State<Bits>, ps: seq<Part>)
    requires |name| + 29 <= LARGEST && st == OneWorker(name) && PartsOf(st, ps)
    ensures forall g :: 0 <= g < |ps| ==> Small(ps[g])
  {
    IdentityPrinted(ps[0]);
    IdentityPrinted(ps[1]);
    EmptySection(st.sources, SourceParts, SourceFormat);
    OneWorkerPart(name, ps[3]);
    EmptySection(st.workloads, WorkloadParts, WorkloadFormat);
    EmptySection(st.baselines, BaselineParts, BaselineFormat);
    EmptySection(st.observations, ObservationParts, ObservationFormat);
    EmptySection(st.episodes, EpisodeParts, EpisodeFormat);
    EmptySection(st.comparisons, PairwiseParts, PairwiseFormat);
    NoRecoveries(ps[9]);
    TenOf(ps, Small);
  }

  lemma NoRecoveries(p: Part)
    requires p == RecordVec(RecoveryFormat, Mapped(Cells({}), RecoveryValue))
    ensures Small(p)
  {
    EmptyVector(p);
  }

  lemma SmallParts(ps: seq<Part>)
    requires forall g :: 0 <= g < |ps| ==> Small(ps[g])
    ensures |Print(Rec(Layouts(ps)), RecordValue(ps))| <= LARGEST * |ps|
  {
    var fs, vs := Layouts(ps), Contents(ps);
    forall g | 0 <= g < |ps| ensures |Print(fs[g], vs[g])| <= LARGEST {
      assert Small(ps[g]);
    }
    FieldsAtMost(fs, vs);
  }

  lemma OneWorkerSize(name: Text)
    requires |name| + 29 <= LARGEST
    ensures |Serialize(OneWorker(name))| <= 10 * LARGEST
  {
    var st := OneWorker(name);
    StatePartsOf(st);
    StateLayout(st);
    OneWorkerParts(name, st, StateParts(st));
    SmallParts(StateParts(st));
    assert StateFormat == Rec(Layouts(StateParts(st)));
  }
}

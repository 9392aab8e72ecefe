/** Saving and loading the state payload. */
module Payload {
  import opened Words
  import opened Domain
  import opened Codec
  import opened Records
  import opened Bounds
  import opened Ordering
  import opened StateCodec
  import opened Buffers

  ghost predicate Savable(st: State<Bits>) {
    Keyed(st) && StateWithin(st, WRITER)
  }

  lemma StateFits(st: State<Bits>)
    requires Keyed(st)
    ensures Fits(StateFormat, StateValue(st)) <==> StateWithin(st, READER)
    ensures Shaped(StateFormat, StateValue(st)) <==> StateWithin(st, WRITER)
  {
    StateMatches(st);
    StateLayout(st);
    RecordFits(StateParts(st), StateFormat, StateWithin(st, READER), StateWithin(st, WRITER));
  }

  /** The payload of any state; every collection is written, under a count cut to 32 bits. */
  function Serialize(st: State<Bits>): seq<u8> {
    Print(StateFormat, StateValue(st))
  }

  lemma SerializeEncodes(st: State<Bits>)
    requires Savable(st)
    ensures Shaped(StateFormat, StateValue(st)) && Serialize(st) == Encode(StateFormat, StateValue(st))
  {
    StateFits(st);
    PrintEncodes(StateFormat, StateValue(st));
  }

  datatype Loaded = Loaded(state: State<Bits>, ok: bool)

  const PAYLOAD_VERSION: u8 := 1

  /**
    The version gate leaves the state alone. Past it every collection is replaced by what could be
    read before the first error, and the matrix only gains cells.
   */
  function Load(payload: seq<u8>, st: State<Bits>): Loaded {
    if payload == [] || payload[0] != PAYLOAD_VERSION then
      Loaded(st, false)
    else
      var r := Get(StateFormat, payload, Start());
      Loaded(StateOf(r.value, st.matrix), r.rest.ok)
  }

  // ---------- The first byte ----------

  lemma LeadingField(fs: seq<Format>, vs: seq<Value>, first: Format, v: Value, b: u8)
    requires |vs| == |fs| > 0 && Shaped(Rec(fs), Items(vs)) && fs[0] == first && vs[0] == v
    requires Shaped(first, v) && Encode(first, v) == [b]
    ensures Encode(Rec(fs), Items(vs)) != [] && Encode(Rec(fs), Items(vs))[0] == b
  {
    assert EncodeFields(fs, vs) == [b] + EncodeFields(fs[1..], vs[1..]);
  }

  lemma VersionByte(v: Value)
    requires v == Items([Num(1)])
    ensures Shaped(Rec([U8]), v) && Encode(Rec([U8]), v) == [1]
  {
    Widths();
    var fs, vs := [U8], [Num(1)];
    assert fs[1..] == [] && vs[1..] == [];
    assert Shaped(fs[0], vs[0]) && FieldsShaped(fs[1..], vs[1..]);
    assert Encode(fs[0], vs[0]) == LittleEndian(1, BYTE) == [1];
    assert EncodeFields(fs, vs) == [1] + EncodeFields(fs[1..], vs[1..]);
  }

  lemma LeadingPart(st: State<Bits>)
    ensures StateFormat.fields != [] && StateFormat.fields[0] == Rec([U8])
    ensures StateValue(st).items != [] && StateValue(st).items[0] == Items([Num(1)])
  {
    assert Repeat(1, U8) == [U8];
    var ps := StateParts(st);
    assert ps[0].Content() == Items([Num(1)]) by {
      var one: seq<u8> := [1];
      assert Mapped(one, Octet) == [Num(1)];
    }
  }

  /** A payload starts with its version. */
  lemma FirstByte(st: State<Bits>)
    requires Savable(st)
    ensures |Serialize(st)| > 0 && Serialize(st)[0] == PAYLOAD_VERSION
  {
    SerializeEncodes(st);
    LeadingPart(st);
    VersionByte(Items([Num(1)]));
    LeadingField(StateFormat.fields, StateValue(st).items, Rec([U8]), Items([Num(1)]), 1);
  }

  // ---------- Round trip ----------

  /**
    What was saved loads exactly when it is within the reader's limits, and then it restores
    identity, epoch and all eight collections; the matrix gains the comparisons in id order.
   */
  lemma Restore(st: State<Bits>, into: State<Bits>)
    requires Savable(st)
    ensures Load(Serialize(st), into).ok <==> StateWithin(st, READER)
    ensures StateWithin(st, READER) ==>
              Load(Serialize(st), into).state == st.(matrix := SetAll(into.matrix, InOrder(st.comparisons)))
  {
    StateFits(st);
    SerializeEncodes(st);
    FirstByte(st);
    Whole(StateFormat, StateValue(st));
    if StateWithin(st, READER) {
      ReadsBack(StateParts(st));
      StateInverse(st, StateValue(st), into.matrix);
    }
  }

  /** Saving does not look at the matrix. */
  lemma MatrixNotSaved(st: State<Bits>, matrix: map<CellKey, Pairwise<Bits>>)
    ensures Serialize(st.(matrix := matrix)) == Serialize(st) && (Savable(st) ==> Savable(st.(matrix := matrix)))
  {
    assert StateParts(st.(matrix := matrix)) == StateParts(st);
  }

  /** Saving what was loaded gives the same bytes again. */
  lemma SaveLoadSave(st: State<Bits>, into: State<Bits>)
    requires Savable(st) && StateWithin(st, READER)
    ensures var back := Load(Serialize(st), into).state;
            Savable(back) && Serialize(back) == Serialize(st)
  {
    Restore(st, into);
    MatrixNotSaved(st, SetAll(into.matrix, InOrder(st.comparisons)));
  }

  /** Equal bytes come from states that are equal apart from the matrix. */
  lemma SerializeInjective(a: State<Bits>, b: State<Bits>)
    requires Savable(a) && StateWithin(a, READER) && Savable(b) && StateWithin(b, READER)
    requires Serialize(a) == Serialize(b)
    ensures a == b.(matrix := a.matrix)
  {
    Restore(a, a);
    Restore(b, a);
  }

  /** No strict prefix of a saved state loads. */
  lemma TruncationRejected(st: State<Bits>, into: State<Bits>, k: nat)
    requires Savable(st) && StateWithin(st, READER) && k < |Serialize(st)|
    ensures !Load(Serialize(st)[..k], into).ok
  {
    StateFits(st);
    SerializeEncodes(st);
    PrefixRejected(StateFormat, StateValue(st), k);
  }

  /** Bytes after a complete payload go unnoticed, whatever produced it. */
  lemma TrailingBytesUnread(payload: seq<u8>, t: seq<u8>, into: State<Bits>)
    requires Load(payload, into).ok
    ensures Load(payload + t, into) == Load(payload, into)
  {
    GetLocal(StateFormat, payload, t, Start());
  }

  // ---------- What a load does to the state it finds ----------

  lemma {:induction false} SetAllKeeps<D>(matrix: map<CellKey, Pairwise<D>>, ps: seq<Pairwise<D>>, k: CellKey)
    ensures k in SetAll(matrix, ps) <==> k in matrix || exists p :: p in ps && KeyOf(p) == k
    ensures k in matrix && (forall p :: p in ps ==> KeyOf(p) != k) ==> SetAll(matrix, ps)[k] == matrix[k]
    decreases |ps|
  {
    if ps != [] {
      var n := |ps| - 1;
      SetAllKeeps(matrix, ps[..n], k);
      assert ps == ps[..n] + [ps[n]];
    }
  }

  /** Old cells survive every load, failed or not: the matrix is never cleared. */
  lemma LoadKeepsCells(payload: seq<u8>, st: State<Bits>)
    ensures st.matrix.Keys <= Load(payload, st).state.matrix.Keys
  {
    var v := Get(StateFormat, payload, Start()).value;
    forall k | k in st.matrix ensures k in Load(payload, st).state.matrix {
      SetAllKeeps(st.matrix, Comparisons(RecordList(v, 8)), k);
    }
  }

  /** Apart from the matrix, the outcome of a load past the version gate ignores the old state. */
  lemma LoadForgets(payload: seq<u8>, a: State<Bits>, b: State<Bits>)
    requires payload != [] && payload[0] == PAYLOAD_VERSION
    ensures Load(payload, a).ok == Load(payload, b).ok
    ensures Load(payload, a).state == Load(payload, b).state.(matrix := Load(payload, a).state.matrix)
  {
  }

  /** A payload leaves every state alone exactly when it does not pass the version gate. */
  lemma LeavesAloneExactly(payload: seq<u8>)
    ensures (forall st :: Load(payload, st) == Loaded(st, false)) <==> payload == [] || payload[0] != PAYLOAD_VERSION
  {
    if payload != [] && payload[0] == PAYLOAD_VERSION {
      var a, b: State<Bits> := Fresh(1, 1), Fresh(2, 1);
      LoadForgets(payload, a, b);
      assert !(Load(payload, a) == Loaded(a, false) && Load(payload, b) == Loaded(b, false));
    }
  }

  lemma VectorStarved(bound: nat, e: Format, bs: seq<u8>, c: Cursor)
    requires c.pos == |bs|
    ensures Get(Vec(bound, e), bs, c) == Read(Items([]), Cursor(|bs|, false))
  {
    assert bs[c.pos..] == [];
    var d := Cursor(|bs|, false);
    assert GetUint(COUNT, bs, c) == Read(0, d);
    assert GetItems(e, 0, bs, d) == Read([], d);
  }

  lemma {:induction false} NothingLeft(fs: seq<Format>, bs: seq<u8>, c: Cursor, i: nat)
    requires c.pos == |bs| && i < |fs| && fs[i].Vec?
    ensures GetFields(fs, bs, c).value[i] == Items([])
    ensures !GetFields(fs, bs, c).rest.ok
  {
    if i == 0 {
      VectorStarved(fs[0].bound, fs[0].elem, bs, c);
    } else {
      NothingLeft(fs[1..], bs, Get(fs[0], bs, c).rest, i - 1);
    }
  }

  lemma NothingAfterFirst(fs: seq<Format>, bs: seq<u8>, i: nat)
    requires 0 < i < |fs| && fs[i].Vec? && Get(fs[0], bs, Start()).rest.pos == |bs|
    ensures var r := Get(Rec(fs), bs, Start());
            RecordList(r.value, i) == [] && !r.rest.ok
  {
    NothingLeft(fs[1..], bs, Get(fs[0], bs, Start()).rest, i - 1);
  }

  lemma VersionConsumed(bs: seq<u8>)
    requires |bs| == 1
    ensures Get(StateFormat.fields[0], bs, Start()).rest.pos == 1
  {
    var fs := Repeat(1, U8);
    assert GetFields(fs, bs, Start()).rest == GetFields(fs[1..], bs, Get(fs[0], bs, Start()).rest).rest;
  }

  lemma SectionsOfNothing(v: Value, matrix: map<CellKey, Pairwise<Bits>>)
    requires forall g: nat :: 2 <= g < 10 ==> RecordList(v, g) == []
    ensures StateOf(v, matrix)
              == State(N(v, 1, 0), N(v, 1, 1), N(v, 1, 2), map[], map[], map[], map[], map[], map[], map[], matrix, {})
  {
  }

  /** A load that fails past the version gate is not undone: this one empties every collection. */
  lemma FailedLoadEmpties(st: State<Bits>)
    ensures var after := Load([PAYLOAD_VERSION], st);
            !after.ok && after.state == Fresh<Bits>(after.state.id, after.state.generation)
                                        .(epoch := after.state.epoch, matrix := st.matrix)
  {
    var bs: seq<u8> := [PAYLOAD_VERSION];
    VersionConsumed(bs);
    var r := Get(StateFormat, bs, Start());
    forall g: nat | 2 <= g < 10 ensures RecordList(r.value, g) == [] && !r.rest.ok {
      NothingAfterFirst(StateFormat.fields, bs, g);
    }
    assert !r.rest.ok by {
      NothingAfterFirst(StateFormat.fields, bs, 2);
    }
    SectionsOfNothing(r.value, st.matrix);
  }

  // ---------- The observatory as the codec sees it ----------

  /** Emplace the records of one section in the order read. */
  method EmplaceSection<R>(vs: seq<Value>, of: Value -> R) returns (m: map<u64, R>)
    ensures m == SectionMap(vs, of)
  {
    m := map[];
    var es := Parsed(vs, of);
    for i := 0 to |es|
      invariant m == EmplaceAll(es[..i])
    {
      assert es[..i + 1][..i] == es[..i];
      if es[i].0 !in m {
        m := m[es[i].0 := es[i].1];
      }
    }
    assert es[..|es|] == es;
  }

  method InsertRecoveries(vs: seq<Value>) returns (s: set<CellKey>)
    ensures s == RecoverySet(vs)
  {
    s := {};
    for i := 0 to |vs|
      invariant s == RecoverySet(vs[..i])
    {
      assert vs[..i + 1] == vs[..i] + [vs[i]];
      s := s + {RecoveryOf(vs[i])};
      InsertOne(vs, i);
    }
    assert vs[..|vs|] == vs;
  }

  lemma InsertOne(vs: seq<Value>, i: nat)
    requires i < |vs|
    ensures RecoverySet(vs[..i + 1]) == RecoverySet(vs[..i]) + {RecoveryOf(vs[i])}
  {
    var a, b := vs[..i], vs[..i + 1];
    forall k | k in RecoverySet(b) ensures k in RecoverySet(a) + {RecoveryOf(vs[i])} {
      var j :| 0 <= j < |b| && RecoveryOf(b[j]) == k;
      if j < i {
        assert a[j] == b[j];
      }
    }
    forall k | k in RecoverySet(a) + {RecoveryOf(vs[i])} ensures k in RecoverySet(b) {
      if k in RecoverySet(a) {
        var j :| 0 <= j < |a| && RecoveryOf(a[j]) == k;
        assert b[j] == a[j];
      } else {
        assert RecoveryOf(b[i]) == k;
      }
    }
  }

  /** The matrix is not cleared first: each comparison overwrites or adds its cell. */
  method SetCells(matrix: map<CellKey, Pairwise<Bits>>, ps: seq<Pairwise<Bits>>)
    returns (m: map<CellKey, Pairwise<Bits>>)
    ensures m == SetAll(matrix, ps)
  {
    m := matrix;
    for i := 0 to |ps|
      invariant m == SetAll(matrix, ps[..i])
    {
      assert ps[..i + 1][..i] == ps[..i];
      m := m[KeyOf(ps[i]) := ps[i]];
    }
    assert ps[..|ps|] == ps;
  }

  /** Every collection is replaced, one section after the other; the matrix is added to. */
  method ReplaceAll(v: Value, matrix: map<CellKey, Pairwise<Bits>>) returns (st: State<Bits>)
    ensures st == StateOf(v, matrix)
  {
    var sources := EmplaceSection(RecordList(v, 2), SourceOf);
    var workers := EmplaceSection(RecordList(v, 3), WorkerOf);
    var workloads := EmplaceSection(RecordList(v, 4), WorkloadOf);
    var baselines := EmplaceSection(RecordList(v, 5), BaselineOf);
    var observations := EmplaceSection(RecordList(v, 6), ObservationOf);
    var episodes := EmplaceSection(RecordList(v, 7), EpisodeOf);
    var comparisons := EmplaceSection(RecordList(v, 8), PairwiseOf);
    var cells := SetCells(matrix, Comparisons(RecordList(v, 8)));
    var recoveries := InsertRecoveries(RecordList(v, 9));
    st := State(N(v, 1, 0), N(v, 1, 1), N(v, 1, 2), sources, workers, workloads, baselines, observations, episodes,
                comparisons, cells, recoveries);
  }

  /** Doubles are their bit patterns here; the operations on measured values are in Observing. */
  class Archive {
    var id: u64
    var generation: u64
    var epoch: u64
    var sources: map<u64, Source>
    var workers: map<u64, Worker>
    var workloads: map<u64, Workload>
    var baselines: map<u64, Baseline<Bits>>
    var observations: map<u64, Observation<Bits>>
    var episodes: map<u64, Episode<Bits>>
    var comparisons: map<u64, Pairwise<Bits>>
    var matrix: map<CellKey, Pairwise<Bits>>
    var recoveries: set<CellKey>

    function Contents(): State<Bits>
      reads this
    {
      State(id, generation, epoch, sources, workers, workloads, baselines, observations, episodes,
            comparisons, matrix, recoveries)
    }

    constructor (id: u64, generation: u64)
      ensures Contents() == Fresh(id, generation)
    {
      this.id, this.generation, epoch := id, generation, 1;
      sources, workers, workloads, baselines, observations := map[], map[], map[], map[], map[];
      episodes, comparisons, matrix, recoveries := map[], map[], map[], {};
    }

    method SerializeState() returns (bytes: seq<u8>)
      ensures bytes == Serialize(Contents())
    {
      var w := new Writer();
      w.Put(StateFormat, StateValue(Contents()));
      bytes := w.buf;
      assert bytes == [] + Serialize(Contents());
    }

    method DeserializeState(payload: seq<u8>) returns (ok: bool)
      modifies this
      ensures Loaded(Contents(), ok) == Load(payload, old(Contents()))
    {
      if payload == [] || payload[0] != PAYLOAD_VERSION {
        return false;
      }
      var r := new Reader(payload);
      var v := r.Next(StateFormat);
      var st := ReplaceAll(v, matrix);
      Install(st);
      ok := r.ok;
    }

    method InstallRegistries(st: State<Bits>)
      modifies `id, `generation, `epoch, `sources, `workers, `workloads
      ensures id == st.id && generation == st.generation && epoch == st.epoch
      ensures sources == st.sources && workers == st.workers && workloads == st.workloads
    {
      id, generation, epoch := st.id, st.generation, st.epoch;
      sources, workers, workloads := st.sources, st.workers, st.workloads;
    }

    method InstallEvidence(st: State<Bits>)
      modifies `baselines, `observations, `recoveries
      ensures baselines == st.baselines && observations == st.observations && recoveries == st.recoveries
    {
      baselines, observations, recoveries := st.baselines, st.observations, st.recoveries;
    }

    method InstallFindings(st: State<Bits>)
      modifies `episodes, `comparisons, `matrix
      ensures episodes == st.episodes && comparisons == st.comparisons && matrix == st.matrix
    {
      episodes, comparisons, matrix := st.episodes, st.comparisons, st.matrix;
    }

    method Install(st: State<Bits>)
      modifies this
      ensures Contents() == st
    {
      InstallRegistries(st);
      InstallEvidence(st);
      InstallFindings(st);
    }
  }
}

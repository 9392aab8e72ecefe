/** The bytes that are written, field by field in the order of the source. */
module FieldOrder {
  import opened Words
  import opened Domain
  import opened Codec
  import opened Records
  import opened Ordering
  import opened StateCodec
  import opened Payload
  import opened Messages
  import opened Delimiting

  // ---------- What the writer's calls append ----------

  const FOUR: nat := 4
  const EIGHT: nat := 8

  function U8Of(n: u8): seq<u8> {
    [n]
  }

  function U32Of(n: nat): seq<u8> {
    LittleEndian(n, FOUR)
  }

  function U64Of(n: u64): seq<u8> {
    LittleEndian(n, EIGHT)
  }

  /** Two's complement: the remainder modulo 2^64. */
  function I64Of(i: i64): seq<u8> {
    U64Of(i % 0x1_0000_0000_0000_0000)
  }

  function FlagOf(b: bool): seq<u8> {
    U8Of(if b then 1 else 0)
  }

  function TextOf(s: Text): seq<u8> {
    LittleEndian(|s|, EIGHT) + s
  }

  /** Seventeen capabilities as a mask; bit k is flag k. */
  function CapsOf(c: Capabilities): seq<u8> {
    U32Of(MaskOf(c, CAPABILITIES))
  }

  function MaskOf(c: seq<bool>, k: nat): nat
    requires k <= |c|
  {
    if k == 0 then 0 else MaskOf(c, k - 1) + if c[k - 1] then Pow2(k - 1) else 0
  }

  // ---------- Records ----------

  function SourceBytes(id: u64, s: Source): seq<u8> {
    (U64Of(id) + U64Of(s.generation)) + TextOf(s.name) + CapsOf(s.caps) + U8Of(s.freshness as int)
  }

  function WorkerBytes(id: u64, w: Worker): seq<u8> {
    (U64Of(id) + U64Of(w.boot)) + TextOf(w.name) + FlagOf(w.connected)
  }

  function WorkloadBytes(id: u64, w: Workload): seq<u8> {
    (U64Of(id) + U64Of(w.generation))
    + (TextOf(w.name) + TextOf(w.config) + TextOf(w.problemSize))
    + (U64Of(w.deviceId) + U64Of(w.deviceGeneration) + U64Of(w.workerId) + U64Of(w.workerBoot))
    + (TextOf(w.policyGeneration) + TextOf(w.runtimeGeneration) + TextOf(w.kernelGeneration))
    + (U64Of(w.topologyGeneration) + I64Of(w.startMs) + I64Of(w.endMs) + U64Of(w.attemptId))
    + TextOf(w.priorityClass)
  }

  function BaselineBytes(id: u64, b: Baseline<Bits>): seq<u8> {
    (U64Of(id) + U64Of(b.generation))
    + U8Of(b.kind as int)
    + (U64Of(b.workloadId) + U64Of(b.workloadGeneration) + U64Of(b.deviceId) + U64Of(b.deviceGeneration)
       + U64Of(b.workerId) + U64Of(b.workerBoot))
    + (TextOf(b.config) + TextOf(b.problemSize) + TextOf(b.runtimeGeneration) + TextOf(b.kernelGeneration)
       + TextOf(b.policyGeneration))
    + (U64Of(b.topologyGeneration) + U64Of(b.sourceGeneration) + U64Of(b.evidenceGeneration)
       + I64Of(b.timestampMs) + I64Of(b.intervalMs))
    + (U8Of(b.provenance as int) + U8Of(b.freshness as int))
    + (U64Of(b.sampleCount) + U64Of(b.variance) + U64Of(b.confidence) + U64Of(b.mean))
    + U8Of(b.metric as int)
    + FlagOf(b.valid)
  }

  /** The eleven numbers that open an observation. */
  function ObservationHead(id: u64, o: Observation<Bits>): seq<u8> {
    U64Of(id) + U64Of(o.generation) + U64Of(o.sourceId) + U64Of(o.sourceGeneration) + U64Of(o.workerId)
    + U64Of(o.workerBoot) + U64Of(o.workloadId) + U64Of(o.workloadGeneration) + U64Of(o.deviceId)
    + U64Of(o.deviceGeneration) + I64Of(o.timestampMs)
  }

  function ObservationBytes(id: u64, o: Observation<Bits>): seq<u8> {
    var m := o.measurement;
    ObservationHead(id, o)
    + U8Of(m.kind as int) + U64Of(m.value) + TextOf(m.units)
    + (U64Of(m.sampleCount) + U64Of(m.variance) + U64Of(m.p95))
    + FlagOf(m.hasP95)
    + (U8Of(o.provenance as int) + U8Of(o.freshness as int) + U8Of(o.health as int))
    + CapsOf(o.caps)
    + (U32Of(|o.peers|) + Concat(U64Of, o.peers))
    + (U32Of(|o.confounders|) + Concat(ConfounderByte, o.confounders))
  }

  function ConfounderByte(c: Confounder): seq<u8> {
    U8Of(c as int)
  }

  function DomainByte(d: InterferenceDomain): seq<u8> {
    U8Of(d as int)
  }

  function ProvenanceByte(p: Provenance): seq<u8> {
    U8Of(p as int)
  }

  function DeltaBytes(d: MetricDelta<Bits>): seq<u8> {
    U8Of(d.kind as int) + (U64Of(d.absolute) + U64Of(d.relative) + U64Of(d.sampleCount) + U64Of(d.variance))
  }

  function EvidenceBytes(e: Evidence): seq<u8> {
    (U64Of(e.id) + U64Of(e.generation))
    + (U8Of(e.provenance as int) + U8Of(e.strength as int) + U8Of(e.outcome as int))
    + TextOf(e.summary)
  }

  function EpisodeBytes(id: u64, e: Episode<Bits>): seq<u8> {
    (U64Of(id) + U64Of(e.generation) + I64Of(e.startMs) + I64Of(e.endMs))
    + FlagOf(e.open) + U64Of(e.affected)
    + (U32Of(|e.coRunning|) + Concat(U64Of, e.coRunning))
    + (U32Of(|e.domains|) + Concat(DomainByte, e.domains))
    + (U64Of(e.baselineId) + U64Of(e.degradation.sampleCount))
    + (U32Of(|e.degradation.deltas|) + Concat(DeltaBytes, e.degradation.deltas))
    + (U64Of(e.degradation.worst) + U64Of(e.confidence))
    + (U8Of(e.classification as int) + U8Of(e.provenance as int) + U8Of(e.freshness as int))
    + U64Of(e.epoch)
    + (U32Of(|e.evidence|) + Concat(EvidenceBytes, e.evidence))
  }

  function PairwiseBytes(id: u64, p: Pairwise<Bits>): seq<u8> {
    (U64Of(id) + U64Of(p.victim) + U64Of(p.neighbor))
    + U8Of(p.domain as int)
    + (U64Of(p.baselineId) + U64Of(p.degradation.sampleCount))
    + (U32Of(|p.degradation.deltas|) + Concat(DeltaBytes, p.degradation.deltas))
    + (U64Of(p.degradation.worst) + U64Of(p.confidence) + U64Of(p.sampleCount))
    + (U8Of(p.freshness as int) + U8Of(p.outcome as int) + U8Of(p.attribution as int))
    + (U64Of(p.episodeId) + U64Of(p.comparisonId) + U64Of(p.comparisonGeneration) + U64Of(p.epoch))
    + (U32Of(|p.evidenceSources|) + Concat(ProvenanceByte, p.evidenceSources))
    + FlagOf(p.confounded)
    + (U32Of(|p.unresolved|) + Concat(ConfounderByte, p.unresolved))
  }

  function RecoveryBytes(k: CellKey): seq<u8> {
    (U64Of(k.victim) + U64Of(k.neighbor)) + U8Of(k.domain as int)
  }

  // ---------- Lists of known length ----------

  lemma OnePut<T>(put: T -> seq<u8>, x0: T)
    ensures Concat(put, [x0])
         == put(x0)
  {
    assert [x0][1..] == [] && put(x0) + [] == put(x0);
  }

  lemma TwoPut<T>(put: T -> seq<u8>, x0: T, x1: T)
    ensures Concat(put, [x0, x1])
         == put(x0) + put(x1)
  {
    OnePut(put, x0);
    ConcatAppend(put, [x0], x1);
    assert [x0] + [x1] == [x0, x1];
  }

  lemma ThreePut<T>(put: T -> seq<u8>, x0: T, x1: T, x2: T)
    ensures Concat(put, [x0, x1, x2])
         == put(x0) + put(x1) + put(x2)
  {
    TwoPut(put, x0, x1);
    ConcatAppend(put, [x0, x1], x2);
    assert [x0, x1] + [x2] == [x0, x1, x2];
  }

  lemma FourPut<T>(put: T -> seq<u8>, x0: T, x1: T, x2: T, x3: T)
    ensures Concat(put, [x0, x1, x2, x3])
         == put(x0) + put(x1) + put(x2) + put(x3)
  {
    ThreePut(put, x0, x1, x2);
    ConcatAppend(put, [x0, x1, x2], x3);
    assert [x0, x1, x2] + [x3] == [x0, x1, x2, x3];
  }

  lemma FivePut<T>(put: T -> seq<u8>, x0: T, x1: T, x2: T, x3: T, x4: T)
    ensures Concat(put, [x0, x1, x2, x3, x4])
         == put(x0) + put(x1) + put(x2) + put(x3) + put(x4)
  {
    FourPut(put, x0, x1, x2, x3);
    ConcatAppend(put, [x0, x1, x2, x3], x4);
    assert [x0, x1, x2, x3] + [x4] == [x0, x1, x2, x3, x4];
  }

  lemma SixPut<T>(put: T -> seq<u8>, x0: T, x1: T, x2: T, x3: T, x4: T, x5: T)
    ensures Concat(put, [x0, x1, x2, x3, x4, x5])
         == put(x0) + put(x1) + put(x2) + put(x3) + put(x4) + put(x5)
  {
    FivePut(put, x0, x1, x2, x3, x4);
    ConcatAppend(put, [x0, x1, x2, x3, x4], x5);
    assert [x0, x1, x2, x3, x4] + [x5] == [x0, x1, x2, x3, x4, x5];
  }

  lemma SevenPut<T>(put: T -> seq<u8>, x0: T, x1: T, x2: T, x3: T, x4: T, x5: T, x6: T)
    ensures Concat(put, [x0, x1, x2, x3, x4, x5, x6])
         == put(x0) + put(x1) + put(x2) + put(x3) + put(x4) + put(x5) + put(x6)
  {
    SixPut(put, x0, x1, x2, x3, x4, x5);
    ConcatAppend(put, [x0, x1, x2, x3, x4, x5], x6);
    assert [x0, x1, x2, x3, x4, x5] + [x6] == [x0, x1, x2, x3, x4, x5, x6];
  }

  lemma EightPut<T>(put: T -> seq<u8>, x0: T, x1: T, x2: T, x3: T, x4: T, x5: T, x6: T, x7: T)
    ensures Concat(put, [x0, x1, x2, x3, x4, x5, x6, x7])
         == put(x0) + put(x1) + put(x2) + put(x3) + put(x4) + put(x5) + put(x6) + put(x7)
  {
    SevenPut(put, x0, x1, x2, x3, x4, x5, x6);
    ConcatAppend(put, [x0, x1, x2, x3, x4, x5, x6], x7);
    assert [x0, x1, x2, x3, x4, x5, x6] + [x7] == [x0, x1, x2, x3, x4, x5, x6, x7];
  }

  lemma NinePut<T>(put: T -> seq<u8>, x0: T, x1: T, x2: T, x3: T, x4: T, x5: T, x6: T, x7: T, x8: T)
    ensures Concat(put, [x0, x1, x2, x3, x4, x5, x6, x7, x8])
         == put(x0) + put(x1) + put(x2) + put(x3) + put(x4) + put(x5) + put(x6) + put(x7) + put(x8)
  {
    EightPut(put, x0, x1, x2, x3, x4, x5, x6, x7);
    ConcatAppend(put, [x0, x1, x2, x3, x4, x5, x6, x7], x8);
    assert [x0, x1, x2, x3, x4, x5, x6, x7] + [x8] == [x0, x1, x2, x3, x4, x5, x6, x7, x8];
  }

  lemma TenPut<T>(put: T -> seq<u8>, x0: T, x1: T, x2: T, x3: T, x4: T, x5: T, x6: T, x7: T, x8: T, x9: T)
    ensures Concat(put, [x0, x1, x2, x3, x4, x5, x6, x7, x8, x9])
         == put(x0) + put(x1) + put(x2) + put(x3) + put(x4) + put(x5) + put(x6) + put(x7) + put(x8) + put(x9)
  {
    NinePut(put, x0, x1, x2, x3, x4, x5, x6, x7, x8);
    ConcatAppend(put, [x0, x1, x2, x3, x4, x5, x6, x7, x8], x9);
    assert [x0, x1, x2, x3, x4, x5, x6, x7, x8] + [x9] == [x0, x1, x2, x3, x4, x5, x6, x7, x8, x9];
  }

  lemma ElevenPut<T>(put: T -> seq<u8>, x0: T, x1: T, x2: T, x3: T, x4: T, x5: T, x6: T, x7: T, x8: T, x9: T, x10: T)
    ensures Concat(put, [x0, x1, x2, x3, x4, x5, x6, x7, x8, x9, x10])
         == put(x0) + put(x1) + put(x2) + put(x3) + put(x4) + put(x5) + put(x6) + put(x7) + put(x8) + put(x9) + put(x10)
  {
    TenPut(put, x0, x1, x2, x3, x4, x5, x6, x7, x8, x9);
    ConcatAppend(put, [x0, x1, x2, x3, x4, x5, x6, x7, x8, x9], x10);
    assert [x0, x1, x2, x3, x4, x5, x6, x7, x8, x9] + [x10] == [x0, x1, x2, x3, x4, x5, x6, x7, x8, x9, x10];
  }

  // ---------- What a part of a record prints ----------

  function PartBytes(p: Part): seq<u8> {
    Print(p.Layout(), p.Content())
  }

  lemma {:induction false} FieldsSpelled<T>(fs: seq<Format>, vs: seq<Value>, put: T -> seq<u8>, xs: seq<T>)
    requires |fs| == |vs| == |xs| && forall i :: 0 <= i < |xs| ==> Print(fs[i], vs[i]) == put(xs[i])
    ensures PrintFields(fs, vs) == Concat(put, xs)
    decreases |xs|
  {
    if xs != [] {
      FieldsSpelled(fs[1..], vs[1..], put, xs[1..]);
    }
  }

  lemma {:induction false} ItemsSpelled<T>(e: Format, vs: seq<Value>, put: T -> seq<u8>, xs: seq<T>)
    requires |vs| == |xs| && forall i :: 0 <= i < |xs| ==> Print(e, vs[i]) == put(xs[i])
    ensures PrintItems(e, vs) == Concat(put, xs)
    decreases |xs|
  {
    if xs != [] {
      ItemsSpelled(e, vs[1..], put, xs[1..]);
    }
  }

  lemma RecordSpelled(ps: seq<Part>, format: Format)
    requires format.Rec? && format.fields == Layouts(ps)
    ensures Print(format, RecordValue(ps)) == Concat(PartBytes, ps)
  {
    FieldsSpelled(Layouts(ps), Contents(ps), PartBytes, ps);
  }

  lemma {:induction false} SameBytes(os: seq<u8>)
    ensures Concat(U8Of, os) == os
  {
    if os != [] {
      SameBytes(os[1..]);
    }
  }

  lemma NumbersSpelled(ns: seq<u64>)
    ensures PartBytes(Numbers(ns)) == Concat(U64Of, ns)
  {
    FieldsSpelled(Repeat(|ns|, U64), Mapped(ns, Number), U64Of, ns);
  }

  lemma OneByte(b: u8)
    ensures LittleEndian(b, BYTE) == [b]
  {
  }

  lemma OctetsSpelled(os: seq<u8>)
    ensures PartBytes(Octets(os)) == os
  {
    forall i | 0 <= i < |os| ensures Print(U8, Mapped(os, Octet)[i]) == U8Of(os[i]) {
      OneByte(os[i]);
    }
    FieldsSpelled(Repeat(|os|, U8), Mapped(os, Octet), U8Of, os);
    SameBytes(os);
  }

  lemma TripleSpelled(a: u8, b: u8, c: u8)
    ensures PartBytes(Octets([a])) == U8Of(a)
    ensures PartBytes(Octets([a, b])) == U8Of(a) + U8Of(b)
    ensures PartBytes(Octets([a, b, c])) == U8Of(a) + U8Of(b) + U8Of(c)
  {
    OctetsSpelled([a]);
    OctetsSpelled([a, b]);
    OctetsSpelled([a, b, c]);
  }

  lemma StringsSpelled(ss: seq<Text>)
    ensures PartBytes(Strings(ss)) == Concat(TextOf, ss)
  {
    FieldsSpelled(Repeat(|ss|, Str), Mapped(ss, Letters), TextOf, ss);
  }

  lemma SwitchSpelled(b: bool)
    ensures PartBytes(Switch(b)) == FlagOf(b)
  {
    OneByte(if b then 1 else 0);
  }

  lemma {:induction false} PackedLast(bs: seq<bool>, b: bool)
    ensures PackBits(bs + [b]) == PackBits(bs) + if b then Pow2(|bs|) else 0
  {
    if bs == [] {
      assert (bs + [b])[1..] == [];
    } else {
      PackedLast(bs[1..], b);
      assert (bs + [b])[1..] == bs[1..] + [b];
    }
  }

  lemma {:induction false} PackedIsMask(c: seq<bool>, k: nat)
    requires k <= |c|
    ensures PackBits(c[..k]) == MaskOf(c, k)
    decreases k
  {
    if k > 0 {
      PackedIsMask(c, k - 1);
      PackedLast(c[..k - 1], c[k - 1]);
      assert c[..k] == c[..k - 1] + [c[k - 1]];
    }
  }

  lemma CapsSpelled(c: Capabilities)
    ensures PartBytes(Caps(c)) == CapsOf(c)
  {
    PackedIsMask(c, CAPABILITIES);
    assert c[..CAPABILITIES] == c;
  }

  lemma VectorSpelled<T>(bound: nat, e: Format, vs: seq<Value>, put: T -> seq<u8>, xs: seq<T>)
    requires |vs| == |xs| && forall i :: 0 <= i < |xs| ==> Print(e, vs[i]) == put(xs[i])
    ensures Print(Vec(bound, e), Items(vs)) == U32Of(|xs|) + Concat(put, xs)
  {
    ItemsSpelled(e, vs, put, xs);
  }

  lemma NumberPrinted(n: u64)
    ensures Print(U64, Number(n)) == U64Of(n)
  {
  }

  lemma NumbersPrinted(bound: nat, ns: seq<u64>)
    ensures Print(Vec(bound, U64), Items(Mapped(ns, Number))) == U32Of(|ns|) + Concat(U64Of, ns)
  {
    var vs := Mapped(ns, Number);
    forall i | 0 <= i < |ns| ensures Print(U64, vs[i]) == U64Of(ns[i]) {
      NumberPrinted(ns[i]);
    }
    VectorSpelled(bound, U64, vs, U64Of, ns);
  }

  lemma NumberVecShape(ns: seq<u64>)
    ensures NumberVec(ns).Layout() == Vec(COUNT_BOUND, U64) && Peers(ns).Layout() == Vec(COUNT_MAX, U64)
    ensures NumberVec(ns).Content() == Items(Mapped(ns, Number)) == Peers(ns).Content()
  {
  }

  lemma VecPrinted(p: Part, f: Format, v: Value, bs: seq<u8>)
    requires p.Layout() == f && p.Content() == v && Print(f, v) == bs
    ensures PartBytes(p) == bs
  {
  }

  lemma NumberVecSpelled(ns: seq<u64>)
    ensures PartBytes(NumberVec(ns)) == U32Of(|ns|) + Concat(U64Of, ns)
    ensures PartBytes(Peers(ns)) == U32Of(|ns|) + Concat(U64Of, ns)
  {
    var v, bs := Items(Mapped(ns, Number)), U32Of(|ns|) + Concat(U64Of, ns);
    NumberVecShape(ns);
    NumbersPrinted(COUNT_BOUND, ns);
    NumbersPrinted(COUNT_MAX, ns);
    VecPrinted(NumberVec(ns), Vec(COUNT_BOUND, U64), v, bs);
    VecPrinted(Peers(ns), Vec(COUNT_MAX, U64), v, bs);
  }

  lemma OctetVecSpelled<T>(os: seq<u8>, put: T -> seq<u8>, xs: seq<T>)
    requires |os| == |xs| && forall i :: 0 <= i < |xs| ==> put(xs[i]) == [os[i]]
    ensures PartBytes(OctetVec(os)) == U32Of(|xs|) + Concat(put, xs)
  {
    forall i | 0 <= i < |os| ensures Print(U8, Mapped(os, Octet)[i]) == put(xs[i]) {
      OneByte(os[i]);
    }
    VectorSpelled(COUNT_BOUND, U8, Mapped(os, Octet), put, xs);
  }

  lemma ConfoundersSpelled(xs: seq<Confounder>)
    ensures PartBytes(OctetVec(ConfounderCodes(xs))) == U32Of(|xs|) + Concat(ConfounderByte, xs)
  {
    OctetVecSpelled(ConfounderCodes(xs), ConfounderByte, xs);
  }

  lemma DomainsSpelled(xs: seq<InterferenceDomain>)
    ensures PartBytes(OctetVec(DomainCodes(xs))) == U32Of(|xs|) + Concat(DomainByte, xs)
  {
    OctetVecSpelled(DomainCodes(xs), DomainByte, xs);
  }

  lemma ProvenancesSpelled(xs: seq<Provenance>)
    ensures PartBytes(OctetVec(ProvenanceCodes(xs))) == U32Of(|xs|) + Concat(ProvenanceByte, xs)
  {
    OctetVecSpelled(ProvenanceCodes(xs), ProvenanceByte, xs);
  }

  lemma RecordVecSpelled<T>(e: Format, vs: seq<Value>, put: T -> seq<u8>, xs: seq<T>)
    requires |vs| == |xs| && forall i :: 0 <= i < |xs| ==> Print(e, vs[i]) == put(xs[i])
    ensures PartBytes(RecordVec(e, vs)) == U32Of(|xs|) + Concat(put, xs)
  {
    VectorSpelled(COUNT_BOUND, e, vs, put, xs);
  }

  lemma Residue(i: int, m: int)
    requires -m <= i < m && m > 0
    ensures i % m == if i < 0 then i + m else i
  {
    if i < 0 {
      assert i == -1 * m + (i + m);
    }
  }

  lemma Signs(i: i64)
    ensures Unsigned(i) == i % 0x1_0000_0000_0000_0000
  {
    Residue(i, 0x1_0000_0000_0000_0000);
  }

  // ---------- What each record prints ----------

  lemma SourceSpelled(id: u64, s: Source)
    ensures Print(SourceFormat, RecordValue(SourceParts(id, s))) == SourceBytes(id, s)
  {
    var ps := SourceParts(id, s);
    ReadsBack(ps);
    SourceInverse(id, s, RecordValue(ps));
    RecordSpelled(ps, SourceFormat);
    FourPut(PartBytes, ps[0], ps[1], ps[2], ps[3]);
    NumbersSpelled([id, s.generation]);
    TwoPut(U64Of, id, s.generation);
    StringsSpelled([s.name]);
    OnePut(TextOf, s.name);
    CapsSpelled(s.caps);
    OctetsSpelled([s.freshness as int]);
  }

  lemma WorkerSpelled(id: u64, w: Worker)
    ensures Print(WorkerFormat, RecordValue(WorkerParts(id, w))) == WorkerBytes(id, w)
  {
    var ps := WorkerParts(id, w);
    ReadsBack(ps);
    WorkerInverse(id, w, RecordValue(ps));
    RecordSpelled(ps, WorkerFormat);
    ThreePut(PartBytes, ps[0], ps[1], ps[2]);
    NumbersSpelled([id, w.boot]);
    TwoPut(U64Of, id, w.boot);
    StringsSpelled([w.name]);
    OnePut(TextOf, w.name);
    SwitchSpelled(w.connected);
  }

  lemma RecoverySpelled(k: CellKey)
    ensures Print(RecoveryFormat, RecoveryValue(k)) == RecoveryBytes(k)
  {
    var ps := RecoveryParts(k);
    ReadsBack(ps);
    RecoveryInverse(k, RecordValue(ps));
    RecordSpelled(ps, RecoveryFormat);
    TwoPut(PartBytes, ps[0], ps[1]);
    NumbersSpelled([k.victim, k.neighbor]);
    TwoPut(U64Of, k.victim, k.neighbor);
    OctetsSpelled([k.domain as int]);
  }

  lemma DeltaSpelled(d: MetricDelta<Bits>)
    ensures Print(DeltaFormat, DeltaValue(d)) == DeltaBytes(d)
  {
    var ps := DeltaParts(d);
    DeltaReads(d);
    RecordSpelled(ps, DeltaFormat);
    TwoPut(PartBytes, ps[0], ps[1]);
    OctetsSpelled([d.kind as int]);
    NumbersSpelled([d.absolute, d.relative, d.sampleCount, d.variance]);
    FourPut(U64Of, d.absolute, d.relative, d.sampleCount, d.variance);
  }

  lemma EvidenceSpelled(e: Evidence)
    ensures Print(EvidenceFormat, EvidenceValue(e)) == EvidenceBytes(e)
  {
    var ps := EvidenceParts(e);
    EvidenceReads(e);
    RecordSpelled(ps, EvidenceFormat);
    ThreePut(PartBytes, ps[0], ps[1], ps[2]);
    NumbersSpelled([e.id, e.generation]);
    TwoPut(U64Of, e.id, e.generation);
    TripleSpelled(e.provenance as int, e.strength as int, e.outcome as int);
    StringsSpelled([e.summary]);
    OnePut(TextOf, e.summary);
  }

  lemma WorkloadSpelled(id: u64, w: Workload)
    ensures Print(WorkloadFormat, RecordValue(WorkloadParts(id, w))) == WorkloadBytes(id, w)
  {
    var ps := WorkloadParts(id, w);
    ReadsBack(ps);
    WorkloadInverse(id, w, RecordValue(ps));
    RecordSpelled(ps, WorkloadFormat);
    SixPut(PartBytes, ps[0], ps[1], ps[2], ps[3], ps[4], ps[5]);
    NumbersSpelled([id, w.generation]);
    TwoPut(U64Of, id, w.generation);
    StringsSpelled([w.name, w.config, w.problemSize]);
    ThreePut(TextOf, w.name, w.config, w.problemSize);
    NumbersSpelled([w.deviceId, w.deviceGeneration, w.workerId, w.workerBoot]);
    FourPut(U64Of, w.deviceId, w.deviceGeneration, w.workerId, w.workerBoot);
    StringsSpelled([w.policyGeneration, w.runtimeGeneration, w.kernelGeneration]);
    ThreePut(TextOf, w.policyGeneration, w.runtimeGeneration, w.kernelGeneration);
    NumbersSpelled([w.topologyGeneration, Unsigned(w.startMs), Unsigned(w.endMs), w.attemptId]);
    FourPut(U64Of, w.topologyGeneration, Unsigned(w.startMs), Unsigned(w.endMs), w.attemptId);
    Signs(w.startMs);
    Signs(w.endMs);
    StringsSpelled([w.priorityClass]);
    OnePut(TextOf, w.priorityClass);
  }

  lemma BaselineSpelled(id: u64, b: Baseline<Bits>)
    ensures Print(BaselineFormat, RecordValue(BaselineParts(id, b))) == BaselineBytes(id, b)
  {
    var ps := BaselineParts(id, b);
    BaselineLayout(id, b);
    RecordSpelled(ps, BaselineFormat);
    NinePut(PartBytes, ps[0], ps[1], ps[2], ps[3], ps[4], ps[5], ps[6], ps[7], ps[8]);
    NumbersSpelled([id, b.generation]);
    TwoPut(U64Of, id, b.generation);
    OctetsSpelled([b.kind as int]);
    BindingSpelled(b);
    TripleSpelled(b.provenance as int, b.freshness as int, 0);
    NumbersSpelled([b.sampleCount, b.variance, b.confidence, b.mean]);
    FourPut(U64Of, b.sampleCount, b.variance, b.confidence, b.mean);
    OctetsSpelled([b.metric as int]);
    SwitchSpelled(b.valid);
  }

  lemma BindingSpelled(b: Baseline<Bits>)
    ensures PartBytes(Numbers([b.workloadId, b.workloadGeneration, b.deviceId, b.deviceGeneration, b.workerId,
              b.workerBoot]))
         == U64Of(b.workloadId) + U64Of(b.workloadGeneration) + U64Of(b.deviceId) + U64Of(b.deviceGeneration)
            + U64Of(b.workerId) + U64Of(b.workerBoot)
    ensures PartBytes(Strings(BaselineStrings(b)))
         == TextOf(b.config) + TextOf(b.problemSize) + TextOf(b.runtimeGeneration) + TextOf(b.kernelGeneration)
            + TextOf(b.policyGeneration)
    ensures PartBytes(Numbers([b.topologyGeneration, b.sourceGeneration, b.evidenceGeneration,
                               Unsigned(b.timestampMs), Unsigned(b.intervalMs)]))
         == U64Of(b.topologyGeneration) + U64Of(b.sourceGeneration) + U64Of(b.evidenceGeneration)
            + I64Of(b.timestampMs) + I64Of(b.intervalMs)
  {
    NumbersSpelled([b.workloadId, b.workloadGeneration, b.deviceId, b.deviceGeneration, b.workerId, b.workerBoot]);
    SixPut(U64Of, b.workloadId, b.workloadGeneration, b.deviceId, b.deviceGeneration, b.workerId, b.workerBoot);
    StringsSpelled(BaselineStrings(b));
    FivePut(TextOf, b.config, b.problemSize, b.runtimeGeneration, b.kernelGeneration, b.policyGeneration);
    var t, d := Unsigned(b.timestampMs), Unsigned(b.intervalMs);
    NumbersSpelled([b.topologyGeneration, b.sourceGeneration, b.evidenceGeneration, t, d]);
    FivePut(U64Of, b.topologyGeneration, b.sourceGeneration, b.evidenceGeneration, t, d);
    Signs(b.timestampMs);
    Signs(b.intervalMs);
  }

  lemma HeadSpelled(id: u64, o: Observation<Bits>)
    ensures PartBytes(Numbers([id, o.generation, o.sourceId, o.sourceGeneration, o.workerId, o.workerBoot, o.workloadId,
                               o.workloadGeneration, o.deviceId, o.deviceGeneration, Unsigned(o.timestampMs)]))
         == ObservationHead(id, o)
  {
    var t := Unsigned(o.timestampMs);
    NumbersSpelled([id, o.generation, o.sourceId, o.sourceGeneration, o.workerId, o.workerBoot, o.workloadId,
                    o.workloadGeneration, o.deviceId, o.deviceGeneration, t]);
    ElevenPut(U64Of, id, o.generation, o.sourceId, o.sourceGeneration, o.workerId, o.workerBoot, o.workloadId,
              o.workloadGeneration, o.deviceId, o.deviceGeneration, t);
    Signs(o.timestampMs);
  }

  lemma MeasurementSpelled(m: Measurement<Bits>)
    ensures PartBytes(Octets([m.kind as int])) == U8Of(m.kind as int) && PartBytes(Numbers([m.value])) == U64Of(m.value)
    ensures PartBytes(Strings([m.units])) == TextOf(m.units)
    ensures PartBytes(Numbers([m.sampleCount, m.variance])) == U64Of(m.sampleCount) + U64Of(m.variance)
    ensures PartBytes(Numbers([m.sampleCount, m.variance, m.p95]))
         == U64Of(m.sampleCount) + U64Of(m.variance) + U64Of(m.p95)
  {
    OctetsSpelled([m.kind as int]);
    NumbersSpelled([m.value]);
    OnePut(U64Of, m.value);
    StringsSpelled([m.units]);
    OnePut(TextOf, m.units);
    NumbersSpelled([m.sampleCount, m.variance]);
    TwoPut(U64Of, m.sampleCount, m.variance);
    NumbersSpelled([m.sampleCount, m.variance, m.p95]);
    ThreePut(U64Of, m.sampleCount, m.variance, m.p95);
  }

  lemma ObservationSpelled(id: u64, o: Observation<Bits>)
    ensures Print(ObservationFormat, RecordValue(ObservationParts(id, o))) == ObservationBytes(id, o)
  {
    var ps := ObservationParts(id, o);
    ObservationLayout(id, o);
    RecordSpelled(ps, ObservationFormat);
    TenPut(PartBytes, ps[0], ps[1], ps[2], ps[3], ps[4], ps[5], ps[6], ps[7], ps[8], ps[9]);
    HeadSpelled(id, o);
    MeasurementSpelled(o.measurement);
    SwitchSpelled(o.measurement.hasP95);
    TripleSpelled(o.provenance as int, o.freshness as int, o.health as int);
    CapsSpelled(o.caps);
    NumberVecSpelled(o.peers);
    ConfoundersSpelled(o.confounders);
  }

  lemma DeltasSpelled(ds: seq<MetricDelta<Bits>>)
    ensures PartBytes(RecordVec(DeltaFormat, Mapped(ds, DeltaValue))) == U32Of(|ds|) + Concat(DeltaBytes, ds)
  {
    forall i | 0 <= i < |ds| ensures Print(DeltaFormat, Mapped(ds, DeltaValue)[i]) == DeltaBytes(ds[i]) {
      DeltaSpelled(ds[i]);
    }
    RecordVecSpelled(DeltaFormat, Mapped(ds, DeltaValue), DeltaBytes, ds);
  }

  lemma EvidencesSpelled(es: seq<Evidence>)
    ensures PartBytes(RecordVec(EvidenceFormat, Mapped(es, EvidenceValue))) == U32Of(|es|) + Concat(EvidenceBytes, es)
  {
    forall i | 0 <= i < |es| ensures Print(EvidenceFormat, Mapped(es, EvidenceValue)[i]) == EvidenceBytes(es[i]) {
      EvidenceSpelled(es[i]);
    }
    RecordVecSpelled(EvidenceFormat, Mapped(es, EvidenceValue), EvidenceBytes, es);
  }

  lemma EpisodeNumbers(id: u64, e: Episode<Bits>)
    ensures PartBytes(Numbers([id, e.generation, Unsigned(e.startMs), Unsigned(e.endMs)]))
         == U64Of(id) + U64Of(e.generation) + I64Of(e.startMs) + I64Of(e.endMs)
    ensures PartBytes(Numbers([e.affected])) == U64Of(e.affected) && PartBytes(Numbers([e.epoch])) == U64Of(e.epoch)
    ensures PartBytes(Numbers([e.baselineId, e.degradation.sampleCount]))
         == U64Of(e.baselineId) + U64Of(e.degradation.sampleCount)
    ensures PartBytes(Numbers([e.degradation.worst, e.confidence])) == U64Of(e.degradation.worst) + U64Of(e.confidence)
  {
    NumbersSpelled([id, e.generation, Unsigned(e.startMs), Unsigned(e.endMs)]);
    FourPut(U64Of, id, e.generation, Unsigned(e.startMs), Unsigned(e.endMs));
    Signs(e.startMs);
    Signs(e.endMs);
    NumbersSpelled([e.affected]);
    OnePut(U64Of, e.affected);
    NumbersSpelled([e.epoch]);
    OnePut(U64Of, e.epoch);
    NumbersSpelled([e.baselineId, e.degradation.sampleCount]);
    TwoPut(U64Of, e.baselineId, e.degradation.sampleCount);
    NumbersSpelled([e.degradation.worst, e.confidence]);
    TwoPut(U64Of, e.degradation.worst, e.confidence);
  }

  lemma EpisodeSpelled(id: u64, e: Episode<Bits>)
    ensures Print(EpisodeFormat, RecordValue(EpisodeParts(id, e))) == EpisodeBytes(id, e)
  {
    var ps := EpisodeParts(id, e);
    EpisodeLayout(id, e);
    RecordSpelled(ps, EpisodeFormat);
    ElevenPut(PartBytes, ps[0], ps[1], ps[2], ps[3], ps[4], ps[5], ps[6], ps[7], ps[8], ps[9], ps[10]);
    EpisodeNumbers(id, e);
    SwitchSpelled(e.open);
    NumberVecSpelled(e.coRunning);
    DomainsSpelled(e.domains);
    DeltasSpelled(e.degradation.deltas);
    TripleSpelled(e.classification as int, e.provenance as int, e.freshness as int);
    EvidencesSpelled(e.evidence);
  }

  lemma PairwiseNumbers(id: u64, p: Pairwise<Bits>)
    ensures PartBytes(Numbers([id, p.victim, p.neighbor])) == U64Of(id) + U64Of(p.victim) + U64Of(p.neighbor)
    ensures PartBytes(Numbers([p.baselineId, p.degradation.sampleCount]))
         == U64Of(p.baselineId) + U64Of(p.degradation.sampleCount)
    ensures PartBytes(Numbers([p.degradation.worst, p.confidence, p.sampleCount]))
         == U64Of(p.degradation.worst) + U64Of(p.confidence) + U64Of(p.sampleCount)
    ensures PartBytes(Numbers([p.episodeId, p.comparisonId, p.comparisonGeneration, p.epoch]))
         == U64Of(p.episodeId) + U64Of(p.comparisonId) + U64Of(p.comparisonGeneration) + U64Of(p.epoch)
  {
    NumbersSpelled([id, p.victim, p.neighbor]);
    ThreePut(U64Of, id, p.victim, p.neighbor);
    NumbersSpelled([p.baselineId, p.degradation.sampleCount]);
    TwoPut(U64Of, p.baselineId, p.degradation.sampleCount);
    NumbersSpelled([p.degradation.worst, p.confidence, p.sampleCount]);
    ThreePut(U64Of, p.degradation.worst, p.confidence, p.sampleCount);
    NumbersSpelled([p.episodeId, p.comparisonId, p.comparisonGeneration, p.epoch]);
    FourPut(U64Of, p.episodeId, p.comparisonId, p.comparisonGeneration, p.epoch);
  }

  lemma PairwiseSpelled(id: u64, p: Pairwise<Bits>)
    ensures Print(PairwiseFormat, RecordValue(PairwiseParts(id, p))) == PairwiseBytes(id, p)
  {
    var ps := PairwiseParts(id, p);
    PairwiseLayout(id, p);
    RecordSpelled(ps, PairwiseFormat);
    TenPut(PartBytes, ps[0], ps[1], ps[2], ps[3], ps[4], ps[5], ps[6], ps[7], ps[8], ps[9]);
    PairwiseNumbers(id, p);
    OctetsSpelled([p.domain as int]);
    DeltasSpelled(p.degradation.deltas);
    TripleSpelled(p.freshness as int, p.outcome as int, p.attribution as int);
    ProvenancesSpelled(p.evidenceSources);
    SwitchSpelled(p.confounded);
    ConfoundersSpelled(p.unresolved);
  }

  // ---------- Messages ----------

  /** A baseline message, byte by byte. */
  lemma BaselineMessageSpelled(b: Baseline<Bits>)
    ensures BaselineMessage(b) == BaselineBytes(b.id, b)
  {
    BaselineSpelled(b.id, b);
  }

  function ObservationMessageBytes(o: Observation<Bits>): seq<u8> {
    var m := o.measurement;
    ObservationHead(o.id, o)
    + U8Of(m.kind as int) + U64Of(m.value) + TextOf(m.units)
    + (U64Of(m.sampleCount) + U64Of(m.variance))
    + (U8Of(o.provenance as int) + U8Of(o.freshness as int) + U8Of(o.health as int))
    + (U32Of(|o.peers|) + Concat(U64Of, o.peers))
  }

  /** An observation message, byte by byte. */
  lemma ObservationMessageSpelled(o: Observation<Bits>)
    ensures ObservationMessage(o) == ObservationMessageBytes(o)
  {
    var ps := MessageParts(o);
    MessageShape(o);
    RecordSpelled(ps, MessageFormat);
    SevenPut(PartBytes, ps[0], ps[1], ps[2], ps[3], ps[4], ps[5], ps[6]);
    HeadSpelled(o.id, o);
    MeasurementSpelled(o.measurement);
    TripleSpelled(o.provenance as int, o.freshness as int, o.health as int);
    NumberVecSpelled(o.peers);
  }

  // ---------- The state payload ----------

  function SectionBytes<R>(m: map<u64, R>, put: (u64, R) -> seq<u8>): seq<u8> {
    U32Of(|m|) + Concat((e: (u64, R)) => put(e.0, e.1), Entries(m))
  }

  /** The version, three ids, and eight counted sections; the matrix is not stored. */
  function PayloadBytes(st: State<Bits>): seq<u8> {
    U8Of(1)
    + (U64Of(st.id) + U64Of(st.generation) + U64Of(st.epoch))
    + SectionBytes(st.sources, SourceBytes)
    + SectionBytes(st.workers, WorkerBytes)
    + SectionBytes(st.workloads, WorkloadBytes)
    + SectionBytes(st.baselines, BaselineBytes)
    + SectionBytes(st.observations, ObservationBytes)
    + SectionBytes(st.episodes, EpisodeBytes)
    + SectionBytes(st.comparisons, PairwiseBytes)
    + (U32Of(|st.recoveries|) + Concat(RecoveryBytes, Cells(st.recoveries)))
  }

  lemma SectionSpelled<R>(m: map<u64, R>, parts: (u64, R) -> seq<Part>, format: Format, put: (u64, R) -> seq<u8>)
    requires forall k: u64, r :: Print(format, RecordValue(parts(k, r))) == put(k, r)
    ensures PartBytes(RecordVec(format, Section(Entries(m), parts))) == SectionBytes(m, put)
  {
    var es, vs := Entries(m), Section(Entries(m), parts);
    var one := (e: (u64, R)) => put(e.0, e.1);
    forall i | 0 <= i < |es| ensures Print(format, vs[i]) == one(es[i]) {
      assert vs[i] == RecordValue(parts(es[i].0, es[i].1));
    }
    RecordVecSpelled(format, vs, one, es);
  }

  lemma SourceSectionSpelled(m: map<u64, Source>)
    ensures PartBytes(RecordVec(SourceFormat, Section(Entries(m), SourceParts))) == SectionBytes(m, SourceBytes)
  {
    forall k: u64, r ensures Print(SourceFormat, RecordValue(SourceParts(k, r))) == SourceBytes(k, r) {
      SourceSpelled(k, r);
    }
    SectionSpelled(m, SourceParts, SourceFormat, SourceBytes);
  }

  lemma WorkerSectionSpelled(m: map<u64, Worker>)
    ensures PartBytes(RecordVec(WorkerFormat, Section(Entries(m), WorkerParts))) == SectionBytes(m, WorkerBytes)
  {
    forall k: u64, r ensures Print(WorkerFormat, RecordValue(WorkerParts(k, r))) == WorkerBytes(k, r) {
      WorkerSpelled(k, r);
    }
    SectionSpelled(m, WorkerParts, WorkerFormat, WorkerBytes);
  }

  lemma WorkloadSectionSpelled(m: map<u64, Workload>)
    ensures PartBytes(RecordVec(WorkloadFormat, Section(Entries(m), WorkloadParts))) == SectionBytes(m, WorkloadBytes)
  {
    forall k: u64, r ensures Print(WorkloadFormat, RecordValue(WorkloadParts(k, r))) == WorkloadBytes(k, r) {
      WorkloadSpelled(k, r);
    }
    SectionSpelled(m, WorkloadParts, WorkloadFormat, WorkloadBytes);
  }

  lemma BaselineSectionSpelled(m: map<u64, Baseline<Bits>>)
    ensures PartBytes(RecordVec(BaselineFormat, Section(Entries(m), BaselineParts))) == SectionBytes(m, BaselineBytes)
  {
    forall k: u64, r ensures Print(BaselineFormat, RecordValue(BaselineParts(k, r))) == BaselineBytes(k, r) {
      BaselineSpelled(k, r);
    }
    SectionSpelled(m, BaselineParts, BaselineFormat, BaselineBytes);
  }

  lemma ObservationSectionSpelled(m: map<u64, Observation<Bits>>)
    ensures PartBytes(RecordVec(ObservationFormat, Section(Entries(m), ObservationParts)))
              == SectionBytes(m, ObservationBytes)
  {
    forall k: u64, r ensures Print(ObservationFormat, RecordValue(ObservationParts(k, r))) == ObservationBytes(k, r) {
      ObservationSpelled(k, r);
    }
    SectionSpelled(m, ObservationParts, ObservationFormat, ObservationBytes);
  }

  lemma EpisodeSectionSpelled(m: map<u64, Episode<Bits>>)
    ensures PartBytes(RecordVec(EpisodeFormat, Section(Entries(m), EpisodeParts))) == SectionBytes(m, EpisodeBytes)
  {
    forall k: u64, r ensures Print(EpisodeFormat, RecordValue(EpisodeParts(k, r))) == EpisodeBytes(k, r) {
      EpisodeSpelled(k, r);
    }
    SectionSpelled(m, EpisodeParts, EpisodeFormat, EpisodeBytes);
  }

  lemma PairwiseSectionSpelled(m: map<u64, Pairwise<Bits>>)
    ensures PartBytes(RecordVec(PairwiseFormat, Section(Entries(m), PairwiseParts))) == SectionBytes(m, PairwiseBytes)
  {
    forall k: u64, r ensures Print(PairwiseFormat, RecordValue(PairwiseParts(k, r))) == PairwiseBytes(k, r) {
      PairwiseSpelled(k, r);
    }
    SectionSpelled(m, PairwiseParts, PairwiseFormat, PairwiseBytes);
  }

  lemma RecoveriesSpelled(cells: set<CellKey>)
    ensures PartBytes(RecordVec(RecoveryFormat, Mapped(Cells(cells), RecoveryValue)))
         == U32Of(|Cells(cells)|) + Concat(RecoveryBytes, Cells(cells))
  {
    var ks := Cells(cells);
    forall i | 0 <= i < |ks| ensures Print(RecoveryFormat, Mapped(ks, RecoveryValue)[i]) == RecoveryBytes(ks[i]) {
      RecoverySpelled(ks[i]);
    }
    RecordVecSpelled(RecoveryFormat, Mapped(ks, RecoveryValue), RecoveryBytes, ks);
  }

  lemma CellsSize(cells: set<CellKey>)
    ensures |Cells(cells)| == |cells|
  {
    RanksInjective();
  }

  /** Recoveries are written by victim, then neighbor, then domain. */
  lemma CellsOrdered(cells: set<CellKey>)
    ensures forall k :: k in Cells(cells) <==> k in cells
    ensures forall i, j :: 0 <= i < j < |Cells(cells)| ==>
              var a, b := Cells(cells)[i], Cells(cells)[j];
              a.victim < b.victim || (a.victim == b.victim &&
                (a.neighbor < b.neighbor || (a.neighbor == b.neighbor && a.domain < b.domain)))
  {
    RanksInjective();
    AscendingMembers(cells, CellRank);
    AscendingIncreases(cells, CellRank);
    var ks := Cells(cells);
    forall i, j | 0 <= i < j < |ks|
      ensures ks[i].victim < ks[j].victim || (ks[i].victim == ks[j].victim &&
                (ks[i].neighbor < ks[j].neighbor || (ks[i].neighbor == ks[j].neighbor && ks[i].domain < ks[j].domain)))
    {
      CellRankOrders(ks[i], ks[j]);
    }
  }

  lemma TenSpelled(put: Part -> seq<u8>, ps: seq<Part>, b0: seq<u8>, b1: seq<u8>, b2: seq<u8>, b3: seq<u8>,
                   b4: seq<u8>, b5: seq<u8>, b6: seq<u8>, b7: seq<u8>, b8: seq<u8>, b9: seq<u8>)
    requires |ps| == 10 && put(ps[0]) == b0 && put(ps[1]) == b1 && put(ps[2]) == b2 && put(ps[3]) == b3
    requires put(ps[4]) == b4 && put(ps[5]) == b5 && put(ps[6]) == b6 && put(ps[7]) == b7
    requires put(ps[8]) == b8 && put(ps[9]) == b9
    ensures Concat(put, ps) == b0 + b1 + b2 + b3 + b4 + b5 + b6 + b7 + b8 + b9
  {
    TenPut(put, ps[0], ps[1], ps[2], ps[3], ps[4], ps[5], ps[6], ps[7], ps[8], ps[9]);
    assert ps == [ps[0], ps[1], ps[2], ps[3], ps[4], ps[5], ps[6], ps[7], ps[8], ps[9]];
  }

  lemma IdentitySpelled(st: State<Bits>)
    ensures PartBytes(Octets([1])) == U8Of(1)
    ensures PartBytes(Numbers([st.id, st.generation, st.epoch]))
              == U64Of(st.id) + U64Of(st.generation) + U64Of(st.epoch)
  {
    OctetsSpelled([1]);
    NumbersSpelled([st.id, st.generation, st.epoch]);
    ThreePut(U64Of, st.id, st.generation, st.epoch);
  }

  lemma PartsSpelled(st: State<Bits>, ps: seq<Part>)
    requires PartsOf(st, ps)
    ensures Concat(PartBytes, ps) == PayloadBytes(st)
  {
    IdentitySpelled(st);
    SourceSectionSpelled(st.sources);
    WorkerSectionSpelled(st.workers);
    WorkloadSectionSpelled(st.workloads);
    BaselineSectionSpelled(st.baselines);
    ObservationSectionSpelled(st.observations);
    EpisodeSectionSpelled(st.episodes);
    PairwiseSectionSpelled(st.comparisons);
    RecoveriesSpelled(st.recoveries);
    CellsSize(st.recoveries);
    TenSpelled(PartBytes, ps, U8Of(1), U64Of(st.id) + U64Of(st.generation) + U64Of(st.epoch),
               SectionBytes(st.sources, SourceBytes), SectionBytes(st.workers, WorkerBytes),
               SectionBytes(st.workloads, WorkloadBytes), SectionBytes(st.baselines, BaselineBytes),
               SectionBytes(st.observations, ObservationBytes), SectionBytes(st.episodes, EpisodeBytes),
               SectionBytes(st.comparisons, PairwiseBytes),
               U32Of(|st.recoveries|) + Concat(RecoveryBytes, Cells(st.recoveries)));
  }

  /** The payload of any state, byte by byte. */
  lemma SerializeSpelled(st: State<Bits>)
    ensures Serialize(st) == PayloadBytes(st)
  {
    StatePartsOf(st);
    StateLayout(st);
    RecordSpelled(StateParts(st), StateFormat);
    PartsSpelled(st, StateParts(st));
  }

  // ---------- Enumerators ----------

  /** The bytes that stand for the named values, in declaration order. */
  lemma EnumeratorBytes()
    ensures MetricKind.Latency as int == 0 && MetricKind.Throughput as int == 1 && MetricKind.DeviceTime as int == 2
    ensures MetricKind.TransferTime as int == 3 && MetricKind.CollectiveTime as int == 4
              && MetricKind.StallTime as int == 5
    ensures MetricKind.MemoryBandwidth as int == 6 && MetricKind.TailLatency as int == 7
    ensures MetricKind.CompletionRate as int == 8
    ensures Freshness.Current as int == 0 && Freshness.Stale as int == 1 && Freshness.Expired as int == 2
    ensures Freshness.RevalidationRequired as int == 3 && Freshness.Historical as int == 4
              && Freshness.Unknown as int == 5
    ensures Outcome.NoInterferenceDetected as int == 0 && Outcome.PotentialInterference as int == 1
    ensures Outcome.InterferenceDetected as int == 2 && Outcome.SevereInterference as int == 3
    ensures Outcome.InsufficientEvidence as int == 4 && Outcome.BaselineInvalid as int == 5
    ensures Outcome.RevalidationRequired as int == 6 && Outcome.Unknown as int == 8
    ensures Attribution.Unknown as int == 0 && Attribution.TemporallyAssociated as int == 1
    ensures Attribution.Correlated as int == 2 && Attribution.ControlledComparison as int == 3
    ensures Attribution.StrongCounterfactualEvidence as int == 4 && Attribution.DirectResourceEvidence as int == 5
    ensures Provenance.Measured as int == 0 && Provenance.Controlled as int == 3 && Provenance.Unknown as int == 6
    ensures BaselineType.HistoricalIsolated as int == 1
    ensures Confounder.ThermalThrottling as int == 0 && Confounder.PowerThrottling as int == 1
    ensures Confounder.ClockChange as int == 2 && Confounder.DifferentWorkloadInput as int == 4
    ensures Confounder.DifferentKernelVersion as int == 5 && Confounder.DifferentDriverRuntimeState as int == 6
    ensures Confounder.WorkerRestart as int == 14 && Confounder.DifferentPlacement as int == 15
  {
  }
}

/**
  How each record is laid out in the state payload: its format and the two conversions. Neighbouring
  fields of one type form a group; a group adds no bytes, so the layout is the source's field order.
 */
module Records {
  import opened Words
  import opened Domain
  import opened Codec

  /** Doubles appear here as their 64-bit patterns. */
  type Bits = u64

  // ---------- Groups and lists ----------

  function Mapped<T>(xs: seq<T>, f: T -> Value): (vs: seq<Value>)
    ensures |vs| == |xs| && forall i :: 0 <= i < |xs| ==> vs[i] == f(xs[i])
  {
    seq(|xs|, i requires 0 <= i < |xs| => f(xs[i]))
  }

  function Repeat(k: nat, f: Format): (fs: seq<Format>)
    ensures |fs| == k && forall i :: 0 <= i < k ==> fs[i] == f
  {
    seq(k, i => f)
  }

  function Group(k: nat, f: Format): Format {
    Rec(Repeat(k, f))
  }

  lemma GroupFits<T>(e: Format, xs: seq<T>, f: T -> Value)
    ensures Fits(Group(|xs|, e), Items(Mapped(xs, f))) <==> forall i :: 0 <= i < |xs| ==> Fits(e, f(xs[i]))
    ensures Shaped(Group(|xs|, e), Items(Mapped(xs, f))) <==> forall i :: 0 <= i < |xs| ==> Shaped(e, f(xs[i]))
  {
    var fs, vs := Repeat(|xs|, e), Mapped(xs, f);
    FieldsFitAll(fs, vs);
    FieldsShapedAll(fs, vs);
    assert forall i :: 0 <= i < |xs| ==> fs[i] == e && vs[i] == f(xs[i]);
  }

  lemma VecFits<T>(bound: nat, e: Format, xs: seq<T>, f: T -> Value)
    requires bound < Pow256(COUNT)
    ensures Fits(Vec(bound, e), Items(Mapped(xs, f)))
       <==> |xs| <= bound && forall i :: 0 <= i < |xs| ==> Fits(e, f(xs[i]))
    ensures Shaped(Vec(bound, e), Items(Mapped(xs, f)))
       <==> |xs| < Pow256(COUNT) && forall i :: 0 <= i < |xs| ==> Shaped(e, f(xs[i]))
  {
    var vs := Mapped(xs, f);
    ItemsFitAll(e, vs);
    ItemsShapedAll(e, vs);
    assert forall i :: 0 <= i < |xs| ==> vs[i] == f(xs[i]);
  }

  function Number(n: u64): Value {
    Num(n)
  }

  function Octet(n: u8): Value {
    Num(n)
  }

  function Letters(s: Text): Value {
    Chars(s)
  }

  function Truth(b: bool): Value {
    Num(if b then 1 else 0)
  }

  lemma Leaves()
    ensures forall n: u64 :: Fits(U64, Number(n)) && Shaped(U64, Number(n))
    ensures forall n: u8 :: Fits(U8, Octet(n)) && Shaped(U8, Octet(n))
    ensures forall b :: Fits(Flag, Truth(b)) && Shaped(Flag, Truth(b))
    ensures forall s :: Fits(Str, Letters(s)) <==> |s| <= MAX_STRING
    ensures forall s :: Shaped(Str, Letters(s)) <==> |s| < Pow256(LENGTH)
  {
    Widths();
  }

  predicate Short(ss: seq<Text>) {
    forall i :: 0 <= i < |ss| ==> |ss[i]| <= MAX_STRING
  }

  predicate Storable(ss: seq<Text>) {
    forall i :: 0 <= i < |ss| ==> |ss[i]| < Pow256(LENGTH)
  }

  // ---------- Capabilities: one bit each ----------

  /** Bit k of the mask is flag k: the sum of the distinct powers that the source ors together. */
  function PackBits(bs: seq<bool>): nat {
    if bs == [] then 0 else (if bs[0] then 1 else 0) + 2 * PackBits(bs[1..])
  }

  function UnpackBits(m: nat, k: nat): (bs: seq<bool>)
    ensures |bs| == k
    decreases k
  {
    if k == 0 then [] else [m % 2 == 1] + UnpackBits(m / 2, k - 1)
  }

  lemma {:induction false} UnpackPack(bs: seq<bool>)
    ensures UnpackBits(PackBits(bs), |bs|) == bs
  {
    if bs != [] {
      UnpackPack(bs[1..]);
      assert PackBits(bs) / 2 == PackBits(bs[1..]);
    }
  }

  lemma {:induction false} PackRange(bs: seq<bool>)
    ensures PackBits(bs) < Pow2(|bs|)
  {
    if bs != [] {
      PackRange(bs[1..]);
    }
  }

  lemma CapabilityRange()
    ensures Pow2(CAPABILITIES) == 0x2_0000
  {
    assert Pow2(5) == 32;
    assert Pow2(10) == 32 * Pow2(5);
    assert Pow2(15) == 32 * Pow2(10);
  }

  function PackCaps(c: Capabilities): u32 {
    PackRange(c);
    CapabilityRange();
    PackBits(c)
  }

  function UnpackCaps(m: u32): Capabilities {
    UnpackBits(m, CAPABILITIES)
  }

  lemma CapsInverse(c: Capabilities)
    ensures UnpackCaps(PackCaps(c)) == c
  {
    UnpackPack(c);
  }

  // ---------- Parts of a record ----------

  /** The largest count its prefix can express. */
  const COUNT_MAX: nat := 0xFFFF_FFFF

  /** A stretch of a record: neighbouring fields of one type, or one counted vector (`Peers` is unbounded). */
  datatype Part =
    | Numbers(ns: seq<u64>)
    | Octets(os: seq<u8>)
    | Strings(ss: seq<Text>)
    | Switch(b: bool)
    | Caps(c: Capabilities)
    | NumberVec(ns: seq<u64>)
    | Peers(ns: seq<u64>)
    | OctetVec(os: seq<u8>)
    | RecordVec(e: Format, vs: seq<Value>)
  {
    function Layout(): Format {
      match this
      case Numbers(ns) => Group(|ns|, U64)
      case Octets(os) => Group(|os|, U8)
      case Strings(ss) => Group(|ss|, Str)
      case Switch(_) => Codec.Flag
      case Caps(_) => U32
      case NumberVec(_) => Vec(COUNT_BOUND, U64)
      case Peers(_) => Vec(COUNT_MAX, U64)
      case OctetVec(_) => Vec(COUNT_BOUND, U8)
      case RecordVec(e, _) => Vec(COUNT_BOUND, e)
    }

    function Content(): Value {
      match this
      case Numbers(ns) => Items(Mapped(ns, Number))
      case Octets(os) => Items(Mapped(os, Octet))
      case Strings(ss) => Items(Mapped(ss, Letters))
      case Switch(b) => Truth(b)
      case Caps(c) => Num(PackCaps(c))
      case NumberVec(ns) => Items(Mapped(ns, Number))
      case Peers(ns) => Items(Mapped(ns, Number))
      case OctetVec(os) => Items(Mapped(os, Octet))
      case RecordVec(_, vs) => Items(vs)
    }

    /** The reader's bounds, as a caller can check them. */
    ghost predicate Bounded() {
      match this
      case Strings(ss) => Short(ss)
      case NumberVec(ns) => |ns| <= COUNT_BOUND
      case Peers(ns) => |ns| <= COUNT_MAX
      case OctetVec(os) => |os| <= COUNT_BOUND
      case RecordVec(e, vs) => |vs| <= COUNT_BOUND && ItemsFit(e, vs)
      case _ => true
    }

    /** The prefixes the writer has room for. */
    ghost predicate Writable() {
      match this
      case Strings(ss) => Storable(ss)
      case NumberVec(ns) => |ns| < Pow256(COUNT)
      case Peers(ns) => |ns| < Pow256(COUNT)
      case OctetVec(os) => |os| < Pow256(COUNT)
      case RecordVec(e, vs) => |vs| < Pow256(COUNT) && ItemsShaped(e, vs)
      case _ => true
    }
  }

  lemma PartFits(p: Part)
    ensures Fits(p.Layout(), p.Content()) <==> p.Bounded()
    ensures Shaped(p.Layout(), p.Content()) <==> p.Writable()
  {
    Leaves();
    Widths();
    match p
    case Numbers(ns) => GroupFits(U64, ns, Number);
    case Octets(os) => GroupFits(U8, os, Octet);
    case Strings(ss) => GroupFits(Str, ss, Letters);
    case NumberVec(ns) => VecFits(COUNT_BOUND, U64, ns, Number);
    case Peers(ns) => VecFits(COUNT_MAX, U64, ns, Number);
    case OctetVec(os) => VecFits(COUNT_BOUND, U8, os, Octet);
    case _ =>
  }

  function Layouts(ps: seq<Part>): seq<Format> {
    seq(|ps|, i requires 0 <= i < |ps| => ps[i].Layout())
  }

  function Contents(ps: seq<Part>): seq<Value> {
    seq(|ps|, i requires 0 <= i < |ps| => ps[i].Content())
  }

  lemma PartsFit(ps: seq<Part>)
    ensures Fits(Rec(Layouts(ps)), Items(Contents(ps))) <==> forall i :: 0 <= i < |ps| ==> ps[i].Bounded()
    ensures Shaped(Rec(Layouts(ps)), Items(Contents(ps))) <==> forall i :: 0 <= i < |ps| ==> ps[i].Writable()
  {
    var fs, vs := Layouts(ps), Contents(ps);
    FieldsFitAll(fs, vs);
    FieldsShapedAll(fs, vs);
    forall i | 0 <= i < |ps|
      ensures Fits(fs[i], vs[i]) <==> ps[i].Bounded()
      ensures Shaped(fs[i], vs[i]) <==> ps[i].Writable()
    {
      PartFits(ps[i]);
    }
  }

  // ---------- Reading a parsed record ----------

  function At(v: Value, i: nat): Value {
    if v.Items? && i < |v.items| then v.items[i] else Num(0)
  }

  function NumberOf(v: Value): u64 {
    if v.Num? && v.n < 0x1_0000_0000_0000_0000 then v.n else 0
  }

  function WordOf(v: Value): u32 {
    if v.Num? && v.n < 0x1_0000_0000 then v.n else 0
  }

  function OctetOf(v: Value): u8 {
    if v.Num? && v.n < 0x100 then v.n else 0
  }

  function N(v: Value, g: nat, i: nat): u64 {
    NumberOf(At(At(v, g), i))
  }

  function O(v: Value, g: nat, i: nat): u8 {
    OctetOf(At(At(v, g), i))
  }

  function S(v: Value, g: nat, i: nat): Text {
    var x := At(At(v, g), i);
    if x.Chars? then x.bytes else []
  }

  function T(v: Value, g: nat): bool {
    At(v, g) != Num(0)
  }

  function C(v: Value, g: nat): Capabilities {
    UnpackCaps(WordOf(At(v, g)))
  }

  function NumberList(v: Value, g: nat): seq<u64> {
    var x := At(v, g);
    if x.Items? then seq(|x.items|, i requires 0 <= i < |x.items| => NumberOf(x.items[i])) else []
  }

  function OctetList(v: Value, g: nat): seq<u8> {
    var x := At(v, g);
    if x.Items? then seq(|x.items|, i requires 0 <= i < |x.items| => OctetOf(x.items[i])) else []
  }

  function RecordList(v: Value, g: nat): seq<Value> {
    var x := At(v, g);
    if x.Items? then x.items else []
  }

  /** Each stretch of v reads as the corresponding part. */
  ghost predicate ReadsAs(v: Value, ps: seq<Part>) {
    forall g: nat :: g < |ps| ==> PartReads(v, g, ps[g])
  }

  ghost predicate PartReads(v: Value, g: nat, p: Part) {
    match p
    case Numbers(ns) => forall i: nat :: i < |ns| ==> N(v, g, i) == ns[i]
    case Octets(os) => forall i: nat :: i < |os| ==> O(v, g, i) == os[i]
    case Strings(ss) => forall i: nat :: i < |ss| ==> S(v, g, i) == ss[i]
    case Switch(b) => T(v, g) == b
    case Caps(c) => C(v, g) == c
    case NumberVec(ns) => NumberList(v, g) == ns
    case Peers(ns) => NumberList(v, g) == ns
    case OctetVec(os) => OctetList(v, g) == os
    case RecordVec(_, vs) => RecordList(v, g) == vs
  }

  lemma PartReadsBack(v: Value, g: nat, p: Part)
    requires At(v, g) == p.Content()
    ensures PartReads(v, g, p)
  {
    if p.Caps? {
      CapsInverse(p.c);
    }
  }

  lemma ReadsBack(ps: seq<Part>)
    ensures ReadsAs(Items(Contents(ps)), ps)
  {
    forall g: nat | g < |ps| ensures PartReads(Items(Contents(ps)), g, ps[g]) {
      PartReadsBack(Items(Contents(ps)), g, ps[g]);
    }
  }

  const BaselineFormat := Rec([Group(2, U64), Group(1, U8), Group(6, U64), Group(5, Str), Group(5, U64),
                               Group(2, U8), Group(4, U64), Group(1, U8), Codec.Flag])

  function BaselineStrings(b: Baseline<Bits>): seq<Text> {
    [b.config, b.problemSize, b.runtimeGeneration, b.kernelGeneration, b.policyGeneration]
  }

  function BaselineParts(id: u64, b: Baseline<Bits>): seq<Part> {
    [Numbers([id, b.generation]),
     Octets([b.kind as int]),
     Numbers([b.workloadId, b.workloadGeneration, b.deviceId, b.deviceGeneration, b.workerId, b.workerBoot]),
     Strings(BaselineStrings(b)),
     Numbers([b.topologyGeneration, b.sourceGeneration, b.evidenceGeneration,
              Unsigned(b.timestampMs), Unsigned(b.intervalMs)]),
     Octets([b.provenance as int, b.freshness as int]),
     Numbers([b.sampleCount, b.variance, b.confidence, b.mean]),
     Octets([b.metric as int]),
     Switch(b.valid)]
  }

  function BaselineOf(v: Value): Baseline<Bits> {
    Baseline(
      N(v, 0, 0), N(v, 0, 1), O(v, 1, 0) as BaselineType,
      N(v, 2, 0), N(v, 2, 1), N(v, 2, 2), N(v, 2, 3), N(v, 2, 4), N(v, 2, 5),
      S(v, 3, 0), S(v, 3, 1), S(v, 3, 2), S(v, 3, 3), S(v, 3, 4),
      N(v, 4, 0), N(v, 4, 1), N(v, 4, 2), Signed(N(v, 4, 3)), Signed(N(v, 4, 4)),
      O(v, 5, 0) as Provenance, O(v, 5, 1) as Freshness,
      N(v, 6, 0), N(v, 6, 1), N(v, 6, 2), N(v, 6, 3),
      O(v, 7, 0) as MetricKind, T(v, 8))
  }

  lemma BaselineFront(id: u64, b: Baseline<Bits>, v: Value)
    requires ReadsAs(v, BaselineParts(id, b))
    ensures N(v, 0, 0) == id && N(v, 0, 1) == b.generation && O(v, 1, 0) == b.kind as int
    ensures N(v, 2, 0) == b.workloadId && N(v, 2, 1) == b.workloadGeneration && N(v, 2, 2) == b.deviceId
    ensures N(v, 2, 3) == b.deviceGeneration && N(v, 2, 4) == b.workerId && N(v, 2, 5) == b.workerBoot
    ensures S(v, 3, 0) == b.config && S(v, 3, 1) == b.problemSize && S(v, 3, 2) == b.runtimeGeneration
    ensures S(v, 3, 3) == b.kernelGeneration && S(v, 3, 4) == b.policyGeneration
  {
    var ps := BaselineParts(id, b);
    assert PartReads(v, 0, ps[0])
        && PartReads(v, 1, ps[1])
        && PartReads(v, 2, ps[2])
        && PartReads(v, 3, ps[3]);
  }

  lemma BaselineInverse(id: u64, b: Baseline<Bits>, v: Value)
    requires ReadsAs(v, BaselineParts(id, b))
    ensures BaselineOf(v) == b.(id := id)
  {
    BaselineFront(id, b, v);
    var ps := BaselineParts(id, b);
    assert PartReads(v, 4, ps[4])
        && PartReads(v, 5, ps[5])
        && PartReads(v, 6, ps[6])
        && PartReads(v, 7, ps[7])
        && PartReads(v, 8, ps[8]);
  }

  lemma BaselineLayout(id: u64, b: Baseline<Bits>)
    ensures Layouts(BaselineParts(id, b)) == BaselineFormat.fields
  {
  }

  // ---------- Lists of enumerators ----------

  function ConfounderCodes(cs: seq<Confounder>): seq<u8> {
    seq(|cs|, i requires 0 <= i < |cs| => cs[i] as int)
  }

  function ConfoundersOf(os: seq<u8>): seq<Confounder> {
    seq(|os|, i requires 0 <= i < |os| => os[i] as Confounder)
  }

  function DomainCodes(ds: seq<InterferenceDomain>): seq<u8> {
    seq(|ds|, i requires 0 <= i < |ds| => ds[i] as int)
  }

  function DomainsOf(os: seq<u8>): seq<InterferenceDomain> {
    seq(|os|, i requires 0 <= i < |os| => os[i] as InterferenceDomain)
  }

  function ProvenanceCodes(ps: seq<Provenance>): seq<u8> {
    seq(|ps|, i requires 0 <= i < |ps| => ps[i] as int)
  }

  function ProvenancesOf(os: seq<u8>): seq<Provenance> {
    seq(|os|, i requires 0 <= i < |os| => os[i] as Provenance)
  }

  lemma ListsInverse()
    ensures forall cs :: ConfoundersOf(ConfounderCodes(cs)) == cs
    ensures forall ds :: DomainsOf(DomainCodes(ds)) == ds
    ensures forall ps :: ProvenancesOf(ProvenanceCodes(ps)) == ps
  {
  }

  // ---------- Sources, workers, workloads ----------

  const SourceFormat := Rec([Group(2, U64), Group(1, Str), U32, Group(1, U8)])

  function SourceParts(id: u64, s: Source): seq<Part> {
    [Numbers([id, s.generation]), Strings([s.name]), Caps(s.caps), Octets([s.freshness as int])]
  }

  function SourceOf(v: Value): Source {
    Source(N(v, 0, 1), S(v, 1, 0), C(v, 2), O(v, 3, 0) as Freshness)
  }

  lemma SourceInverse(id: u64, s: Source, v: Value)
    requires ReadsAs(v, SourceParts(id, s))
    ensures N(v, 0, 0) == id && SourceOf(v) == s
    ensures Layouts(SourceParts(id, s)) == SourceFormat.fields
  {
    var ps := SourceParts(id, s);
    assert PartReads(v, 0, ps[0])
        && PartReads(v, 1, ps[1])
        && PartReads(v, 2, ps[2])
        && PartReads(v, 3, ps[3]);
  }

  const WorkerFormat := Rec([Group(2, U64), Group(1, Str), Codec.Flag])

  function WorkerParts(id: u64, w: Worker): seq<Part> {
    [Numbers([id, w.boot]), Strings([w.name]), Switch(w.connected)]
  }

  function WorkerOf(v: Value): Worker {
    Worker(N(v, 0, 1), S(v, 1, 0), T(v, 2))
  }

  lemma WorkerInverse(id: u64, w: Worker, v: Value)
    requires ReadsAs(v, WorkerParts(id, w))
    ensures N(v, 0, 0) == id && WorkerOf(v) == w
    ensures Layouts(WorkerParts(id, w)) == WorkerFormat.fields
  {
    var ps := WorkerParts(id, w);
    assert PartReads(v, 0, ps[0])
        && PartReads(v, 1, ps[1])
        && PartReads(v, 2, ps[2]);
  }

  const WorkloadFormat :=
    Rec([Group(2, U64), Group(3, Str), Group(4, U64), Group(3, Str), Group(4, U64), Group(1, Str)])

  function WorkloadParts(id: u64, w: Workload): seq<Part> {
    [Numbers([id, w.generation]),
     Strings([w.name, w.config, w.problemSize]),
     Numbers([w.deviceId, w.deviceGeneration, w.workerId, w.workerBoot]),
     Strings([w.policyGeneration, w.runtimeGeneration, w.kernelGeneration]),
     Numbers([w.topologyGeneration, Unsigned(w.startMs), Unsigned(w.endMs), w.attemptId]),
     Strings([w.priorityClass])]
  }

  function WorkloadOf(v: Value): Workload {
    Workload(
      N(v, 0, 0), N(v, 0, 1), S(v, 1, 0), S(v, 1, 1), S(v, 1, 2), N(v, 2, 0), N(v, 2, 1), N(v, 2, 2),
      N(v, 2, 3), S(v, 3, 0), S(v, 3, 1), S(v, 3, 2), N(v, 4, 0), Signed(N(v, 4, 1)), Signed(N(v, 4, 2)),
      N(v, 4, 3), S(v, 5, 0))
  }

  lemma WorkloadInverse(id: u64, w: Workload, v: Value)
    requires ReadsAs(v, WorkloadParts(id, w))
    ensures WorkloadOf(v) == w.(id := id)
    ensures Layouts(WorkloadParts(id, w)) == WorkloadFormat.fields
  {
    var ps := WorkloadParts(id, w);
    assert PartReads(v, 0, ps[0])
        && PartReads(v, 1, ps[1])
        && PartReads(v, 2, ps[2])
        && PartReads(v, 3, ps[3])
        && PartReads(v, 4, ps[4])
        && PartReads(v, 5, ps[5]);
  }

  // ---------- Observations ----------

  const ObservationFormat :=
    Rec([Group(11, U64), Group(1, U8), Group(1, U64), Group(1, Str), Group(3, U64), Codec.Flag,
         Group(3, U8), U32, Vec(COUNT_BOUND, U64), Vec(COUNT_BOUND, U8)])

  function ObservationParts(id: u64, o: Observation<Bits>): seq<Part> {
    var m := o.measurement;
    [Numbers([id, o.generation, o.sourceId, o.sourceGeneration, o.workerId, o.workerBoot, o.workloadId,
              o.workloadGeneration, o.deviceId, o.deviceGeneration, Unsigned(o.timestampMs)]),
     Octets([m.kind as int]),
     Numbers([m.value]),
     Strings([m.units]),
     Numbers([m.sampleCount, m.variance, m.p95]),
     Switch(m.hasP95),
     Octets([o.provenance as int, o.freshness as int, o.health as int]),
     Caps(o.caps),
     NumberVec(o.peers),
     OctetVec(ConfounderCodes(o.confounders))]
  }

  function MeasurementOf(v: Value): Measurement<Bits> {
    Measurement(O(v, 1, 0) as MetricKind, N(v, 2, 0), S(v, 3, 0), N(v, 4, 0), N(v, 4, 1), N(v, 4, 2), T(v, 5))
  }

  function ObservationOf(v: Value): Observation<Bits> {
    Observation(
      N(v, 0, 0), N(v, 0, 1), N(v, 0, 2), N(v, 0, 3), N(v, 0, 4), N(v, 0, 5), N(v, 0, 6), N(v, 0, 7),
      N(v, 0, 8), N(v, 0, 9), Signed(N(v, 0, 10)), MeasurementOf(v), O(v, 6, 0) as Provenance,
      O(v, 6, 1) as Freshness, O(v, 6, 2) as SourceHealth, C(v, 7),
      NumberList(v, 8), ConfoundersOf(OctetList(v, 9)))
  }

  lemma MeasurementInverse(id: u64, o: Observation<Bits>, v: Value)
    requires ReadsAs(v, ObservationParts(id, o))
    ensures MeasurementOf(v) == o.measurement
  {
    var ps := ObservationParts(id, o);
    assert PartReads(v, 1, ps[1])
        && PartReads(v, 2, ps[2])
        && PartReads(v, 3, ps[3])
        && PartReads(v, 4, ps[4])
        && PartReads(v, 5, ps[5]);
  }

  lemma ObservationFront(id: u64, o: Observation<Bits>, v: Value)
    requires ReadsAs(v, ObservationParts(id, o))
    ensures N(v, 0, 0) == id && N(v, 0, 1) == o.generation && N(v, 0, 2) == o.sourceId
              && N(v, 0, 3) == o.sourceGeneration
    ensures N(v, 0, 4) == o.workerId && N(v, 0, 5) == o.workerBoot && N(v, 0, 6) == o.workloadId
    ensures N(v, 0, 7) == o.workloadGeneration && N(v, 0, 8) == o.deviceId && N(v, 0, 9) == o.deviceGeneration
    ensures N(v, 0, 10) == Unsigned(o.timestampMs)
  {
    assert PartReads(v, 0, ObservationParts(id, o)[0]);
  }

  lemma ObservationInverse(id: u64, o: Observation<Bits>, v: Value)
    requires ReadsAs(v, ObservationParts(id, o))
    ensures ObservationOf(v) == o.(id := id)
  {
    ListsInverse();
    MeasurementInverse(id, o, v);
    ObservationFront(id, o, v);
    var ps := ObservationParts(id, o);
    assert PartReads(v, 6, ps[6])
        && PartReads(v, 7, ps[7])
        && PartReads(v, 8, ps[8])
        && PartReads(v, 9, ps[9]);
  }

  lemma ObservationLayout(id: u64, o: Observation<Bits>)
    ensures Layouts(ObservationParts(id, o)) == ObservationFormat.fields
  {
  }

  // ---------- Degradations and evidence ----------

  const DeltaFormat := Rec([Group(1, U8), Group(4, U64)])

  function DeltaParts(d: MetricDelta<Bits>): seq<Part> {
    [Octets([d.kind as int]), Numbers([d.absolute, d.relative, d.sampleCount, d.variance])]
  }

  function DeltaValue(d: MetricDelta<Bits>): Value {
    Items(Contents(DeltaParts(d)))
  }

  function DeltaOf(v: Value): MetricDelta<Bits> {
    MetricDelta(O(v, 0, 0) as MetricKind, N(v, 1, 0), N(v, 1, 1), N(v, 1, 2), N(v, 1, 3))
  }

  lemma DeltaInverse(d: MetricDelta<Bits>, v: Value)
    requires ReadsAs(v, DeltaParts(d))
    ensures DeltaOf(v) == d
    ensures Layouts(DeltaParts(d)) == DeltaFormat.fields
  {
    var ps := DeltaParts(d);
    assert PartReads(v, 0, ps[0])
        && PartReads(v, 1, ps[1]);
  }

  lemma DeltaReads(d: MetricDelta<Bits>)
    ensures DeltaOf(DeltaValue(d)) == d
    ensures Layouts(DeltaParts(d)) == DeltaFormat.fields
  {
    ReadsBack(DeltaParts(d));
    DeltaInverse(d, DeltaValue(d));
  }

  lemma DeltaFits(d: MetricDelta<Bits>)
    ensures Fits(DeltaFormat, DeltaValue(d)) && Shaped(DeltaFormat, DeltaValue(d))
  {
    DeltaReads(d);
    PartsFit(DeltaParts(d));
  }

  function DeltasOf(vs: seq<Value>): seq<MetricDelta<Bits>> {
    seq(|vs|, i requires 0 <= i < |vs| => DeltaOf(vs[i]))
  }

  lemma DeltasRead(ds: seq<MetricDelta<Bits>>)
    ensures DeltasOf(Mapped(ds, DeltaValue)) == ds
  {
    var vs := Mapped(ds, DeltaValue);
    forall i | 0 <= i < |ds| ensures DeltaOf(vs[i]) == ds[i] {
      DeltaReads(ds[i]);
    }
  }

  lemma DeltasFit(ds: seq<MetricDelta<Bits>>)
    ensures ItemsFit(DeltaFormat, Mapped(ds, DeltaValue)) && ItemsShaped(DeltaFormat, Mapped(ds, DeltaValue))
  {
    forall d ensures Fits(DeltaFormat, DeltaValue(d)) && Shaped(DeltaFormat, DeltaValue(d)) {
      DeltaFits(d);
    }
    ItemsFitAll(DeltaFormat, Mapped(ds, DeltaValue));
    ItemsShapedAll(DeltaFormat, Mapped(ds, DeltaValue));
  }

  const EvidenceFormat := Rec([Group(2, U64), Group(3, U8), Group(1, Str)])

  function EvidenceParts(e: Evidence): seq<Part> {
    [Numbers([e.id, e.generation]),
     Octets([e.provenance as int, e.strength as int, e.outcome as int]),
     Strings([e.summary])]
  }

  function EvidenceValue(e: Evidence): Value {
    Items(Contents(EvidenceParts(e)))
  }

  function EvidenceOf(v: Value): Evidence {
    Evidence(N(v, 0, 0), N(v, 0, 1), O(v, 1, 0) as Provenance, O(v, 1, 1) as Attribution,
             O(v, 1, 2) as Outcome, S(v, 2, 0))
  }

  lemma EvidenceInverse(e: Evidence, v: Value)
    requires ReadsAs(v, EvidenceParts(e))
    ensures EvidenceOf(v) == e
    ensures Layouts(EvidenceParts(e)) == EvidenceFormat.fields
  {
    var ps := EvidenceParts(e);
    assert PartReads(v, 0, ps[0])
        && PartReads(v, 1, ps[1])
        && PartReads(v, 2, ps[2]);
  }

  lemma EvidenceReads(e: Evidence)
    ensures EvidenceOf(EvidenceValue(e)) == e
    ensures Layouts(EvidenceParts(e)) == EvidenceFormat.fields
  {
    ReadsBack(EvidenceParts(e));
    EvidenceInverse(e, EvidenceValue(e));
  }

  lemma EvidenceFits(e: Evidence)
    ensures Fits(EvidenceFormat, EvidenceValue(e)) <==> |e.summary| <= MAX_STRING
    ensures Shaped(EvidenceFormat, EvidenceValue(e)) <==> |e.summary| < Pow256(LENGTH)
  {
    EvidenceReads(e);
    PartsFit(EvidenceParts(e));
    EvidenceLimits(e);
  }

  lemma EvidenceLimits(e: Evidence)
    ensures (forall i :: 0 <= i < |EvidenceParts(e)| ==> EvidenceParts(e)[i].Bounded()) <==> |e.summary| <= MAX_STRING
    ensures (forall i :: 0 <= i < |EvidenceParts(e)| ==> EvidenceParts(e)[i].Writable())
       <==> |e.summary| < Pow256(LENGTH)
  {
    var ps := EvidenceParts(e);
    assert ps[2] == Strings([e.summary]) && [e.summary][0] == e.summary;
  }

  function EvidencesOf(vs: seq<Value>): seq<Evidence> {
    seq(|vs|, i requires 0 <= i < |vs| => EvidenceOf(vs[i]))
  }

  predicate EvidencesShort(es: seq<Evidence>) {
    forall i :: 0 <= i < |es| ==> |es[i].summary| <= MAX_STRING
  }

  predicate EvidencesStorable(es: seq<Evidence>) {
    forall i :: 0 <= i < |es| ==> |es[i].summary| < Pow256(LENGTH)
  }

  lemma EvidencesRead(es: seq<Evidence>)
    ensures EvidencesOf(Mapped(es, EvidenceValue)) == es
  {
    var vs := Mapped(es, EvidenceValue);
    forall i | 0 <= i < |es| ensures EvidenceOf(vs[i]) == es[i] {
      EvidenceReads(es[i]);
    }
  }

  lemma EvidencesFit(es: seq<Evidence>)
    ensures ItemsFit(EvidenceFormat, Mapped(es, EvidenceValue)) <==> EvidencesShort(es)
    ensures ItemsShaped(EvidenceFormat, Mapped(es, EvidenceValue)) <==> EvidencesStorable(es)
  {
    var vs := Mapped(es, EvidenceValue);
    forall i | 0 <= i < |es|
      ensures Fits(EvidenceFormat, vs[i]) <==> |es[i].summary| <= MAX_STRING
      ensures Shaped(EvidenceFormat, vs[i]) <==> |es[i].summary| < Pow256(LENGTH)
    {
      EvidenceFits(es[i]);
    }
    ItemsFitAll(EvidenceFormat, vs);
    ItemsShapedAll(EvidenceFormat, vs);
  }

  // ---------- Episodes ----------

  const EpisodeFormat :=
    Rec([Group(4, U64), Codec.Flag, Group(1, U64), Vec(COUNT_BOUND, U64), Vec(COUNT_BOUND, U8), Group(2, U64),
         Vec(COUNT_BOUND, DeltaFormat), Group(2, U64), Group(3, U8), Group(1, U64),
         Vec(COUNT_BOUND, EvidenceFormat)])

  function EpisodeParts(id: u64, e: Episode<Bits>): seq<Part> {
    [Numbers([id, e.generation, Unsigned(e.startMs), Unsigned(e.endMs)]),
     Switch(e.open),
     Numbers([e.affected]),
     NumberVec(e.coRunning),
     OctetVec(DomainCodes(e.domains)),
     Numbers([e.baselineId, e.degradation.sampleCount]),
     RecordVec(DeltaFormat, Mapped(e.degradation.deltas, DeltaValue)),
     Numbers([e.degradation.worst, e.confidence]),
     Octets([e.classification as int, e.provenance as int, e.freshness as int]),
     Numbers([e.epoch]),
     RecordVec(EvidenceFormat, Mapped(e.evidence, EvidenceValue))]
  }

  function EpisodeOf(v: Value): Episode<Bits> {
    Episode(
      N(v, 0, 0), N(v, 0, 1), Signed(N(v, 0, 2)), Signed(N(v, 0, 3)), T(v, 1), N(v, 2, 0),
      NumberList(v, 3), DomainsOf(OctetList(v, 4)), N(v, 5, 0),
      Degradation(DeltasOf(RecordList(v, 6)), N(v, 5, 1), N(v, 7, 0)),
      EvidencesOf(RecordList(v, 10)), N(v, 7, 1), O(v, 8, 0) as Outcome, O(v, 8, 1) as Provenance,
      O(v, 8, 2) as Freshness, N(v, 9, 0))
  }

  lemma EpisodeFront(id: u64, e: Episode<Bits>, v: Value)
    requires ReadsAs(v, EpisodeParts(id, e))
    ensures N(v, 0, 0) == id && N(v, 0, 1) == e.generation && Signed(N(v, 0, 2)) == e.startMs
    ensures Signed(N(v, 0, 3)) == e.endMs && T(v, 1) == e.open && N(v, 2, 0) == e.affected
    ensures NumberList(v, 3) == e.coRunning && DomainsOf(OctetList(v, 4)) == e.domains
  {
    ListsInverse();
    var ps := EpisodeParts(id, e);
    assert PartReads(v, 0, ps[0])
        && PartReads(v, 1, ps[1])
        && PartReads(v, 2, ps[2])
        && PartReads(v, 3, ps[3])
        && PartReads(v, 4, ps[4]);
  }

  lemma EpisodeBack(id: u64, e: Episode<Bits>, v: Value)
    requires ReadsAs(v, EpisodeParts(id, e))
    ensures N(v, 5, 0) == e.baselineId && N(v, 5, 1) == e.degradation.sampleCount
    ensures DeltasOf(RecordList(v, 6)) == e.degradation.deltas && EvidencesOf(RecordList(v, 10)) == e.evidence
    ensures N(v, 7, 0) == e.degradation.worst && N(v, 7, 1) == e.confidence && N(v, 9, 0) == e.epoch
    ensures O(v, 8, 0) == e.classification as int && O(v, 8, 1) == e.provenance as int
    ensures O(v, 8, 2) == e.freshness as int
  {
    DeltasRead(e.degradation.deltas);
    EvidencesRead(e.evidence);
    var ps := EpisodeParts(id, e);
    assert PartReads(v, 5, ps[5])
        && PartReads(v, 6, ps[6])
        && PartReads(v, 7, ps[7])
        && PartReads(v, 8, ps[8])
        && PartReads(v, 9, ps[9])
        && PartReads(v, 10, ps[10]);
  }

  lemma EpisodeInverse(id: u64, e: Episode<Bits>, v: Value)
    requires ReadsAs(v, EpisodeParts(id, e))
    ensures EpisodeOf(v) == e.(id := id)
  {
    EpisodeFront(id, e, v);
    EpisodeBack(id, e, v);
  }

  lemma EpisodeLayout(id: u64, e: Episode<Bits>)
    ensures Layouts(EpisodeParts(id, e)) == EpisodeFormat.fields
  {
  }

  // ---------- Comparisons and recoveries ----------

  const PairwiseFormat :=
    Rec([Group(3, U64), Group(1, U8), Group(2, U64), Vec(COUNT_BOUND, DeltaFormat), Group(3, U64), Group(3, U8),
         Group(4, U64), Vec(COUNT_BOUND, U8), Codec.Flag, Vec(COUNT_BOUND, U8)])

  function PairwiseParts(cid: u64, p: Pairwise<Bits>): seq<Part> {
    [Numbers([cid, p.victim, p.neighbor]),
     Octets([p.domain as int]),
     Numbers([p.baselineId, p.degradation.sampleCount]),
     RecordVec(DeltaFormat, Mapped(p.degradation.deltas, DeltaValue)),
     Numbers([p.degradation.worst, p.confidence, p.sampleCount]),
     Octets([p.freshness as int, p.outcome as int, p.attribution as int]),
     Numbers([p.episodeId, p.comparisonId, p.comparisonGeneration, p.epoch]),
     OctetVec(ProvenanceCodes(p.evidenceSources)),
     Switch(p.confounded),
     OctetVec(ConfounderCodes(p.unresolved))]
  }

  function PairwiseOf(v: Value): Pairwise<Bits> {
    Pairwise(
      N(v, 0, 1), N(v, 0, 2), O(v, 1, 0) as InterferenceDomain, N(v, 2, 0),
      Degradation(DeltasOf(RecordList(v, 3)), N(v, 2, 1), N(v, 4, 0)), N(v, 4, 1), N(v, 4, 2),
      O(v, 5, 0) as Freshness, O(v, 5, 1) as Outcome, O(v, 5, 2) as Attribution,
      N(v, 6, 0), N(v, 6, 1), N(v, 6, 2), N(v, 6, 3),
      ProvenancesOf(OctetList(v, 7)), T(v, 8), ConfoundersOf(OctetList(v, 9)))
  }

  lemma PairwiseFront(cid: u64, p: Pairwise<Bits>, v: Value)
    requires ReadsAs(v, PairwiseParts(cid, p))
    ensures N(v, 0, 0) == cid && N(v, 0, 1) == p.victim && N(v, 0, 2) == p.neighbor
    ensures O(v, 1, 0) == p.domain as int && N(v, 2, 0) == p.baselineId && N(v, 2, 1) == p.degradation.sampleCount
    ensures DeltasOf(RecordList(v, 3)) == p.degradation.deltas
    ensures N(v, 4, 0) == p.degradation.worst && N(v, 4, 1) == p.confidence && N(v, 4, 2) == p.sampleCount
  {
    DeltasRead(p.degradation.deltas);
    var ps := PairwiseParts(cid, p);
    assert PartReads(v, 0, ps[0])
        && PartReads(v, 1, ps[1])
        && PartReads(v, 2, ps[2])
        && PartReads(v, 3, ps[3])
        && PartReads(v, 4, ps[4]);
  }

  lemma PairwiseInverse(cid: u64, p: Pairwise<Bits>, v: Value)
    requires ReadsAs(v, PairwiseParts(cid, p))
    ensures N(v, 0, 0) == cid && PairwiseOf(v) == p
  {
    ListsInverse();
    PairwiseFront(cid, p, v);
    var ps := PairwiseParts(cid, p);
    assert PartReads(v, 5, ps[5])
        && PartReads(v, 6, ps[6])
        && PartReads(v, 7, ps[7])
        && PartReads(v, 8, ps[8])
        && PartReads(v, 9, ps[9]);
  }

  lemma PairwiseLayout(cid: u64, p: Pairwise<Bits>)
    ensures Layouts(PairwiseParts(cid, p)) == PairwiseFormat.fields
  {
  }

  const RecoveryFormat := Rec([Group(2, U64), Group(1, U8)])

  function RecoveryParts(k: CellKey): seq<Part> {
    [Numbers([k.victim, k.neighbor]), Octets([k.domain as int])]
  }

  function RecoveryOf(v: Value): CellKey {
    CellKey(N(v, 0, 0), N(v, 0, 1), O(v, 1, 0) as InterferenceDomain)
  }

  lemma RecoveryInverse(k: CellKey, v: Value)
    requires ReadsAs(v, RecoveryParts(k))
    ensures RecoveryOf(v) == k
    ensures Layouts(RecoveryParts(k)) == RecoveryFormat.fields
  {
    var ps := RecoveryParts(k);
    assert PartReads(v, 0, ps[0])
        && PartReads(v, 1, ps[1]);
  }
}

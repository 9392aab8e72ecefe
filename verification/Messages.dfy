/** The baseline and observation messages of the TCP protocol. */
module Messages {
  import opened Words
  import opened Domain
  import opened Codec
  import opened Records
  import opened Bounds
  import opened Buffers
  import opened StateCodec

  // ---------- Parsed values are rebuilt from what is read out of them ----------

  /** A part whose value can be rebuilt from the fields it is read into. */
  predicate Rebuildable(p: Part) {
    !p.Caps? && !p.RecordVec?
  }

  lemma PartRebuilt(v: Value, g: nat, p: Part)
    requires Rebuildable(p) && PartReads(v, g, p) && Shaped(p.Layout(), Records.At(v, g))
    ensures Records.At(v, g) == p.Content()
  {
    Widths();
    var x := Records.At(v, g);
    match p
    case Numbers(ns) =>
      FieldsShapedAll(Repeat(|ns|, U64), x.items);
      assert forall i: nat :: i < |ns| ==> N(v, g, i) == ns[i] && x.items[i] == Number(ns[i]);
    case Octets(os) =>
      FieldsShapedAll(Repeat(|os|, U8), x.items);
      assert forall i: nat :: i < |os| ==> O(v, g, i) == os[i] && x.items[i] == Octet(os[i]);
    case Strings(ss) =>
      FieldsShapedAll(Repeat(|ss|, Str), x.items);
      assert forall i: nat :: i < |ss| ==> S(v, g, i) == ss[i] && x.items[i] == Letters(ss[i]);
    case Switch(b) =>
    case NumberVec(ns) => NumbersRebuilt(x, ns, COUNT_BOUND);
    case Peers(ns) => NumbersRebuilt(x, ns, COUNT_MAX);
    case OctetVec(os) =>
      ItemsShapedAll(U8, x.items);
      assert forall i :: 0 <= i < |os| ==> x.items[i] == Octet(os[i]);
  }

  lemma NumbersRebuilt(x: Value, ns: seq<u64>, bound: nat)
    requires Shaped(Vec(bound, U64), x)
    requires ns == seq(|x.items|, i requires 0 <= i < |x.items| => NumberOf(x.items[i]))
    ensures x == Items(Mapped(ns, Number))
  {
    Widths();
    ItemsShapedAll(U64, x.items);
    assert forall i :: 0 <= i < |ns| ==> x.items[i] == Number(ns[i]);
  }

  lemma Rebuilt(v: Value, ps: seq<Part>)
    requires ReadsAs(v, ps) && Shaped(Rec(Layouts(ps)), v)
    requires forall i :: 0 <= i < |ps| ==> Rebuildable(ps[i])
    ensures v == Items(Contents(ps))
  {
    FieldsShapedAll(Layouts(ps), v.items);
    forall i: nat | i < |ps| ensures v.items[i] == Contents(ps)[i] {
      assert PartReads(v, i, ps[i]);
      assert Shaped(Layouts(ps)[i], v.items[i]);
      PartRebuilt(v, i, ps[i]);
    }
  }

  // ---------- Messages ----------

  /** Read a whole message: no error, and no byte left over. */
  function ReadAll(f: Format, bs: seq<u8>): Option<Value> {
    var r := Get(f, bs, Start());
    if r.rest.ok && r.rest.pos == |bs| then Some(r.value) else None
  }

  lemma ReadAllExact(f: Format, v: Value)
    requires Shaped(f, v)
    ensures ReadAll(f, Encode(f, v)) == if Fits(f, v) then Some(v) else None
  {
    Whole(f, v);
  }

  /** A lossless format reads only what writing would produce. */
  lemma ReadAllImage(f: Format, bs: seq<u8>)
    requires ReadAll(f, bs).Some?
    ensures var v := ReadAll(f, bs).value;
            Shaped(f, v) && Fits(f, v) && (Lossless(f) ==> bs == Encode(f, v))
  {
    GetExact(f, bs, Start());
    var v := ReadAll(f, bs).value;
    if Lossless(f) {
      AtSlice(bs, 0, Encode(f, v));
    }
  }

  // ---------- Baselines: the layout of the state payload ----------

  function BaselineValue(b: Baseline<Bits>): Value {
    RecordValue(BaselineParts(b.id, b))
  }

  lemma BaselineFits(b: Baseline<Bits>)
    ensures Fits(BaselineFormat, BaselineValue(b)) <==> BaselineWithin(b, READER)
    ensures Shaped(BaselineFormat, BaselineValue(b)) <==> BaselineWithin(b, WRITER)
  {
    BaselineEntry(b.id, b);
    RecordFits(BaselineParts(b.id, b), BaselineFormat, BaselineWithin(b, READER), BaselineWithin(b, WRITER));
  }

  function BaselineMessage(b: Baseline<Bits>): seq<u8> {
    Print(BaselineFormat, BaselineValue(b))
  }

  lemma BaselineEncodes(b: Baseline<Bits>)
    requires BaselineWithin(b, WRITER)
    ensures Shaped(BaselineFormat, BaselineValue(b)) && BaselineMessage(b) == Encode(BaselineFormat, BaselineValue(b))
  {
    BaselineFits(b);
    PrintEncodes(BaselineFormat, BaselineValue(b));
  }

  /** The verdict on a message, and the record that the decoder leaves behind in either case. */
  datatype Decoded<T> = Decoded(ok: bool, record: T)

  /** Every field is assigned what was read for it, also after the error flag went up. */
  function ReadBaseline(bs: seq<u8>): Decoded<Baseline<Bits>> {
    var r := Get(BaselineFormat, bs, Start());
    Decoded(r.rest.ok && r.rest.pos == |bs|, BaselineOf(r.value))
  }

  function ParseBaseline(bs: seq<u8>): Option<Baseline<Bits>> {
    var d := ReadBaseline(bs);
    if d.ok then Some(d.record) else None
  }

  /** A baseline message decodes to the baseline it was made from, unless a string is too long. */
  lemma BaselineRoundTrip(b: Baseline<Bits>)
    requires BaselineWithin(b, WRITER)
    ensures ParseBaseline(BaselineMessage(b)) == if BaselineWithin(b, READER) then Some(b) else None
  {
    BaselineFits(b);
    BaselineEncodes(b);
    BaselineEntry(b.id, b);
    ReadAllExact(BaselineFormat, BaselineValue(b));
  }

  // ---------- Formats that end in a flag ----------

  lemma GetFieldsFirst(fs: seq<Format>, bs: seq<u8>, c: Cursor)
    requires c.pos <= |bs| && fs != []
    ensures var x := Get(fs[0], bs, c);
            var xs := GetFields(fs[1..], bs, x.rest);
            GetFields(fs, bs, c) == Read([x.value] + xs.value, xs.rest)
  {
  }

  lemma {:induction false} GetFieldsLast(fs: seq<Format>, f: Format, bs: seq<u8>, c: Cursor)
    requires c.pos <= |bs|
    ensures var front := GetFields(fs, bs, c);
            var last := Get(f, bs, front.rest);
            GetFields(fs + [f], bs, c) == Read(front.value + [last.value], last.rest)
    decreases |fs|
  {
    GetFieldsFirst(fs + [f], bs, c);
    if fs == [] {
      assert fs + [f] == [f] && [f][1..] == [];
      var last := Get(f, bs, c);
      assert GetFields(fs, bs, c) == Read([], c) && GetFields([f][1..], bs, last.rest) == Read([], last.rest);
      assert [last.value] + [] == [] + [last.value];
    } else {
      GetFieldsFirst(fs, bs, c);
      var x := Get(fs[0], bs, c);
      GetFieldsLast(fs[1..], f, bs, x.rest);
      assert (fs + [f])[1..] == fs[1..] + [f] && (fs + [f])[0] == fs[0];
      var front := GetFields(fs[1..], bs, x.rest);
      var last := Get(f, bs, front.rest);
      Regroup(x.value, front.value, last.value);
    }
  }

  lemma Regroup(x: Value, xs: seq<Value>, y: Value)
    ensures [x] + (xs + [y]) == ([x] + xs) + [y]
  {
  }

  lemma {:induction false} EncodeFieldsLast(fs: seq<Format>, f: Format, vs: seq<Value>, v: Value)
    requires FieldsShaped(fs, vs) && Shaped(f, v)
    ensures FieldsShaped(fs + [f], vs + [v]) && EncodeFields(fs + [f], vs + [v]) == EncodeFields(fs, vs) + Encode(f, v)
    decreases |fs|
  {
    if fs == [] {
      assert fs + [f] == [f] && vs + [v] == [v] && [f][1..] == [] && [v][1..] == [];
      assert FieldsShaped([f][1..], [v][1..]);
    } else {
      EncodeFieldsLast(fs[1..], f, vs[1..], v);
      assert (fs + [f])[1..] == fs[1..] + [f] && (vs + [v])[1..] == vs[1..] + [v];
      assert (fs + [f])[0] == fs[0] && (vs + [v])[0] == vs[0];
    }
  }

  lemma FlagRead(bs: seq<u8>, c: Cursor)
    requires c.pos <= |bs| && Get(Codec.Flag, bs, c).rest.ok
    ensures c.pos < |bs| && Get(Codec.Flag, bs, c).rest.pos == c.pos + 1
    ensures var v := Get(Codec.Flag, bs, c).value;
            Shaped(Codec.Flag, v) && Encode(Codec.Flag, v) == [if bs[c.pos] != 0 then 1 else 0]
  {
    Widths();
    var one := bs[c.pos..c.pos + 1];
    assert one == [bs[c.pos]] && one[1..] == [];
    assert FromLittleEndian(one) == bs[c.pos];
    assert LittleEndian(0, BYTE) == [0] && LittleEndian(1, BYTE) == [1];
  }

  /** What is written for a message that ends in a flag: its own bytes, with the flag made 0 or 1. */
  lemma FlagNormalised(fs: seq<Format>, bs: seq<u8>)
    requires AllLossless(fs) && ReadAll(Rec(fs + [Codec.Flag]), bs).Some?
    ensures bs != []
    ensures var v := ReadAll(Rec(fs + [Codec.Flag]), bs).value;
            && Shaped(Rec(fs + [Codec.Flag]), v)
            && Encode(Rec(fs + [Codec.Flag]), v) == bs[..|bs| - 1] + [if bs[|bs| - 1] != 0 then 1 else 0]
  {
    var front := GetFields(fs, bs, Start());
    var last := Get(Codec.Flag, bs, front.rest);
    GetFieldsLast(fs, Codec.Flag, bs, Start());
    FlagRead(bs, front.rest);
    GetFieldsExact(fs, bs, Start());
    EncodeFieldsLast(fs, Codec.Flag, front.value, last.value);
    AtSlice(bs, 0, EncodeFields(fs, front.value));
  }

  const BaselineFront :=
    [Group(2, U64), Group(1, U8), Group(6, U64), Group(5, Str), Group(5, U64), Group(2, U8), Group(4, U64),
      Group(1, U8)]

  lemma BaselineLossless()
    ensures BaselineFormat == Rec(BaselineFront + [Codec.Flag]) && AllLossless(BaselineFront)
  {
    assert forall k: nat, f: Format :: f.Uint? || f.Str? ==> Lossless(Group(k, f));
  }

  lemma BaselineFrontReads(v: Value)
    ensures var b := BaselineOf(v);
            var ps := BaselineParts(b.id, b);
            PartReads(v, 0, ps[0]) && PartReads(v, 1, ps[1]) && PartReads(v, 2, ps[2]) && PartReads(v, 3, ps[3])
  {
  }

  lemma BaselineBackReads(v: Value)
    ensures var b := BaselineOf(v);
            var ps := BaselineParts(b.id, b);
            && PartReads(v, 4, ps[4]) && PartReads(v, 5, ps[5]) && PartReads(v, 6, ps[6]) && PartReads(v, 7, ps[7])
            && PartReads(v, 8, ps[8])
  {
  }

  lemma NineReads(v: Value, ps: seq<Part>)
    requires |ps| == 9
    requires PartReads(v, 0, ps[0]) && PartReads(v, 1, ps[1]) && PartReads(v, 2, ps[2]) && PartReads(v, 3, ps[3])
    requires PartReads(v, 4, ps[4]) && PartReads(v, 5, ps[5]) && PartReads(v, 6, ps[6]) && PartReads(v, 7, ps[7])
    requires PartReads(v, 8, ps[8])
    ensures ReadsAs(v, ps)
  {
  }

  lemma BaselineShape(b: Baseline<Bits>)
    ensures BaselineFormat == Rec(Layouts(BaselineParts(b.id, b))) && |BaselineParts(b.id, b)| == 9
    ensures forall i :: 0 <= i < 9 ==> Rebuildable(BaselineParts(b.id, b)[i])
  {
    BaselineLayout(b.id, b);
  }

  lemma BaselineRebuilt(v: Value)
    requires Shaped(BaselineFormat, v)
    ensures v == BaselineValue(BaselineOf(v))
  {
    var b := BaselineOf(v);
    BaselineShape(b);
    BaselineFrontReads(v);
    BaselineBackReads(v);
    NineReads(v, BaselineParts(b.id, b));
    Rebuilt(v, BaselineParts(b.id, b));
  }

  /** An accepted baseline message encodes back to the same bytes exactly when its last byte is 0 or 1. */
  lemma BaselineImage(bs: seq<u8>)
    requires ParseBaseline(bs).Some?
    ensures bs != [] && BaselineWithin(ParseBaseline(bs).value, WRITER)
    ensures BaselineMessage(ParseBaseline(bs).value) == bs <==> bs[|bs| - 1] <= 1
  {
    var v := ReadAll(BaselineFormat, bs).value;
    BaselineLossless();
    FlagNormalised(BaselineFront, bs);
    BaselineRebuilt(v);
    BaselineFits(BaselineOf(v));
    BaselineEncodes(BaselineOf(v));
    LastByte(bs);
  }

  lemma LastByte(bs: seq<u8>)
    requires bs != []
    ensures bs[..|bs| - 1] + [if bs[|bs| - 1] != 0 then 1 else 0] == bs <==> bs[|bs| - 1] <= 1
  {
    var y: seq<u8> := bs[..|bs| - 1] + [if bs[|bs| - 1] != 0 then 1 else 0];
    assert y[|bs| - 1] == if bs[|bs| - 1] != 0 then 1 else 0;
    assert bs == bs[..|bs| - 1] + [bs[|bs| - 1]];
  }

  // ---------- Observations: no capabilities, no confounders, no p95 ----------

  const MessageFormat :=
    Rec([Group(11, U64), Group(1, U8), Group(1, U64), Group(1, Str), Group(2, U64), Group(3, U8), Vec(COUNT_MAX, U64)])

  function MessageParts(o: Observation<Bits>): seq<Part> {
    var m := o.measurement;
    [Numbers([o.id, o.generation, o.sourceId, o.sourceGeneration, o.workerId, o.workerBoot, o.workloadId,
              o.workloadGeneration, o.deviceId, o.deviceGeneration, Unsigned(o.timestampMs)]),
     Octets([m.kind as int]),
     Numbers([m.value]),
     Strings([m.units]),
     Numbers([m.sampleCount, m.variance]),
     Octets([o.provenance as int, o.freshness as int, o.health as int]),
     Peers(o.peers)]
  }

  function MessageMeasurement(v: Value, into: Measurement<Bits>): Measurement<Bits> {
    into.(kind := O(v, 1, 0) as MetricKind, value := N(v, 2, 0), units := S(v, 3, 0),
          sampleCount := N(v, 4, 0), variance := N(v, 4, 1))
  }

  /** The decoder assigns the fields it reads and appends the peers; the others keep their values. */
  function MessageOf(v: Value, into: Observation<Bits>): Observation<Bits> {
    into.(id := N(v, 0, 0), generation := N(v, 0, 1), sourceId := N(v, 0, 2), sourceGeneration := N(v, 0, 3),
          workerId := N(v, 0, 4), workerBoot := N(v, 0, 5), workloadId := N(v, 0, 6),
          workloadGeneration := N(v, 0, 7), deviceId := N(v, 0, 8), deviceGeneration := N(v, 0, 9),
          timestampMs := Signed(N(v, 0, 10)), measurement := MessageMeasurement(v, into.measurement),
          provenance := O(v, 5, 0) as Provenance, freshness := O(v, 5, 1) as Freshness,
          health := O(v, 5, 2) as SourceHealth, peers := into.peers + NumberList(v, 6))
  }

  /** What of an observation travels: into provides the rest. */
  function Travelled(o: Observation<Bits>, into: Observation<Bits>): Observation<Bits> {
    o.(measurement := o.measurement.(p95 := into.measurement.p95, hasP95 := into.measurement.hasP95),
       caps := into.caps, confounders := into.confounders, peers := into.peers + o.peers)
  }

  lemma MessageInverse(o: Observation<Bits>, v: Value, into: Observation<Bits>)
    requires ReadsAs(v, MessageParts(o))
    ensures MessageOf(v, into) == Travelled(o, into)
  {
    var ps := MessageParts(o);
    assert PartReads(v, 0, ps[0])
        && PartReads(v, 1, ps[1])
        && PartReads(v, 2, ps[2])
        && PartReads(v, 3, ps[3])
        && PartReads(v, 4, ps[4])
        && PartReads(v, 5, ps[5])
        && PartReads(v, 6, ps[6]);
  }

  predicate MessageWithin(o: Observation<Bits>, l: Limits) {
    |o.measurement.units| <= l.text && |o.peers| <= COUNT_MAX
  }

  lemma MessageMatches(o: Observation<Bits>)
    ensures Matches(MessageParts(o), MessageWithin(o, READER), MessageWithin(o, WRITER))
    ensures Layouts(MessageParts(o)) == MessageFormat.fields
  {
    Widths();
    var ps := MessageParts(o);
    assert ps[3] == Strings([o.measurement.units]) && [o.measurement.units][0] == o.measurement.units;
    assert ps[6] == Peers(o.peers);
  }

  lemma MessageFits(o: Observation<Bits>)
    ensures Fits(MessageFormat, RecordValue(MessageParts(o))) <==> MessageWithin(o, READER)
    ensures Shaped(MessageFormat, RecordValue(MessageParts(o))) <==> MessageWithin(o, WRITER)
  {
    MessageMatches(o);
    RecordFits(MessageParts(o), MessageFormat, MessageWithin(o, READER), MessageWithin(o, WRITER));
  }

  function ObservationMessage(o: Observation<Bits>): seq<u8> {
    Print(MessageFormat, RecordValue(MessageParts(o)))
  }

  lemma ObservationEncodes(o: Observation<Bits>)
    requires MessageWithin(o, WRITER)
    ensures var v := RecordValue(MessageParts(o));
            Shaped(MessageFormat, v) && ObservationMessage(o) == Encode(MessageFormat, v)
  {
    MessageFits(o);
    PrintEncodes(MessageFormat, RecordValue(MessageParts(o)));
  }

  function ParseObservation(bs: seq<u8>, into: Observation<Bits>): Option<Observation<Bits>> {
    match ReadAll(MessageFormat, bs)
    case None => None
    case Some(v) => Some(MessageOf(v, into))
  }

  /** Decoding restores what travels, exactly when the unit string is within the reader's limit. */
  lemma ObservationRoundTrip(o: Observation<Bits>, into: Observation<Bits>)
    requires MessageWithin(o, WRITER)
    ensures ParseObservation(ObservationMessage(o), into)
         == if MessageWithin(o, READER) then Some(Travelled(o, into)) else None
  {
    MessageFits(o);
    ObservationEncodes(o);
    var v := RecordValue(MessageParts(o));
    ReadAllExact(MessageFormat, v);
    ReadsBack(MessageParts(o));
    MessageInverse(o, v, into);
  }

  lemma MessageLossless()
    ensures Lossless(MessageFormat)
  {
    assert forall k: nat, f: Format :: f.Uint? || f.Str? ==> Lossless(Group(k, f));
  }

  lemma MessageFrontReads(v: Value, into: Observation<Bits>)
    ensures var ps := MessageParts(MessageOf(v, into));
            PartReads(v, 0, ps[0]) && PartReads(v, 1, ps[1]) && PartReads(v, 2, ps[2])
  {
  }

  lemma MessageBackReads(v: Value, into: Observation<Bits>)
    requires into.peers == []
    ensures var ps := MessageParts(MessageOf(v, into));
            PartReads(v, 3, ps[3]) && PartReads(v, 4, ps[4]) && PartReads(v, 5, ps[5]) && PartReads(v, 6, ps[6])
  {
    assert MessageOf(v, into).peers == NumberList(v, 6);
  }

  lemma SevenReads(v: Value, ps: seq<Part>)
    requires |ps| == 7
    requires PartReads(v, 0, ps[0]) && PartReads(v, 1, ps[1]) && PartReads(v, 2, ps[2]) && PartReads(v, 3, ps[3])
    requires PartReads(v, 4, ps[4]) && PartReads(v, 5, ps[5]) && PartReads(v, 6, ps[6])
    ensures ReadsAs(v, ps)
  {
  }

  lemma MessageReads(v: Value, into: Observation<Bits>)
    requires into.peers == []
    ensures ReadsAs(v, MessageParts(MessageOf(v, into)))
  {
    MessageFrontReads(v, into);
    MessageBackReads(v, into);
    SevenReads(v, MessageParts(MessageOf(v, into)));
  }

  lemma MessageRebuilt(v: Value, into: Observation<Bits>)
    requires into.peers == [] && Shaped(MessageFormat, v)
    ensures v == RecordValue(MessageParts(MessageOf(v, into)))
  {
    var o := MessageOf(v, into);
    MessageReads(v, into);
    MessageShape(o);
    Rebuilt(v, MessageParts(o));
  }

  lemma MessageShape(o: Observation<Bits>)
    ensures MessageFormat == Rec(Layouts(MessageParts(o)))
    ensures forall i :: 0 <= i < |MessageParts(o)| ==> Rebuildable(MessageParts(o)[i])
  {
    MessageMatches(o);
  }

  /** Every accepted observation message encodes back to the same bytes. */
  lemma ObservationImage(bs: seq<u8>, into: Observation<Bits>)
    requires into.peers == [] && ParseObservation(bs, into).Some?
    ensures var o := ParseObservation(bs, into).value;
            MessageWithin(o, WRITER) && ObservationMessage(o) == bs
  {
    var v := ReadAll(MessageFormat, bs).value;
    MessageLossless();
    ReadAllImage(MessageFormat, bs);
    MessageRebuilt(v, into);
    MessageFits(MessageOf(v, into));
    ObservationEncodes(MessageOf(v, into));
  }

  // ---------- The record that an observation decoder leaves behind ----------

  const MessageFront :=
    [Group(11, U64), Group(1, U8), Group(1, U64), Group(1, Str), Group(2, U64), Group(3, U8)]

  /** The peer loop pushes every number it reads, the one that runs short included. */
  function TakePeers(n: nat, bs: seq<u8>, c: Cursor): (r: Read<seq<u64>>)
    requires c.pos <= |bs|
    ensures Advances(bs, c, r.rest)
    decreases n
  {
    if n == 0 || !c.ok then Read([], c)
    else
      var x := GetUint(LENGTH, bs, c);
      var xs := TakePeers(n - 1, bs, x.rest);
      Read([NumberOf(Num(x.value))] + xs.value, xs.rest)
  }

  /** The decoder's verdict and the target after it, whatever the bytes. */
  function ReadObservation(bs: seq<u8>, into: Observation<Bits>): Decoded<Observation<Bits>> {
    var front := Get(Rec(MessageFront), bs, Start());
    var n := GetUint(COUNT, bs, front.rest);
    var peers := TakePeers(n.value, bs, n.rest);
    Decoded(peers.rest.ok && peers.rest.pos == |bs|,
            MessageOf(front.value, into).(peers := into.peers + peers.value))
  }

  function Numbered(vs: seq<Value>): seq<u64> {
    seq(|vs|, i requires 0 <= i < |vs| => NumberOf(vs[i]))
  }

  lemma {:induction false} PeersTaken(n: nat, bs: seq<u8>, c: Cursor)
    requires c.pos <= |bs|
    ensures TakePeers(n, bs, c).rest == GetItems(U64, n, bs, c).rest
    ensures TakePeers(n, bs, c).rest.ok ==> TakePeers(n, bs, c).value == Numbered(GetItems(U64, n, bs, c).value)
    decreases n
  {
    if n > 0 && c.ok {
      var x := GetUint(LENGTH, bs, c);
      PeersTaken(n - 1, bs, x.rest);
      if x.rest.ok {
        var xs := GetItems(U64, n - 1, bs, x.rest).value;
        assert Numbered([Num(x.value)] + xs) == [NumberOf(Num(x.value))] + Numbered(xs);
      }
    }
  }

  lemma SameFront(front: seq<Value>, x: Value, into: Observation<Bits>)
    requires |front| == 6
    ensures MessageOf(Items(front + [x]), into)
              == MessageOf(Items(front), into).(peers := into.peers + NumberList(Items(front + [x]), 6))
  {
    var v, w := Items(front + [x]), Items(front);
    assert forall g: nat :: g < 6 ==> Records.At(v, g) == Records.At(w, g);
  }

  lemma PeerVector(bs: seq<u8>, c: Cursor)
    requires c.pos <= |bs|
    ensures var n := GetUint(COUNT, bs, c);
            Get(Vec(COUNT_MAX, U64), bs, c) ==
              Read(Items(GetItems(U64, n.value, bs, n.rest).value), GetItems(U64, n.value, bs, n.rest).rest)
  {
    CountRoom(bs, c);
  }

  lemma CountRoom(bs: seq<u8>, c: Cursor)
    requires c.pos <= |bs|
    ensures GetUint(COUNT, bs, c).value <= COUNT_MAX
  {
    Widths();
    if c.pos + COUNT > |bs| {
      ShortRoom(|bs| - c.pos);
    }
  }

  lemma ShortRoom(k: nat)
    requires k < COUNT
    ensures Pow256(k) <= Pow256(COUNT)
  {
    Widths();
    assert k == 0 || k == 1 || k == 2 || k == 3;
    assert Pow256(3) == 0x100_0000 && Pow256(2) == 0x1_0000;
  }

  lemma FormatSplit()
    ensures MessageFormat == Rec(MessageFront + [Vec(COUNT_MAX, U64)])
  {
  }

  lemma FormatRead(fs: seq<Format>, bs: seq<u8>)
    ensures var front := GetFields(fs, bs, Start());
            var n := GetUint(COUNT, bs, front.rest);
            var items := GetItems(U64, n.value, bs, n.rest);
            Get(Rec(fs + [Vec(COUNT_MAX, U64)]), bs, Start())
              == Read(Items(front.value + [Items(items.value)]), items.rest)
  {
    GetFieldsLast(fs, Vec(COUNT_MAX, U64), bs, Start());
    PeerVector(bs, GetFields(fs, bs, Start()).rest);
  }

  lemma SameRecord(front: seq<Value>, items: seq<Value>, into: Observation<Bits>)
    requires |front| == 6
    ensures MessageOf(Items(front + [Items(items)]), into)
              == MessageOf(Items(front), into).(peers := into.peers + Numbered(items))
  {
    SameFront(front, Items(items), into);
    assert NumberList(Items(front + [Items(items)]), 6) == Numbered(items);
  }

  /** Reading with the loop accepts what the format accepts, with the same record. */
  lemma ReadIsParse(bs: seq<u8>, into: Observation<Bits>)
    ensures ParseObservation(bs, into)
         == if ReadObservation(bs, into).ok then Some(ReadObservation(bs, into).record) else None
  {
    var front := GetFields(MessageFront, bs, Start());
    var n := GetUint(COUNT, bs, front.rest);
    FormatSplit();
    FormatRead(MessageFront, bs);
    PeersTaken(n.value, bs, n.rest);
    SameRecord(front.value, GetItems(U64, n.value, bs, n.rest).value, into);
  }

  // ---------- The writer and reader calls ----------

  method EncodeBaseline(b: Baseline<Bits>) returns (bs: seq<u8>)
    ensures bs == BaselineMessage(b)
  {
    var w := new Writer();
    w.Put(BaselineFormat, BaselineValue(b));
    bs := w.buf;
    assert bs == [] + BaselineMessage(b);
  }

  method DecodeBaseline(bs: seq<u8>) returns (ok: bool, b: Baseline<Bits>)
    ensures Decoded(ok, b) == ReadBaseline(bs)
  {
    var r := new Reader(bs);
    var v := r.Next(BaselineFormat);
    b := BaselineOf(v);
    if r.pos != |bs| {
      r.ok := false;
    }
    ok := r.ok;
  }

  method EncodeObservation(o: Observation<Bits>) returns (bs: seq<u8>)
    ensures bs == ObservationMessage(o)
  {
    var w := new Writer();
    w.Put(MessageFormat, RecordValue(MessageParts(o)));
    bs := w.buf;
    assert bs == [] + ObservationMessage(o);
  }

  method DecodeObservation(bs: seq<u8>, into: Observation<Bits>) returns (ok: bool, o: Observation<Bits>)
    ensures Decoded(ok, o) == ReadObservation(bs, into)
  {
    var r := new Reader(bs);
    var front := r.Next(Rec(MessageFront));
    var n := r.Uint(COUNT);
    var peers := NextPeers(r, n);
    o := MessageOf(front, into).(peers := into.peers + peers);
    if r.pos != |bs| {
      r.ok := false;
    }
    ok := r.ok;
  }

  lemma TakeNext(n: nat, bs: seq<u8>, c: Cursor, taken: seq<u64>)
    requires n > 0 && c.ok && c.pos <= |bs|
    ensures var x := GetUint(LENGTH, bs, c);
            && taken + TakePeers(n, bs, c).value
              == (taken + [NumberOf(Num(x.value))]) + TakePeers(n - 1, bs, x.rest).value
            && TakePeers(n, bs, c).rest == TakePeers(n - 1, bs, x.rest).rest
  {
  }

  method NextPeers(r: Reader, n: nat) returns (peers: seq<u64>)
    requires r.Valid()
    modifies r
    ensures r.Valid() && Read(peers, r.Here()) == TakePeers(n, r.bytes, old(r.Here()))
  {
    peers := [];
    ghost var whole := TakePeers(n, r.bytes, r.Here());
    var i := 0;
    while i < n && r.ok
      invariant r.Valid() && 0 <= i <= n
      invariant whole.value == peers + TakePeers(n - i, r.bytes, r.Here()).value
      invariant whole.rest == TakePeers(n - i, r.bytes, r.Here()).rest
      decreases n - i
    {
      TakeNext(n - i, r.bytes, r.Here(), peers);
      var x := r.Uint(LENGTH);
      peers := peers + [NumberOf(Num(x))];
      i := i + 1;
    }
    assert peers + [] == peers;
  }
}

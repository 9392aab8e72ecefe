/**
  The byte codec under the state payload and under the TCP messages. A record is described by a
  format, the ordered list of what the source writes for it; the printer and the parser below
  interpret formats exactly as the `Writer` and `Reader` call sequences of the source do, with the
  reader's sticky error flag, its bounds and its partial reads.
 */
module Codec {
  import opened Words

  const MAX_STRING: nat := 16 * 1024 * 1024
  const COUNT_BOUND: nat := 50_000_000

  datatype Format =
    | Uint(width: nat)                    // width bytes, little-endian
    | Flag                                // one byte, read back as "not zero"
    | Str                                 // u64 length, then the bytes; at most MAX_STRING on reading
    | Vec(bound: nat, elem: Format)       // u32 count, then the elements; at most bound on reading
    | Rec(fields: seq<Format>)            // the fields in order

  datatype Value = Num(n: nat) | Chars(bytes: seq<u8>) | Items(items: seq<Value>)

  // Field widths in bytes: a flag, an element count, a string length.
  const BYTE: nat := 1
  const COUNT: nat := 4
  const LENGTH: nat := 8

  const U8 := Uint(BYTE)
  const U32 := Uint(COUNT)
  const U64 := Uint(LENGTH)

  /** v has the shape that f writes, and its counts and lengths fit their prefixes. */
  ghost predicate Shaped(f: Format, v: Value)
    decreases f, 0, 0
  {
    match f
    case Uint(w) => v.Num? && v.n < Pow256(w)
    case Flag => v.Num? && v.n < 2
    case Str => v.Chars? && |v.bytes| < Pow256(LENGTH)
    case Vec(_, e) => v.Items? && |v.items| < Pow256(COUNT) && ItemsShaped(e, v.items)
    case Rec(fs) => v.Items? && FieldsShaped(fs, v.items)
  }

  ghost predicate ItemsShaped(e: Format, vs: seq<Value>)
    decreases e, 1, |vs|
  {
    vs == [] || (Shaped(e, vs[0]) && ItemsShaped(e, vs[1..]))
  }

  ghost predicate FieldsShaped(fs: seq<Format>, vs: seq<Value>)
    decreases fs, 0, 0
  {
    |vs| == |fs| && (fs == [] || (Shaped(fs[0], vs[0]) && FieldsShaped(fs[1..], vs[1..])))
  }

  /** v also respects every bound the reader enforces. */
  ghost predicate Fits(f: Format, v: Value)
    decreases f, 0, 0
  {
    match f
    case Uint(w) => v.Num? && v.n < Pow256(w)
    case Flag => v.Num? && v.n < 2
    case Str => v.Chars? && |v.bytes| <= MAX_STRING
    case Vec(b, e) => v.Items? && |v.items| < Pow256(COUNT) && |v.items| <= b && ItemsFit(e, v.items)
    case Rec(fs) => v.Items? && FieldsFit(fs, v.items)
  }

  ghost predicate ItemsFit(e: Format, vs: seq<Value>)
    decreases e, 1, |vs|
  {
    vs == [] || (Fits(e, vs[0]) && ItemsFit(e, vs[1..]))
  }

  ghost predicate FieldsFit(fs: seq<Format>, vs: seq<Value>)
    decreases fs, 0, 0
  {
    |vs| == |fs| && (fs == [] || (Fits(fs[0], vs[0]) && FieldsFit(fs[1..], vs[1..])))
  }

  // ---------- Printing ----------

  function Encode(f: Format, v: Value): seq<u8>
    requires Shaped(f, v)
    decreases f, 0, 0
  {
    match f
    case Uint(w) => LittleEndian(v.n, w)
    case Flag => LittleEndian(v.n, BYTE)
    case Str => LittleEndian(|v.bytes|, LENGTH) + v.bytes
    case Vec(_, e) => LittleEndian(|v.items|, COUNT) + EncodeItems(e, v.items)
    case Rec(fs) => EncodeFields(fs, v.items)
  }

  function EncodeItems(e: Format, vs: seq<Value>): seq<u8>
    requires ItemsShaped(e, vs)
    decreases e, 1, |vs|
  {
    if vs == [] then [] else Encode(e, vs[0]) + EncodeItems(e, vs[1..])
  }

  function EncodeFields(fs: seq<Format>, vs: seq<Value>): seq<u8>
    requires FieldsShaped(fs, vs)
    decreases fs, 0, 0
  {
    if fs == [] then [] else Encode(fs[0], vs[0]) + EncodeFields(fs[1..], vs[1..])
  }

  // The writer itself checks nothing: a count or a length that its prefix has no room for is cut off.

  function NumberIn(v: Value): nat {
    if v.Num? then v.n else 0
  }

  function BytesIn(v: Value): seq<u8> {
    if v.Chars? then v.bytes else []
  }

  function ItemsIn(v: Value): (vs: seq<Value>)
    ensures v.Items? ==> vs == v.items
  {
    if v.Items? then v.items else []
  }

  /** What the writer appends for any value at all. */
  function Print(f: Format, v: Value): seq<u8>
    decreases f, 0, 0
  {
    match f
    case Uint(w) => LittleEndian(NumberIn(v), w)
    case Flag => LittleEndian(NumberIn(v), BYTE)
    case Str => LittleEndian(|BytesIn(v)|, LENGTH) + BytesIn(v)
    case Vec(_, e) => LittleEndian(|ItemsIn(v)|, COUNT) + PrintItems(e, ItemsIn(v))
    case Rec(fs) => PrintFields(fs, ItemsIn(v))
  }

  function PrintItems(e: Format, vs: seq<Value>): seq<u8>
    decreases e, 1, |vs|
  {
    if vs == [] then [] else Print(e, vs[0]) + PrintItems(e, vs[1..])
  }

  function PrintFields(fs: seq<Format>, vs: seq<Value>): seq<u8>
    decreases fs, 0, 0
  {
    if fs == [] || vs == [] then [] else Print(fs[0], vs[0]) + PrintFields(fs[1..], vs[1..])
  }

  /** On values that the prefixes can express, printing is encoding. */
  lemma {:induction false} PrintEncodes(f: Format, v: Value)
    requires Shaped(f, v)
    ensures Print(f, v) == Encode(f, v)
    decreases f, 0, 0
  {
    match f
    case Vec(_, e) => PrintItemsEncode(e, v.items);
    case Rec(fs) => PrintFieldsEncode(fs, v.items);
    case _ =>
  }

  lemma {:induction false} PrintItemsEncode(e: Format, vs: seq<Value>)
    requires ItemsShaped(e, vs)
    ensures PrintItems(e, vs) == EncodeItems(e, vs)
    decreases e, 1, |vs|
  {
    if vs != [] {
      PrintEncodes(e, vs[0]);
      PrintItemsEncode(e, vs[1..]);
    }
  }

  lemma {:induction false} PrintFieldsEncode(fs: seq<Format>, vs: seq<Value>)
    requires FieldsShaped(fs, vs)
    ensures PrintFields(fs, vs) == EncodeFields(fs, vs)
    decreases fs, 0, 0
  {
    if fs != [] {
      PrintEncodes(fs[0], vs[0]);
      PrintFieldsEncode(fs[1..], vs[1..]);
    }
  }

  // ---------- Parsing ----------

  /** Where the reader stands, and whether it has ever run short or met a bound. */
  datatype Cursor = Cursor(pos: nat, ok: bool)

  datatype Read<T> = Read(value: T, rest: Cursor)

  /** The reader only moves forward inside the buffer, and its error flag is never reset. */
  predicate Advances(bs: seq<u8>, c: Cursor, d: Cursor) {
    c.pos <= d.pos <= |bs| && (d.ok ==> c.ok)
  }

  /** w bytes if there are that many; otherwise what is left, and the error flag. */
  function GetUint(w: nat, bs: seq<u8>, c: Cursor): (r: Read<nat>)
    requires c.pos <= |bs|
    ensures Advances(bs, c, r.rest)
  {
    if c.pos + w <= |bs| then
      Read(FromLittleEndian(bs[c.pos..c.pos + w]), Cursor(c.pos + w, c.ok))
    else
      Read(FromLittleEndian(bs[c.pos..]), Cursor(|bs|, false))
  }

  function GetStr(bs: seq<u8>, c: Cursor): (r: Read<seq<u8>>)
    requires c.pos <= |bs|
    ensures Advances(bs, c, r.rest)
  {
    var len := GetUint(LENGTH, bs, c);
    var d := len.rest;
    if !d.ok || len.value > MAX_STRING || d.pos + len.value > |bs| then
      Read([], Cursor(d.pos, false))
    else
      Read(bs[d.pos..d.pos + len.value], Cursor(d.pos + len.value, true))
  }

  function Get(f: Format, bs: seq<u8>, c: Cursor): (r: Read<Value>)
    requires c.pos <= |bs|
    ensures Advances(bs, c, r.rest)
    decreases f, 0, 0
  {
    match f
    case Uint(w) =>
      var n := GetUint(w, bs, c);
      Read(Num(n.value), n.rest)
    case Flag =>
      var n := GetUint(BYTE, bs, c);
      Read(Num(if n.value != 0 then 1 else 0), n.rest)
    case Str =>
      var s := GetStr(bs, c);
      Read(Chars(s.value), s.rest)
    case Vec(bound, e) =>
      var n := GetUint(COUNT, bs, c);
      if n.value > bound then
        Read(Items([]), Cursor(n.rest.pos, false))
      else
        var xs := GetItems(e, n.value, bs, n.rest);
        Read(Items(xs.value), xs.rest)
    case Rec(fs) =>
      var xs := GetFields(fs, bs, c);
      Read(Items(xs.value), xs.rest)
  }

  /** The complete elements read before the count is reached or the error flag goes up. */
  function GetItems(e: Format, count: nat, bs: seq<u8>, c: Cursor): (r: Read<seq<Value>>)
    requires c.pos <= |bs|
    ensures Advances(bs, c, r.rest)
    decreases e, 1, count
  {
    if count == 0 || !c.ok then
      Read([], c)
    else
      var x := Get(e, bs, c);
      if !x.rest.ok then
        Read([], x.rest)
      else
        var xs := GetItems(e, count - 1, bs, x.rest);
        Read([x.value] + xs.value, xs.rest)
  }

  /** All fields, whether or not the error flag is up: the source reads on and checks later. */
  function GetFields(fs: seq<Format>, bs: seq<u8>, c: Cursor): (r: Read<seq<Value>>)
    requires c.pos <= |bs|
    ensures Advances(bs, c, r.rest)
    ensures |r.value| == |fs|
    decreases fs, 0, 0
  {
    if fs == [] then
      Read([], c)
    else
      var x := Get(fs[0], bs, c);
      var xs := GetFields(fs[1..], bs, x.rest);
      Read([x.value] + xs.value, xs.rest)
  }

  // ---------- Locality: success never depends on what follows ----------

  lemma GetUintLocal(w: nat, bs: seq<u8>, t: seq<u8>, c: Cursor)
    requires c.pos <= |bs| && GetUint(w, bs, c).rest.ok
    ensures GetUint(w, bs + t, c) == GetUint(w, bs, c)
  {
    assert (bs + t)[c.pos..c.pos + w] == bs[c.pos..c.pos + w];
  }

  lemma GetStrLocal(bs: seq<u8>, t: seq<u8>, c: Cursor)
    requires c.pos <= |bs| && GetStr(bs, c).rest.ok
    ensures GetStr(bs + t, c) == GetStr(bs, c)
  {
    GetUintLocal(LENGTH, bs, t, c);
    var len := GetUint(LENGTH, bs, c);
    var p := len.rest.pos;
    assert (bs + t)[p..p + len.value] == bs[p..p + len.value];
  }

  lemma {:induction false} GetLocal(f: Format, bs: seq<u8>, t: seq<u8>, c: Cursor)
    requires c.pos <= |bs| && Get(f, bs, c).rest.ok
    ensures Get(f, bs + t, c) == Get(f, bs, c)
    decreases f, 0, 0
  {
    match f
    case Uint(w) => GetUintLocal(w, bs, t, c);
    case Flag => GetUintLocal(BYTE, bs, t, c);
    case Str => GetStrLocal(bs, t, c);
    case Vec(bound, e) =>
      GetUintLocal(COUNT, bs, t, c);
      var n := GetUint(COUNT, bs, c);
      GetItemsLocal(e, n.value, bs, t, n.rest);
    case Rec(fs) => GetFieldsLocal(fs, bs, t, c);
  }

  lemma {:induction false} GetItemsLocal(e: Format, count: nat, bs: seq<u8>, t: seq<u8>, c: Cursor)
    requires c.pos <= |bs| && GetItems(e, count, bs, c).rest.ok
    ensures GetItems(e, count, bs + t, c) == GetItems(e, count, bs, c)
    decreases e, 1, count
  {
    if count > 0 {
      GetLocal(e, bs, t, c);
      GetItemsLocal(e, count - 1, bs, t, Get(e, bs, c).rest);
    }
  }

  lemma {:induction false} GetFieldsLocal(fs: seq<Format>, bs: seq<u8>, t: seq<u8>, c: Cursor)
    requires c.pos <= |bs| && GetFields(fs, bs, c).rest.ok
    ensures GetFields(fs, bs + t, c) == GetFields(fs, bs, c)
    decreases fs, 0, 0
  {
    if fs != [] {
      GetLocal(fs[0], bs, t, c);
      GetFieldsLocal(fs[1..], bs, t, Get(fs[0], bs, c).rest);
    }
  }

  // ---------- Round trip ----------

  /** e stands at position p of bs. */
  predicate At(bs: seq<u8>, p: nat, e: seq<u8>)
    decreases |e|
  {
    if e == [] then p <= |bs| else p < |bs| && bs[p] == e[0] && At(bs, p + 1, e[1..])
  }

  lemma {:induction false} AtSlice(bs: seq<u8>, p: nat, e: seq<u8>)
    ensures At(bs, p, e) <==> p + |e| <= |bs| && bs[p..p + |e|] == e
    decreases |e|
  {
    if e != [] {
      AtSlice(bs, p + 1, e[1..]);
      if p + |e| <= |bs| {
        assert bs[p..p + |e|] == [bs[p]] + bs[p + 1..p + |e|];
      }
    }
  }

  lemma {:induction false} AtSplit(bs: seq<u8>, p: nat, x: seq<u8>, y: seq<u8>)
    requires At(bs, p, x + y)
    ensures At(bs, p, x) && At(bs, p + |x|, y)
    decreases |x|
  {
    if x == [] {
      assert x + y == y;
      AtSlice(bs, p, y);
    } else {
      assert (x + y)[1..] == x[1..] + y;
      AtSplit(bs, p + 1, x[1..], y);
    }
  }

  lemma GetUintAt(w: nat, n: nat, bs: seq<u8>, p: nat)
    requires n < Pow256(w) && At(bs, p, LittleEndian(n, w))
    ensures p <= |bs| && GetUint(w, bs, Cursor(p, true)) == Read(n, Cursor(p + w, true))
  {
    AtSlice(bs, p, LittleEndian(n, w));
    LittleEndianInverse(n, w);
  }

  lemma AtInside(bs: seq<u8>, p: nat, e: seq<u8>)
    requires At(bs, p, e)
    ensures p + |e| <= |bs|
  {
    AtSlice(bs, p, e);
  }

  lemma Widths()
    ensures Pow256(BYTE) == 0x100 && Pow256(COUNT) == 0x1_0000_0000 && Pow256(LENGTH) == 0x1_0000_0000_0000_0000
  {
    PowersOf256();
  }

  /** What reading back value v from position p must yield. */
  ghost predicate Restores<T>(fits: bool, r: Read<T>, v: T, end: nat) {
    if fits then r == Read(v, Cursor(end, true)) else !r.rest.ok
  }

  /**
    Reading back what was written succeeds exactly when every bound is respected, and then it
    restores the value and stops at the end of its encoding.
   */
  lemma {:induction false} RoundTrip(f: Format, v: Value, bs: seq<u8>, p: nat)
    requires Shaped(f, v) && At(bs, p, Encode(f, v))
    ensures p <= |bs| && Restores(Fits(f, v), Get(f, bs, Cursor(p, true)), v, p + |Encode(f, v)|)
    decreases f, 0, 0
  {
    AtInside(bs, p, Encode(f, v));
    match f
    case Uint(w) => GetUintAt(w, v.n, bs, p);
    case Flag =>
      Widths();
      GetUintAt(BYTE, v.n, bs, p);
    case Str =>
      StrParts(v.bytes, bs, p);
      RoundTripStr(v.bytes, bs, p);
    case Vec(bound, e) =>
      AtSplit(bs, p, LittleEndian(|v.items|, COUNT), EncodeItems(e, v.items));
      GetUintAt(COUNT, |v.items|, bs, p);
      if |v.items| <= bound {
        RoundTripItems(e, v.items, bs, p + COUNT);
      }
    case Rec(fs) => RoundTripFields(fs, v.items, bs, p);
  }

  lemma RoundTripStr(s: seq<u8>, bs: seq<u8>, p: nat)
    requires p + LENGTH + |s| <= |bs|
    requires GetUint(LENGTH, bs, Cursor(p, true)) == Read(|s|, Cursor(p + LENGTH, true))
    requires bs[p + LENGTH..p + LENGTH + |s|] == s
    ensures Restores(|s| <= MAX_STRING, GetStr(bs, Cursor(p, true)), s, p + LENGTH + |s|)
  {
  }

  lemma StrParts(s: seq<u8>, bs: seq<u8>, p: nat)
    requires |s| < Pow256(LENGTH) && At(bs, p, LittleEndian(|s|, LENGTH) + s)
    ensures p + LENGTH + |s| <= |bs|
    ensures GetUint(LENGTH, bs, Cursor(p, true)) == Read(|s|, Cursor(p + LENGTH, true))
    ensures bs[p + LENGTH..p + LENGTH + |s|] == s
  {
    AtSplit(bs, p, LittleEndian(|s|, LENGTH), s);
    GetUintAt(LENGTH, |s|, bs, p);
    AtSlice(bs, p + LENGTH, s);
  }

  lemma RestoresItem(e: Format, v: Value, vs: seq<Value>, fit: bool, rest: bool, bs: seq<u8>, p: nat, q: nat, end: nat)
    requires p <= |bs| && q <= |bs|
    requires Restores(fit, Get(e, bs, Cursor(p, true)), v, q)
    requires fit ==> Restores(rest, GetItems(e, |vs|, bs, Cursor(q, true)), vs, end)
    ensures Restores(fit && rest, GetItems(e, |vs| + 1, bs, Cursor(p, true)), [v] + vs, end)
  {
  }

  lemma RestoresField(f: Format, fs: seq<Format>, v: Value, vs: seq<Value>, fit: bool, rest: bool,
                      bs: seq<u8>, p: nat, q: nat, end: nat)
    requires p <= |bs| && q <= |bs|
    requires Restores(fit, Get(f, bs, Cursor(p, true)), v, q)
    requires fit ==> Restores(rest, GetFields(fs, bs, Cursor(q, true)), vs, end)
    ensures Restores(fit && rest, GetFields([f] + fs, bs, Cursor(p, true)), [v] + vs, end)
  {
    assert ([f] + fs)[1..] == fs;
  }

  lemma FirstItemAt(e: Format, vs: seq<Value>, bs: seq<u8>, p: nat)
    requires ItemsShaped(e, vs) && vs != [] && At(bs, p, EncodeItems(e, vs))
    ensures At(bs, p, Encode(e, vs[0]))
    ensures At(bs, p + |Encode(e, vs[0])|, EncodeItems(e, vs[1..]))
    ensures p + |Encode(e, vs[0])| <= |bs|
  {
    AtSplit(bs, p, Encode(e, vs[0]), EncodeItems(e, vs[1..]));
    AtInside(bs, p, Encode(e, vs[0]));
  }

  lemma {:induction false} RoundTripItems(e: Format, vs: seq<Value>, bs: seq<u8>, p: nat)
    requires ItemsShaped(e, vs)
    requires At(bs, p, EncodeItems(e, vs))
    ensures p <= |bs|
    ensures Restores(ItemsFit(e, vs), GetItems(e, |vs|, bs, Cursor(p, true)), vs, p + |EncodeItems(e, vs)|)
    decreases e, 1, |vs|
  {
    AtInside(bs, p, EncodeItems(e, vs));
    if vs != [] {
      FirstItemAt(e, vs, bs, p);
      var q := p + |Encode(e, vs[0])|;
      RoundTrip(e, vs[0], bs, p);
      RoundTripItems(e, vs[1..], bs, q);
      RestoresItem(e, vs[0], vs[1..], Fits(e, vs[0]), ItemsFit(e, vs[1..]), bs, p, q, p + |EncodeItems(e, vs)|);
      assert vs == [vs[0]] + vs[1..];
    }
  }

  lemma {:induction false} RoundTripFields(fs: seq<Format>, vs: seq<Value>, bs: seq<u8>, p: nat)
    requires FieldsShaped(fs, vs)
    requires At(bs, p, EncodeFields(fs, vs))
    ensures p <= |bs|
    ensures Restores(FieldsFit(fs, vs), GetFields(fs, bs, Cursor(p, true)), vs, p + |EncodeFields(fs, vs)|)
    decreases fs, 0, 0
  {
    AtInside(bs, p, EncodeFields(fs, vs));
    if fs != [] {
      var x, xs := Encode(fs[0], vs[0]), EncodeFields(fs[1..], vs[1..]);
      AtSplit(bs, p, x, xs);
      RoundTrip(fs[0], vs[0], bs, p);
      RoundTripFields(fs[1..], vs[1..], bs, p + |x|);
      RestoresField(fs[0], fs[1..], vs[0], vs[1..], Fits(fs[0], vs[0]), FieldsFit(fs[1..], vs[1..]),
                    bs, p, p + |x|, p + |x| + |xs|);
      assert vs == [vs[0]] + vs[1..] && fs == [fs[0]] + fs[1..];
    }
  }

  // ---------- Element-wise forms ----------

  lemma {:induction false} ItemsShapedAll(e: Format, vs: seq<Value>)
    ensures ItemsShaped(e, vs) <==> forall i :: 0 <= i < |vs| ==> Shaped(e, vs[i])
    decreases |vs|
  {
    if vs != [] {
      ItemsShapedAll(e, vs[1..]);
      assert forall i :: 0 < i < |vs| ==> vs[i] == vs[1..][i - 1];
    }
  }

  lemma {:induction false} ItemsFitAll(e: Format, vs: seq<Value>)
    ensures ItemsFit(e, vs) <==> forall i :: 0 <= i < |vs| ==> Fits(e, vs[i])
    decreases |vs|
  {
    if vs != [] {
      ItemsFitAll(e, vs[1..]);
      assert forall i :: 0 < i < |vs| ==> vs[i] == vs[1..][i - 1];
    }
  }

  lemma {:induction false} FieldsShapedAll(fs: seq<Format>, vs: seq<Value>)
    ensures FieldsShaped(fs, vs) <==> |vs| == |fs| && forall i :: 0 <= i < |fs| ==> Shaped(fs[i], vs[i])
    decreases |fs|
  {
    if fs != [] && |vs| == |fs| {
      FieldsShapedAll(fs[1..], vs[1..]);
      assert forall i :: 0 < i < |fs| ==> fs[i] == fs[1..][i - 1] && vs[i] == vs[1..][i - 1];
    }
  }

  lemma {:induction false} FieldsFitAll(fs: seq<Format>, vs: seq<Value>)
    ensures FieldsFit(fs, vs) <==> |vs| == |fs| && forall i :: 0 <= i < |fs| ==> Fits(fs[i], vs[i])
    decreases |fs|
  {
    if fs != [] && |vs| == |fs| {
      FieldsFitAll(fs[1..], vs[1..]);
      assert forall i :: 0 < i < |fs| ==> fs[i] == fs[1..][i - 1] && vs[i] == vs[1..][i - 1];
    }
  }

  // ---------- What the whole codec guarantees ----------

  function Start(): Cursor {
    Cursor(0, true)
  }

  lemma Whole(f: Format, v: Value)
    requires Shaped(f, v)
    ensures Restores(Fits(f, v), Get(f, Encode(f, v), Start()), v, |Encode(f, v)|)
  {
    AtSlice(Encode(f, v), 0, Encode(f, v));
    RoundTrip(f, v, Encode(f, v), 0);
  }

  /** Bytes after a complete encoding change nothing. */
  lemma TrailingBytesIgnored(f: Format, v: Value, t: seq<u8>)
    requires Shaped(f, v) && Fits(f, v)
    ensures Get(f, Encode(f, v) + t, Start()) == Read(v, Cursor(|Encode(f, v)|, true))
  {
    Whole(f, v);
    GetLocal(f, Encode(f, v), t, Start());
  }

  /** No strict prefix of an encoding is accepted. */
  lemma PrefixRejected(f: Format, v: Value, k: nat)
    requires Shaped(f, v) && Fits(f, v) && k < |Encode(f, v)|
    ensures !Get(f, Encode(f, v)[..k], Start()).rest.ok
  {
    var e := Encode(f, v);
    Whole(f, v);
    assert e[..k] + e[k..] == e;
    if Get(f, e[..k], Start()).rest.ok {
      GetLocal(f, e[..k], e[k..], Start());
    }
  }

  lemma EncodeInjective(f: Format, v: Value, w: Value)
    requires Shaped(f, v) && Fits(f, v) && Shaped(f, w) && Fits(f, w)
    requires Encode(f, v) == Encode(f, w)
    ensures v == w
  {
    Whole(f, v);
    Whole(f, w);
  }

  // ---------- Accepted bytes are the encoding of what they decode to ----------

  /** Reading a flag forgets which non-zero byte it saw; every other format is lossless. */
  predicate Lossless(f: Format)
    decreases f
  {
    match f
    case Uint(_) => true
    case Flag => false
    case Str => true
    case Vec(_, e) => Lossless(e)
    case Rec(fs) => forall i :: 0 <= i < |fs| ==> Lossless(fs[i])
  }

  lemma AtJoin(bs: seq<u8>, p: nat, x: seq<u8>, y: seq<u8>)
    requires At(bs, p, x) && At(bs, p + |x|, y)
    ensures At(bs, p, x + y)
  {
    AtSlice(bs, p, x);
    AtSlice(bs, p + |x|, y);
    AtSlice(bs, p, x + y);
    assert bs[p..p + |x + y|] == bs[p..p + |x|] + bs[p + |x|..p + |x| + |y|];
  }

  lemma GetUintExact(w: nat, bs: seq<u8>, c: Cursor)
    requires c.pos <= |bs| && GetUint(w, bs, c).rest.ok
    ensures GetUint(w, bs, c).value < Pow256(w) && GetUint(w, bs, c).rest == Cursor(c.pos + w, true)
    ensures At(bs, c.pos, LittleEndian(GetUint(w, bs, c).value, w))
  {
    var slice := bs[c.pos..c.pos + w];
    FromLittleEndianInverse(slice);
    AtSlice(bs, c.pos, slice);
  }

  lemma GetStrExact(bs: seq<u8>, c: Cursor)
    requires c.pos <= |bs| && GetStr(bs, c).rest.ok
    ensures var s := GetStr(bs, c).value;
            && |s| <= MAX_STRING < Pow256(LENGTH)
            && At(bs, c.pos, LittleEndian(|s|, LENGTH) + s)
            && GetStr(bs, c).rest.pos == c.pos + LENGTH + |s|
  {
    Widths();
    GetUintExact(LENGTH, bs, c);
    var s := GetStr(bs, c).value;
    AtSlice(bs, c.pos + LENGTH, s);
    AtJoin(bs, c.pos, LittleEndian(|s|, LENGTH), s);
  }

  /** What was read respects the bounds, and a lossless format read exactly its encoding. */
  ghost predicate Exact(f: Format, v: Value, bs: seq<u8>, p: nat, end: nat) {
    && Shaped(f, v) && Fits(f, v)
    && (Lossless(f) ==> At(bs, p, Encode(f, v)) && end == p + |Encode(f, v)|)
  }

  lemma {:induction false} GetExact(f: Format, bs: seq<u8>, c: Cursor)
    requires c.pos <= |bs| && Get(f, bs, c).rest.ok
    ensures Exact(f, Get(f, bs, c).value, bs, c.pos, Get(f, bs, c).rest.pos)
    decreases f, 0, 0
  {
    match f
    case Uint(w) => GetUintExact(w, bs, c);
    case Flag => Widths();
    case Str => GetStrExact(bs, c);
    case Vec(bound, e) =>
      GetUintExact(COUNT, bs, c);
      var n := GetUint(COUNT, bs, c);
      GetItemsExact(e, n.value, bs, n.rest);
      var xs := GetItems(e, n.value, bs, n.rest).value;
      if Lossless(e) {
        AtJoin(bs, c.pos, LittleEndian(|xs|, COUNT), EncodeItems(e, xs));
      }
    case Rec(fs) => GetFieldsExact(fs, bs, c);
  }

  ghost predicate ItemsExact(e: Format, vs: seq<Value>, bs: seq<u8>, p: nat, end: nat) {
    && ItemsShaped(e, vs) && ItemsFit(e, vs)
    && (Lossless(e) ==> At(bs, p, EncodeItems(e, vs)) && end == p + |EncodeItems(e, vs)|)
  }

  lemma {:induction false} GetItemsExact(e: Format, count: nat, bs: seq<u8>, c: Cursor)
    requires c.pos <= |bs| && GetItems(e, count, bs, c).rest.ok
    ensures var r := GetItems(e, count, bs, c);
            |r.value| == count && ItemsExact(e, r.value, bs, c.pos, r.rest.pos)
    decreases e, 1, count
  {
    if count > 0 {
      var x := Get(e, bs, c);
      GetExact(e, bs, c);
      GetItemsExact(e, count - 1, bs, x.rest);
      var xs := GetItems(e, count - 1, bs, x.rest);
      assert ([x.value] + xs.value)[1..] == xs.value;
      if Lossless(e) {
        AtJoin(bs, c.pos, Encode(e, x.value), EncodeItems(e, xs.value));
      }
    }
  }

  predicate AllLossless(fs: seq<Format>) {
    forall i :: 0 <= i < |fs| ==> Lossless(fs[i])
  }

  ghost predicate FieldsExact(fs: seq<Format>, vs: seq<Value>, bs: seq<u8>, p: nat, end: nat) {
    && FieldsShaped(fs, vs) && FieldsFit(fs, vs)
    && (AllLossless(fs) ==> At(bs, p, EncodeFields(fs, vs)) && end == p + |EncodeFields(fs, vs)|)
  }

  lemma {:induction false} GetFieldsExact(fs: seq<Format>, bs: seq<u8>, c: Cursor)
    requires c.pos <= |bs| && GetFields(fs, bs, c).rest.ok
    ensures FieldsExact(fs, GetFields(fs, bs, c).value, bs, c.pos, GetFields(fs, bs, c).rest.pos)
    decreases fs, 0, 0
  {
    if fs != [] {
      var x := Get(fs[0], bs, c);
      GetExact(fs[0], bs, c);
      GetFieldsExact(fs[1..], bs, x.rest);
      var xs := GetFields(fs[1..], bs, x.rest);
      assert ([x.value] + xs.value)[1..] == xs.value;
      if AllLossless(fs) {
        AtJoin(bs, c.pos, Encode(fs[0], x.value), EncodeFields(fs[1..], xs.value));
      }
    }
  }
}

/** The mutable `Writer` and `Reader` of the source, tied to the formats of module Codec. */
module Buffers {
  import opened Words
  import opened Codec

  lemma NextItem(e: Format, vs: seq<Value>, i: nat)
    requires i < |vs|
    ensures PrintItems(e, vs[i..]) == Print(e, vs[i]) + PrintItems(e, vs[i + 1..])
  {
    assert vs[i..][0] == vs[i] && vs[i..][1..] == vs[i + 1..];
  }

  lemma NextField(fs: seq<Format>, vs: seq<Value>, i: nat)
    requires i < |fs| && i < |vs|
    ensures PrintFields(fs[i..], vs[i..]) == Print(fs[i], vs[i]) + PrintFields(fs[i + 1..], vs[i + 1..])
  {
    assert fs[i..][0] == fs[i] && fs[i..][1..] == fs[i + 1..];
    assert vs[i..][0] == vs[i] && vs[i..][1..] == vs[i + 1..];
  }

  lemma Associates(a: seq<u8>, b: seq<u8>, c: seq<u8>)
    ensures (a + b) + c == a + (b + c)
  {
  }

  /** What is still to be read completes what has been read. */
  ghost predicate Completes(whole: Read<seq<Value>>, xs: seq<Value>, rest: Read<seq<Value>>) {
    whole.value == xs + rest.value && whole.rest == rest.rest
  }

  lemma AfterItem(whole: Read<seq<Value>>, xs: seq<Value>, e: Format, k: nat, bs: seq<u8>, c: Cursor)
    requires k > 0 && c.ok && c.pos <= |bs|
    requires Completes(whole, xs, GetItems(e, k, bs, c))
    ensures var x := Get(e, bs, c);
            if x.rest.ok then Completes(whole, xs + [x.value], GetItems(e, k - 1, bs, x.rest))
            else whole == Read(xs, x.rest)
  {
    var x := Get(e, bs, c);
    if x.rest.ok {
      var rest := GetItems(e, k - 1, bs, x.rest).value;
      assert xs + ([x.value] + rest) == (xs + [x.value]) + rest;
    } else {
      assert xs + [] == xs;
    }
  }

  class Writer {
    var buf: seq<u8>

    constructor ()
      ensures buf == []
    {
      buf := [];
    }

    method U8(v: u8)
      modifies this
      ensures buf == old(buf) + [v]
    {
      buf := buf + [v];
    }

    /** Push the low byte and shift, width times: `u32` and `u64` of the source. */
    method Uint(value: nat, width: nat)
      modifies this
      ensures buf == old(buf) + LittleEndian(value, width)
    {
      var v := value;
      for i := 0 to width
        invariant buf + LittleEndian(v, width - i) == old(buf) + LittleEndian(value, width)
      {
        assert buf + LittleEndian(v, width - i) == (buf + [v % 256]) + LittleEndian(v / 256, width - i - 1);
        buf := buf + [v % 256];
        v := v / 256;
      }
      assert buf + LittleEndian(v, 0) == buf;
    }

    method Str(s: seq<u8>)
      modifies this
      ensures buf == old(buf) + LittleEndian(|s|, LENGTH) + s
    {
      Uint(|s|, LENGTH);
      ghost var prefix := buf;
      for i := 0 to |s|
        invariant buf == prefix + s[..i]
      {
        U8(s[i]);
      }
      assert s[..|s|] == s;
    }

    /** Write a value field by field, element by element. */
    method Put(f: Format, v: Value)
      modifies this
      ensures buf == old(buf) + Print(f, v)
      decreases f, 0
    {
      match f {
        case Uint(w) => Uint(NumberIn(v), w);
        case Flag => Uint(NumberIn(v), BYTE);
        case Str =>
          Associates(buf, LittleEndian(|BytesIn(v)|, LENGTH), BytesIn(v));
          Str(BytesIn(v));
        case Vec(_, e) =>
          Associates(buf, LittleEndian(|ItemsIn(v)|, COUNT), PrintItems(e, ItemsIn(v)));
          Uint(|ItemsIn(v)|, COUNT);
          PutItems(e, ItemsIn(v));
        case Rec(fs) => PutFields(fs, ItemsIn(v));
      }
    }

    method PutItems(e: Format, vs: seq<Value>)
      modifies this
      ensures buf == old(buf) + PrintItems(e, vs)
      decreases e, 1
    {
      for i := 0 to |vs|
        invariant buf + PrintItems(e, vs[i..]) == old(buf) + PrintItems(e, vs)
      {
        NextItem(e, vs, i);
        Associates(buf, Print(e, vs[i]), PrintItems(e, vs[i + 1..]));
        Put(e, vs[i]);
      }
    }

    method PutFields(fs: seq<Format>, vs: seq<Value>)
      modifies this
      ensures buf == old(buf) + PrintFields(fs, vs)
      decreases fs, 0
    {
      var i := 0;
      while i < |fs| && i < |vs|
        invariant 0 <= i <= |fs| && i <= |vs|
        invariant buf + PrintFields(fs[i..], vs[i..]) == old(buf) + PrintFields(fs, vs)
        decreases |fs| - i
      {
        NextField(fs, vs, i);
        Associates(buf, Print(fs[i], vs[i]), PrintFields(fs[i + 1..], vs[i + 1..]));
        Put(fs[i], vs[i]);
        i := i + 1;
      }
      assert buf + [] == buf;
    }
  }

  lemma OneMoreByte(bytes: seq<u8>, start: nat, pos: nat)
    requires start <= pos < |bytes|
    ensures FromLittleEndian(bytes[start..pos + 1])
         == FromLittleEndian(bytes[start..pos]) + Place(bytes[pos], pos - start)
  {
    FromLittleEndianAppend(bytes[start..pos], bytes[pos]);
    assert bytes[start..pos + 1] == bytes[start..pos] + [bytes[pos]];
  }

  class Reader {
    const bytes: seq<u8>
    var pos: nat
    var ok: bool

    ghost predicate Valid()
      reads this
    {
      pos <= |bytes|
    }

    function Here(): Cursor
      reads this
    {
      Cursor(pos, ok)
    }

    constructor (p: seq<u8>)
      ensures Valid() && bytes == p && Here() == Start()
    {
      bytes, pos, ok := p, 0, true;
    }

    /** Byte by byte; running short keeps what was read and raises the error flag. */
    method Uint(width: nat) returns (v: nat)
      requires Valid()
      modifies this
      ensures Valid() && Read(v, Here()) == GetUint(width, bytes, old(Here()))
    {
      v := 0;
      ghost var start := pos;
      for i := 0 to width
        invariant pos == start + i <= |bytes| && ok == old(ok)
        invariant v == FromLittleEndian(bytes[start..pos])
      {
        if pos + 1 > |bytes| {
          ok := false;
          assert bytes[start..pos] == bytes[start..];
          return;
        }
        OneMoreByte(bytes, start, pos);
        v := v + Place(bytes[pos], i);
        pos := pos + 1;
      }
    }

    method Str() returns (s: seq<u8>)
      requires Valid()
      modifies this
      ensures Valid() && Read(s, Here()) == GetStr(bytes, old(Here()))
    {
      var len := Uint(LENGTH);
      if !ok || len > MAX_STRING {
        ok := false;
        return [];
      }
      if pos + len > |bytes| {
        ok := false;
        return [];
      }
      s := bytes[pos..pos + len];
      pos := pos + len;
    }

    method Next(f: Format) returns (v: Value)
      requires Valid()
      modifies this
      ensures Valid() && Read(v, Here()) == Get(f, bytes, old(Here()))
      decreases f, 0
    {
      match f {
        case Uint(w) =>
          var n := Uint(w);
          v := Num(n);
        case Flag =>
          var n := Uint(BYTE);
          v := Num(if n != 0 then 1 else 0);
        case Str =>
          var s := Str();
          v := Chars(s);
        case Vec(bound, e) =>
          var xs := NextVec(bound, e);
          v := Items(xs);
        case Rec(fs) =>
          var xs := NextFields(fs);
          v := Items(xs);
      }
    }

    /** A counted vector: the count, its bound, then the elements. */
    method NextVec(bound: nat, e: Format) returns (xs: seq<Value>)
      requires Valid()
      modifies this
      ensures Valid() && Read(Items(xs), Here()) == Get(Vec(bound, e), bytes, old(Here()))
      decreases e, 2
    {
      var count := Uint(COUNT);
      if count > bound {
        ok := false;
        return [];
      }
      xs := NextItems(e, count);
    }

    /** Elements until the count is reached or the first error; an incomplete one is dropped. */
    method NextItems(e: Format, count: nat) returns (xs: seq<Value>)
      requires Valid()
      modifies this
      ensures Valid() && Read(xs, Here()) == GetItems(e, count, bytes, old(Here()))
      decreases e, 1
    {
      xs := [];
      ghost var whole := GetItems(e, count, bytes, Here());
      var i := 0;
      while i < count && ok
        invariant Valid() && 0 <= i <= count
        invariant Completes(whole, xs, GetItems(e, count - i, bytes, Here()))
        decreases count - i
      {
        AfterItem(whole, xs, e, count - i, bytes, Here());
        var x := Next(e);
        if !ok {
          return;
        }
        xs := xs + [x];
        i := i + 1;
      }
      assert xs + [] == xs;
    }

    /** Every field is read even after an error, as the source only tests the flag afterwards. */
    method NextFields(fs: seq<Format>) returns (xs: seq<Value>)
      requires Valid()
      modifies this
      ensures Valid() && Read(xs, Here()) == GetFields(fs, bytes, old(Here()))
      decreases fs, 0
    {
      xs := [];
      ghost var whole := GetFields(fs, bytes, Here());
      for i := 0 to |fs|
        invariant Valid()
        invariant whole.value == xs + GetFields(fs[i..], bytes, Here()).value
        invariant whole.rest == GetFields(fs[i..], bytes, Here()).rest
      {
        assert fs[i..][0] == fs[i] && fs[i..][1..] == fs[i + 1..];
        var x := Next(fs[i]);
        xs := xs + [x];
      }
      assert whole.value == xs;
    }
  }
}

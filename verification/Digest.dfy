/** The 64-bit FNV-1a digest that names comparisons and episodes and fingerprints whole states. */
module Digest {
  import opened Words
  import opened Folding

  const OFFSET: u64 := 0xcbf2_9ce4_8422_2325
  const PRIME: u64 := 0x0000_0100_0000_01b3
  const MODULUS: nat := 0x1_0000_0000_0000_0000
  const LENGTH: nat := 8
  const BITS: nat := 8

  /** Exclusive or of the k low bits, bit by bit: two bits differ when their sum is odd. */
  function XorBits(x: nat, y: nat, k: nat): nat
    decreases k
  {
    if k == 0 then 0 else (x + y) % 2 + 2 * XorBits(x / 2, y / 2, k - 1)
  }

  lemma {:induction false} XorRange(x: nat, y: nat, k: nat)
    ensures XorBits(x, y, k) < Pow2(k)
    decreases k
  {
    if k > 0 {
      XorRange(x / 2, y / 2, k - 1);
    }
  }

  lemma LowBits(x: nat, y: nat, b: nat, r: nat, s: nat)
    requires (x + b) % 2 + 2 * r == (y + b) % 2 + 2 * s
    ensures r == s && x % 2 == y % 2
  {
    assert r == s;
  }

  lemma {:induction false} XorInjective(x: nat, y: nat, b: nat, k: nat)
    requires x < Pow2(k) && y < Pow2(k) && XorBits(x, b, k) == XorBits(y, b, k)
    ensures x == y
    decreases k
  {
    if k > 0 {
      LowBits(x, y, b, XorBits(x / 2, b / 2, k - 1), XorBits(y / 2, b / 2, k - 1));
      XorInjective(x / 2, y / 2, b / 2, k - 1);
    }
  }

  lemma {:induction false} XorCommutes(x: nat, y: nat, k: nat)
    ensures XorBits(x, y, k) == XorBits(y, x, k)
    decreases k
  {
    if k > 0 {
      XorCommutes(x / 2, y / 2, k - 1);
    }
  }

  lemma ByteRange()
    ensures Pow2(BITS) == 256
  {
    assert Pow2(4) == 16;
    assert Pow2(8) == 16 * Pow2(4);
  }

  function XorByte(x: u8, y: u8): u8 {
    ByteRange();
    XorRange(x, y, BITS);
    XorBits(x, y, BITS)
  }

  function WithLowByte(h: u64, b: u8): u64 {
    h / 256 * 256 + b
  }

  /** `hash ^= byte` changes only the low byte. */
  function Feed(h: u64, b: u8): u64 {
    WithLowByte(h, XorByte(h % 256, b))
  }

  /** `hash *= prime` keeps the low 64 bits. */
  function Times(h: u64): u64 {
    h * PRIME % MODULUS
  }

  function Step(h: u64, b: u8): u64 {
    Times(Feed(h, b))
  }

  /** `finish_u64` of a builder fed with bs. */
  function Fnv64(bs: seq<u8>): u64 {
    Fold(Step, OFFSET, bs)
  }

  // ---------- Every step is injective ----------

  /** The prime is odd, so it has an inverse modulo 2^64 and multiplying by it loses nothing. */
  lemma TimesInjective(g: u64, h: u64)
    requires Times(g) == Times(h)
    ensures g == h
  {
    var b, c := g * PRIME / MODULUS, h * PRIME / MODULUS;
    assert (g - h) * PRIME == MODULUS * (b - c);
    Unprime(g - h, b - c);
  }

  lemma Unprime(d: int, e: int)
    requires d * PRIME == MODULUS * e && 0 - MODULUS < d < MODULUS
    ensures d == 0
  {
    var inverse := 0xce96_5057_aff6_957b;
    assert PRIME * inverse == 1 + 887_285_111_055 * MODULUS;
    assert d == MODULUS * (inverse * e - 887_285_111_055 * d);
  }

  lemma XorByteInjective(x: u8, y: u8, b: u8)
    requires XorByte(x, b) == XorByte(y, b) || XorByte(b, x) == XorByte(b, y)
    ensures x == y
  {
    ByteRange();
    XorCommutes(x, b, BITS);
    XorCommutes(y, b, BITS);
    XorInjective(x, y, b, BITS);
  }

  lemma LowByteDetermined(g: u64, h: u64, b: u8, c: u8)
    requires WithLowByte(g, b) == WithLowByte(h, c)
    ensures b == c && (g % 256 == h % 256 ==> g == h)
  {
  }

  lemma FeedInjective(g: u64, h: u64, b: u8)
    requires Feed(g, b) == Feed(h, b)
    ensures g == h
  {
    LowByteDetermined(g, h, XorByte(g % 256, b), XorByte(h % 256, b));
    XorByteInjective(g % 256, h % 256, b);
  }

  lemma FeedByteInjective(h: u64, b: u8, c: u8)
    requires Feed(h, b) == Feed(h, c)
    ensures b == c
  {
    LowByteDetermined(h, h, XorByte(h % 256, b), XorByte(h % 256, c));
    XorByteInjective(b, c, h % 256);
  }

  lemma StepInjective()
    ensures StateInjective(Step) && ByteInjective(Step)
  {
    forall g, h, b | Step(g, b) == Step(h, b) ensures g == h {
      TimesInjective(Feed(g, b), Feed(h, b));
      FeedInjective(g, h, b);
    }
    forall h, b, c | Step(h, b) == Step(h, c) ensures b == c {
      TimesInjective(Feed(h, b), Feed(h, c));
      FeedByteInjective(h, b, c);
    }
  }

  // ---------- Hexadecimal rendering ----------

  const ALPHABET: string := "0123456789abcdef"

  function Pair(b: u8): string {
    [ALPHABET[b / 16], ALPHABET[b % 16]]
  }

  /** The k low bytes, most significant first, two digits each. */
  function HexBytes(v: nat, k: nat): (s: string)
    ensures |s| == 2 * k
    decreases k
  {
    if k == 0 then [] else HexBytes(v / 256, k - 1) + Pair(v % 256)
  }

  function Hex(v: u64): string {
    HexBytes(v, LENGTH)
  }

  lemma DigitInjective(m: nat, n: nat)
    requires m < 16 && n < 16 && ALPHABET[m] == ALPHABET[n]
    ensures m == n
  {
  }

  lemma {:induction false} HexBytesInjective(v: nat, w: nat, k: nat)
    requires v < Pow256(k) && w < Pow256(k) && HexBytes(v, k) == HexBytes(w, k)
    ensures v == w
    decreases k
  {
    if k > 0 {
      var x, y, n := HexBytes(v, k), HexBytes(w, k), 2 * (k - 1);
      assert x[..n] == HexBytes(v / 256, k - 1) && y[..n] == HexBytes(w / 256, k - 1);
      HexBytesInjective(v / 256, w / 256, k - 1);
      assert x[n] == Pair(v % 256)[0] && y[n] == Pair(w % 256)[0];
      assert x[n + 1] == Pair(v % 256)[1] && y[n + 1] == Pair(w % 256)[1];
      DigitInjective(v % 256 / 16, w % 256 / 16);
      DigitInjective(v % 256 % 16, w % 256 % 16);
    }
  }

  /** Sixteen digits determine the digest. */
  lemma HexInjective(v: u64, w: u64)
    requires Hex(v) == Hex(w)
    ensures v == w
  {
    PowersOf256();
    HexBytesInjective(v, w, LENGTH);
  }

  /** `v >> (8 * i)` */
  function Shifted(v: nat, i: nat): nat {
    if i == 0 then v else Shifted(v, i - 1) / 256
  }

  // ---------- The fingerprint of a state ----------

  /** What `canonical_digest` renders: the digest of the length and then the bytes. */
  function Fingerprint(bs: seq<u8>): string {
    Hex(Fnv64(LittleEndian(|bs|, LENGTH) + bs))
  }

  /** Changing exactly one byte of a byte string always changes its fingerprint. */
  lemma FingerprintDetects(bs: seq<u8>, i: nat, b: u8)
    requires i < |bs| && bs[i] != b
    ensures Fingerprint(bs) != Fingerprint(bs[i := b])
  {
    var prefix := LittleEndian(|bs|, LENGTH);
    var x, y := prefix + bs, prefix + bs[i := b];
    StepInjective();
    assert x[|prefix| + i := b] == y;
    OneByteChange(Step, OFFSET, x, |prefix| + i, b);
    if Hex(Fnv64(x)) == Hex(Fnv64(y)) {
      HexInjective(Fnv64(x), Fnv64(y));
    }
  }

  lemma LowByteFirst(h: u64, v: nat, k: nat)
    requires k > 0
    ensures Fold(Step, h, LittleEndian(v, k)) == Fold(Step, Step(h, v % 256), LittleEndian(v / 256, k - 1))
  {
    FoldAppend(Step, h, [v % 256], LittleEndian(v / 256, k - 1));
    FoldSingle(Step, h, v % 256);
  }

  class DigestBuilder {
    var hash: u64

    constructor ()
      ensures hash == OFFSET
    {
      hash := OFFSET;
    }

    method AddU8(v: u8)
      modifies this
      ensures hash == Step(old(hash), v)
    {
      hash := Feed(hash, v);
      hash := Times(hash);
    }

    method AddU64(value: u64)
      modifies this
      ensures hash == Fold(Step, old(hash), LittleEndian(value, LENGTH))
    {
      var v: nat := value;
      ghost var whole := Fold(Step, hash, LittleEndian(value, LENGTH));
      for i := 0 to LENGTH
        invariant Fold(Step, hash, LittleEndian(v, LENGTH - i)) == whole
      {
        LowByteFirst(hash, v, LENGTH - i);
        AddU8(v % 256);
        v := v / 256;
      }
    }

    /** Length first, so that concatenations cannot be confused. */
    method AddBytes(bs: seq<u8>)
      requires |bs| < MODULUS
      modifies this
      ensures hash == Fold(Step, old(hash), LittleEndian(|bs|, LENGTH) + bs)
    {
      ghost var start := hash;
      ghost var prefix := LittleEndian(|bs|, LENGTH);
      AddU64(|bs|);
      for i := 0 to |bs|
        invariant hash == Fold(Step, Fold(Step, start, prefix), bs[..i])
      {
        FoldNext(Step, Fold(Step, start, prefix), bs, i);
        AddU8(bs[i]);
      }
      assert bs[..|bs|] == bs;
      FoldAppend(Step, start, prefix, bs);
    }

    /** Two digits for each byte, from the most significant one down. */
    method Finish() returns (s: string)
      ensures s == Hex(hash)
    {
      s := [];
      for i := LENGTH downto 0
        invariant s == HexBytes(Shifted(hash, i), LENGTH - i)
      {
        var b := Shifted(hash, i) % 256;
        s := s + Pair(b);
      }
    }
  }

  method CanonicalDigest(bs: seq<u8>) returns (s: string)
    requires |bs| < MODULUS
    ensures s == Fingerprint(bs)
  {
    var b := new DigestBuilder();
    b.AddBytes(bs);
    s := b.Finish();
  }
}

/** Machine words and little-endian bytes, shared by every codec of the system. */
module Words {
  type u8 = x: int | 0 <= x < 0x100
  type u32 = x: int | 0 <= x < 0x1_0000_0000
  type u64 = x: int | 0 <= x < 0x1_0000_0000_0000_0000
  type i64 = x: int | -0x8000_0000_0000_0000 <= x < 0x8000_0000_0000_0000

  /** 256 to the power k: how many values k bytes can hold. */
  function Pow256(k: nat): (p: nat)
    ensures p >= 1
  {
    if k == 0 then 1 else 256 * Pow256(k - 1)
  }

  function Pow2(k: nat): (p: nat)
    ensures p >= 1
  {
    if k == 0 then 1 else 2 * Pow2(k - 1)
  }

  /** The k low bytes of v, least significant first. */
  function LittleEndian(v: nat, k: nat): (bs: seq<u8>)
    ensures |bs| == k
    decreases k
  {
    if k == 0 then [] else [v % 256] + LittleEndian(v / 256, k - 1)
  }

  /** The number whose little-endian digits are bs. */
  function FromLittleEndian(bs: seq<u8>): (v: nat)
    ensures v < Pow256(|bs|)
  {
    if bs == [] then 0 else bs[0] + 256 * FromLittleEndian(bs[1..])
  }

  lemma {:induction false} LittleEndianInverse(v: nat, k: nat)
    requires v < Pow256(k)
    ensures FromLittleEndian(LittleEndian(v, k)) == v
    decreases k
  {
    if k > 0 {
      LittleEndianInverse(v / 256, k - 1);
      assert LittleEndian(v, k)[1..] == LittleEndian(v / 256, k - 1);
    }
  }

  lemma {:induction false} FromLittleEndianInverse(bs: seq<u8>)
    ensures LittleEndian(FromLittleEndian(bs), |bs|) == bs
  {
    if bs != [] {
      FromLittleEndianInverse(bs[1..]);
      LowDigit(bs[0], FromLittleEndian(bs[1..]));
    }
  }

  lemma LowDigit(d: u8, rest: nat)
    ensures (d + 256 * rest) % 256 == d && (d + 256 * rest) / 256 == rest
  {
  }

  /** `byte << (8 * i)` */
  function Place(b: u8, i: nat): nat {
    Pow256(i) * b
  }

  /** One more digit at the most significant end: what `v |= byte << (8 * i)` adds. */
  lemma {:induction false} FromLittleEndianAppend(bs: seq<u8>, b: u8)
    ensures FromLittleEndian(bs + [b]) == FromLittleEndian(bs) + Place(b, |bs|)
  {
    if bs == [] {
      assert FromLittleEndian([b][1..]) == 0;
    } else {
      FromLittleEndianAppend(bs[1..], b);
      assert (bs + [b])[1..] == bs[1..] + [b];
      Distribute(bs[0], FromLittleEndian(bs[1..]), Pow256(|bs| - 1), b);
    }
  }

  lemma Distribute(d: nat, rest: nat, p: nat, b: nat)
    ensures d + 256 * (rest + p * b) == (d + 256 * rest) + (256 * p) * b
  {
  }

  /** The two's-complement image that `static_cast<std::uint64_t>` gives a signed value. */
  function Unsigned(i: i64): u64 {
    if i < 0 then i + 0x1_0000_0000_0000_0000 else i
  }

  function Signed(u: u64): (i: i64)
    ensures Unsigned(i) == u
  {
    if u < 0x8000_0000_0000_0000 then u else u - 0x1_0000_0000_0000_0000
  }

  lemma PowersOf256()
    ensures Pow256(1) == 0x100
    ensures Pow256(4) == 0x1_0000_0000
    ensures Pow256(8) == 0x1_0000_0000_0000_0000
  {
    assert Pow256(2) == 0x1_0000;
    assert Pow256(6) == 256 * (256 * Pow256(4));
  }
}

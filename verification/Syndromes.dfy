/**
  The checksum is linear: how two checksums differ depends on how the strings differ and on nothing
  else in them. So whether a corruption is noticed is decided by its pattern.
 */
module Syndromes {
  import opened Words
  import opened Octets
  import opened Folding
  import opened Crc
  import opened Sealing

  // ---------- Linearity ----------

  lemma OddOfXor(a: bv32, b: bv32)
    ensures Odd(Xor(a, b)) <==> Odd(a) != Odd(b)
  {
  }

  lemma XorCommutes(a: bv32, b: bv32)
    ensures Xor(a, b) == Xor(b, a)
  {
  }

  lemma XorExchange(a: bv32, x: bv32, b: bv32, y: bv32)
    ensures Xor(Xor(a, x), Xor(b, y)) == Xor(Xor(a, b), Xor(x, y))
  {
    XorAssociative(a, x, Xor(b, y));
    XorAssociative(x, b, y);
    XorCommutes(x, b);
    XorAssociative(b, x, y);
    XorAssociative(a, b, Xor(x, y));
  }

  lemma XorNeutral(a: bv32)
    ensures Xor(a, 0) == a && Xor(0, a) == a && Xor(a, a) == 0
  {
  }

  lemma BitStepLinear(a: bv32, b: bv32)
    ensures BitStep(Xor(a, b)) == Xor(BitStep(a), BitStep(b))
  {
    var p, q := if Odd(a) then POLYNOMIAL else 0, if Odd(b) then POLYNOMIAL else 0;
    OddOfXor(a, b);
    HalfOfXor(a, b);
    XorExchange(p, Half(a), q, Half(b));
    XorNeutral(Half(a));
    XorNeutral(Half(b));
    XorNeutral(POLYNOMIAL);
    XorNeutral(Xor(Half(a), Half(b)));
  }

  lemma {:induction false} BitStepsLinear(a: bv32, b: bv32, k: nat)
    ensures BitSteps(Xor(a, b), k) == Xor(BitSteps(a, k), BitSteps(b, k))
    decreases k
  {
    if k > 0 {
      BitStepLinear(a, b);
      BitStepsLinear(BitStep(a), BitStep(b), k - 1);
    }
  }

  lemma EightBitsLinear(a: bv32, b: bv32)
    ensures EightBits(Xor(a, b)) == Xor(EightBits(a), EightBits(b))
  {
    BitStepsLinear(a, b, BITS);
  }

  // ---------- Patterns ----------

  /** Where and how two strings differ, byte by byte. */
  function Pattern(xs: seq<u8>, ys: seq<u8>): (ds: seq<bv32>)
    requires |xs| == |ys|
    ensures |ds| == |xs|
  {
    if xs == [] then []
    else Pattern(xs[..|xs| - 1], ys[..|ys| - 1]) + [Xor(Octet(xs[|xs| - 1]), Octet(ys[|ys| - 1]))]
  }

  /** What a pattern does to the register. */
  function Syndrome(ds: seq<bv32>): bv32 {
    if ds == [] then 0 else EightBits(Xor(Syndrome(ds[..|ds| - 1]), ds[|ds| - 1]))
  }

  lemma {:induction false} FoldLinear(c: bv32, xs: seq<u8>, ys: seq<u8>)
    requires |xs| == |ys|
    ensures Xor(Fold(ByteStep, c, xs), Fold(ByteStep, c, ys)) == Syndrome(Pattern(xs, ys))
    decreases |xs|
  {
    if xs == [] {
      XorNeutral(c);
    } else {
      var n := |xs| - 1;
      var x, y := Octet(xs[n]), Octet(ys[n]);
      var a, b := Fold(ByteStep, c, xs[..n]), Fold(ByteStep, c, ys[..n]);
      FoldLinear(c, xs[..n], ys[..n]);
      XorExchange(a, x, b, y);
      EightBitsLinear(Xor(a, x), Xor(b, y));
      assert Pattern(xs, ys)[..n] == Pattern(xs[..n], ys[..n]);
    }
  }

  /** The difference of two checksums is the syndrome of the pattern in which the strings differ. */
  lemma ChecksumsDiffer(xs: seq<u8>, ys: seq<u8>)
    requires |xs| == |ys|
    ensures Xor(Checksum(xs), Checksum(ys)) == Syndrome(Pattern(xs, ys))
  {
    var a, b := Fold(ByteStep, ALL_ONES, xs), Fold(ByteStep, ALL_ONES, ys);
    FoldLinear(ALL_ONES, xs, ys);
    XorExchange(a, ALL_ONES, b, ALL_ONES);
    XorNeutral(ALL_ONES);
    XorNeutral(Xor(a, b));
  }

  /** How two stored checksums differ. */
  function SealChange(s: seq<u8>, t: seq<u8>): bv32
    requires |s| == |t| == 4
  {
    Xor(WordOf(s), WordOf(t))
  }

  lemma EqualWhenDifferencesAre(a: bv32, b: bv32, t: bv32)
    ensures b == t <==> Xor(a, b) == Xor(a, t)
  {
    if b != t {
      XorInjectiveRight(a, b, t);
    }
  }

  /**
    Corrupted bytes and a corrupted seal pass exactly when the syndrome of the bytes is the
    difference of the seals.
   */
  lemma PassesExactly(x: seq<u8>, y: seq<u8>, t: seq<u8>)
    requires |x| == |y| && |t| == 4
    ensures Vouches(t, y) <==> Syndrome(Pattern(x, y)) == SealChange(Seal(x), t)
  {
    WordOfBytes(Checksum(x));
    ChecksumsDiffer(x, y);
    EqualWhenDifferencesAre(Checksum(x), Checksum(y), WordOf(t));
  }

  // ---------- A pattern of four consecutive bytes that is not noticed ----------

  /** In the last byte of the string, this pattern has a syndrome whose low byte is zero. */
  const LAST_BYTE: bv32 := 0x5D
  const LAST_SYNDROME: bv32 := 0xEE0D_9600

  lemma NextSteps(c: bv32, k: nat, d: bv32)
    requires k > 0 && BitStep(c) == d
    ensures BitSteps(c, k) == BitSteps(d, k - 1)
  {
  }

  lemma LastSyndrome()
    ensures EightBits(LAST_BYTE) == LAST_SYNDROME
  {
    NextSteps(0x0000_005D, 8, 0x82F6_3B56);
    NextSteps(0x82F6_3B56, 7, 0x417B_1DAB);
    NextSteps(0x417B_1DAB, 6, 0xA24B_B5AD);
    NextSteps(0xA24B_B5AD, 5, 0xD3D3_E1AE);
    NextSteps(0xD3D3_E1AE, 4, 0x69E9_F0D7);
    NextSteps(0x69E9_F0D7, 3, 0xB602_C313);
    NextSteps(0xB602_C313, 2, 0xD9F7_5AF1);
    NextSteps(0xD9F7_5AF1, 1, 0xEE0D_9600);
  }

  lemma LowByteKept(c: bv32)
    ensures LowByte(Xor(c, LAST_SYNDROME)) == LowByte(c)
  {
    LowOctet(c);
    LowOctet(Xor(c, LAST_SYNDROME));
    SameLow(c);
    if LowByte(Xor(c, LAST_SYNDROME)) != LowByte(c) {
      OctetInjective(LowByte(Xor(c, LAST_SYNDROME)), LowByte(c));
    }
  }

  lemma SameLow(c: bv32)
    ensures Low(Xor(c, LAST_SYNDROME)) == Low(c)
  {
  }

  lemma LastByteChanged(m: bv32)
    requires m <= 0xFF
    ensures Low(Xor(m, LAST_BYTE)) == Xor(m, LAST_BYTE) && Xor(m, Xor(m, LAST_BYTE)) == LAST_BYTE
  {
  }

  /** Strings that agree but for their last bytes have the last byte's difference as their pattern. */
  lemma {:induction false} PatternAtEnd(pre: seq<u8>, b: u8, c: u8)
    ensures Syndrome(Pattern(pre + [b], pre + [c])) == EightBits(Xor(Octet(b), Octet(c)))
  {
    var xs, ys := pre + [b], pre + [c];
    assert xs[..|pre|] == pre && ys[..|pre|] == pre;
    NoPattern(pre);
    XorNeutral(Xor(Octet(b), Octet(c)));
    assert Pattern(xs, ys)[..|pre|] == Pattern(pre, pre);
  }

  lemma {:induction false} NoPattern(xs: seq<u8>)
    ensures Syndrome(Pattern(xs, xs)) == 0
  {
    if xs != [] {
      var n := |xs| - 1;
      NoPattern(xs[..n]);
      XorNeutral(Octet(xs[n]));
      XorNeutral(0);
      assert Pattern(xs, xs)[..n] == Pattern(xs[..n], xs[..n]);
      ZeroStays(BITS);
    }
  }

  lemma {:induction false} ZeroStays(k: nat)
    ensures BitSteps(0, k) == 0
  {
    if k > 0 {
      assert BitStep(0) == 0;
      ZeroStays(k - 1);
    }
  }

  /** Another last byte and another seal, with the seal's first byte kept, that pass for a sealed string. */
  lemma Unnoticed(pre: seq<u8>, b: u8) returns (c: u8, t: seq<u8>)
    ensures c != b && |t| == 4 && t[0] == Seal(pre + [b])[0] && Vouches(t, pre + [c])
  {
    var x, m := pre + [b], Octet(b);
    c, t := LowByte(Xor(m, LAST_BYTE)), Bytes(Xor(Checksum(x), LAST_SYNDROME));
    OctetRoom(b);
    LastByteChanged(m);
    LowOctet(Xor(m, LAST_BYTE));
    XorNeutral(m);
    LowByteKept(Checksum(x));
    WordOfBytes(Checksum(x));
    WordOfBytes(Xor(Checksum(x), LAST_SYNDROME));
    XorCancels(Checksum(x), LAST_SYNDROME);
    LastSyndrome();
    PatternAtEnd(pre, b, c);
    PassesExactly(x, pre + [c], t);
  }
}

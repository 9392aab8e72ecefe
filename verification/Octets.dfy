/** Message bytes as the bit patterns that the hash registers work on. */
module Octets {
  import opened Words

  const BITS: nat := 8

  /** The k low binary digits of n. */
  function Digits(n: nat, k: nat): bv32
    decreases k
  {
    if k == 0 then 0 else PushBit(Digits(n / 2, k - 1), n % 2 == 1)
  }

  function PushBit(x: bv32, bit: bool): bv32 {
    (x << 1) | (if bit then 1 else 0)
  }

  function Half(o: bv32): bv32 {
    o >> 1
  }

  predicate Odd(o: bv32) {
    o & 1 == 1
  }

  /** The number whose k binary digits are the low bits of o. */
  function Value(o: bv32, k: nat): (n: nat)
    ensures n < Pow2(k)
    decreases k
  {
    if k == 0 then 0 else (if Odd(o) then 1 else 0) + 2 * Value(Half(o), k - 1)
  }

  /** k low ones. */
  function Mask(k: nat): bv32 {
    if k == 0 then 0 else PushBit(Mask(k - 1), true)
  }

  lemma PushBitRoom(x: bv32, m: bv32, bit: bool)
    requires x <= m && m <= 0xFF
    ensures PushBit(x, bit) <= PushBit(m, true)
  {
  }

  lemma MaskValues(k: nat)
    requires k <= 8
    ensures Mask(k) <= 0xFF && (k == 8 ==> Mask(k) == 0xFF)
  {
    assert Mask(0) == 0 && Mask(1) == 1 && Mask(2) == 3 && Mask(3) == 7;
    assert Mask(4) == 15 && Mask(5) == 31;
    assert Mask(6) == 63 && Mask(7) == 127;
    assert Mask(8) == 255;
  }

  lemma {:induction false} DigitsRoom(n: nat, k: nat)
    requires k <= 8
    ensures Digits(n, k) <= Mask(k) <= 0xFF
    decreases k
  {
    MaskValues(k);
    if k > 0 {
      DigitsRoom(n / 2, k - 1);
      MaskValues(k - 1);
      PushBitRoom(Digits(n / 2, k - 1), Mask(k - 1), n % 2 == 1);
    }
  }

  lemma PushBitInjective(x: bv32, y: bv32, p: bool, q: bool)
    requires x <= 0xFF && y <= 0xFF && (x != y || p != q)
    ensures PushBit(x, p) != PushBit(y, q)
  {
  }

  lemma {:induction false} DigitsInjective(n: nat, m: nat, k: nat)
    requires n != m && n < Pow2(k) && m < Pow2(k) && k <= 8
    ensures Digits(n, k) != Digits(m, k)
    decreases k
  {
    DigitsRoom(n / 2, k - 1);
    DigitsRoom(m / 2, k - 1);
    if n / 2 != m / 2 {
      DigitsInjective(n / 2, m / 2, k - 1);
    }
    PushBitInjective(Digits(n / 2, k - 1), Digits(m / 2, k - 1), n % 2 == 1, m % 2 == 1);
  }

  lemma PopBit(o: bv32)
    ensures PushBit(Half(o), Odd(o)) == o
  {
  }

  lemma PopBitRoom(o: bv32, m: bv32)
    requires o <= PushBit(m, true) && m <= 0xFF
    ensures Half(o) <= m
  {
  }

  lemma DigitsStep(r: nat, bit: bool, k: nat)
    requires k > 0
    ensures Digits((if bit then 1 else 0) + 2 * r, k) == PushBit(Digits(r, k - 1), bit)
  {
  }

  lemma {:induction false} DigitsOfValue(o: bv32, k: nat)
    requires k <= 8 && o <= Mask(k)
    ensures Digits(Value(o, k), k) == o
    decreases k
  {
    if k > 0 {
      DigitsStep(Value(Half(o), k - 1), Odd(o), k);
      PopBit(o);
      HalfMask(o, k);
      DigitsOfValue(Half(o), k - 1);
    }
  }

  lemma HalfMask(o: bv32, k: nat)
    requires 0 < k <= 8 && o <= Mask(k)
    ensures Half(o) <= Mask(k - 1)
  {
    MaskValues(k - 1);
    PopBitRoom(o, Mask(k - 1));
  }

  function Octet(b: u8): bv32 {
    Digits(b, BITS)
  }

  lemma PowerOfByte()
    ensures Pow2(BITS) == 256
  {
    assert Pow2(4) == 16;
    assert Pow2(8) == 16 * Pow2(4);
  }

  lemma OctetInjective(b: u8, c: u8)
    requires b != c
    ensures Octet(b) != Octet(c)
  {
    PowerOfByte();
    DigitsInjective(b, c, BITS);
  }

  lemma OctetRoom(b: u8)
    ensures Octet(b) <= 0xFF
  {
    DigitsRoom(b, BITS);
  }

  /** The low byte of a register, as a number. */
  function LowByte(c: bv32): u8 {
    PowerOfByte();
    Value(c & 0xFF, BITS)
  }

  lemma LowByteOctet(c: bv32)
    ensures Octet(LowByte(c)) == c & 0xFF
  {
    MaskValues(BITS);
    DigitsOfValue(c & 0xFF, BITS);
  }
}

/**
  CRC-32C (Castagnoli), the checksum of the persistence envelope and of every TCP frame: the
  table-driven loop of the source, the bit-by-bit definition it speeds up, and the error-detection
  facts that follow from each step being a bijection of the 32-bit register.
 */
module Crc {
  import opened Words
  import opened Octets
  import opened Folding

  /** The reflected polynomial of section 12.1 of RFC 3720. */
  const POLYNOMIAL: bv32 := 0x82F6_3B78
  const ALL_ONES: bv32 := 0xFFFF_FFFF
  const TABLE_SIZE: nat := 256

  function Xor(a: bv32, b: bv32): bv32 {
    a ^ b
  }

  // ---------- The definition: one bit at a time ----------

  /** Shift out the low bit, and feed the polynomial back in when it was set. */
  function BitStep(c: bv32): bv32 {
    if Odd(c) then Xor(POLYNOMIAL, Half(c)) else Half(c)
  }

  function BitSteps(c: bv32, k: nat): bv32
    decreases k
  {
    if k == 0 then c else BitSteps(BitStep(c), k - 1)
  }

  function EightBits(c: bv32): bv32 {
    BitSteps(c, BITS)
  }

  /** The register after one message byte. */
  function ByteStep(c: bv32, b: u8): bv32 {
    EightBits(Xor(c, Octet(b)))
  }

  function Checksum(bs: seq<u8>): bv32 {
    Xor(Fold(ByteStep, ALL_ONES, bs), ALL_ONES)
  }

  lemma {:induction false} OneMoreBit(c: bv32, k: nat)
    ensures BitSteps(c, k + 1) == BitStep(BitSteps(c, k))
    decreases k
  {
    if k > 0 {
      OneMoreBit(BitStep(c), k - 1);
    }
  }

  // ---------- Feeding bits in late ----------

  /** The top bit is zero. */
  predicate Clear(m: bv32) {
    m & 0x8000_0000 == 0
  }

  function Dbl(m: bv32): bv32 {
    m << 1
  }

  function Up8(m: bv32): bv32 {
    m << 8
  }

  lemma XorAssociative(a: bv32, b: bv32, c: bv32)
    ensures Xor(Xor(a, b), c) == Xor(a, Xor(b, c))
  {
  }

  lemma LateLow(c: bv32, m: bv32)
    ensures Odd(Xor(c, Dbl(m))) <==> Odd(c)
  {
  }

  lemma HalfOfXor(c: bv32, d: bv32)
    ensures Half(Xor(c, d)) == Xor(Half(c), Half(d))
  {
  }

  lemma HalfOfDbl(m: bv32)
    requires Clear(m)
    ensures Half(Dbl(m)) == m
  {
  }

  /** A bit fed in after one shift acts like one fed in before it, one place up. */
  lemma LateBit(c: bv32, m: bv32)
    requires Clear(m)
    ensures Xor(BitStep(c), m) == BitStep(Xor(c, Dbl(m)))
  {
    LateLow(c, m);
    HalfOfXor(c, Dbl(m));
    HalfOfDbl(m);
    XorAssociative(POLYNOMIAL, Half(c), m);
  }

  function Doubled(m: bv32, k: nat): bv32 {
    if k == 0 then m else Dbl(Doubled(m, k - 1))
  }

  lemma {:induction false} LateBits(c: bv32, m: bv32, k: nat)
    requires forall j: nat :: j < k ==> Clear(Doubled(m, j))
    ensures Xor(BitSteps(c, k), m) == BitSteps(Xor(c, Doubled(m, k)), k)
    decreases k
  {
    if k > 0 {
      LateBits(BitStep(c), m, k - 1);
      LateBit(c, Doubled(m, k - 1));
    }
  }

  lemma DoublingsFormula(m: bv32, m1: bv32, m2: bv32, m3: bv32, m4: bv32, m5: bv32, m6: bv32, m7: bv32)
    requires m & 0xFF00_0000 == 0 && m1 == Dbl(m) && m2 == Dbl(m1) && m3 == Dbl(m2)
    requires m4 == Dbl(m3) && m5 == Dbl(m4) && m6 == Dbl(m5) && m7 == Dbl(m6)
    ensures Clear(m) && Clear(m1) && Clear(m2) && Clear(m3) && Clear(m4) && Clear(m5) && Clear(m6) && Clear(m7)
    ensures Dbl(m7) == Up8(m)
  {
  }

  lemma DoubledNext(m: bv32, k: nat, x: bv32)
    requires Doubled(m, k) == x
    ensures Doubled(m, k + 1) == Dbl(x)
  {
  }

  lemma EightDoublings(m: bv32)
    requires m & 0xFF00_0000 == 0
    ensures Doubled(m, BITS) == Up8(m) && forall j: nat :: j < BITS ==> Clear(Doubled(m, j))
  {
    var m1, m2, m3 := Doubled(m, 1), Doubled(m, 2), Doubled(m, 3);
    var m4, m5, m6, m7 := Doubled(m, 4), Doubled(m, 5), Doubled(m, 6), Doubled(m, 7);
    DoubledNext(m, 0, m);
    DoubledNext(m, 1, m1);
    DoubledNext(m, 2, m2);
    DoubledNext(m, 3, m3);
    DoubledNext(m, 4, m4);
    DoubledNext(m, 5, m5);
    DoubledNext(m, 6, m6);
    DoubledNext(m, 7, m7);
    DoublingsFormula(m, m1, m2, m3, m4, m5, m6, m7);
  }

  /** Bits fed in after eight shifts act like bits fed in before them, eight places up. */
  lemma LateFeed(c: bv32, m: bv32)
    requires m & 0xFF00_0000 == 0
    ensures Xor(EightBits(c), m) == EightBits(Xor(c, Up8(m)))
  {
    EightDoublings(m);
    LateBits(c, m, BITS);
  }

  // ---------- The table-driven form ----------

  /** The first n values of f. */
  function Tabulate<T>(f: u8 -> T, n: nat): (t: seq<T>)
    requires n <= 256
    ensures |t| == n
  {
    if n == 0 then [] else Tabulate(f, n - 1) + [f(n - 1)]
  }

  lemma {:induction false} TabulateAt<T>(f: u8 -> T, n: nat, j: u8)
    requires j < n <= 256
    ensures Tabulate(f, n)[j] == f(j)
    decreases n
  {
    if j < n - 1 {
      TabulateAt(f, n - 1, j);
    }
  }

  function Entry(j: u8): bv32 {
    EightBits(Octet(j))
  }

  method TableEntry(i: bv32) returns (c: bv32)
    ensures c == EightBits(i)
  {
    c := i;
    for k := 0 to BITS
      invariant c == BitSteps(i, k)
    {
      OneMoreBit(i, k);
      c := if Odd(c) then Xor(POLYNOMIAL, Half(c)) else Half(c);
    }
  }

  method BuildTable() returns (table: seq<bv32>)
    ensures table == Tabulate(Entry, TABLE_SIZE)
  {
    table := [];
    for i := 0 to TABLE_SIZE
      invariant table == Tabulate(Entry, i)
    {
      var c := TableEntry(Octet(i));
      table := table + [c];
    }
  }

  function HighBytes(c: bv32): bv32 {
    c >> 8
  }

  /** The lookup step of the source. */
  function TableStep(table: seq<bv32>, c: bv32, b: u8): bv32
    requires |table| == 256
  {
    Xor(table[LowByte(Xor(c, Octet(b)))], HighBytes(c))
  }

  lemma SplitWord(c: bv32, low: bv32)
    requires low == c & 0xFF
    ensures c == Xor(low, Up8(HighBytes(c))) && HighBytes(c) & 0xFF00_0000 == 0
  {
  }

  /** The low byte alone decides the feedback; the other bytes only shift down. */
  lemma SplitByTable(c: bv32)
    ensures EightBits(c) == Xor(Entry(LowByte(c)), HighBytes(c))
  {
    LowByteOctet(c);
    SplitWord(c, Octet(LowByte(c)));
    LateFeed(Octet(LowByte(c)), HighBytes(c));
  }

  lemma HighBytesFormula(c: bv32, m: bv32)
    requires m <= 0xFF
    ensures HighBytes(Xor(c, m)) == HighBytes(c)
  {
  }

  lemma HighBytesFeed(c: bv32, b: u8)
    ensures HighBytes(Xor(c, Octet(b))) == HighBytes(c)
  {
    OctetRoom(b);
    HighBytesFormula(c, Octet(b));
  }

  lemma TableStepIsByteStep(table: seq<bv32>, c: bv32, b: u8)
    requires table == Tabulate(Entry, TABLE_SIZE)
    ensures TableStep(table, c, b) == ByteStep(c, b)
  {
    var x := Xor(c, Octet(b));
    SplitByTable(x);
    HighBytesFeed(c, b);
    TabulateAt(Entry, TABLE_SIZE, LowByte(x));
  }

  /** The fast form computes the bit-by-bit checksum. */
  method Crc32c(bs: seq<u8>) returns (crc: bv32)
    ensures crc == Checksum(bs)
  {
    var table := BuildTable();
    ghost var fast := (c, b) => TableStep(table, c, b);
    crc := ALL_ONES;
    for i := 0 to |bs|
      invariant crc == Fold(fast, ALL_ONES, bs[..i])
    {
      FoldNext(fast, ALL_ONES, bs, i);
      crc := TableStep(table, crc, bs[i]);
    }
    assert bs[..|bs|] == bs;
    forall c, b ensures fast(c, b) == ByteStep(c, b) {
      TableStepIsByteStep(table, c, b);
    }
    FoldAgree(fast, ByteStep, ALL_ONES, bs);
    crc := Xor(crc, ALL_ONES);
  }

  // ---------- Error detection ----------

  lemma XorInjective(c: bv32, d: bv32, m: bv32)
    requires c != d
    ensures Xor(c, m) != Xor(d, m)
  {
  }

  /** Undoes one bit step: the polynomial's top bit tells whether it was fed in. */
  function BitBack(s: bv32): bv32 {
    if Clear(s) then PushBit(s, false) else PushBit(Xor(POLYNOMIAL, s), true)
  }

  lemma FedBack(h: bv32)
    requires Clear(h)
    ensures !Clear(Xor(POLYNOMIAL, h)) && Xor(POLYNOMIAL, Xor(POLYNOMIAL, h)) == h
  {
  }

  lemma HalfClear(c: bv32)
    ensures Clear(Half(c))
  {
  }

  lemma BitStepBack(c: bv32)
    ensures BitBack(BitStep(c)) == c
  {
    HalfClear(c);
    FedBack(Half(c));
    PopBit(c);
  }

  lemma BitStepInjective(c: bv32, d: bv32)
    requires c != d
    ensures BitStep(c) != BitStep(d)
  {
    BitStepBack(c);
    BitStepBack(d);
  }

  lemma {:induction false} BitStepsInjective(c: bv32, d: bv32, k: nat)
    requires c != d
    ensures BitSteps(c, k) != BitSteps(d, k)
    decreases k
  {
    if k > 0 {
      BitStepInjective(c, d);
      BitStepsInjective(BitStep(c), BitStep(d), k - 1);
    }
  }

  lemma EightBitsInjective(c: bv32, d: bv32)
    requires c != d
    ensures EightBits(c) != EightBits(d)
  {
    BitStepsInjective(c, d, BITS);
  }

  /** Every byte step is a bijection of the register. */
  lemma ByteStepInjective(c: bv32, d: bv32, b: u8)
    requires c != d
    ensures ByteStep(c, b) != ByteStep(d, b)
  {
    XorInjective(c, d, Octet(b));
    EightBitsInjective(Xor(c, Octet(b)), Xor(d, Octet(b)));
  }

  lemma RegisterInjective()
    ensures StateInjective(ByteStep)
  {
    forall c, d, b | c != d ensures ByteStep(c, b) != ByteStep(d, b) {
      ByteStepInjective(c, d, b);
    }
  }

  /** Four message bytes as one register-wide word. */
  function Word(b0: u8, b1: u8, b2: u8, b3: u8): bv32 {
    Xor(Xor(Octet(b0), Up8(Octet(b1))), Xor(Up8(Up8(Octet(b2))), Up8(Up8(Up8(Octet(b3))))))
  }

  lemma ShiftRoom(m: bv32)
    requires m <= 0xFF
    ensures m & 0xFF00_0000 == 0
    ensures Up8(m) & 0xFF00_0000 == 0
    ensures Up8(Up8(m)) & 0xFF00_0000 == 0
  {
  }

  /** Absorbing four bytes is absorbing their word and then shifting 32 times. */
  lemma FourBytes(s: bv32, b0: u8, b1: u8, b2: u8, b3: u8)
    ensures ByteStep(ByteStep(ByteStep(ByteStep(s, b0), b1), b2), b3)
         == EightBits(EightBits(EightBits(EightBits(Xor(s, Word(b0, b1, b2, b3))))))
  {
    var m1, m2, m3 := Octet(b1), Octet(b2), Octet(b3);
    OctetRoom(b1);
    ShiftRoom(m1);
    OctetRoom(b2);
    ShiftRoom(m2);
    OctetRoom(b3);
    ShiftRoom(m3);
    var y0 := Xor(s, Octet(b0));
    var y1 := Xor(y0, Up8(m1));
    LateFeed(y0, m1);
    var y2 := Xor(y1, Up8(Up8(m2)));
    LateFeed(EightBits(y1), m2);
    LateFeed(y1, Up8(m2));
    var y3 := Xor(y2, Up8(Up8(Up8(m3))));
    LateFeed(EightBits(EightBits(y2)), m3);
    LateFeed(EightBits(y2), Up8(m3));
    LateFeed(y2, Up8(Up8(m3)));
    XorAssociative(s, Octet(b0), Up8(m1));
    XorAssociative(y1, Up8(Up8(m2)), Up8(Up8(Up8(m3))));
    XorAssociative(s, Xor(Octet(b0), Up8(m1)), Xor(Up8(Up8(m2)), Up8(Up8(Up8(m3)))));
  }

  lemma WordFormula(a0: bv32, a1: bv32, a2: bv32, a3: bv32, b0: bv32, b1: bv32, b2: bv32, b3: bv32)
    requires a0 <= 0xFF && a1 <= 0xFF && a2 <= 0xFF && a3 <= 0xFF
    requires b0 <= 0xFF && b1 <= 0xFF && b2 <= 0xFF && b3 <= 0xFF
    requires a0 != b0 || a1 != b1 || a2 != b2 || a3 != b3
    ensures Xor(Xor(a0, Up8(a1)), Xor(Up8(Up8(a2)), Up8(Up8(Up8(a3)))))
         != Xor(Xor(b0, Up8(b1)), Xor(Up8(Up8(b2)), Up8(Up8(Up8(b3)))))
  {
  }

  lemma XorInjectiveRight(s: bv32, c: bv32, d: bv32)
    requires c != d
    ensures Xor(s, c) != Xor(s, d)
  {
  }

  lemma WordInjective(xs: seq<u8>, ys: seq<u8>)
    requires |xs| == |ys| == 4 && xs != ys
    ensures Word(xs[0], xs[1], xs[2], xs[3]) != Word(ys[0], ys[1], ys[2], ys[3])
  {
    forall i | 0 <= i < 4 ensures xs[i] != ys[i] ==> Octet(xs[i]) != Octet(ys[i]) {
      if xs[i] != ys[i] {
        OctetInjective(xs[i], ys[i]);
      }
    }
    forall i | 0 <= i < 4 ensures Octet(xs[i]) <= 0xFF && Octet(ys[i]) <= 0xFF {
      OctetRoom(xs[i]);
      OctetRoom(ys[i]);
    }
    WordFormula(Octet(xs[0]), Octet(xs[1]), Octet(xs[2]), Octet(xs[3]),
                Octet(ys[0]), Octet(ys[1]), Octet(ys[2]), Octet(ys[3]));
  }

  /** From one register, different four-byte strings always lead to different registers. */
  lemma FourByteBurst(s: bv32, xs: seq<u8>, ys: seq<u8>)
    requires |xs| == |ys| == 4 && xs != ys
    ensures Fold(ByteStep, s, xs) != Fold(ByteStep, s, ys)
  {
    FoldFour(ByteStep, s, xs);
    FoldFour(ByteStep, s, ys);
    FourBytes(s, xs[0], xs[1], xs[2], xs[3]);
    FourBytes(s, ys[0], ys[1], ys[2], ys[3]);
    WordInjective(xs, ys);
    var x, y := Xor(s, Word(xs[0], xs[1], xs[2], xs[3])), Xor(s, Word(ys[0], ys[1], ys[2], ys[3]));
    XorInjectiveRight(s, Word(xs[0], xs[1], xs[2], xs[3]), Word(ys[0], ys[1], ys[2], ys[3]));
    EightBitsInjective(x, y);
    EightBitsInjective(EightBits(x), EightBits(y));
    EightBitsInjective(EightBits(EightBits(x)), EightBits(EightBits(y)));
    EightBitsInjective(EightBits(EightBits(EightBits(x))), EightBits(EightBits(EightBits(y))));
  }
}

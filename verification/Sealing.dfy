/** The CRC-32C of a byte string as the four little-endian bytes that are stored beside it. */
module Sealing {
  import opened Words
  import opened Octets
  import opened Folding
  import opened Crc

  function Down8(c: bv32): bv32 {
    c >> 8
  }

  function Low(c: bv32): bv32 {
    c & 0xFF
  }

  /** The register's bytes, least significant first. */
  function Bytes(c: bv32): (bs: seq<u8>)
    ensures |bs| == 4
  {
    [LowByte(c), LowByte(Down8(c)), LowByte(Down8(Down8(c))), LowByte(Down8(Down8(Down8(c))))]
  }

  /** The four stored bytes, read back into a register. */
  function WordOf(bs: seq<u8>): bv32
    requires |bs| == 4
  {
    Word(bs[0], bs[1], bs[2], bs[3])
  }

  /** The seal of a byte string: its checksum's bytes. */
  function Seal(bs: seq<u8>): (t: seq<u8>)
    ensures |t| == 4
  {
    Bytes(Checksum(bs))
  }

  /** The decoder's test: recompute the checksum and compare it with the stored one. */
  predicate Vouches(t: seq<u8>, bs: seq<u8>)
    requires |t| == 4
  {
    Checksum(bs) == WordOf(t)
  }

  lemma Reassembled(c: bv32)
    ensures Xor(Xor(Low(c), Up8(Low(Down8(c)))),
                Xor(Up8(Up8(Low(Down8(Down8(c))))), Up8(Up8(Up8(Low(Down8(Down8(Down8(c))))))))) == c
  {
  }

  lemma LowOctet(c: bv32)
    ensures Octet(LowByte(c)) == Low(c)
  {
    LowByteOctet(c);
  }

  lemma WordOfBytes(c: bv32)
    ensures WordOf(Bytes(c)) == c
  {
    LowOctet(c);
    LowOctet(Down8(c));
    LowOctet(Down8(Down8(c)));
    LowOctet(Down8(Down8(Down8(c))));
    Reassembled(c);
  }

  /** A seal vouches for a string exactly when it is that string's seal. */
  lemma VouchesExactly(t: seq<u8>, bs: seq<u8>)
    requires |t| == 4
    ensures Vouches(t, bs) <==> t == Seal(bs)
  {
    WordOfBytes(Checksum(bs));
    if t != Seal(bs) {
      WordInjective(t, Seal(bs));
    }
  }

  lemma XorCancels(c: bv32, m: bv32)
    ensures Xor(c, Xor(c, m)) == m
  {
  }

  function Residue(): bv32 {
    EightBits(EightBits(EightBits(EightBits(ALL_ONES))))
  }

  /** Running the checksum over a string and its seal always ends in one and the same register. */
  lemma SealedResidue(bs: seq<u8>)
    ensures Fold(ByteStep, ALL_ONES, bs + Seal(bs)) == Residue()
  {
    var c, t := Fold(ByteStep, ALL_ONES, bs), Seal(bs);
    FoldAppend(ByteStep, ALL_ONES, bs, t);
    FoldFour(ByteStep, c, t);
    FourBytes(c, t[0], t[1], t[2], t[3]);
    WordOfBytes(Checksum(bs));
    XorCancels(c, ALL_ONES);
  }

  /** Two strings that differ only inside one stretch of four bytes. */
  predicate DifferWithin(x: seq<u8>, y: seq<u8>, i: nat) {
    && i + 4 <= |x| == |y|
    && x[..i] == y[..i]
    && x[i + 4..] == y[i + 4..]
  }

  lemma BurstChangesFold(x: seq<u8>, y: seq<u8>, i: nat, c: bv32)
    requires DifferWithin(x, y, i) && x != y
    ensures Fold(ByteStep, c, x) != Fold(ByteStep, c, y)
  {
    var pre, post, u, v := x[..i], x[i + 4..], x[i..i + 4], y[i..i + 4];
    assert x == pre + u + post && y == pre + v + post;
    RegisterInjective();
    FourByteBurst(Fold(ByteStep, c, pre), u, v);
    FoldDiffer(ByteStep, c, pre, u, v, post);
  }

  /** Two sealed strings never differ within four consecutive bytes only. */
  lemma SealedApart(a: seq<u8>, b: seq<u8>, i: nat)
    requires DifferWithin(a + Seal(a), b + Seal(b), i)
    ensures a + Seal(a) == b + Seal(b)
  {
    SealedResidue(a);
    SealedResidue(b);
    if a + Seal(a) != b + Seal(b) {
      BurstChangesFold(a + Seal(a), b + Seal(b), i, ALL_ONES);
    }
  }

  /** A change within four consecutive bytes changes the seal. */
  lemma BurstBreaksSeal(x: seq<u8>, y: seq<u8>, i: nat)
    requires DifferWithin(x, y, i) && x != y
    ensures !Vouches(Seal(x), y)
  {
    BurstChangesFold(x, y, i, ALL_ONES);
    WordOfBytes(Checksum(x));
    XorInjective(Fold(ByteStep, ALL_ONES, x), Fold(ByteStep, ALL_ONES, y), ALL_ONES);
  }

  method ComputeSeal(bs: seq<u8>) returns (t: seq<u8>)
    ensures t == Seal(bs)
  {
    var crc := Crc32c(bs);
    t := [LowByte(crc), LowByte(Down8(crc)), LowByte(Down8(Down8(crc))), LowByte(Down8(Down8(Down8(crc))))];
  }

  method CheckSeal(t: seq<u8>, bs: seq<u8>) returns (ok: bool)
    requires |t| == 4
    ensures ok == Vouches(t, bs)
  {
    var computed := Crc32c(bs);
    var stored := Word(t[0], t[1], t[2], t[3]);
    ok := computed == stored;
  }
}

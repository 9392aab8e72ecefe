/** When content-derived identities are sure to differ. */
module Identities {
  import opened Words
  import opened Domain
  import opened Folding
  import opened Comparison
  import opened Digest

  // ---------- Feeding zeros ----------

  lemma {:induction false} XorZero(x: nat, k: nat)
    requires x < Pow2(k)
    ensures XorBits(x, 0, k) == x
    decreases k
  {
    if k > 0 {
      XorZero(x / 2, k - 1);
    }
  }

  /** A zero byte only multiplies. */
  lemma ZeroStep(h: u64)
    ensures Digest.Step(h, 0) == Times(h)
  {
    ByteRange();
    XorZero(h % 256, Digest.BITS);
  }

  /** Multiply k times. */
  function Powered(h: u64, k: nat): u64 {
    if k == 0 then h else Times(Powered(h, k - 1))
  }

  function Zeros(k: nat): (bs: seq<u8>)
    ensures |bs| == k
  {
    if k == 0 then [] else Zeros(k - 1) + [0]
  }

  lemma {:induction false} ZerosMultiply(h: u64, k: nat)
    ensures Fold(Digest.Step, h, Zeros(k)) == Powered(h, k)
  {
    if k > 0 {
      ZerosMultiply(h, k - 1);
      assert Zeros(k)[..k - 1] == Zeros(k - 1);
      ZeroStep(Powered(h, k - 1));
    }
  }

  lemma {:induction false} PoweredInjective(g: u64, h: u64, k: nat)
    requires Powered(g, k) == Powered(h, k)
    ensures g == h
    decreases k
  {
    if k > 0 {
      TimesInjective(Powered(g, k - 1), Powered(h, k - 1));
      PoweredInjective(g, h, k - 1);
    }
  }

  lemma {:induction false} PoweredZero(k: nat)
    ensures Powered(0, k) == 0
  {
    if k > 0 {
      PoweredZero(k - 1);
    }
  }

  /** The word that eight multiplications take to 1. */
  const ROOT: u64 := 0x48e2_54e7_5f5e_b9e1

  lemma PoweredNext(h: u64, k: nat, g: u64)
    requires Powered(h, k) == g
    ensures Powered(h, k + 1) == Times(g)
  {
  }

  lemma RootMultiplies()
    ensures Powered(ROOT, ID_BYTES) == 1
  {
    assert Times(0x48e2_54e7_5f5e_b9e1) == 0x3750_2627_0df5_d953;
    assert Times(0x3750_2627_0df5_d953) == 0xf30a_275c_b8c0_4809;
    assert Times(0xf30a_275c_b8c0_4809) == 0xba88_eb8d_eeba_674b;
    assert Times(0xba88_eb8d_eeba_674b) == 0xb10f_8d2c_a6bd_8471;
    assert Times(0xb10f_8d2c_a6bd_8471) == 0x9af1_53df_5408_0c03;
    assert Times(0x9af1_53df_5408_0c03) == 0x501d_877b_c9ac_6919;
    assert Times(0x501d_877b_c9ac_6919) == 0xce96_5057_aff6_957b;
    assert Times(0xce96_5057_aff6_957b) == 1;
    PoweredNext(ROOT, 0, 0x48e2_54e7_5f5e_b9e1);
    PoweredNext(ROOT, 1, 0x3750_2627_0df5_d953);
    PoweredNext(ROOT, 2, 0xf30a_275c_b8c0_4809);
    PoweredNext(ROOT, 3, 0xba88_eb8d_eeba_674b);
    PoweredNext(ROOT, 4, 0xb10f_8d2c_a6bd_8471);
    PoweredNext(ROOT, 5, 0x9af1_53df_5408_0c03);
    PoweredNext(ROOT, 6, 0x501d_877b_c9ac_6919);
    PoweredNext(ROOT, 7, 0xce96_5057_aff6_957b);
  }

  // ---------- Small counts ----------

  lemma {:induction false} ZeroDigits(k: nat)
    ensures LittleEndian(0, k) == Zeros(k)
  {
    if k > 0 {
      ZeroDigits(k - 1);
      ZerosFirst(k - 1);
    }
  }

  lemma {:induction false} ZerosFirst(k: nat)
    ensures [0] + Zeros(k) == Zeros(k + 1)
  {
    if k > 0 {
      ZerosFirst(k - 1);
    }
  }

  /** What precedes the sample count in a comparison's content. */
  function Subject(victim: u64, neighbor: u64, domain: InterferenceDomain, baselineId: u64): seq<u8> {
    [0xA1] + LittleEndian(victim, ID_BYTES) + LittleEndian(neighbor, ID_BYTES) + [domain as int]
      + LittleEndian(baselineId, ID_BYTES)
  }

  lemma SmallCount(n: u8, k: nat)
    requires k > 0
    ensures LittleEndian(n, k) == [n] + Zeros(k - 1)
  {
    ZeroDigits(k - 1);
  }

  /** The digest of a content with a count below 256 is eight multiplications of one fed state. */
  lemma SmallCountDigest(subject: seq<u8>, n: u8)
    ensures Fnv64(subject + LittleEndian(n, ID_BYTES)) == Powered(Feed(Fnv64(subject), n), ID_BYTES)
  {
    var s := Fnv64(subject);
    SmallCount(n, ID_BYTES);
    FoldAppend(Digest.Step, OFFSET, subject, [n] + Zeros(ID_BYTES - 1));
    FoldAppend(Digest.Step, s, [n], Zeros(ID_BYTES - 1));
    FoldSingle(Digest.Step, s, n);
    ZerosMultiply(Digest.Step(s, n), ID_BYTES - 1);
    PoweredShift(Feed(s, n), ID_BYTES - 1);
  }

  lemma {:induction false} PoweredShift(h: u64, k: nat)
    ensures Powered(Times(h), k) == Powered(h, k + 1)
  {
    if k > 0 {
      PoweredShift(h, k - 1);
    }
  }

  lemma FeedKeepsHigh(s: u64, n: u8)
    ensures Feed(s, n) / 256 == s / 256
  {
  }

  /** No two counts below 256 take one state to the digests 0 and 1. */
  lemma NeverZeroAndOne(s: u64, n: u8, m: u8)
    requires Powered(Feed(s, n), ID_BYTES) == 0
    ensures Powered(Feed(s, m), ID_BYTES) != 1
  {
    PoweredZero(ID_BYTES);
    PoweredInjective(Feed(s, n), 0, ID_BYTES);
    FeedKeepsHigh(s, n);
    FeedKeepsHigh(s, m);
    RootMultiplies();
    if Powered(Feed(s, m), ID_BYTES) == 1 {
      PoweredInjective(Feed(s, m), ROOT, ID_BYTES);
    }
  }

  /** Contents that differ only in a final number below 256 have different ids. */
  lemma SmallNumbersSeparate(subject: seq<u8>, n: u8, m: u8)
    requires n != m
    ensures ContentId(Fnv64, subject + LittleEndian(n, ID_BYTES))
              != ContentId(Fnv64, subject + LittleEndian(m, ID_BYTES))
  {
    var s := Fnv64(subject);
    SmallCountDigest(subject, n);
    SmallCountDigest(subject, m);
    var d, e := Powered(Feed(s, n), ID_BYTES), Powered(Feed(s, m), ID_BYTES);
    if d == e {
      PoweredInjective(Feed(s, n), Feed(s, m), ID_BYTES);
      FeedByteInjective(s, n, m);
    }
    if d == 0 {
      NeverZeroAndOne(s, n, m);
    } else if e == 0 {
      NeverZeroAndOne(s, m, n);
    }
  }

  /** Comparisons of one pair against one baseline over different small numbers of samples have different ids. */
  lemma CountsSeparate(victim: u64, neighbor: u64, domain: InterferenceDomain, baselineId: u64, n: u8, m: u8)
    requires n != m
    ensures ContentId(Fnv64, ComparisonContent(victim, neighbor, domain, baselineId, n))
         != ContentId(Fnv64, ComparisonContent(victim, neighbor, domain, baselineId, m))
  {
    SmallNumbersSeparate(Subject(victim, neighbor, domain, baselineId), n, m);
  }

  // ---------- Episodes ----------

  /** What precedes the baseline in an episode's content. */
  function Affected(victim: u64, domain: InterferenceDomain): seq<u8> {
    [0xB2] + LittleEndian(victim, ID_BYTES) + [domain as int]
  }

  /** Episodes of one victim in one domain against different baselines of small ids have different ids. */
  lemma BaselinesSeparate(victim: u64, domain: InterferenceDomain, b: u8, c: u8)
    requires b != c
    ensures ContentId(Fnv64, EpisodeContent(victim, domain, b)) != ContentId(Fnv64, EpisodeContent(victim, domain, c))
  {
    SmallNumbersSeparate(Affected(victim, domain), b, c);
  }

  lemma ByteInMiddle(front: seq<u8>, x: u8, y: u8, back: seq<u8>)
    ensures ((front + [x]) + back)[|front|] == x
    ensures ((front + [x]) + back)[|front| := y] == (front + [y]) + back
  {
  }

  /** Different domains always have different digests; their ids clash only through the replacement of 0 by 1. */
  lemma DomainsSeparate(victim: u64, d: InterferenceDomain, e: InterferenceDomain, b: u64)
    requires d != e
    ensures var x, y := Fnv64(EpisodeContent(victim, d, b)), Fnv64(EpisodeContent(victim, e, b));
            && x != y
            && (ContentId(Fnv64, EpisodeContent(victim, d, b)) == ContentId(Fnv64, EpisodeContent(victim, e, b))
                <==> {x, y} == {0, 1})
  {
    var front := [0xB2] + LittleEndian(victim, ID_BYTES);
    ByteInMiddle(front, d as int, e as int, LittleEndian(b, ID_BYTES));
    StepInjective();
    OneByteChange(Digest.Step, OFFSET, EpisodeContent(victim, d, b), |front|, e as int);
    var x, y := Fnv64(EpisodeContent(victim, d, b)), Fnv64(EpisodeContent(victim, e, b));
    assert {x, y} == {0, 1} <==> (x == 0 && y == 1) || (x == 1 && y == 0);
  }
}

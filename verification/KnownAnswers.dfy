/** Answers that are known in advance: they fix the constants that every general law leaves open. */
module KnownAnswers {
  import opened Words
  import opened Octets
  import opened Folding
  import opened Crc
  import opened Sealing
  import opened Syndromes
  import Digest
  import Envelope
  import Frames
  import Headers

  // ---------- CRC-32C ----------

  lemma EightSteps(x: bv32, x1: bv32, x2: bv32, x3: bv32, x4: bv32, x5: bv32, x6: bv32, x7: bv32, x8: bv32)
    requires BitStep(x) == x1 && BitStep(x1) == x2 && BitStep(x2) == x3 && BitStep(x3) == x4
    requires BitStep(x4) == x5 && BitStep(x5) == x6 && BitStep(x6) == x7 && BitStep(x7) == x8
    ensures EightBits(x) == x8
  {
    NextSteps(x, 8, x1);
    NextSteps(x1, 7, x2);
    NextSteps(x2, 6, x3);
    NextSteps(x3, 5, x4);
    NextSteps(x4, 4, x5);
    NextSteps(x5, 3, x6);
    NextSteps(x6, 2, x7);
    NextSteps(x7, 1, x8);
  }

  lemma Nothing()
    ensures Checksum([]) == 0
  {
  }

  lemma ZeroByte()
    ensures EightBits(ALL_ONES) == 0xAD82_ACAE
  {
    EightSteps(0xFFFF_FFFF, 0xFD09_C487, 0xFC72_D93B, 0xFCCF_57E5, 0xFC91_908A,
               0x7E48_C845, 0xBDD2_5F5A, 0x5EE9_2FAD, 0xAD82_ACAE);
  }

  /** A leading zero byte always changes the checksum: the register does not start at zero. */
  lemma LeadingZero(bs: seq<u8>)
    ensures Checksum([0] + bs) != Checksum(bs)
  {
    var one: seq<u8> := [0];
    ZeroByte();
    OctetZero();
    XorNeutral(ALL_ONES);
    FoldSingle(ByteStep, ALL_ONES, 0);
    FoldAppend(ByteStep, ALL_ONES, one, bs);
    RegisterInjective();
    FoldInjective(ByteStep, ByteStep(ALL_ONES, 0), ALL_ONES, bs);
    XorInjective(Fold(ByteStep, ALL_ONES, one + bs), Fold(ByteStep, ALL_ONES, bs), ALL_ONES);
  }

  lemma OctetZero()
    ensures Octet(0) == 0
  {
    assert Digits(0, 8) == 0;
  }

  lemma OneZero()
    ensures Checksum([0]) == 0x527D_5351
  {
    ZeroByte();
    OctetZero();
    XorNeutral(ALL_ONES);
    FoldSingle(ByteStep, ALL_ONES, 0);
  }

  /** The digits 1 to 9 in ASCII. */
  const DIGITS: seq<u8> := [0x31, 0x32, 0x33, 0x34, 0x35, 0x36, 0x37, 0x38, 0x39]

  lemma KnownByte(c: bv32, b: u8, o: bv32, x: bv32, d: bv32)
    requires Octet(b) == o && Xor(c, o) == x && EightBits(x) == d
    ensures ByteStep(c, b) == d
  {
  }

  lemma ByteOne()
    ensures ByteStep(0xFFFF_FFFF, 0x31) == 0x6F0A_661C
  {
    assert Digits(0x31, 8) == 0x31;
    EightSteps(0xFFFF_FFCE, 0x7FFF_FFE7, 0xBD09_C48B, 0xDC72_D93D, 0xECCF_57E6,
               0x7667_ABF3, 0xB9C5_EE81, 0xDE14_CC38, 0x6F0A_661C);
    KnownByte(0xFFFF_FFFF, 0x31, 0x31, 0xFFFF_FFCE, 0x6F0A_661C);
  }

  lemma ByteTwo()
    ensures ByteStep(0x6F0A_661C, 0x32) == 0x8CAA_3B9F
  {
    assert Digits(0x32, 8) == 0x32;
    EightSteps(0x6F0A_662E, 0x3785_3317, 0x9934_A2F3, 0xCE6C_6A01, 0xE5C0_0E78,
               0x72E0_073C, 0x3970_039E, 0x1CB8_01CF, 0x8CAA_3B9F);
    KnownByte(0x6F0A_661C, 0x32, 0x32, 0x6F0A_662E, 0x8CAA_3B9F);
  }

  lemma ByteThree()
    ensures ByteStep(0x8CAA_3B9F, 0x33) == 0xEF84_D04D
  {
    assert Digits(0x33, 8) == 0x33;
    EightSteps(0x8CAA_3BAC, 0x4655_1DD6, 0x232A_8EEB, 0x9363_7C0D, 0xCB47_857E,
               0x65A3_C2BF, 0xB027_DA27, 0xDAE5_D66B, 0xEF84_D04D);
    KnownByte(0x8CAA_3B9F, 0x33, 0x33, 0x8CAA_3BAC, 0xEF84_D04D);
  }

  lemma ByteFour()
    ensures ByteStep(0xEF84_D04D, 0x34) == 0x09C5_0B11
  {
    assert Digits(0x34, 8) == 0x34;
    EightSteps(0xEF84_D079, 0xF534_5344, 0x7A9A_29A2, 0x3D4D_14D1, 0x9C50_B110,
               0x4E28_5888, 0x2714_2C44, 0x138A_1622, 0x09C5_0B11);
    KnownByte(0xEF84_D04D, 0x34, 0x34, 0xEF84_D079, 0x09C5_0B11);
  }

  lemma ByteFive()
    ensures ByteStep(0x09C5_0B11, 0x35) == 0xE72E_DCCA
  {
    assert Digits(0x35, 8) == 0x35;
    EightSteps(0x09C5_0B24, 0x04E2_8592, 0x0271_42C9, 0x83CE_9A1C, 0x41E7_4D0E,
               0x20F3_A687, 0x928F_E83B, 0xCBB1_CF65, 0xE72E_DCCA);
    KnownByte(0x09C5_0B11, 0x35, 0x35, 0x09C5_0B24, 0xE72E_DCCA);
  }

  lemma ByteSix()
    ensures ByteStep(0xE72E_DCCA, 0x36) == 0xBECA_8E79
  {
    assert Digits(0x36, 8) == 0x36;
    EightSteps(0xE72E_DCFC, 0x7397_6E7E, 0x39CB_B73F, 0x9E13_E0E7, 0xCDFF_CB0B,
               0xE409_DEFD, 0xF0F2_D406, 0x7879_6A03, 0xBECA_8E79);
    KnownByte(0xE72E_DCCA, 0x36, 0x36, 0xE72E_DCFC, 0xBECA_8E79);
  }

  lemma ByteSeven()
    ensures ByteStep(0xBECA_8E79, 0x37) == 0xEDBD_6815
  {
    assert Digits(0x37, 8) == 0x37;
    EightSteps(0xBECA_8E4E, 0x5F65_4727, 0xAD44_98EB, 0xD454_770D, 0xE8DC_00FE,
               0x746E_007F, 0xB8C1_3B47, 0xDE96_A6DB, 0xEDBD_6815);
    KnownByte(0xBECA_8E79, 0x37, 0x37, 0xBECA_8E4E, 0xEDBD_6815);
  }

  lemma ByteEight()
    ensures ByteStep(0xEDBD_6815, 0x38) == 0x9F78_7F65
  {
    assert Digits(0x38, 8) == 0x38;
    EightSteps(0xEDBD_682D, 0xF428_8F6E, 0x7A14_47B7, 0xBFFC_18A3, 0xDD08_3729,
               0xEC72_20EC, 0x7639_1076, 0x3B1C_883B, 0x9F78_7F65);
    KnownByte(0xEDBD_6815, 0x38, 0x38, 0xEDBD_682D, 0x9F78_7F65);
  }

  lemma ByteNine()
    ensures ByteStep(0x9F78_7F65, 0x39) == 0x1CF9_6D7C
  {
    assert Digits(0x39, 8) == 0x39;
    EightSteps(0x9F78_7F5C, 0x4FBC_3FAE, 0x27DE_1FD7, 0x9119_3493, 0xCA7A_A131,
               0xE7CB_6BE0, 0x73E5_B5F0, 0x39F2_DAF8, 0x1CF9_6D7C);
    KnownByte(0x9F78_7F65, 0x39, 0x39, 0x9F78_7F5C, 0x1CF9_6D7C);
  }

  lemma ThreeSteps<R>(step: (R, u8) -> R, bs: seq<u8>, c0: R, c1: R, c2: R, c3: R)
    requires |bs| == 3 && step(c0, bs[0]) == c1 && step(c1, bs[1]) == c2 && step(c2, bs[2]) == c3
    ensures Fold(step, c0, bs) == c3
  {
    FoldNext(step, c0, bs, 0);
    FoldNext(step, c0, bs, 1);
    FoldNext(step, c0, bs, 2);
    assert bs[..3] == bs;
  }

  lemma FirstBytes(bs: seq<u8>)
    requires |bs| == 3 && bs[0] == 0x31 && bs[1] == 0x32 && bs[2] == 0x33
    ensures Fold(ByteStep, 0xFFFF_FFFF, bs) == 0xEF84_D04D
  {
    ByteOne();
    ByteTwo();
    ByteThree();
    ThreeSteps(ByteStep, bs, 0xFFFF_FFFF, 0x6F0A_661C, 0x8CAA_3B9F, 0xEF84_D04D);
  }

  lemma MiddleBytes(bs: seq<u8>)
    requires |bs| == 3 && bs[0] == 0x34 && bs[1] == 0x35 && bs[2] == 0x36
    ensures Fold(ByteStep, 0xEF84_D04D, bs) == 0xBECA_8E79
  {
    ByteFour();
    ByteFive();
    ByteSix();
    ThreeSteps(ByteStep, bs, 0xEF84_D04D, 0x09C5_0B11, 0xE72E_DCCA, 0xBECA_8E79);
  }

  lemma LastBytes(bs: seq<u8>)
    requires |bs| == 3 && bs[0] == 0x37 && bs[1] == 0x38 && bs[2] == 0x39
    ensures Fold(ByteStep, 0xBECA_8E79, bs) == 0x1CF9_6D7C
  {
    ByteSeven();
    ByteEight();
    ByteNine();
    ThreeSteps(ByteStep, bs, 0xBECA_8E79, 0xEDBD_6815, 0x9F78_7F65, 0x1CF9_6D7C);
  }

  lemma Thirds<R>(step: (R, u8) -> R, bs: seq<u8>, c0: R, c3: R, c6: R, c9: R)
    requires |bs| == 9 && Fold(step, c0, bs[..3]) == c3 && Fold(step, c3, bs[3..6]) == c6
               && Fold(step, c6, bs[6..]) == c9
    ensures Fold(step, c0, bs) == c9
  {
    FoldAppend(step, c0, bs[..3], bs[3..6]);
    FoldAppend(step, c0, bs[..3] + bs[3..6], bs[6..]);
    assert (bs[..3] + bs[3..6]) + bs[6..] == bs;
  }

  lemma NineBytes(bs: seq<u8>)
    requires bs == DIGITS
    ensures Fold(ByteStep, 0xFFFF_FFFF, bs) == 0x1CF9_6D7C
  {
    FirstBytes(bs[..3]);
    MiddleBytes(bs[3..6]);
    LastBytes(bs[6..]);
    Thirds(ByteStep, bs, 0xFFFF_FFFF, 0xEF84_D04D, 0xBECA_8E79, 0x1CF9_6D7C);
  }

  /** The check value of CRC-32C. */
  lemma CheckValue()
    ensures Checksum(DIGITS) == 0xE306_9283
  {
    NineBytes(DIGITS);
  }

  // ---------- FNV-1a ----------

  lemma NextXor(x: nat, y: nat, k: nat, r: nat)
    requires k > 0 && Digest.XorBits(x / 2, y / 2, k - 1) == r
    ensures Digest.XorBits(x, y, k) == (x + y) % 2 + 2 * r
  {
  }

  lemma XorLetter(k: nat)
    requires k == 8
    ensures Digest.XorBits(0x25, 0x61, k) == 0x44
  {
    NextXor(0x00, 0x00, k - 7, 0x00);
    NextXor(0x00, 0x01, k - 6, 0x00);
    NextXor(0x01, 0x03, k - 5, 0x01);
    NextXor(0x02, 0x06, k - 4, 0x02);
    NextXor(0x04, 0x0C, k - 3, 0x04);
    NextXor(0x09, 0x18, k - 2, 0x08);
    NextXor(0x12, 0x30, k - 1, 0x11);
    NextXor(0x25, 0x61, k, 0x22);
  }

  lemma FeedParts(h: u64, b: u8, low: u8, x: u8)
    requires h % 256 == low && Digest.XorBits(low, b, Digest.BITS) == x
    ensures Digest.Feed(h, b) == h / 256 * 256 + x
  {
  }

  lemma FeedLetter(h: u64, b: u8)
    requires h == 0xcbf2_9ce4_8422_2325 && b == 0x61
    ensures Digest.Feed(h, b) == 0xcbf2_9ce4_8422_2344
  {
    XorLetter(Digest.BITS);
    FeedParts(h, b, 0x25, 0x44);
  }

  /** The digests of nothing and of the letter a. */
  lemma FnvValues(letter: seq<u8>)
    requires letter == [0x61]
    ensures Digest.Fnv64([]) == 0xcbf2_9ce4_8422_2325
    ensures Digest.Fnv64(letter) == 0xaf63_dc4c_8601_ec8c
  {
    FeedLetter(Digest.OFFSET, letter[0]);
    FoldSingle(Digest.Step, Digest.OFFSET, letter[0]);
    assert Digest.Times(0xcbf2_9ce4_8422_2344) == 0xaf63_dc4c_8601_ec8c;
  }

  /** Hexadecimal digit j of v, counted from the least significant. */
  function Nibble(v: nat, j: nat): (d: nat)
    ensures d < 16
    decreases j
  {
    if j == 0 then v % 16 else Nibble(v / 16, j - 1)
  }

  lemma Halves(v: nat)
    ensures v % 256 % 16 == v % 16 && v % 256 / 16 == v / 16 % 16 && v / 256 == v / 16 / 16
  {
  }

  lemma {:induction false} HexDigits(v: nat, k: nat, j: nat)
    requires j < 2 * k
    ensures Digest.HexBytes(v, k)[2 * k - 1 - j] == Digest.ALPHABET[Nibble(v, j)]
    decreases k
  {
    Halves(v);
    if j >= 2 {
      HexDigits(v / 256, k - 1, j - 2);
    } else if j == 1 {
      assert Nibble(v, 1) == Nibble(v / 16, 0);
    }
  }

  /** The rendering is sixteen lower-case hexadecimal digits, the most significant first. */
  lemma HexRendering(v: u64, j: nat)
    requires j < 16
    ensures |Digest.Hex(v)| == 16
    ensures Digest.Hex(v)[15 - j] == "0123456789abcdef"[Nibble(v, j)]
  {
    HexDigits(v, Digest.LENGTH, j);
  }

  // ---------- Headers ----------

  lemma EnvelopeMagic()
    ensures LittleEndian(Envelope.MAGIC, 4) == [0x42, 0x4F, 0x5F, 0x49] && LittleEndian(Envelope.VERSION, 2) == [1, 0]
  {
    assert LittleEndian(0x495F_4F42, 4) == [0x42] + LittleEndian(0x49_5F4F, 3);
    assert LittleEndian(0x49_5F4F, 3) == [0x4F] + LittleEndian(0x495F, 2);
    assert LittleEndian(0x495F, 2) == [0x5F] + LittleEndian(0x49, 1);
    assert LittleEndian(1, 2) == [1] + LittleEndian(0, 1);
  }

  lemma FrameMagic()
    ensures LittleEndian(Frames.MAGIC, 4) == [0x46, 0x42, 0x4F, 0x49] && LittleEndian(Frames.VERSION, 2) == [1, 0]
  {
    assert LittleEndian(0x494F_4246, 4) == [0x46] + LittleEndian(0x49_4F42, 3);
    assert LittleEndian(0x49_4F42, 3) == [0x42] + LittleEndian(0x494F, 2);
    assert LittleEndian(0x494F, 2) == [0x4F] + LittleEndian(0x49, 1);
    assert LittleEndian(1, 2) == [1] + LittleEndian(0, 1);
  }

  const ENVELOPE_MAGIC: seq<u8> := [0x42, 0x4F, 0x5F, 0x49]
  const FRAME_MAGIC: seq<u8> := [0x46, 0x42, 0x4F, 0x49]
  const VERSION_ONE: seq<u8> := [1, 0]
  const WORD: nat := 4
  const HALF: nat := 2

  /** An envelope is the bytes BO_I, version 1, the length of the payload, the payload, and the checksum of all that. */
  lemma EnvelopeBytes(p: seq<u8>)
    ensures var body := ENVELOPE_MAGIC + VERSION_ONE + LittleEndian(|p|, WORD) + p;
            Envelope.Wrap(p) == body + Seal(body)
  {
    EnvelopeMagic();
  }

  /** A frame is the bytes FBOI, version 1, kind and length, the checksum of that and the payload, and the payload. */
  lemma FrameBytes(f: Frames.Frame)
    ensures var fixed := FRAME_MAGIC + VERSION_ONE + LittleEndian(f.kind, HALF) + LittleEndian(|f.payload|, WORD);
            Frames.Frozen(f) == fixed + Seal(fixed + f.payload) + f.payload
  {
    FrameMagic();
  }

  /** An envelope can be read back exactly up to 256 MiB of payload, a frame up to 16 MiB. */
  lemma SizeLimits(p: seq<u8>, f: Frames.Frame)
    ensures Envelope.Unwrap(Envelope.Wrap(p)) == Envelope.Accepted(p) <==> |p| <= 268_435_456
    ensures Frames.Parse(Frames.Frozen(f)).result == Frames.Got(f) <==> |f.payload| <= 16_777_216
  {
    Envelope.AcceptsExactly(Envelope.Wrap(p), p);
    Frames.ReceivesExactly(Frames.Frozen(f), f);
  }

  // ---------- Reasons ----------

  lemma SameNumber(bs: seq<u8>, n: nat, k: nat)
    requires |bs| == k && n < Pow256(k)
    ensures FromLittleEndian(bs) == n <==> bs == LittleEndian(n, k)
  {
    LittleEndianInverse(n, k);
    FromLittleEndianInverse(bs);
  }

  lemma EnvelopeHead(e: seq<u8>)
    requires |e| >= 14
    ensures Headers.MagicOf(e) == Envelope.MAGIC <==> e[0..4] == ENVELOPE_MAGIC
    ensures Headers.VersionOf(e) == Envelope.VERSION <==> e[4..6] == VERSION_ONE
  {
    Headers.Powers();
    EnvelopeMagic();
    SameNumber(e[0..4], Envelope.MAGIC, WORD);
    SameNumber(e[4..6], Envelope.VERSION, HALF);
  }

  /** Which envelopes are refused for which reason: the first defect in this order counts. */
  lemma EnvelopeReasons(e: seq<u8>)
    ensures var r := Envelope.Unwrap(e);
            if |e| < 14 then r == Envelope.Rejected(Envelope.TooShort)
            else if e[0..4] != ENVELOPE_MAGIC then r == Envelope.Rejected(Envelope.BadMagic)
            else if e[4..6] != VERSION_ONE then
              r == Envelope.Rejected(Envelope.UnknownVersion(FromLittleEndian(e[4..6])))
            else
              var n := FromLittleEndian(e[6..10]);
              if n > 268_435_456 then r == Envelope.Rejected(Envelope.PayloadTooLong)
              else if |e| < 14 + n then r == Envelope.Rejected(Envelope.PayloadIncomplete)
              else if |e| > 14 + n then r == Envelope.Rejected(Envelope.TrailingGarbage)
              else if e[10 + n..] != Seal(e[..10 + n]) then r == Envelope.Rejected(Envelope.ChecksumMismatch)
              else r == Envelope.Accepted(e[10..10 + n])
  {
    if |e| >= 14 {
      EnvelopeHead(e);
      EnvelopeSeal(e, FromLittleEndian(e[6..10]));
    }
  }

  lemma EnvelopeSeal(e: seq<u8>, n: nat)
    ensures |e| == 14 + n ==> (Vouches(e[10 + n..], e[..10 + n]) <==> e[10 + n..] == Seal(e[..10 + n]))
  {
    if |e| == 14 + n {
      VouchesExactly(e[10 + n..], e[..10 + n]);
    }
  }

  lemma FrameHead(bs: seq<u8>)
    requires |bs| >= 16
    ensures Headers.MagicOf(bs) == Frames.MAGIC <==> bs[0..4] == FRAME_MAGIC
    ensures Headers.VersionOf(bs) == Frames.VERSION <==> bs[4..6] == VERSION_ONE
  {
    Headers.Powers();
    FrameMagic();
    SameNumber(bs[0..4], Frames.MAGIC, WORD);
    SameNumber(bs[4..6], Frames.VERSION, HALF);
  }

  lemma FrameSeal(bs: seq<u8>, n: nat)
    ensures |bs| >= 16 + n ==>
              (Vouches(bs[12..16], bs[..12] + bs[16..16 + n]) <==> bs[12..16] == Seal(bs[..12] + bs[16..16 + n]))
  {
    if |bs| >= 16 + n {
      VouchesExactly(bs[12..16], bs[..12] + bs[16..16 + n]);
    }
  }

  /** Which bytes on a stream are refused for which reason, and how many of them are taken. */
  lemma FrameReasons(bs: seq<u8>)
    ensures var p := Frames.Parse(bs);
            if |bs| < 16 then p == Frames.Parsed(Frames.Failed(Frames.EndOfStream), |bs|)
            else if bs[0..4] != FRAME_MAGIC then p == Frames.Parsed(Frames.Failed(Frames.BadMagic), 16)
            else if bs[4..6] != VERSION_ONE then p == Frames.Parsed(Frames.Failed(Frames.VersionMismatch), 16)
            else
              var n := FromLittleEndian(bs[8..12]);
              if n > 16_777_216 then p == Frames.Parsed(Frames.Failed(Frames.FrameTooLarge), 16)
              else if |bs| < 16 + n then p == Frames.Parsed(Frames.Failed(Frames.ConnectionClosed), |bs|)
              else if bs[12..16] != Seal(bs[..12] + bs[16..16 + n]) then
                p == Frames.Parsed(Frames.Failed(Frames.ChecksumMismatch), 16 + n)
              else
                && p.used == 16 + n && p.result.Got? && p.result.frame.payload == bs[16..16 + n]
                && p.result.frame.kind == FromLittleEndian(bs[6..8])
  {
    if |bs| >= 16 {
      FrameHead(bs);
      FrameSeal(bs, FromLittleEndian(bs[8..12]));
    }
  }
}

/** The persistence envelope: magic, version, length, payload, seal. */
module Envelope {
  import opened Words
  import opened Domain
  import opened Headers
  import opened Sealing

  const MAGIC: u32 := 0x495f_4f42
  const VERSION: nat := 1
  const MAX_PAYLOAD: nat := 256 * 1024 * 1024
  const HEADER_SIZE: nat := 10
  const SEAL_SIZE: nat := 4

  datatype Reason =
    | TooShort | BadMagic | UnknownVersion(version: nat) | PayloadTooLong | PayloadIncomplete
    | TrailingGarbage | ChecksumMismatch

  datatype Decoded = Accepted(payload: seq<u8>) | Rejected(reason: Reason)

  function Header(length: nat): (h: seq<u8>)
    ensures |h| == HEADER_SIZE
  {
    LittleEndian(MAGIC, WORD) + LittleEndian(VERSION, HALF) + LittleEndian(length, WORD)
  }

  function Body(payload: seq<u8>): seq<u8> {
    Header(|payload|) + payload
  }

  function Wrap(payload: seq<u8>): seq<u8> {
    Body(payload) + Seal(Body(payload))
  }

  function LengthOf(e: seq<u8>): nat
    requires |e| >= HEADER_SIZE
  {
    FromLittleEndian(e[6..10])
  }

  /** The checks after the version, in the source's order. */
  function UnwrapRest(e: seq<u8>, plen: nat): Decoded
    requires |e| >= HEADER_SIZE + SEAL_SIZE
  {
    var end := HEADER_SIZE + plen;
    if plen > MAX_PAYLOAD then Rejected(PayloadTooLong)
    else if |e| < end + SEAL_SIZE then Rejected(PayloadIncomplete)
    else if |e| != end + SEAL_SIZE then Rejected(TrailingGarbage)
    else if !Vouches(e[end..], e[..end]) then Rejected(ChecksumMismatch)
    else Accepted(e[HEADER_SIZE..end])
  }

  /** Everything the decoder checks before it trusts the payload, in the source's order. */
  function Unwrap(e: seq<u8>): Decoded {
    if |e| < HEADER_SIZE + SEAL_SIZE then Rejected(TooShort)
    else if MagicOf(e) != MAGIC then Rejected(BadMagic)
    else if VersionOf(e) != VERSION then Rejected(UnknownVersion(VersionOf(e)))
    else UnwrapRest(e, LengthOf(e))
  }

  method Encode(payload: seq<u8>) returns (r: Option<seq<u8>>)
    ensures r == if |payload| > MAX_PAYLOAD then None else Some(Wrap(payload))
  {
    if |payload| > MAX_PAYLOAD {
      return None;
    }
    var out := LittleEndian(MAGIC, WORD) + LittleEndian(VERSION, HALF) + LittleEndian(|payload|, WORD);
    out := out + payload;
    var crc := ComputeSeal(out);
    out := out + crc;
    return Some(out);
  }

  method Decode(encoded: seq<u8>) returns (r: Decoded)
    ensures r == Unwrap(encoded)
  {
    if |encoded| < HEADER_SIZE + SEAL_SIZE {
      return Rejected(TooShort);
    }
    var magic := MagicOf(encoded);
    if magic != MAGIC {
      return Rejected(BadMagic);
    }
    var version := VersionOf(encoded);
    if version != VERSION {
      return Rejected(UnknownVersion(version));
    }
    r := DecodeRest(encoded, LengthOf(encoded));
  }

  method DecodeRest(encoded: seq<u8>, plen: nat) returns (r: Decoded)
    requires |encoded| >= HEADER_SIZE + SEAL_SIZE
    ensures r == UnwrapRest(encoded, plen)
  {
    if plen > MAX_PAYLOAD {
      return Rejected(PayloadTooLong);
    }
    var end := HEADER_SIZE + plen;
    if |encoded| < end + SEAL_SIZE {
      return Rejected(PayloadIncomplete);
    }
    if |encoded| != end + SEAL_SIZE {
      return Rejected(TrailingGarbage);
    }
    var intact := CheckSeal(encoded[end..], encoded[..end]);
    if !intact {
      return Rejected(ChecksumMismatch);
    }
    return Accepted(encoded[HEADER_SIZE..end]);
  }

  // ---------- The decoder accepts exactly what the encoder produces ----------

  lemma HeaderFields(length: nat, rest: seq<u8>)
    requires length <= MAX_PAYLOAD
    ensures var e := Header(length) + rest;
            MagicOf(e) == MAGIC && VersionOf(e) == VERSION && LengthOf(e) == length
  {
    Powers();
    var e, m, v, l := Header(length) + rest, LittleEndian(MAGIC, WORD), LittleEndian(VERSION, HALF),
      LittleEndian(length, WORD);
    assert e[0..4] == m && e[4..6] == v && e[6..10] == l;
    LittleEndianInverse(MAGIC, WORD);
    LittleEndianInverse(VERSION, HALF);
    LittleEndianInverse(length, WORD);
  }

  lemma HeaderExact(e: seq<u8>)
    requires |e| >= HEADER_SIZE && MagicOf(e) == MAGIC && VersionOf(e) == VERSION
    ensures e[..HEADER_SIZE] == Header(LengthOf(e))
  {
    FromLittleEndianInverse(e[0..4]);
    FromLittleEndianInverse(e[4..6]);
    FromLittleEndianInverse(e[6..10]);
    assert e[..HEADER_SIZE] == e[0..4] + e[4..6] + e[6..10];
  }

  lemma Slices(h: seq<u8>, p: seq<u8>, t: seq<u8>)
    requires |h| == HEADER_SIZE && |t| == SEAL_SIZE
    ensures var e, n := (h + p) + t, HEADER_SIZE + |p|;
            e == h + (p + t) && e[n..] == t && e[..n] == h + p && e[HEADER_SIZE..n] == p && |e| == n + SEAL_SIZE
  {
  }

  lemma UnwrapWrap(p: seq<u8>)
    requires |p| <= MAX_PAYLOAD
    ensures Unwrap(Wrap(p)) == Accepted(p)
  {
    var h, t := Header(|p|), Seal(Body(p));
    Slices(h, p, t);
    HeaderFields(|p|, p + t);
    VouchesExactly(t, h + p);
  }

  lemma AcceptedBody(e: seq<u8>, n: nat)
    requires HEADER_SIZE <= n <= |e| && MagicOf(e) == MAGIC && VersionOf(e) == VERSION && LengthOf(e) == n - HEADER_SIZE
    ensures e[..n] == Body(e[HEADER_SIZE..n])
  {
    HeaderExact(e);
    assert e[..n] == e[..HEADER_SIZE] + e[HEADER_SIZE..n];
  }

  lemma Sealed(e: seq<u8>, n: nat, body: seq<u8>)
    requires n + SEAL_SIZE == |e| && e[..n] == body && Vouches(e[n..], e[..n])
    ensures e == body + Seal(body)
  {
    VouchesExactly(e[n..], e[..n]);
    assert e == e[..n] + e[n..];
  }

  lemma WrapUnwrap(e: seq<u8>)
    requires Unwrap(e).Accepted?
    ensures |Unwrap(e).payload| <= MAX_PAYLOAD && e == Wrap(Unwrap(e).payload)
  {
    var n := |e| - SEAL_SIZE;
    AcceptedBody(e, n);
    Sealed(e, n, Body(Unwrap(e).payload));
  }

  /** Decoding accepts an envelope exactly when encoding some payload produces it. */
  lemma AcceptsExactly(e: seq<u8>, p: seq<u8>)
    ensures Unwrap(e) == Accepted(p) <==> |p| <= MAX_PAYLOAD && e == Wrap(p)
  {
    if Unwrap(e) == Accepted(p) {
      WrapUnwrap(e);
    }
    if |p| <= MAX_PAYLOAD && e == Wrap(p) {
      UnwrapWrap(p);
    }
  }

  // ---------- Error detection ----------

  /** Any change within four consecutive bytes, wherever it is, is rejected. */
  lemma BurstRejected(p: seq<u8>, e: seq<u8>, i: nat)
    requires DifferWithin(Wrap(p), e, i) && e != Wrap(p)
    ensures Unwrap(e).Rejected?
  {
    if Unwrap(e).Accepted? {
      WrapUnwrap(e);
      SealedApart(Body(p), Body(Unwrap(e).payload), i);
    }
  }

  /** In particular, a change of any one byte is rejected. */
  lemma OneByteRejected(p: seq<u8>, k: nat, b: u8)
    requires k < |Wrap(p)| && Wrap(p)[k] != b
    ensures Unwrap(Wrap(p)[k := b]).Rejected?
  {
    var e := Wrap(p);
    var i := if k + 4 <= |e| then k else |e| - 4;
    assert e[k := b][..i] == e[..i] && e[k := b][i + 4..] == e[i + 4..];
    BurstRejected(p, e[k := b], i);
  }

  lemma WrapLength(p: seq<u8>)
    requires |p| <= MAX_PAYLOAD
    ensures |Wrap(p)| == HEADER_SIZE + |p| + SEAL_SIZE && LengthOf(Wrap(p)) == |p|
  {
    Slices(Header(|p|), p, Seal(Body(p)));
    HeaderFields(|p|, p + Seal(Body(p)));
  }

  lemma SameField(x: seq<u8>, y: seq<u8>)
    requires |x| >= HEADER_SIZE && x <= y
    ensures LengthOf(x) == LengthOf(y)
  {
    assert x[6..10] == y[6..10];
  }

  /** The length field fixes the size: no accepted envelope is a strict prefix of another. */
  lemma SameLength(p: seq<u8>, e: seq<u8>)
    requires |p| <= MAX_PAYLOAD
    ensures Unwrap(e).Accepted? && (e <= Wrap(p) || Wrap(p) <= e) ==> |e| == |Wrap(p)|
  {
    if Unwrap(e).Accepted? {
      WrapUnwrap(e);
      WrapLength(p);
      WrapLength(Unwrap(e).payload);
      if e <= Wrap(p) {
        SameField(e, Wrap(p));
      } else if Wrap(p) <= e {
        SameField(Wrap(p), e);
      }
    }
  }
}

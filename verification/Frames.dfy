/** Framed messages over a byte stream that may split every send and every receive. */
module Frames {
  import opened Words
  import opened Headers
  import opened Sealing
  import opened Syndromes
  import opened Delimiting

  type u16 = x: int | 0 <= x < 0x1_0000

  const MAGIC: u32 := 0x494F_4246
  const VERSION: nat := 1
  const MAX_FRAME: nat := 16 * 1024 * 1024
  const FIXED: nat := 12          // header bytes under the checksum
  const HEADER_SIZE: nat := 16

  datatype Frame = Frame(kind: u16, payload: seq<u8>)

  datatype Failure =
    | EndOfStream | ConnectionClosed | BadMagic | VersionMismatch | FrameTooLarge | ChecksumMismatch
    | ReceiveFailed

  datatype Received = Got(frame: Frame) | Failed(failure: Failure)

  /** What a receive made of the stream, and how many bytes it took from it. */
  datatype Parsed = Parsed(result: Received, used: nat)

  predicate Sendable(f: Frame) {
    |f.payload| <= MAX_FRAME
  }

  // ---------- Layout ----------

  function Fixed(kind: u16, length: nat): (h: seq<u8>)
    ensures |h| == FIXED
  {
    LittleEndian(MAGIC, WORD) + LittleEndian(VERSION, HALF) + LittleEndian(kind, HALF) + LittleEndian(length, WORD)
  }

  /** The bytes under the checksum. */
  function Window(f: Frame): seq<u8> {
    Fixed(f.kind, |f.payload|) + f.payload
  }

  function Head(f: Frame): (h: seq<u8>)
    ensures |h| == HEADER_SIZE
  {
    Fixed(f.kind, |f.payload|) + Seal(Window(f))
  }

  function Frozen(f: Frame): seq<u8> {
    Head(f) + f.payload
  }

  function KindOf(h: seq<u8>): nat
    requires |h| >= HEADER_SIZE
  {
    FromLittleEndian(h[6..8])
  }

  function LengthOf(h: seq<u8>): nat
    requires |h| >= HEADER_SIZE
  {
    FromLittleEndian(h[8..12])
  }

  function KindOfHeader(h: seq<u8>): u16
    requires |h| >= HEADER_SIZE
  {
    Powers();
    KindOf(h)
  }

  /** The receiver's checks, in the source's order. */
  function Parse(bs: seq<u8>): (r: Parsed)
    ensures r.used <= |bs|
  {
    if |bs| < HEADER_SIZE then Parsed(Failed(EndOfStream), |bs|)
    else if MagicOf(bs) != MAGIC then Parsed(Failed(BadMagic), HEADER_SIZE)
    else if VersionOf(bs) != VERSION then Parsed(Failed(VersionMismatch), HEADER_SIZE)
    else if LengthOf(bs) > MAX_FRAME then Parsed(Failed(FrameTooLarge), HEADER_SIZE)
    else
      var end := HEADER_SIZE + LengthOf(bs);
      if |bs| < end then Parsed(Failed(ConnectionClosed), |bs|)
      else if !Vouches(bs[FIXED..HEADER_SIZE], bs[..FIXED] + bs[HEADER_SIZE..end]) then
        Parsed(Failed(ChecksumMismatch), end)
      else
        Parsed(Got(Frame(KindOfHeader(bs), bs[HEADER_SIZE..end])), end)
  }

  // ---------- A frame is received exactly when it was sent ----------

  lemma FixedFields(kind: u16, length: nat, rest: seq<u8>)
    requires length <= MAX_FRAME && |rest| >= 4
    ensures var h := Fixed(kind, length) + rest;
            MagicOf(h) == MAGIC && VersionOf(h) == VERSION && KindOf(h) == kind && LengthOf(h) == length
  {
    Powers();
    var h := Fixed(kind, length) + rest;
    assert h[0..4] == LittleEndian(MAGIC, WORD) && h[4..6] == LittleEndian(VERSION, HALF);
    assert h[6..8] == LittleEndian(kind, HALF) && h[8..12] == LittleEndian(length, WORD);
    LittleEndianInverse(MAGIC, WORD);
    LittleEndianInverse(VERSION, HALF);
    LittleEndianInverse(kind, HALF);
    LittleEndianInverse(length, WORD);
  }

  lemma FixedExact(h: seq<u8>)
    requires |h| >= HEADER_SIZE && MagicOf(h) == MAGIC && VersionOf(h) == VERSION
    ensures h[..FIXED] == Fixed(KindOfHeader(h), LengthOf(h))
  {
    FromLittleEndianInverse(h[0..4]);
    FromLittleEndianInverse(h[4..6]);
    FromLittleEndianInverse(h[6..8]);
    FromLittleEndianInverse(h[8..12]);
    assert h[..FIXED] == h[0..4] + h[4..6] + h[6..8] + h[8..12];
  }

  lemma Slices(a: seq<u8>, t: seq<u8>, p: seq<u8>, rest: seq<u8>)
    requires |a| == FIXED && |t| == 4
    ensures var bs := ((a + t) + p) + rest;
            && bs == a + (t + p + rest)
            && bs[..FIXED] == a && bs[FIXED..HEADER_SIZE] == t
            && bs[HEADER_SIZE..HEADER_SIZE + |p|] == p
  {
  }

  lemma ParseFrozen(f: Frame, rest: seq<u8>)
    requires Sendable(f)
    ensures Parse(Frozen(f) + rest) == Parsed(Got(f), |Frozen(f)|)
  {
    var a, t, p := Fixed(f.kind, |f.payload|), Seal(Window(f)), f.payload;
    Slices(a, t, p, rest);
    FixedFields(f.kind, |p|, t + p + rest);
    VouchesExactly(t, a + p);
  }

  lemma Rejoined(bs: seq<u8>, end: nat)
    requires HEADER_SIZE <= end <= |bs|
    ensures bs[..end] == (bs[..FIXED] + bs[FIXED..HEADER_SIZE]) + bs[HEADER_SIZE..end]
  {
  }

  lemma FrozenFrom(f: Frame, a: seq<u8>, t: seq<u8>)
    requires |t| == 4 && a == Fixed(f.kind, |f.payload|) && Vouches(t, a + f.payload)
    ensures Frozen(f) == (a + t) + f.payload
  {
    VouchesExactly(t, a + f.payload);
  }

  lemma Refrozen(bs: seq<u8>, end: nat, f: Frame)
    requires HEADER_SIZE <= end <= |bs| && bs[HEADER_SIZE..end] == f.payload
    requires bs[..FIXED] == Fixed(f.kind, |f.payload|)
    requires Vouches(bs[FIXED..HEADER_SIZE], bs[..FIXED] + bs[HEADER_SIZE..end])
    ensures bs[..end] == Frozen(f)
  {
    Rejoined(bs, end);
    FrozenFrom(f, bs[..FIXED], bs[FIXED..HEADER_SIZE]);
  }

  /** What the receiver has checked when it has got a frame. */
  predicate Checked(bs: seq<u8>, end: nat, f: Frame) {
    && HEADER_SIZE <= end <= |bs| && end == HEADER_SIZE + LengthOf(bs) && LengthOf(bs) <= MAX_FRAME
    && MagicOf(bs) == MAGIC && VersionOf(bs) == VERSION
    && Vouches(bs[FIXED..HEADER_SIZE], bs[..FIXED] + bs[HEADER_SIZE..end])
    && f == Frame(KindOfHeader(bs), bs[HEADER_SIZE..end])
  }

  lemma GotIsChecked(bs: seq<u8>)
    requires Parse(bs).result.Got?
    ensures Checked(bs, Parse(bs).used, Parse(bs).result.frame)
  {
  }

  lemma CheckedIsFrozen(bs: seq<u8>, end: nat, f: Frame)
    requires Checked(bs, end, f)
    ensures Sendable(f) && bs[..end] == Frozen(f)
  {
    FixedExact(bs);
    Refrozen(bs, end, f);
  }

  lemma FrozenParse(bs: seq<u8>)
    requires Parse(bs).result.Got?
    ensures Sendable(Parse(bs).result.frame) && bs[..Parse(bs).used] == Frozen(Parse(bs).result.frame)
  {
    GotIsChecked(bs);
    CheckedIsFrozen(bs, Parse(bs).used, Parse(bs).result.frame);
  }

  /** A frame comes off the stream exactly when its bytes stand at the front of it. */
  lemma ReceivesExactly(bs: seq<u8>, f: Frame)
    ensures Parse(bs).result == Got(f) <==> Sendable(f) && Frozen(f) <= bs
    ensures Parse(bs).result == Got(f) ==> Parse(bs).used == |Frozen(f)|
  {
    if Sendable(f) && Frozen(f) <= bs {
      FrontOf(bs, Frozen(f));
      ParseFrozen(f, bs[|Frozen(f)|..]);
    } else if Parse(bs).result == Got(f) {
      FrozenParse(bs);
      PrefixOf(bs, Parse(bs).used, Frozen(f));
    }
  }

  lemma FrontOf(bs: seq<u8>, front: seq<u8>)
    requires front <= bs
    ensures bs == front + bs[|front|..]
  {
  }

  lemma PrefixOf(bs: seq<u8>, n: nat, front: seq<u8>)
    requires n <= |bs| && bs[..n] == front
    ensures front <= bs && n == |front|
  {
  }

  // ---------- Error detection ----------

  /** A frame whose fixed header bytes or payload were replaced, under the checksum it was sent with. */
  function Altered(f: Frame, fixed: seq<u8>, payload: seq<u8>): seq<u8> {
    (fixed + Seal(Window(f))) + payload
  }

  lemma FixedLength(f: Frame, fixed: seq<u8>, rest: seq<u8>)
    requires Sendable(f) && |fixed| == FIXED && |rest| >= 4
    requires fixed[8..12] == Fixed(f.kind, |f.payload|)[8..12]
    ensures LengthOf(fixed + rest) == |f.payload|
  {
    var h := Fixed(f.kind, |f.payload|) + rest;
    FixedFields(f.kind, |f.payload|, rest);
    assert (fixed + rest)[8..12] == fixed[8..12] && h[8..12] == Fixed(f.kind, |f.payload|)[8..12];
  }

  /**
    A change within four consecutive checksummed bytes that leaves the length field alone is
    rejected: magic, version, kind and payload are all covered.
   */
  lemma BurstRejected(f: Frame, fixed: seq<u8>, payload: seq<u8>, i: nat, rest: seq<u8>)
    requires Sendable(f) && |fixed| == FIXED && |payload| == |f.payload|
    requires fixed[8..12] == Fixed(f.kind, |f.payload|)[8..12]
    requires DifferWithin(Window(f), fixed + payload, i) && fixed + payload != Window(f)
    ensures Parse(Altered(f, fixed, payload) + rest).result.Failed?
    ensures fixed == Fixed(f.kind, |f.payload|) ==>
              Parse(Altered(f, fixed, payload) + rest).result == Failed(ChecksumMismatch)
  {
    var t := Seal(Window(f));
    Slices(fixed, t, payload, rest);
    FixedLength(f, fixed, t + payload + rest);
    FixedFields(f.kind, |payload|, t + payload + rest);
    BurstBreaksSeal(Window(f), fixed + payload, i);
  }

  lemma LeadingExactly(h: seq<u8>, kind: u16, length: nat)
    requires |h| >= HEADER_SIZE
    ensures MagicOf(h) == MAGIC && VersionOf(h) == VERSION <==> h[..LEADING] == Fixed(kind, length)[..LEADING]
  {
    Powers();
    var a := Fixed(kind, length);
    assert a[0..4] == LittleEndian(MAGIC, WORD) && a[4..6] == LittleEndian(VERSION, HALF);
    LittleEndianInverse(MAGIC, WORD);
    LittleEndianInverse(VERSION, HALF);
    FromLittleEndianInverse(h[0..4]);
    FromLittleEndianInverse(h[4..6]);
    assert h[..LEADING] == h[0..4] + h[4..6] && a[..LEADING] == a[0..4] + a[4..6];
    assert h[0..4] == h[..LEADING][0..4] && h[4..6] == h[..LEADING][4..6];
    assert a[0..4] == a[..LEADING][0..4] && a[4..6] == a[..LEADING][4..6];
  }

  lemma AlteredParse(f: Frame, fixed: seq<u8>, t: seq<u8>, payload: seq<u8>, rest: seq<u8>)
    requires Sendable(f) && |fixed| == FIXED && |t| == 4 && |payload| == |f.payload|
    requires fixed[8..12] == Fixed(f.kind, |f.payload|)[8..12]
    ensures var bs := ((fixed + t) + payload) + rest;
            Parse(bs).result.Got? <==> MagicOf(bs) == MAGIC && VersionOf(bs) == VERSION && Vouches(t, fixed + payload)
  {
    Slices(fixed, t, payload, rest);
    FixedLength(f, fixed, t + payload + rest);
  }

  /**
    Whatever happens to a frame apart from its length field, it is accepted exactly when magic and
    version are intact and the syndrome of the changes to the checksummed bytes is the change of the
    stored checksum: the pattern of the changes decides, not the frame.
   */
  lemma AlteredExactly(f: Frame, fixed: seq<u8>, t: seq<u8>, payload: seq<u8>, rest: seq<u8>)
    requires Sendable(f) && |fixed| == FIXED && |t| == 4 && |payload| == |f.payload|
    requires fixed[8..12] == Fixed(f.kind, |f.payload|)[8..12]
    ensures Parse(((fixed + t) + payload) + rest).result.Got?
       <==> && fixed[..LEADING] == Fixed(f.kind, |f.payload|)[..LEADING]
            && Syndrome(Pattern(Window(f), fixed + payload)) == SealChange(Seal(Window(f)), t)
  {
    var bs := ((fixed + t) + payload) + rest;
    AlteredParse(f, fixed, t, payload, rest);
    assert bs[..LEADING] == fixed[..LEADING];
    LeadingExactly(bs, f.kind, |f.payload|);
    PassesExactly(Window(f), fixed + payload, t);
  }

  /**
    Every frame with a one-byte payload has a change of four consecutive bytes, straddling the
    checksum, that is accepted.
   */
  lemma StraddlingBurst(f: Frame, rest: seq<u8>) returns (bad: seq<u8>)
    requires |f.payload| == 1
    ensures DifferWithin(Frozen(f), bad, HEADER_SIZE - 3) && bad != Frozen(f) && Parse(bad + rest).result.Got?
  {
    var a, b := Fixed(f.kind, 1), f.payload[0];
    assert f.payload == [b];
    var c, t := Unnoticed(a, b);
    bad := (a + t) + [c];
    Straddles(a, Seal(Window(f)), t, b, c);
    AlteredParse(f, a, t, [c], rest);
    Slices(a, t, [c], rest);
    FixedFields(f.kind, 1, t + [c] + rest);
  }

  lemma Straddles(a: seq<u8>, s: seq<u8>, t: seq<u8>, b: u8, c: u8)
    requires |a| == FIXED && |s| == |t| == 4 && s[0] == t[0] && b != c
    ensures DifferWithin((a + s) + [b], (a + t) + [c], HEADER_SIZE - 3) && (a + t) + [c] != (a + s) + [b]
  {
    var x, y := (a + s) + [b], (a + t) + [c];
    assert x[..HEADER_SIZE - 3] == a + [s[0]] && y[..HEADER_SIZE - 3] == a + [t[0]];
    assert x[HEADER_SIZE] == b && y[HEADER_SIZE] == c;
  }

  /** So is any change of the stored checksum. */
  lemma SealChangeRejected(f: Frame, t: seq<u8>, rest: seq<u8>)
    requires Sendable(f) && |t| == 4 && t != Seal(Window(f))
    ensures Parse(((Fixed(f.kind, |f.payload|) + t) + f.payload) + rest).result == Failed(ChecksumMismatch)
  {
    var a := Fixed(f.kind, |f.payload|);
    Slices(a, t, f.payload, rest);
    FixedFields(f.kind, |f.payload|, t + f.payload + rest);
    VouchesExactly(t, a + f.payload);
  }

  lemma OneByteWindow(x: seq<u8>, k: nat, b: u8) returns (i: nat)
    requires k < |x| && |x| >= 4
    ensures DifferWithin(x, x[k := b], i)
  {
    i := if k + 4 <= |x| then k else |x| - 4;
    assert x[k := b][..i] == x[..i] && x[k := b][i + 4..] == x[i + 4..];
  }

  /** Changing any one byte of a frame outside its length field is rejected, whatever follows on the stream. */
  lemma OneByteRejected(f: Frame, k: nat, b: u8, rest: seq<u8>)
    requires Sendable(f) && k < |Frozen(f)| && !(8 <= k < 12) && Frozen(f)[k] != b
    ensures Parse(Frozen(f)[k := b] + rest).result.Failed?
  {
    if k < FIXED {
      FixedByteRejected(f, k, b, rest);
    } else if k < HEADER_SIZE {
      SealByteRejected(f, k, b, rest);
    } else {
      PayloadByteRejected(f, k, b, rest);
    }
  }

  lemma SealByteRejected(f: Frame, k: nat, b: u8, rest: seq<u8>)
    requires Sendable(f) && FIXED <= k < HEADER_SIZE && Frozen(f)[k] != b
    ensures Parse(Frozen(f)[k := b] + rest).result.Failed?
  {
    var a, t, p := Fixed(f.kind, |f.payload|), Seal(Window(f)), f.payload;
    ChangeInMiddle(a, t, p, k - FIXED, b);
    SealChangeRejected(f, t[k - FIXED := b], rest);
  }

  lemma ChangeInMiddle(a: seq<u8>, t: seq<u8>, p: seq<u8>, k: nat, b: u8)
    requires k < |t|
    ensures ((a + t) + p)[|a| + k := b] == (a + t[k := b]) + p && ((a + t) + p)[|a| + k] == t[k]
    ensures t[k] != b ==> t[k := b] != t
  {
    OtherAt(t, k, b);
  }

  lemma ChangeInFront(a: seq<u8>, t: seq<u8>, p: seq<u8>, k: nat, b: u8)
    requires k < |a|
    ensures ((a + t) + p)[k := b] == (a[k := b] + t) + p && (a + p)[k := b] == a[k := b] + p
    ensures ((a + t) + p)[k] == a[k] && a[k := b][k] == b
  {
  }

  lemma FixedByteRejected(f: Frame, k: nat, b: u8, rest: seq<u8>)
    requires Sendable(f) && k < FIXED && !(8 <= k < 12) && Frozen(f)[k] != b
    ensures Parse(Frozen(f)[k := b] + rest).result.Failed?
  {
    var a, t, p := Fixed(f.kind, |f.payload|), Seal(Window(f)), f.payload;
    ChangeInFront(a, t, p, k, b);
    var i := OneByteWindow(Window(f), k, b);
    OtherAt(Window(f), k, b);
    assert a[k := b][8..12] == a[8..12];
    BurstRejected(f, a[k := b], p, i, rest);
  }

  lemma OtherAt(x: seq<u8>, k: nat, b: u8)
    requires k < |x|
    ensures x[k] != b ==> x[k := b] != x
  {
    assert x[k := b][k] == b;
  }

  lemma ChangeBehind(a: seq<u8>, t: seq<u8>, p: seq<u8>, k: nat, b: u8)
    requires k < |p|
    ensures ((a + t) + p)[|a| + |t| + k := b] == (a + t) + p[k := b]
    ensures (a + p)[|a| + k := b] == a + p[k := b] && (a + p)[|a| + k] == p[k]
  {
  }

  lemma PayloadBurst(f: Frame, k: nat, b: u8, rest: seq<u8>)
    requires Sendable(f) && k < |f.payload| && f.payload[k] != b
    ensures Parse(Altered(f, Fixed(f.kind, |f.payload|), f.payload[k := b]) + rest).result.Failed?
  {
    var a := Fixed(f.kind, |f.payload|);
    ChangeBehind(a, [], f.payload, k, b);
    var i := OneByteWindow(Window(f), FIXED + k, b);
    OtherAt(Window(f), FIXED + k, b);
    BurstRejected(f, a, f.payload[k := b], i, rest);
  }

  lemma PayloadAltered(f: Frame, k: nat, b: u8)
    requires k < |f.payload|
    ensures Frozen(f)[HEADER_SIZE + k := b] == Altered(f, Fixed(f.kind, |f.payload|), f.payload[k := b])
    ensures Frozen(f)[HEADER_SIZE + k] == f.payload[k]
  {
    ChangeBehind(Fixed(f.kind, |f.payload|), Seal(Window(f)), f.payload, k, b);
  }

  lemma PayloadByteRejected(f: Frame, k: nat, b: u8, rest: seq<u8>)
    requires Sendable(f) && HEADER_SIZE <= k < |Frozen(f)| && Frozen(f)[k] != b
    ensures Parse(Frozen(f)[k := b] + rest).result.Failed?
  {
    PayloadAltered(f, k - HEADER_SIZE, b);
    PayloadBurst(f, k - HEADER_SIZE, b, rest);
  }

  // ---------- Whole streams ----------

  function StreamOf(fs: seq<Frame>): seq<u8> {
    Concat(Frozen, fs)
  }

  /** At most k receives, stopping at the first failure. */
  function Receive(bs: seq<u8>, k: nat): Drained<Frame> {
    Drain(TakeFrame, bs, k)
  }

  function TakeFrame(bs: seq<u8>): (r: Taken<Frame>)
    ensures r.Took? ==> r.used <= |bs|
  {
    match Parse(bs).result
    case Got(f) => Took(f, Parse(bs).used)
    case Failed(_) => Stuck
  }

  lemma FramesDelimit()
    ensures TakesPut(Frozen, TakeFrame, Sendable) && PutTakes(Frozen, TakeFrame, Sendable)
  {
    forall f, rest | Sendable(f) ensures TakeFrame(Frozen(f) + rest) == Took(f, |Frozen(f)|) {
      ParseFrozen(f, rest);
    }
    forall bs | TakeFrame(bs).Took?
      ensures Sendable(TakeFrame(bs).item) && TakeFrame(bs).used <= |bs|
                && bs[..TakeFrame(bs).used] == Frozen(TakeFrame(bs).item)
    {
      FrozenParse(bs);
    }
  }

  /** Receiving |fs| frames yields fs exactly when the stream starts with the bytes sent for fs. */
  lemma StreamExact(bs: seq<u8>, fs: seq<Frame>, rest: seq<u8>)
    ensures Receive(bs, |fs|) == Drained(fs, rest) <==> All(Sendable, fs) && bs == StreamOf(fs) + rest
  {
    FramesDelimit();
    DrainExact(Frozen, TakeFrame, Sendable, bs, fs, rest);
  }

  // ---------- The socket loops ----------

  /** One direction of a connection: the bytes that were sent and not yet received. */
  class Stream {
    const healthy: bool
    var pending: seq<u8>

    constructor (healthy: bool)
      ensures this.healthy == healthy && pending == []
    {
      this.healthy, pending := healthy, [];
    }

    /** Takes any positive number of bytes, or fails; on a healthy connection it does not fail. */
    method Send(data: seq<u8>) returns (r: int)
      requires data != []
      modifies this
      ensures r <= |data| && (healthy ==> r > 0)
      ensures pending == if r > 0 then old(pending) + data[..r] else old(pending)
    {
      r := *;
      if r > |data| || (healthy && r <= 0) {
        r := |data|;
      }
      if r > 0 {
        pending := pending + data[..r];
      }
    }

    /** Yields any positive number of the bytes waiting; 0 once there are none left; or fails. */
    method Recv(n: nat) returns (r: int, chunk: seq<u8>)
      requires n > 0
      modifies this
      ensures if r > 0 then r <= n && |chunk| == r && old(pending) == chunk + pending
              else chunk == [] && pending == old(pending)
      ensures r == 0 ==> old(pending) == []
      ensures healthy ==> r >= 0
    {
      var most := if n <= |pending| then n else |pending|;
      r := *;
      if r > most || (healthy && r <= 0) {
        r := most;
      }
      if r == 0 && pending != [] {
        r := -1;
      }
      chunk := [];
      if r > 0 {
        chunk, pending := pending[..r], pending[r..];
      }
    }

    method WriteAll(data: seq<u8>) returns (ok: bool)
      modifies this
      ensures ok ==> pending == old(pending) + data
      ensures !ok ==> exists k :: 0 <= k < |data| && pending == old(pending) + data[..k]
      ensures healthy ==> ok
    {
      var off := 0;
      while off < |data|
        invariant 0 <= off <= |data|
        invariant pending == old(pending) + data[..off]
        decreases |data| - off
      {
        var r := Send(data[off..]);
        if r <= 0 {
          return false;
        }
        assert data[..off + r] == data[..off] + data[off..][..r];
        off := off + r;
      }
      assert data[..off] == data;
      ok := true;
    }

    /** None on success; otherwise what `err` says. */
    method ReadExact(n: nat) returns (data: seq<u8>, error: Problem)
      modifies this
      ensures error.NoProblem? ==> |data| == n && old(pending) == data + pending
      ensures error.Closed? ==> |old(pending)| < n && pending == []
      ensures healthy ==> !error.Broken?
    {
      data := [];
      while |data| < n
        invariant |data| <= n
        invariant old(pending) == data + pending
        decreases n - |data|
      {
        var r, chunk := Recv(n - |data|);
        if r == 0 {
          return data, Closed;
        }
        if r < 0 {
          return data, Broken;
        }
        data := data + chunk;
      }
      error := NoProblem;
    }

    method SendFrame(f: Frame) returns (ok: bool)
      modifies this
      ensures ok ==> Sendable(f) && pending == old(pending) + Frozen(f)
      ensures !ok && Sendable(f) ==> exists k :: 0 <= k < |Frozen(f)| && pending == old(pending) + Frozen(f)[..k]
      ensures !Sendable(f) ==> !ok && pending == old(pending)
      ensures healthy ==> (ok <==> Sendable(f))
    {
      if |f.payload| > MAX_FRAME {
        return false;
      }
      var frame := Fixed(f.kind, |f.payload|);
      var window := frame + f.payload;
      var crc := ComputeSeal(window);
      frame := frame + crc;
      frame := frame + f.payload;
      assert frame == Frozen(f);
      ok := WriteAll(frame);
    }

    /** However the bytes arrive, the outcome is that of parsing them at once. */
    method RecvFrame() returns (r: Received)
      modifies this
      ensures r == Failed(ReceiveFailed) ||
              (r == Parse(old(pending)).result && pending == old(pending)[Parse(old(pending)).used..])
      ensures healthy ==> r != Failed(ReceiveFailed)
    {
      ghost var bs := pending;
      var header, e := ReadExact(HEADER_SIZE);
      if e.Closed? {
        return Failed(EndOfStream);
      }
      if e.Broken? {
        return Failed(ReceiveFailed);
      }
      SameHeader(bs, header, pending);
      if MagicOf(header) != MAGIC {
        return Failed(BadMagic);
      }
      if VersionOf(header) != VERSION {
        return Failed(VersionMismatch);
      }
      var plen := LengthOf(header);
      if plen > MAX_FRAME {
        return Failed(FrameTooLarge);
      }
      var payload, e2 := ReadExact(plen);
      if e2.Closed? {
        return Failed(ConnectionClosed);
      }
      if e2.Broken? {
        return Failed(ReceiveFailed);
      }
      WholeFrame(bs, header, payload, pending);
      var intact := CheckSeal(header[FIXED..], header[..FIXED] + payload);
      if !intact {
        return Failed(ChecksumMismatch);
      }
      r := Got(Frame(KindOfHeader(header), payload));
    }
  }

  datatype Problem = NoProblem | Closed | Broken

  lemma SameHeader(bs: seq<u8>, header: seq<u8>, rest: seq<u8>)
    requires |header| == HEADER_SIZE && bs == header + rest
    ensures MagicOf(header) == MagicOf(bs) && VersionOf(header) == VersionOf(bs)
    ensures KindOf(header) == KindOf(bs) && LengthOf(header) == LengthOf(bs)
    ensures bs[HEADER_SIZE..] == rest
  {
    assert header[0..4] == bs[0..4] && header[4..6] == bs[4..6];
    assert header[6..8] == bs[6..8] && header[8..12] == bs[8..12];
  }

  lemma WholeFrame(bs: seq<u8>, header: seq<u8>, payload: seq<u8>, rest: seq<u8>)
    requires |header| == HEADER_SIZE && bs == header + (payload + rest)
    requires MagicOf(header) == MAGIC && VersionOf(header) == VERSION && |payload| == LengthOf(header) <= MAX_FRAME
    ensures var p := Parse(bs);
            && bs[p.used..] == rest
            && p.result == if Vouches(header[FIXED..], header[..FIXED] + payload)
                           then Got(Frame(KindOfHeader(header), payload)) else Failed(ChecksumMismatch)
  {
    SameHeader(bs, header, payload + rest);
    var end := HEADER_SIZE + |payload|;
    assert bs[..FIXED] == header[..FIXED] && bs[FIXED..HEADER_SIZE] == header[FIXED..];
    assert bs[HEADER_SIZE..end] == payload && bs[end..] == rest;
  }

  method SendAll(s: Stream, fs: seq<Frame>)
    requires s.healthy && All(Sendable, fs)
    modifies s
    ensures s.pending == old(s.pending) + StreamOf(fs)
  {
    ghost var before := s.pending;
    for i := 0 to |fs|
      invariant s.pending == before + Concat(Frozen, fs[..i])
    {
      ConcatNext(Frozen, before, fs, i);
      var ok := s.SendFrame(fs[i]);
    }
    assert fs[..|fs|] == fs;
  }

  method ReceiveOne(s: Stream, ghost f: Frame, ghost rest: seq<u8>) returns (got: Frame)
    requires s.healthy && Sendable(f) && s.pending == Frozen(f) + rest
    modifies s
    ensures got == f && s.pending == rest
  {
    ParseFrozen(f, rest);
    var r := s.RecvFrame();
    got := r.frame;
  }

  method ReceiveNext(s: Stream, ghost fs: seq<Frame>, ghost rest: seq<u8>) returns (got: Frame)
    requires s.healthy && fs != [] && All(Sendable, fs) && s.pending == StreamOf(fs) + rest
    modifies s
    ensures got == fs[0] && s.pending == StreamOf(fs[1..]) + rest
  {
    ConcatHead(Frozen, fs, rest);
    got := ReceiveOne(s, fs[0], StreamOf(fs[1..]) + rest);
  }

  lemma MoveOver(xs: seq<Frame>, ys: seq<Frame>)
    requires ys != []
    ensures (xs + [ys[0]]) + ys[1..] == xs + ys
  {
  }

  method ReceiveAll(s: Stream, k: nat, ghost fs: seq<Frame>, ghost rest: seq<u8>) returns (got: seq<Frame>)
    requires s.healthy && k == |fs| && All(Sendable, fs) && s.pending == StreamOf(fs) + rest
    modifies s
    ensures got == fs && s.pending == rest
  {
    got := [];
    ghost var left := fs;
    for i := 0 to k
      invariant got + left == fs && |left| == k - i && All(Sendable, left)
      invariant s.pending == StreamOf(left) + rest
    {
      MoveOver(got, left);
      var f := ReceiveNext(s, left, rest);
      got, left := got + [f], left[1..];
    }
    assert left == [] && [] + rest == rest;
  }

  /** However sends and receives split the bytes, sending a list and receiving as many returns it. */
  method Exchange(s: Stream, fs: seq<Frame>) returns (got: seq<Frame>)
    requires s.healthy && s.pending == [] && All(Sendable, fs)
    modifies s
    ensures got == fs && s.pending == []
  {
    SendAll(s, fs);
    got := ReceiveAll(s, |fs|, fs, []);
  }
}

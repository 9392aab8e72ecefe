/** What the persistence envelope and the wire frames have in common: a magic word, then a version. */
module Headers {
  import opened Words

  /** Field widths, least significant byte first. */
  const WORD: nat := 4
  const HALF: nat := 2
  const LEADING: nat := 6

  function MagicOf(h: seq<u8>): nat
    requires |h| >= LEADING
  {
    FromLittleEndian(h[0..4])
  }

  function VersionOf(h: seq<u8>): nat
    requires |h| >= LEADING
  {
    FromLittleEndian(h[4..6])
  }

  lemma Powers()
    ensures Pow256(HALF) == 0x1_0000 && Pow256(WORD) == 0x1_0000_0000
  {
    PowersOf256();
    assert Pow256(2) == 256 * Pow256(1);
  }
}

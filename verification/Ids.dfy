/** Parsing decimal identities. */
module Ids {
  import opened Words
  import opened Domain

  const MAX_ID: u64 := 0xFFFF_FFFF_FFFF_FFFF

  predicate AllDigits(s: string) {
    forall i :: 0 <= i < |s| ==> '0' <= s[i] <= '9'
  }

  /** The number that the decimal digits of s write, of any size. */
  function Decimal(s: string): nat
    requires AllDigits(s)
  {
    if s == [] then 0 else 10 * Decimal(s[..|s| - 1]) + (s[|s| - 1] as int - '0' as int)
  }

  /** More digits never make the number smaller, so an overflow cannot be undone. */
  lemma {:induction false} DecimalGrows(s: string, i: nat)
    requires AllDigits(s) && i <= |s|
    ensures Decimal(s[..i]) <= Decimal(s)
    decreases |s|
  {
    if i < |s| {
      DecimalGrows(s[..|s| - 1], i);
      assert s[..|s| - 1][..i] == s[..i];
    } else {
      assert s[..i] == s;
    }
  }

  /** A value is returned exactly for the non-empty digit strings whose number fits 64 bits. */
  method ParseIdValue(s: string) returns (r: Option<u64>)
    ensures r.Some? <==> s != [] && AllDigits(s) && Decimal(s) <= MAX_ID
    ensures r.Some? ==> r.value == Decimal(s)
  {
    if s == [] {
      return None;
    }
    var value: u64 := 0;
    for i := 0 to |s|
      invariant AllDigits(s[..i]) && value == Decimal(s[..i])
    {
      var c := s[i];
      if c < '0' || c > '9' {
        return None;
      }
      var digit := c as int - '0' as int;
      assert s[..i + 1][..i] == s[..i];
      if value > (MAX_ID - digit) / 10 {
        if AllDigits(s) {
          DecimalGrows(s, i + 1);
        }
        return None;
      }
      value := value * 10 + digit;
    }
    assert s[..|s|] == s;
    return Some(value);
  }
}

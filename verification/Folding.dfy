/**
  Hashing a byte string by folding a step over it. Both checksums of the system, CRC-32C and
  FNV-1a, are such folds, and both owe their error detection to the step being injective.
 */
module Folding {
  import opened Words

  function Fold<R>(step: (R, u8) -> R, r: R, bs: seq<u8>): R
    decreases |bs|
  {
    if bs == [] then r else step(Fold(step, r, bs[..|bs| - 1]), bs[|bs| - 1])
  }

  lemma FoldNext<R>(step: (R, u8) -> R, r: R, bs: seq<u8>, i: nat)
    requires i < |bs|
    ensures Fold(step, r, bs[..i + 1]) == step(Fold(step, r, bs[..i]), bs[i])
  {
    assert bs[..i + 1][..i] == bs[..i];
  }

  lemma {:induction false} FoldAppend<R>(step: (R, u8) -> R, r: R, xs: seq<u8>, ys: seq<u8>)
    ensures Fold(step, r, xs + ys) == Fold(step, Fold(step, r, xs), ys)
    decreases |ys|
  {
    if ys == [] {
      assert xs + ys == xs;
    } else {
      FoldAppend(step, r, xs, ys[..|ys| - 1]);
      assert (xs + ys)[..|xs + ys| - 1] == xs + ys[..|ys| - 1];
    }
  }

  /** Two steps that agree everywhere fold alike. */
  lemma {:induction false} FoldAgree<R(!new)>(f: (R, u8) -> R, g: (R, u8) -> R, r: R, bs: seq<u8>)
    requires forall x, b :: f(x, b) == g(x, b)
    ensures Fold(f, r, bs) == Fold(g, r, bs)
    decreases |bs|
  {
    if bs != [] {
      FoldAgree(f, g, r, bs[..|bs| - 1]);
    }
  }

  /** Each byte moves distinct states to distinct states. */
  ghost predicate StateInjective<R(!new)>(step: (R, u8) -> R) {
    forall x, y, b :: x != y ==> step(x, b) != step(y, b)
  }

  /** Distinct bytes move one state to distinct states. */
  ghost predicate ByteInjective<R(!new)>(step: (R, u8) -> R) {
    forall x, b, c :: b != c ==> step(x, b) != step(x, c)
  }

  /** States that differ stay different on equal input. */
  lemma {:induction false} FoldInjective<R(!new)>(step: (R, u8) -> R, r: R, s: R, bs: seq<u8>)
    requires StateInjective(step) && r != s
    ensures Fold(step, r, bs) != Fold(step, s, bs)
    decreases |bs|
  {
    if bs != [] {
      FoldInjective(step, r, s, bs[..|bs| - 1]);
    }
  }

  /** A difference confined to one stretch survives the common rest. */
  lemma FoldDiffer<R(!new)>(step: (R, u8) -> R, r: R, pre: seq<u8>, xs: seq<u8>, ys: seq<u8>, post: seq<u8>)
    requires StateInjective(step)
    requires Fold(step, Fold(step, r, pre), xs) != Fold(step, Fold(step, r, pre), ys)
    ensures Fold(step, r, pre + xs + post) != Fold(step, r, pre + ys + post)
  {
    FoldAppend(step, r, pre, xs);
    FoldAppend(step, r, pre, ys);
    FoldAppend(step, r, pre + xs, post);
    FoldAppend(step, r, pre + ys, post);
    FoldInjective(step, Fold(step, r, pre + xs), Fold(step, r, pre + ys), post);
  }

  /** Changing exactly one byte always changes the fold. */
  lemma OneByteChange<R(!new)>(step: (R, u8) -> R, r: R, bs: seq<u8>, i: nat, b: u8)
    requires StateInjective(step) && ByteInjective(step)
    requires i < |bs| && bs[i] != b
    ensures Fold(step, r, bs) != Fold(step, r, bs[i := b])
  {
    var pre, post := bs[..i], bs[i + 1..];
    assert bs == pre + [bs[i]] + post;
    assert bs[i := b] == pre + [b] + post;
    var s := Fold(step, r, pre);
    FoldSingle(step, s, bs[i]);
    FoldSingle(step, s, b);
    FoldDiffer(step, r, pre, [bs[i]], [b], post);
  }

  lemma FoldSingle<R>(step: (R, u8) -> R, r: R, b: u8)
    ensures Fold(step, r, [b]) == step(r, b)
  {
    assert [b][..0] == [];
  }

  lemma FoldFour<R>(step: (R, u8) -> R, r: R, xs: seq<u8>)
    requires |xs| == 4
    ensures Fold(step, r, xs) == step(step(step(step(r, xs[0]), xs[1]), xs[2]), xs[3])
  {
    FoldNext(step, r, xs, 0);
    FoldNext(step, r, xs, 1);
    FoldNext(step, r, xs, 2);
    FoldNext(step, r, xs, 3);
    assert xs[..4] == xs;
  }
}

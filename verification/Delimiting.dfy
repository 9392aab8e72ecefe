/** Self-delimiting encodings: items written one after the other can be taken back one by one. */
module Delimiting {
  import opened Words

  datatype Taken<T> = Took(item: T, used: nat) | Stuck

  datatype Drained<T> = Drained(items: seq<T>, rest: seq<u8>)

  predicate All<T>(ok: T -> bool, xs: seq<T>) {
    forall i :: 0 <= i < |xs| ==> ok(xs[i])
  }

  function Concat<T>(put: T -> seq<u8>, xs: seq<T>): seq<u8> {
    if xs == [] then [] else put(xs[0]) + Concat(put, xs[1..])
  }

  /** At most k takes, stopping at the first that is stuck. */
  function Drain<T>(take: seq<u8> -> Taken<T>, bs: seq<u8>, k: nat): Drained<T>
    decreases k
  {
    var t := take(bs);
    if k == 0 || t.Stuck? || t.used > |bs| then Drained([], bs)
    else
      var d := Drain(take, bs[t.used..], k - 1);
      Drained([t.item] + d.items, d.rest)
  }

  /** What was put first is taken first. */
  ghost predicate TakesPut<T(!new)>(put: T -> seq<u8>, take: seq<u8> -> Taken<T>, ok: T -> bool) {
    forall x, rest :: ok(x) ==> take(put(x) + rest) == Took(x, |put(x)|)
  }

  /** What is taken first was put first. */
  ghost predicate PutTakes<T>(put: T -> seq<u8>, take: seq<u8> -> Taken<T>, ok: T -> bool) {
    forall bs :: take(bs).Took? ==>
      ok(take(bs).item) && take(bs).used <= |bs| && bs[..take(bs).used] == put(take(bs).item)
  }

  lemma {:induction false} DrainConcat<T(!new)>(put: T -> seq<u8>, take: seq<u8> -> Taken<T>, ok: T -> bool,
                                                xs: seq<T>, rest: seq<u8>)
    requires TakesPut(put, take, ok) && All(ok, xs)
    ensures Drain(take, Concat(put, xs) + rest, |xs|) == Drained(xs, rest)
    decreases |xs|
  {
    var bs := Concat(put, xs) + rest;
    if xs == [] {
      assert bs == rest;
    } else {
      var tail := Concat(put, xs[1..]) + rest;
      assert bs == put(xs[0]) + tail;
      DrainConcat(put, take, ok, xs[1..], rest);
      assert bs[|put(xs[0])|..] == tail;
      assert [xs[0]] + xs[1..] == xs;
    }
  }

  lemma Front<T>(put: T -> seq<u8>, take: seq<u8> -> Taken<T>, ok: T -> bool, bs: seq<u8>)
    requires PutTakes(put, take, ok) && take(bs).Took?
    ensures ok(take(bs).item) && take(bs).used <= |bs| && bs == put(take(bs).item) + bs[take(bs).used..]
  {
    assert bs == bs[..take(bs).used] + bs[take(bs).used..];
  }

  lemma Prepend<T>(put: T -> seq<u8>, x: T, xs: seq<T>, rest: seq<u8>)
    ensures Concat(put, [x] + xs) + rest == put(x) + (Concat(put, xs) + rest)
  {
    assert ([x] + xs)[1..] == xs;
  }

  lemma {:induction false} DrainedOk<T>(put: T -> seq<u8>, take: seq<u8> -> Taken<T>, ok: T -> bool, bs: seq<u8>,
                                        k: nat)
    requires PutTakes(put, take, ok)
    ensures All(ok, Drain(take, bs, k).items)
    decreases k
  {
    if k > 0 && take(bs).Took? {
      Front(put, take, ok, bs);
      DrainedOk(put, take, ok, bs[take(bs).used..], k - 1);
    }
  }

  lemma OneTaken<T>(put: T -> seq<u8>, take: seq<u8> -> Taken<T>, bs: seq<u8>, k: nat, tail: seq<u8>)
    requires k > 0 && take(bs).Took? && take(bs).used <= |bs| && tail == bs[take(bs).used..]
    requires bs == put(take(bs).item) + tail
    requires tail == Concat(put, Drain(take, tail, k - 1).items) + Drain(take, tail, k - 1).rest
    ensures bs == Concat(put, Drain(take, bs, k).items) + Drain(take, bs, k).rest
  {
    var d := Drain(take, tail, k - 1);
    Prepend(put, take(bs).item, d.items, d.rest);
  }

  lemma NoneTaken<T>(put: T -> seq<u8>, take: seq<u8> -> Taken<T>, bs: seq<u8>, k: nat)
    requires k == 0 || take(bs).Stuck?
    ensures bs == Concat(put, Drain(take, bs, k).items) + Drain(take, bs, k).rest
  {
    assert bs == [] + bs;
  }

  lemma {:induction false} ConcatDrain<T>(put: T -> seq<u8>, take: seq<u8> -> Taken<T>, ok: T -> bool,
                                          bs: seq<u8>, k: nat)
    requires PutTakes(put, take, ok)
    ensures bs == Concat(put, Drain(take, bs, k).items) + Drain(take, bs, k).rest
    decreases k
  {
    if k == 0 || take(bs).Stuck? {
      NoneTaken(put, take, bs, k);
    } else {
      Front(put, take, ok, bs);
      ConcatDrain(put, take, ok, bs[take(bs).used..], k - 1);
      OneTaken(put, take, bs, k, bs[take(bs).used..]);
    }
  }

  /** Draining yields a list exactly when the stream starts with that list's bytes. */
  lemma DrainExact<T(!new)>(put: T -> seq<u8>, take: seq<u8> -> Taken<T>, ok: T -> bool,
                            bs: seq<u8>, xs: seq<T>, rest: seq<u8>)
    requires TakesPut(put, take, ok) && PutTakes(put, take, ok)
    ensures Drain(take, bs, |xs|) == Drained(xs, rest) <==> All(ok, xs) && bs == Concat(put, xs) + rest
  {
    DrainedOk(put, take, ok, bs, |xs|);
    ConcatDrain(put, take, ok, bs, |xs|);
    if All(ok, xs) && bs == Concat(put, xs) + rest {
      DrainConcat(put, take, ok, xs, rest);
    }
  }

  lemma {:induction false} ConcatAppend<T>(put: T -> seq<u8>, xs: seq<T>, x: T)
    ensures Concat(put, xs + [x]) == Concat(put, xs) + put(x)
    decreases |xs|
  {
    if xs == [] {
      assert xs + [x] == [x] && [x][1..] == [];
      assert put(x) + [] == [] + put(x);
    } else {
      ConcatAppend(put, xs[1..], x);
      assert (xs + [x])[1..] == xs[1..] + [x];
    }
  }

  /** One more item after those already on a stream. */
  lemma ConcatNext<T>(put: T -> seq<u8>, before: seq<u8>, xs: seq<T>, i: nat)
    requires i < |xs|
    ensures (before + Concat(put, xs[..i])) + put(xs[i]) == before + Concat(put, xs[..i + 1])
  {
    assert xs[..i + 1] == xs[..i] + [xs[i]];
    ConcatAppend(put, xs[..i], xs[i]);
  }

  /** The first of the items still on a stream. */
  lemma ConcatHead<T>(put: T -> seq<u8>, xs: seq<T>, rest: seq<u8>)
    requires xs != []
    ensures Concat(put, xs) + rest == put(xs[0]) + (Concat(put, xs[1..]) + rest)
  {
    assert xs == [xs[0]] + xs[1..];
    Prepend(put, xs[0], xs[1..], rest);
  }
}

/** Iteration in key order, as std::map and std::set do it. */
module Ordering {
  import opened Words
  import opened Domain

  ghost predicate Injective<T(!new)>(rank: T -> int) {
    forall x, y :: rank(x) == rank(y) ==> x == y
  }

  ghost predicate Increasing<T>(xs: seq<T>, rank: T -> int) {
    forall i, j :: 0 <= i < j < |xs| ==> rank(xs[i]) < rank(xs[j])
  }

  lemma {:induction false} LeastExists<T(!new)>(s: set<T>, rank: T -> int)
    requires s != {}
    ensures exists m :: m in s && forall x :: x in s ==> rank(m) <= rank(x)
    decreases |s|
  {
    var a :| a in s;
    if s == {a} {
      assert forall x :: x in s ==> rank(a) <= rank(x);
    } else {
      var rest := s - {a};
      assert s == rest + {a};
      LeastExists(rest, rank);
      var m :| m in rest && forall x :: x in rest ==> rank(m) <= rank(x);
      var least := if rank(a) <= rank(m) then a else m;
      assert least in s && forall x :: x in s ==> rank(least) <= rank(x);
    }
  }

  /** The element of least rank. */
  function Least<T(!new, ==)>(s: set<T>, rank: T -> int): (m: T)
    requires s != {} && Injective(rank)
    ensures m in s && forall x :: x in s ==> rank(m) <= rank(x)
  {
    LeastExists(s, rank);
    var m :| m in s && forall x :: x in s ==> rank(m) <= rank(x);
    m
  }

  /** The elements of s, least rank first. */
  function Ascending<T(!new, ==)>(s: set<T>, rank: T -> int): (xs: seq<T>)
    requires Injective(rank)
    ensures |xs| == |s|
    decreases |s|
  {
    if s == {} then [] else [Least(s, rank)] + Ascending(s - {Least(s, rank)}, rank)
  }

  lemma {:induction false} AscendingMembers<T(!new)>(s: set<T>, rank: T -> int)
    requires Injective(rank)
    ensures forall x :: x in Ascending(s, rank) <==> x in s
    decreases |s|
  {
    if s != {} {
      var m := Least(s, rank);
      AscendingMembers(s - {m}, rank);
      assert s == {m} + (s - {m});
    }
  }

  lemma {:induction false} AscendingIncreases<T(!new)>(s: set<T>, rank: T -> int)
    requires Injective(rank)
    ensures Increasing(Ascending(s, rank), rank)
    decreases |s|
  {
    if s != {} {
      var m := Least(s, rank);
      var rest := Ascending(s - {m}, rank);
      AscendingIncreases(s - {m}, rank);
      AscendingMembers(s - {m}, rank);
      forall j | 0 <= j < |rest| ensures rank(m) < rank(rest[j]) {
        assert rest[j] in s - {m};
      }
    }
  }

  function IdRank(id: u64): int {
    id
  }

  /** Lexicographic order of (victim, neighbor, domain) as one number. */
  function CellRank(k: CellKey): int {
    (k.victim * 0x1_0000_0000_0000_0000 + k.neighbor) * 256 + k.domain as int
  }

  predicate CellLess(a: CellKey, b: CellKey) {
    if a.victim != b.victim then a.victim < b.victim
    else if a.neighbor != b.neighbor then a.neighbor < b.neighbor
    else a.domain < b.domain
  }

  /** The rank is the comparison operator of CellKey. */
  lemma CellRankOrders(a: CellKey, b: CellKey)
    ensures CellRank(a) < CellRank(b) <==> CellLess(a, b)
  {
  }

  lemma RanksInjective()
    ensures Injective(IdRank) && Injective(CellRank)
  {
    forall a, b | CellRank(a) == CellRank(b) ensures a == b {
      CellRankOrders(a, b);
      CellRankOrders(b, a);
    }
  }

  // ---------- Filling a map by emplace ----------

  /** The first record under a key stays; later ones with the same key are ignored. */
  function EmplaceAll<R>(es: seq<(u64, R)>): map<u64, R> {
    if es == [] then map[]
    else
      var m := EmplaceAll(es[..|es| - 1]);
      var e := es[|es| - 1];
      if e.0 in m then m else m[e.0 := e.1]
  }

  /** Under every key there is the first record that came with it, and there are no other keys. */
  lemma {:induction false} FirstStays<R>(es: seq<(u64, R)>)
    ensures forall k :: k in EmplaceAll(es) <==> exists i :: 0 <= i < |es| && es[i].0 == k
    ensures forall i :: 0 <= i < |es| && (forall j :: 0 <= j < i ==> es[j].0 != es[i].0) ==>
              es[i].0 in EmplaceAll(es) && EmplaceAll(es)[es[i].0] == es[i].1
  {
    if es != [] {
      var n := |es| - 1;
      FirstStays(es[..n]);
      assert forall i :: 0 <= i < n ==> es[..n][i] == es[i];
      forall k ensures k in EmplaceAll(es) <==> exists i :: 0 <= i < |es| && es[i].0 == k {
        if i :| 0 <= i < |es| && es[i].0 == k {
          assert i < n ==> es[..n][i].0 == k;
        }
      }
      forall i | 0 <= i < |es| && (forall j :: 0 <= j < i ==> es[j].0 != es[i].0)
        ensures es[i].0 in EmplaceAll(es) && EmplaceAll(es)[es[i].0] == es[i].1
      {
        if i < n {
          assert forall j :: 0 <= j < i ==> es[..n][j].0 != es[..n][i].0;
        }
      }
    }
  }

  ghost predicate DistinctKeys<R>(es: seq<(u64, R)>) {
    forall i, j :: 0 <= i < j < |es| ==> es[i].0 != es[j].0
  }

  lemma {:induction false} EmplaceDistinct<R>(es: seq<(u64, R)>)
    requires DistinctKeys(es)
    ensures forall i :: 0 <= i < |es| ==> es[i].0 in EmplaceAll(es) && EmplaceAll(es)[es[i].0] == es[i].1
    ensures forall k :: k in EmplaceAll(es) ==> (k, EmplaceAll(es)[k]) in es
  {
    if es != [] {
      var n := |es| - 1;
      EmplaceDistinct(es[..n]);
      assert forall i :: 0 <= i < n ==> es[..n][i] == es[i];
    }
  }

  function Keys<R>(m: map<u64, R>): (ks: seq<u64>)
    ensures |ks| == |m|
  {
    RanksInjective();
    Ascending(m.Keys, IdRank)
  }

  lemma KeysOf<R>(m: map<u64, R>)
    ensures forall k :: k in Keys(m) <==> k in m
    ensures forall i, j :: 0 <= i < j < |m| ==> Keys(m)[i] < Keys(m)[j]
  {
    RanksInjective();
    AscendingMembers(m.Keys, IdRank);
    AscendingIncreases(m.Keys, IdRank);
    var ks := Keys(m);
    forall i, j | 0 <= i < j < |m| ensures ks[i] < ks[j] {
      assert IdRank(ks[i]) < IdRank(ks[j]);
    }
  }

  function Lookup<R>(m: map<u64, R>, ks: seq<u64>): (es: seq<(u64, R)>)
    requires forall k :: k in ks ==> k in m
    ensures |es| == |ks| && forall i :: 0 <= i < |ks| ==> es[i] == (ks[i], m[ks[i]])
  {
    seq(|ks|, i requires 0 <= i < |ks| => (ks[i], m[ks[i]]))
  }

  /** The entries of a map in key order. */
  function Entries<R>(m: map<u64, R>): (es: seq<(u64, R)>)
    ensures |es| == |m|
  {
    KeysOf(m);
    Lookup(m, Keys(m))
  }

  lemma EntriesOf<R>(m: map<u64, R>)
    ensures forall i, j :: 0 <= i < j < |m| ==> Entries(m)[i].0 < Entries(m)[j].0
    ensures forall i :: 0 <= i < |m| ==> Entries(m)[i].0 in m && Entries(m)[i].1 == m[Entries(m)[i].0]
    ensures forall k :: k in m ==> (k, m[k]) in Entries(m)
  {
    KeysOf(m);
    var ks, es := Keys(m), Entries(m);
    assert forall i :: 0 <= i < |m| ==> ks[i] in m && es[i] == (ks[i], m[ks[i]]);
    forall k | k in m ensures (k, m[k]) in es {
      var i :| 0 <= i < |ks| && ks[i] == k;
      assert es[i] == (k, m[k]);
    }
  }

  /** Emplacing a map's entries into an empty map rebuilds it. */
  lemma EmplaceEntries<R>(m: map<u64, R>)
    ensures EmplaceAll(Entries(m)) == m
  {
    var es := Entries(m);
    EntriesOf(m);
    EmplaceDistinct(es);
    var r := EmplaceAll(es);
    forall k | k in r ensures k in m && r[k] == m[k] {
      var i :| 0 <= i < |es| && es[i] == (k, r[k]);
    }
    forall k | k in m ensures k in r {
      var i :| 0 <= i < |es| && es[i] == (k, m[k]);
    }
  }

  /** The records of a map in key order. */
  function InOrder<R>(m: map<u64, R>): (rs: seq<R>)
    ensures |rs| == |m|
  {
    var es := Entries(m);
    seq(|es|, i requires 0 <= i < |es| => es[i].1)
  }

  lemma InOrderOf<R>(m: map<u64, R>)
    ensures forall i :: 0 <= i < |m| ==> Entries(m)[i].0 in m && InOrder(m)[i] == m[Entries(m)[i].0]
    ensures forall k :: k in m ==> m[k] in InOrder(m)
  {
    EntriesOf(m);
    var es, rs := Entries(m), InOrder(m);
    forall k | k in m ensures m[k] in rs {
      var i :| 0 <= i < |es| && es[i] == (k, m[k]);
      assert rs[i] == m[k];
    }
  }
}

/** The order in which lists are returned: unresolved confounders and advice. */
module Listing {
  import opened Words
  import opened Domain
  import opened Comparison
  import opened Confounding
  import opened Machine
  import opened Runs
  import opened Explanation

  // ---------- Confounders ----------

  /** The confounders of workload w one after the other, as the observations carry them. */
  function Reported(obs: seq<Observation<real>>, w: u64): seq<Confounder> {
    if obs == [] then []
    else if obs[0].workloadId == w then obs[0].confounders + Reported(obs[1..], w)
    else Reported(obs[1..], w)
  }

  /** Reading from the left, x is met before y. */
  ghost predicate Earlier<T>(s: seq<T>, x: T, y: T) {
    exists n :: 0 <= n <= |s| && x in s[..n] && y !in s[..n]
  }

  ghost predicate FirstSeen<T>(s: seq<T>, xs: seq<T>) {
    forall i, j :: 0 <= i < j < |xs| ==> Earlier(s, xs[i], xs[j])
  }

  lemma EarlierLonger<T>(s: seq<T>, t: seq<T>, x: T, y: T)
    requires Earlier(s, x, y)
    ensures Earlier(s + t, x, y)
  {
    var n :| 0 <= n <= |s| && x in s[..n] && y !in s[..n];
    assert (s + t)[..n] == s[..n];
  }

  lemma {:induction false} AddedInOrder(cs: seq<Confounder>)
    ensures FirstSeen(cs, AddKinds([], cs))
  {
    if cs != [] {
      var n := |cs| - 1;
      var p, c := cs[..n], cs[n];
      assert cs == p + [c];
      AddedInOrder(p);
      AddedKinds([], p);
      var before := AddKinds([], p);
      var xs := AddKinds([], cs);
      forall i, j | 0 <= i < j < |xs| ensures Earlier(cs, xs[i], xs[j]) {
        if j < |before| {
          EarlierLonger(p, [c], xs[i], xs[j]);
        } else {
          assert cs[..n] == p && xs[i] in before && xs[j] == c;
        }
      }
    }
  }

  lemma {:induction false} AddedTogether(kinds: seq<Confounder>, a: seq<Confounder>, b: seq<Confounder>)
    ensures AddKinds(kinds, a + b) == AddKinds(AddKinds(kinds, a), b)
    decreases |b|
  {
    if b == [] {
      assert a + b == a;
    } else {
      var n := |b| - 1;
      AddedTogether(kinds, a, b[..n]);
      assert (a + b)[..|a + b| - 1] == a + b[..n];
    }
  }

  lemma {:induction false} ReportedLast(obs: seq<Observation<real>>, w: u64)
    requires obs != []
    ensures var n := |obs| - 1;
            Reported(obs, w) == Reported(obs[..n], w) + if obs[n].workloadId == w then obs[n].confounders else []
    decreases |obs|
  {
    var n := |obs| - 1;
    if n > 0 {
      ReportedLast(obs[1..], w);
      assert obs[1..][..n - 1] == obs[..n][1..];
    } else {
      assert obs[1..] == [] && obs[..n] == [];
    }
  }

  lemma {:induction false} KindsAdded(obs: seq<Observation<real>>, w: u64)
    ensures Kinds(obs, w) == AddKinds([], Reported(obs, w))
  {
    if obs != [] {
      var n := |obs| - 1;
      KindsAdded(obs[..n], w);
      ReportedLast(obs, w);
      if obs[n].workloadId != w {
        assert Reported(obs, w) == Reported(obs[..n], w);
      } else {
        AddedTogether([], Reported(obs[..n], w), obs[n].confounders);
      }
    }
  }

  lemma {:induction false} HardsInOrder(s: seq<Confounder>, cs: seq<Confounder>)
    requires FirstSeen(s, cs)
    ensures FirstSeen(s, Hards(cs)) && forall c :: c in Hards(cs) <==> c in cs && c.Hard()
  {
    if cs != [] {
      var n := |cs| - 1;
      assert cs == cs[..n] + [cs[n]];
      HardsInOrder(s, cs[..n]);
      PutLast(s, cs, Hards(cs[..n]));
    }
  }

  lemma {:induction false} SoftsInOrder(s: seq<Confounder>, cs: seq<Confounder>)
    requires FirstSeen(s, cs)
    ensures FirstSeen(s, Softs(cs)) && forall c :: c in Softs(cs) <==> c in cs && !c.Hard()
  {
    if cs != [] {
      var n := |cs| - 1;
      assert cs == cs[..n] + [cs[n]];
      SoftsInOrder(s, cs[..n]);
      PutLast(s, cs, Softs(cs[..n]));
    }
  }

  lemma PutLast<T>(s: seq<T>, cs: seq<T>, xs: seq<T>)
    requires cs != [] && FirstSeen(s, cs) && FirstSeen(s, xs) && forall x :: x in xs ==> x in cs[..|cs| - 1]
    ensures FirstSeen(s, xs + [cs[|cs| - 1]])
  {
    var n := |cs| - 1;
    var ys := xs + [cs[n]];
    forall i, j | 0 <= i < j < |ys| ensures Earlier(s, ys[i], ys[j]) {
      if j == |xs| {
        assert xs[i] in xs;
        var k :| 0 <= k < n && cs[..n][k] == xs[i];
        assert Earlier(s, cs[k], cs[n]);
      }
    }
  }

  /**
    The unresolved confounders of a result: every reported one once, hard ones before soft ones, and
    within each group in the order in which they were first reported.
   */
  lemma UnresolvedInOrder(digest: seq<u8> -> u64, st: Observatory, q: Request)
    requires Admitted(st, q)
    ensures var cs, said := Result(digest, st, q).unresolved, Reported(q.obs, q.affected.id);
            && (forall c :: c in cs <==> c in said)
            && forall i, j :: 0 <= i < j < |cs| ==>
                 (cs[i].Hard() && !cs[j].Hard()) || (cs[i].Hard() == cs[j].Hard() && Earlier(said, cs[i], cs[j]))
  {
    var said, kinds := Reported(q.obs, q.affected.id), Kinds(q.obs, q.affected.id);
    KindsAdded(q.obs, q.affected.id);
    AddedInOrder(said);
    AddedKinds([], said);
    HardsInOrder(said, kinds);
    SoftsInOrder(said, kinds);
    HardsThenSofts(said, kinds, Hards(kinds), Softs(kinds));
  }

  lemma HardsThenSofts(said: seq<Confounder>, kinds: seq<Confounder>, hards: seq<Confounder>, softs: seq<Confounder>)
    requires FirstSeen(said, hards) && FirstSeen(said, softs)
    requires forall c :: c in hards <==> c in kinds && c.Hard()
    requires forall c :: c in softs <==> c in kinds && !c.Hard()
    ensures var cs := hards + softs;
            && (forall c :: c in cs <==> c in kinds)
            && forall i, j :: 0 <= i < j < |cs| ==>
                 (cs[i].Hard() && !cs[j].Hard()) || (cs[i].Hard() == cs[j].Hard() && Earlier(said, cs[i], cs[j]))
  {
    var cs := hards + softs;
    forall i, j | 0 <= i < j < |cs|
      ensures (cs[i].Hard() && !cs[j].Hard()) || (cs[i].Hard() == cs[j].Hard() && Earlier(said, cs[i], cs[j]))
    {
      if j < |hards| {
        assert hards[i] in hards && hards[j] in hards;
      } else if i < |hards| {
        assert hards[i] in hards && softs[j - |hards|] in softs;
      } else {
        assert softs[i - |hards|] in softs && softs[j - |hards|] in softs;
      }
    }
  }

  // ---------- Advice ----------

  /** The order in which the source considers each kind of advice. */
  function Place(a: Advice): nat {
    match a
    case RunBaseline => 0
    case IncreaseRepetitions => 1
    case WaitForFreshness => 2
    case Control(_) => 3
    case ConfirmRecovery => 4
  }

  ghost predicate Placed(s: seq<Advice>, k: nat) {
    && (forall i :: 0 <= i < |s| ==> Place(s[i]) < k)
    && forall i, j :: 0 <= i < j < |s| ==> Place(s[i]) <= Place(s[j]) && (Place(s[i]) == Place(s[j]) ==> s[i].Control?)
  }

  lemma {:induction false} ControlsAt(cs: seq<Confounder>)
    ensures |Controls(cs)| == |cs| && forall i :: 0 <= i < |cs| ==> Controls(cs)[i] == Control(cs[i])
  {
    if cs != [] {
      ControlsAt(cs[..|cs| - 1]);
    }
  }

  lemma PlaceNext(s: seq<Advice>, t: seq<Advice>, k: nat)
    requires Placed(s, k) && Placed(t, k + 1) && forall i :: 0 <= i < |t| ==> Place(t[i]) == k
    ensures Placed(s + t, k + 1)
  {
  }

  lemma FivePlaced(a: seq<Advice>, b: seq<Advice>, c: seq<Advice>, d: seq<Advice>, e: seq<Advice>)
    requires Placed(a, 1) && Placed(b, 2) && Placed(c, 3) && Placed(d, 4) && Placed(e, 5)
    requires forall i :: 0 <= i < |b| ==> Place(b[i]) == 1
    requires forall i :: 0 <= i < |c| ==> Place(c[i]) == 2
    requires forall i :: 0 <= i < |d| ==> Place(d[i]) == 3
    requires forall i :: 0 <= i < |e| ==> Place(e[i]) == 4
    ensures Placed(a + b + c + d + e, 5)
  {
    PlaceNext(a, b, 1);
    PlaceNext(a + b, c, 2);
    PlaceNext(a + b + c, d, 3);
    PlaceNext(a + b + c + d, e, 4);
  }

  lemma OnlyPlaced(given: bool, a: Advice, k: nat)
    requires Place(a) == k
    ensures Placed(Only(given, a), k + 1) && forall i :: 0 <= i < |Only(given, a)| ==> Place(Only(given, a)[i]) == k
  {
  }

  /** Five lists of advice, each in its place, and where the fourth one stands. */
  lemma FiveJoined(a: seq<Advice>, b: seq<Advice>, c: seq<Advice>, d: seq<Advice>, e: seq<Advice>, s: seq<Advice>)
    returns (n: nat)
    requires s == a + b + c + d + e
    ensures n + |d| <= |s| && forall i :: 0 <= i < |d| ==> s[n + i] == d[i]
  {
    n := |a + b + c|;
  }

  /**
    Advice comes in that order, at most one piece of each kind but for the controls, which stand from n
    on as the unresolved confounders do.
   */
  lemma AdviceInOrder(c: Pairwise<real>, policy: Policy) returns (n: nat)
    ensures var s := AdviceFor(c, policy);
            && Placed(s, 5) && n + |c.unresolved| <= |s|
            && forall i :: 0 <= i < |c.unresolved| ==> s[n + i] == Control(c.unresolved[i])
  {
    n := GivenInOrder(c.baselineId == 0, c.sampleCount < policy.minSamples, c.freshness != Freshness.Current,
                      c.unresolved, c.attribution == Attribution.ControlledComparison);
  }

  lemma GivenInOrder(run: bool, increase: bool, wait: bool, cs: seq<Confounder>, confirm: bool) returns (n: nat)
    ensures var s := Only(run, RunBaseline) + Only(increase, IncreaseRepetitions) + Only(wait, WaitForFreshness)
                     + Controls(cs) + Only(confirm, ConfirmRecovery);
            && Placed(s, 5) && n + |cs| <= |s|
            && forall i :: 0 <= i < |cs| ==> s[n + i] == Control(cs[i])
  {
    OnlyPlaced(run, RunBaseline, 0);
    OnlyPlaced(increase, IncreaseRepetitions, 1);
    OnlyPlaced(wait, WaitForFreshness, 2);
    OnlyPlaced(confirm, ConfirmRecovery, 4);
    ControlsPlaced(cs);
    n := Given(Only(run, RunBaseline), Only(increase, IncreaseRepetitions), Only(wait, WaitForFreshness),
               Controls(cs), Only(confirm, ConfirmRecovery), cs);
  }

  lemma ControlsPlaced(cs: seq<Confounder>)
    ensures Placed(Controls(cs), 4) && |Controls(cs)| == |cs|
    ensures forall i :: 0 <= i < |cs| ==> Controls(cs)[i] == Control(cs[i]) && Place(Controls(cs)[i]) == 3
  {
    ControlsAt(cs);
  }

  lemma Given(a: seq<Advice>, b: seq<Advice>, c: seq<Advice>, d: seq<Advice>, e: seq<Advice>, cs: seq<Confounder>)
    returns (n: nat)
    requires Placed(a, 1) && Placed(b, 2) && Placed(c, 3) && Placed(d, 4) && Placed(e, 5)
    requires forall i :: 0 <= i < |b| ==> Place(b[i]) == 1
    requires forall i :: 0 <= i < |c| ==> Place(c[i]) == 2
    requires forall i :: 0 <= i < |d| ==> Place(d[i]) == 3
    requires forall i :: 0 <= i < |e| ==> Place(e[i]) == 4
    requires |d| == |cs| && forall i :: 0 <= i < |cs| ==> d[i] == Control(cs[i])
    ensures var s := a + b + c + d + e;
            && Placed(s, 5) && n + |cs| <= |s|
            && forall i :: 0 <= i < |cs| ==> s[n + i] == Control(cs[i])
  {
    FivePlaced(a, b, c, d, e);
    n := FiveJoined(a, b, c, d, e, a + b + c + d + e);
  }
}

/** The matrix against the log of comparisons. */
module Ledger {
  import opened Words
  import opened Domain
  import opened Machine
  import opened Ordering
  import opened StateCodec
  import opened History

  /** Each cell is the comparison logged under its own id. */
  ghost predicate Agreed<D>(m: map<CellKey, Pairwise<D>>, log: map<u64, Pairwise<D>>) {
    forall k :: k in m ==> KeyOf(m[k]) == k && m[k].comparisonId in log && log[m[k].comparisonId] == m[k]
  }

  /** Each logged comparison has a cell. */
  ghost predicate Covered<D>(m: map<CellKey, Pairwise<D>>, log: map<u64, Pairwise<D>>) {
    forall i :: i in log ==> KeyOf(log[i]) in m
  }

  /** The id of the new record is already that of another pair's cell. */
  ghost predicate Clashes(m: map<CellKey, Pairwise<real>>, e: Effect) {
    e.Noted? && exists k :: k in m && k != KeyOf(e.record) && m[k].comparisonId == e.record.comparisonId
  }

  /** Writing one record keeps the agreement exactly when its id is not another cell's. */
  lemma AgreementStep(m: map<CellKey, Pairwise<real>>, log: map<u64, Pairwise<real>>, e: Effect)
    requires Agreed(m, log) && Covered(m, log)
    ensures Covered(SetCell(m, e), Log(log, e))
    ensures Agreed(SetCell(m, e), Log(log, e)) <==> !Clashes(m, e)
  {
    if e.Noted? {
      var m', log' := SetCell(m, e), Log(log, e);
      if Agreed(m', log') {
        forall k | k in m && k != KeyOf(e.record) ensures m[k].comparisonId != e.record.comparisonId {
          assert k in m' && m'[k] == m[k];
        }
      }
    }
  }

  /** No comparison of the run reuses the id of another pair's cell. */
  ghost predicate NoClash(judge: Judge, st: Observatory, ops: seq<Op>) {
    forall i: nat :: i < |ops| ==> !ClashAt(judge, st, ops, i)
  }

  ghost predicate ClashAt(judge: Judge, st: Observatory, ops: seq<Op>, i: nat)
    requires i < |ops|
  {
    var before := Run(judge, st, ops[..i]);
    Clashes(before.matrix, EffectIn(judge, before, ops[i]))
  }

  /** In every run whose ids do not clash, each cell is the comparison logged under its own id. */
  lemma {:induction false} AgreementRun(judge: Judge, st: Observatory, ops: seq<Op>)
    requires Agreed(st.matrix, st.comparisons) && Covered(st.matrix, st.comparisons) && NoClash(judge, st, ops)
    ensures Agreed(Run(judge, st, ops).matrix, Run(judge, st, ops).comparisons)
    ensures Covered(Run(judge, st, ops).matrix, Run(judge, st, ops).comparisons)
  {
    if ops != [] {
      var n := |ops| - 1;
      forall i: nat | i < n ensures !ClashAt(judge, st, ops[..n], i) {
        assert ops[..n][..i] == ops[..i];
        assert !ClashAt(judge, st, ops, i);
      }
      AgreementRun(judge, st, ops[..n]);
      var before := Run(judge, st, ops[..n]);
      assert !ClashAt(judge, st, ops, n);
      AgreementStep(before.matrix, before.comparisons, EffectIn(judge, before, ops[n]));
    }
  }

  /** Every logged comparison has a cell in every run, whatever the ids. */
  lemma {:induction false} CoveredRun(judge: Judge, st: Observatory, ops: seq<Op>)
    requires Covered(st.matrix, st.comparisons)
    ensures Covered(Run(judge, st, ops).matrix, Run(judge, st, ops).comparisons)
  {
    if ops != [] {
      CoveredRun(judge, st, ops[..|ops| - 1]);
    }
  }

  lemma TwoRecords(st: Observatory, a: Effect, b: Effect)
    requires a.Noted? && b.Noted? && KeyOf(a.record) == KeyOf(b.record)
    ensures SetCell(SetCell(st.matrix, a), b) == SetCell(SetCell(st.matrix, b), a) <==> a.record == b.record
    ensures Log(Log(st.comparisons, a), b) == Log(Log(st.comparisons, b), a) <==>
              a.record.comparisonId != b.record.comparisonId || a.record == b.record
  {
    var k, i := KeyOf(a.record), a.record.comparisonId;
    assert SetCell(SetCell(st.matrix, a), b)[k] == b.record && SetCell(SetCell(st.matrix, b), a)[k] == a.record;
    if i == b.record.comparisonId {
      assert Log(Log(st.comparisons, a), b)[i] == b.record && Log(Log(st.comparisons, b), a)[i] == a.record;
    }
  }

  /**
    Two classified comparisons of one pair in the two orders: the matrices are equal exactly when the
    records are, the logs also when the ids differ. So one log can go with different matrices.
   */
  lemma OrderMatters(digest: seq<u8> -> u64, st: Observatory, a: Request, b: Request)
    requires a.Key() == b.Key()
    ensures var judge := Judging(digest);
            var r, s := Result(digest, st, a).(episodeId := 0), Result(digest, st, b).(episodeId := 0);
            var ab, ba := Step(judge, Step(judge, st, Ask(a)), Ask(b)), Step(judge, Step(judge, st, Ask(b)), Ask(a));
            r.outcome.Classified() && s.outcome.Classified() ==>
              && (ab.matrix == ba.matrix <==> r == s)
              && (ab.comparisons == ba.comparisons <==> r.comparisonId != s.comparisonId || r == s)
  {
    var judge := Judging(digest);
    var x, y := EffectOf(digest, st, a), EffectOf(digest, st, b);
    EffectShape(digest, st, a);
    EffectShape(digest, st, b);
    EffectFrame(judge, st, a);
    EffectFrame(judge, st, b);
    EffectDepends(digest, Step(judge, st, Ask(a)), st, b);
    EffectDepends(digest, Step(judge, st, Ask(b)), st, a);
    if x.Noted? && y.Noted? {
      TwoRecords(st, x, y);
    }
  }

  // ---------- Rebuilding the matrix from the log ----------

  /** What loading into a fresh observatory puts into the matrix. */
  function Rebuilt<D>(log: map<u64, Pairwise<D>>): map<CellKey, Pairwise<D>> {
    SetAll(map[], InOrder(log))
  }

  /** Comparison i is the one with the greatest id for its pair. */
  ghost predicate LatestId<D>(log: map<u64, Pairwise<D>>, i: u64) {
    i in log && forall j :: j in log && KeyOf(log[j]) == KeyOf(log[i]) ==> j <= i
  }

  lemma {:induction false} LastOneWins<D>(ps: seq<Pairwise<D>>, n: nat)
    requires n < |ps| && forall j :: n < j < |ps| ==> KeyOf(ps[j]) != KeyOf(ps[n])
    ensures KeyOf(ps[n]) in SetAll(map[], ps) && SetAll(map[], ps)[KeyOf(ps[n])] == ps[n]
    decreases |ps|
  {
    if n < |ps| - 1 {
      LastOneWins(ps[..|ps| - 1], n);
    }
  }

  lemma {:induction false} OnlySetCells<D>(ps: seq<Pairwise<D>>, k: CellKey) returns (n: nat)
    requires k in SetAll(map[], ps)
    ensures n < |ps| && KeyOf(ps[n]) == k
    decreases |ps|
  {
    n := |ps| - 1;
    if KeyOf(ps[n]) != k {
      n := OnlySetCells(ps[..n], k);
    }
  }

  lemma LatestPosition<D>(log: map<u64, Pairwise<D>>, i: u64) returns (n: nat)
    requires LatestId(log, i)
    ensures n < |log| && InOrder(log)[n] == log[i]
    ensures forall j :: n < j < |log| ==> KeyOf(InOrder(log)[j]) != KeyOf(log[i])
  {
    EntriesOf(log);
    InOrderOf(log);
    var es := Entries(log);
    n :| 0 <= n < |es| && es[n] == (i, log[i]);
    forall j | n < j < |log| ensures KeyOf(InOrder(log)[j]) != KeyOf(log[i]) {
      assert es[j].0 > i && es[j].0 in log;
    }
  }

  /** Each rebuilt cell holds the comparison with the greatest id for its pair. */
  lemma RebuiltCell<D>(log: map<u64, Pairwise<D>>, i: u64)
    requires LatestId(log, i)
    ensures KeyOf(log[i]) in Rebuilt(log) && Rebuilt(log)[KeyOf(log[i])] == log[i]
  {
    var n := LatestPosition(log, i);
    LastOneWins(InOrder(log), n);
  }

  lemma RebuiltFrom<D>(log: map<u64, Pairwise<D>>, k: CellKey) returns (i: u64)
    requires k in Rebuilt(log)
    ensures i in log && KeyOf(log[i]) == k
  {
    var n := OnlySetCells(InOrder(log), k);
    InOrderOf(log);
    i := Entries(log)[n].0;
  }

  /** With the log agreeing, the rebuilt matrix has the same cells. */
  lemma RebuiltKeys<D>(m: map<CellKey, Pairwise<D>>, log: map<u64, Pairwise<D>>)
    requires Agreed(m, log) && Covered(m, log)
    ensures Rebuilt(log).Keys == m.Keys
  {
    forall k | k in m ensures k in Rebuilt(log) {
      var i := GreatestFor(log, m[k].comparisonId);
      RebuiltCell(log, i);
    }
    forall k | k in Rebuilt(log) ensures k in m {
      var i := RebuiltFrom(log, k);
    }
  }

  /** The greatest id among the comparisons of one pair. */
  lemma GreatestFor<D>(log: map<u64, Pairwise<D>>, c: u64) returns (i: u64)
    requires c in log
    ensures LatestId(log, i) && KeyOf(log[i]) == KeyOf(log[c])
  {
    var s: set<u64> := set j: u64 | j in log && KeyOf(log[j]) == KeyOf(log[c]);
    assert c in s;
    LeastExists(s, Backwards);
    i :| i in s && forall x :: x in s ==> Backwards(i) <= Backwards(x);
    forall j | j in log && KeyOf(log[j]) == KeyOf(log[i]) ensures j <= i {
      assert j in s;
    }
  }

  function Backwards(i: u64): int {
    0 - i
  }

  /** Each pair has been compared under one id only. */
  ghost predicate SingleComparisons<D>(log: map<u64, Pairwise<D>>) {
    forall i, j :: i in log && j in log && KeyOf(log[i]) == KeyOf(log[j]) ==> i == j
  }

  /** The log files every comparison under its own id. */
  ghost predicate OwnIds<D>(log: map<u64, Pairwise<D>>) {
    forall i :: i in log ==> log[i].comparisonId == i
  }

  /** Each cell holds the logged comparison of greatest id for its pair. */
  ghost predicate HoldsLatest<D>(m: map<CellKey, Pairwise<D>>, log: map<u64, Pairwise<D>>) {
    Agreed(m, log) && forall k :: k in m ==> LatestId(log, m[k].comparisonId)
  }

  lemma RebuiltHoldsLatest<D>(log: map<u64, Pairwise<D>>, k: CellKey)
    requires OwnIds(log) && k in Rebuilt(log)
    ensures var c := Rebuilt(log)[k];
            KeyOf(c) == k && LatestId(log, c.comparisonId) && log[c.comparisonId] == c
  {
    var j := RebuiltFrom(log, k);
    var i := GreatestFor(log, j);
    RebuiltCell(log, i);
  }

  lemma LatestIsRebuilt<D>(m: map<CellKey, Pairwise<D>>, log: map<u64, Pairwise<D>>)
    requires Covered(m, log) && HoldsLatest(m, log)
    ensures Rebuilt(log) == m
  {
    RebuiltKeys(m, log);
    var r := Rebuilt(log);
    forall k | k in m ensures r[k] == m[k] {
      RebuiltCell(log, m[k].comparisonId);
    }
  }

  lemma RebuiltIsLatest<D>(log: map<u64, Pairwise<D>>)
    requires OwnIds(log)
    ensures HoldsLatest(Rebuilt(log), log)
  {
    forall k | k in Rebuilt(log)
      ensures var c := Rebuilt(log)[k]; KeyOf(c) == k && LatestId(log, c.comparisonId) && log[c.comparisonId] == c
    {
      RebuiltHoldsLatest(log, k);
    }
  }

  /** The rebuilt matrix is the matrix exactly when each cell holds its pair's comparison of greatest id. */
  lemma RebuiltExactly<D>(m: map<CellKey, Pairwise<D>>, log: map<u64, Pairwise<D>>)
    requires Covered(m, log) && OwnIds(log)
    ensures Rebuilt(log) == m <==> HoldsLatest(m, log)
  {
    if HoldsLatest(m, log) {
      LatestIsRebuilt(m, log);
    } else {
      RebuiltIsLatest(log);
    }
  }

  /** In particular when each pair has been compared under one id only. */
  lemma SingleIsLatest<D>(m: map<CellKey, Pairwise<D>>, log: map<u64, Pairwise<D>>)
    requires Agreed(m, log) && SingleComparisons(log)
    ensures HoldsLatest(m, log)
  {
    forall k | k in m ensures LatestId(log, m[k].comparisonId) {
    }
  }

  lemma AgreedCells<D>(m: map<CellKey, Pairwise<D>>, log: map<u64, Pairwise<D>>)
    requires Agreed(m, log) && Covered(m, log)
    ensures Rebuilt(log).Keys == m.Keys && (SingleComparisons(log) ==> Rebuilt(log) == m)
  {
    RebuiltKeys(m, log);
    if SingleComparisons(log) {
      SingleIsLatest(m, log);
      LatestIsRebuilt(m, log);
    }
  }

  /** Every rebuilt cell was a cell, whatever the ids. */
  lemma RebuiltWithin<D>(m: map<CellKey, Pairwise<D>>, log: map<u64, Pairwise<D>>)
    requires Covered(m, log)
    ensures Rebuilt(log).Keys <= m.Keys
  {
    forall k | k in Rebuilt(log) ensures k in m {
      var i := RebuiltFrom(log, k);
    }
  }

  // ---------- Adding the log's cells to others ----------

  /** Setting cells in order lays them over what was there. */
  lemma {:induction false} SetAllOver<D>(m: map<CellKey, Pairwise<D>>, ps: seq<Pairwise<D>>)
    ensures SetAll(m, ps) == m + SetAll(map[], ps)
    decreases |ps|
  {
    if ps == [] {
      assert m + map[] == m;
    } else {
      SetAllOver(m, ps[..|ps| - 1]);
    }
  }

  /** The pair has a logged comparison. */
  ghost predicate HasComparison<D>(log: map<u64, Pairwise<D>>, k: CellKey) {
    exists i :: i in log && KeyOf(log[i]) == k
  }

  lemma RebuiltPairs<D>(log: map<u64, Pairwise<D>>, k: CellKey)
    ensures k in Rebuilt(log) <==> HasComparison(log, k)
  {
    if k in Rebuilt(log) {
      var i := RebuiltFrom(log, k);
    }
    if HasComparison(log, k) {
      var c :| c in log && KeyOf(log[c]) == k;
      var i := GreatestFor(log, c);
      RebuiltCell(log, i);
    }
  }

  /** The cell of a pair that has comparisons is the one of greatest id. */
  ghost predicate LatestCell<D>(m: map<CellKey, Pairwise<D>>, log: map<u64, Pairwise<D>>, k: CellKey) {
    k in m && KeyOf(m[k]) == k && LatestId(log, m[k].comparisonId) && log[m[k].comparisonId] == m[k]
  }

  /** Both have the same cell, or none, under k. */
  predicate SameCell<D(==)>(a: map<CellKey, Pairwise<D>>, b: map<CellKey, Pairwise<D>>, k: CellKey) {
    (k in a <==> k in b) && (k in a ==> a[k] == b[k])
  }

  /** Pairs with comparisons hold the one of greatest id; the other cells are the ones found. */
  ghost predicate Recovers<D>(into: map<CellKey, Pairwise<D>>, m: map<CellKey, Pairwise<D>>,
                              log: map<u64, Pairwise<D>>)
  {
    forall k :: if HasComparison(log, k) then LatestCell(m, log, k) else SameCell(into, m, k)
  }

  lemma OverlaidCell<D>(into: map<CellKey, Pairwise<D>>, m: map<CellKey, Pairwise<D>>, log: map<u64, Pairwise<D>>,
                        k: CellKey)
    requires OwnIds(log)
    ensures SameCell(into + Rebuilt(log), m, k)
       <==> if HasComparison(log, k) then LatestCell(m, log, k) else SameCell(into, m, k)
  {
    RebuiltPairs(log, k);
    if k in Rebuilt(log) {
      RebuiltHoldsLatest(log, k);
      if LatestCell(m, log, k) {
        RebuiltCell(log, m[k].comparisonId);
      }
    }
  }

  /** Laying the rebuilt cells over any others gives a matrix exactly under that condition. */
  lemma OverlaidExactly<D>(into: map<CellKey, Pairwise<D>>, m: map<CellKey, Pairwise<D>>, log: map<u64, Pairwise<D>>)
    requires OwnIds(log)
    ensures into + Rebuilt(log) == m <==> Recovers(into, m, log)
  {
    var over := into + Rebuilt(log);
    forall k
      ensures SameCell(over, m, k) <==> if HasComparison(log, k) then LatestCell(m, log, k) else SameCell(into, m, k)
    {
      OverlaidCell(into, m, log, k);
    }
    SameCells(over, m);
  }

  lemma SameCells<D>(a: map<CellKey, Pairwise<D>>, b: map<CellKey, Pairwise<D>>)
    ensures a == b <==> forall k :: SameCell(a, b, k)
  {
    if forall k :: SameCell(a, b, k) {
      forall k ensures (k in a <==> k in b) && (k in a ==> a[k] == b[k]) {
        assert SameCell(a, b, k);
      }
    }
  }

  /** With an agreeing log: no cell too many was found, and each cell is the one of greatest id. */
  lemma RecoversAgreed<D>(into: map<CellKey, Pairwise<D>>, m: map<CellKey, Pairwise<D>>, log: map<u64, Pairwise<D>>)
    requires Agreed(m, log) && Covered(m, log)
    ensures Recovers(into, m, log) <==> into.Keys <= m.Keys && HoldsLatest(m, log)
  {
    forall k ensures HasComparison(log, k) <==> k in m {
    }
    if Recovers(into, m, log) {
      forall k | k in into ensures k in m {
        assert if HasComparison(log, k) then LatestCell(m, log, k) else SameCell(into, m, k);
      }
      forall k | k in m ensures LatestId(log, m[k].comparisonId) {
        assert LatestCell(m, log, k);
      }
    }
  }
}

/** Ingestion is append-only and does not depend on the order of arrival. */
module Ingestion {
  import opened Words
  import opened Domain
  import opened Comparison
  import opened Machine
  import opened Runs

  // ---------- First come, first stored ----------

  /** How one kind of record is taken in: which are acceptable, under which key, and in what form. */
  datatype Intake<!R(!new)> = Intake(ok: R -> bool, key: R -> u64, form: R -> R)

  function Insert<R(!new)>(t: Intake<R>, m: map<u64, R>, r: R): map<u64, R> {
    if !t.ok(r) || t.key(r) in m then m else m[t.key(r) := t.form(r)]
  }

  function InsertAll<R(!new)>(t: Intake<R>, m: map<u64, R>, rs: seq<R>): map<u64, R> {
    if rs == [] then m else Insert(t, InsertAll(t, m, rs[..|rs| - 1]), rs[|rs| - 1])
  }

  /** Acceptable records with one key are stored alike. */
  ghost predicate Consistent<R(!new)>(t: Intake<R>, rs: seq<R>) {
    forall r, s :: r in rs && s in rs && t.ok(r) && t.ok(s) && t.key(r) == t.key(s) ==> t.form(r) == t.form(s)
  }

  ghost predicate Offers<R(!new)>(t: Intake<R>, rs: seq<R>, k: u64, v: R) {
    exists r :: r in rs && t.ok(r) && t.key(r) == k && t.form(r) == v
  }

  /** The map holds what it held, and for every other key offered the record offered. */
  lemma {:induction false} InsertAllHolds<R(!new)>(t: Intake<R>, m: map<u64, R>, rs: seq<R>, k: u64)
    requires Consistent(t, rs)
    ensures k in m ==> k in InsertAll(t, m, rs) && InsertAll(t, m, rs)[k] == m[k]
    ensures k !in m && k in InsertAll(t, m, rs) ==> Offers(t, rs, k, InsertAll(t, m, rs)[k])
    ensures forall v :: Offers(t, rs, k, v) ==> k in InsertAll(t, m, rs)
    decreases |rs|
  {
    if rs != [] {
      var n := |rs| - 1;
      assert rs == rs[..n] + [rs[n]];
      InsertAllHolds(t, m, rs[..n], k);
      var before := InsertAll(t, m, rs[..n]);
      if k !in m && k in before {
        assert Offers(t, rs, k, before[k]);
      }
      forall v | Offers(t, rs, k, v) ensures k in InsertAll(t, m, rs) {
        var r :| r in rs && t.ok(r) && t.key(r) == k && t.form(r) == v;
        assert r in rs[..n] ==> Offers(t, rs[..n], k, v);
      }
    }
  }

  lemma OfferedOnce<R(!new)>(t: Intake<R>, rs: seq<R>, k: u64, v: R, w: R)
    requires Consistent(t, rs) && Offers(t, rs, k, v) && Offers(t, rs, k, w)
    ensures v == w
  {
  }

  /** Two orders, two multiplicities: the same records leave the same map. */
  lemma InsertAllConfluent<R(!new)>(t: Intake<R>, m: map<u64, R>, xs: seq<R>, ys: seq<R>)
    requires Consistent(t, xs) && forall r :: r in xs <==> r in ys
    ensures InsertAll(t, m, xs) == InsertAll(t, m, ys)
  {
    var a, b := InsertAll(t, m, xs), InsertAll(t, m, ys);
    forall k ensures (k in a <==> k in b) && (k in a ==> a[k] == b[k]) {
      InsertAllHolds(t, m, xs, k);
      InsertAllHolds(t, m, ys, k);
      SameOffers(t, xs, ys, k);
      if k in a && k !in m {
        OfferedOnce(t, xs, k, a[k], b[k]);
      }
    }
  }

  lemma SameOffers<R(!new)>(t: Intake<R>, xs: seq<R>, ys: seq<R>, k: u64)
    requires forall r :: r in xs <==> r in ys
    ensures forall v :: Offers(t, xs, k, v) <==> Offers(t, ys, k, v)
  {
    forall v ensures Offers(t, xs, k, v) <==> Offers(t, ys, k, v) {
      if Offers(t, xs, k, v) {
        var r :| r in xs && t.ok(r) && t.key(r) == k && t.form(r) == v;
        assert r in ys;
      }
      if Offers(t, ys, k, v) {
        var r :| r in ys && t.ok(r) && t.key(r) == k && t.form(r) == v;
        assert r in xs;
      }
    }
  }

  // ---------- Observations ----------

  const OBSERVATIONS: Intake<Observation<real>> :=
    Intake((o: Observation<real>) => Recordable(o), (o: Observation<real>) => o.id, (o: Observation<real>) => o)

  function Recorded(ops: seq<Op>): seq<Observation<real>> {
    if ops == [] then []
    else Recorded(ops[..|ops| - 1]) + if ops[|ops| - 1].Record? then [ops[|ops| - 1].observation] else []
  }

  lemma {:induction false} RunRecords(judge: Judge, st: Observatory, ops: seq<Op>)
    ensures Run(judge, st, ops).observations == InsertAll(OBSERVATIONS, st.observations, Recorded(ops))
  {
    if ops != [] {
      var n := |ops| - 1;
      RunRecords(judge, st, ops[..n]);
      if ops[n].Record? {
        InsertLast(OBSERVATIONS, st.observations, Recorded(ops[..n]), ops[n].observation);
      } else {
        assert Recorded(ops) == Recorded(ops[..n]);
      }
    }
  }

  lemma InsertLast<R(!new)>(t: Intake<R>, m: map<u64, R>, rs: seq<R>, r: R)
    ensures InsertAll(t, m, rs + [r]) == Insert(t, InsertAll(t, m, rs), r)
  {
    assert (rs + [r])[..|rs|] == rs;
  }

  /** Stored observations never change, in any run. */
  lemma {:induction false} ObservationsAppendOnly(judge: Judge, st: Observatory, ops: seq<Op>, i: u64)
    requires i in st.observations
    ensures i in Run(judge, st, ops).observations && Run(judge, st, ops).observations[i] == st.observations[i]
  {
    if ops != [] {
      ObservationsAppendOnly(judge, st, ops[..|ops| - 1], i);
    }
  }

  /**
    Runs that record the same observations, in any order, any number of times and interleaved with
    anything else, end with the same observations, provided that records with one id are equal.
   */
  lemma ObservationsConfluent(judge: Judge, st: Observatory, xs: seq<Op>, ys: seq<Op>)
    requires Consistent(OBSERVATIONS, Recorded(xs)) && forall o :: o in Recorded(xs) <==> o in Recorded(ys)
    ensures Run(judge, st, xs).observations == Run(judge, st, ys).observations
  {
    RunRecords(judge, st, xs);
    RunRecords(judge, st, ys);
    InsertAllConfluent(OBSERVATIONS, st.observations, Recorded(xs), Recorded(ys));
  }

  // ---------- Baselines ----------

  const BASELINES: Intake<Baseline<real>> :=
    Intake((b: Baseline<real>) => Fault(b) == Ok, (b: Baseline<real>) => b.id, (b: Baseline<real>) => Stored(b))

  function Published(ops: seq<Op>): seq<Baseline<real>> {
    if ops == [] then []
    else Published(ops[..|ops| - 1]) + if ops[|ops| - 1].Publish? then [ops[|ops| - 1].baseline] else []
  }

  /** No operation changes the epoch; setting the current one again does not. */
  predicate SameEpoch(epoch: u64, ops: seq<Op>) {
    forall i :: 0 <= i < |ops| && ops[i].Epoch? ==> ops[i].epoch == epoch
  }

  lemma {:induction false} EpochStays(judge: Judge, st: Observatory, ops: seq<Op>)
    requires SameEpoch(st.epoch, ops)
    ensures Run(judge, st, ops).epoch == st.epoch
  {
    if ops != [] {
      EpochStays(judge, st, ops[..|ops| - 1]);
    }
  }

  /** Step i of the run changes the epoch. */
  predicate ChangesEpochAt(judge: Judge, st: Observatory, ops: seq<Op>, i: nat)
    requires i < |ops|
  {
    NewEpoch(Run(judge, st, ops[..i]), ops[i])
  }

  lemma {:induction false} SteadyIsSame(judge: Judge, st: Observatory, ops: seq<Op>)
    requires forall i: nat :: i < |ops| ==> !ChangesEpochAt(judge, st, ops, i)
    ensures SameEpoch(st.epoch, ops)
  {
    if ops != [] {
      var n := |ops| - 1;
      forall i: nat | i < n ensures !ChangesEpochAt(judge, st, ops[..n], i) {
        assert ops[..n][..i] == ops[..i];
        assert !ChangesEpochAt(judge, st, ops, i);
      }
      SteadyIsSame(judge, st, ops[..n]);
      EpochStays(judge, st, ops[..n]);
      assert !ChangesEpochAt(judge, st, ops, n);
    }
  }

  /** These are exactly the runs without an effective epoch change. */
  lemma SameEpochExactly(judge: Judge, st: Observatory, ops: seq<Op>)
    ensures SameEpoch(st.epoch, ops) <==> forall i: nat :: i < |ops| ==> !ChangesEpochAt(judge, st, ops, i)
  {
    if SameEpoch(st.epoch, ops) {
      forall i: nat | i < |ops| ensures !ChangesEpochAt(judge, st, ops, i) {
        EpochStays(judge, st, ops[..i]);
      }
    } else if forall i: nat :: i < |ops| ==> !ChangesEpochAt(judge, st, ops, i) {
      SteadyIsSame(judge, st, ops);
    }
  }

  lemma {:induction false} RunPublishes(judge: Judge, st: Observatory, ops: seq<Op>)
    requires SameEpoch(st.epoch, ops)
    ensures Run(judge, st, ops).baselines == InsertAll(BASELINES, st.baselines, Published(ops))
  {
    if ops != [] {
      var n := |ops| - 1;
      RunPublishes(judge, st, ops[..n]);
      EpochStays(judge, st, ops[..n]);
      if ops[n].Publish? {
        InsertLast(BASELINES, st.baselines, Published(ops[..n]), ops[n].baseline);
      } else {
        assert Published(ops) == Published(ops[..n]);
      }
    }
  }

  /** While the epoch stands, neither does publication order matter, nor therefore which baseline is selected. */
  lemma BaselinesConfluent(judge: Judge, st: Observatory, xs: seq<Op>, ys: seq<Op>)
    requires SameEpoch(st.epoch, xs) && SameEpoch(st.epoch, ys)
    requires Consistent(BASELINES, Published(xs)) && forall b :: b in Published(xs) <==> b in Published(ys)
    ensures Run(judge, st, xs).baselines == Run(judge, st, ys).baselines
    ensures forall w :: Selected(Run(judge, st, xs).baselines, w) == Selected(Run(judge, st, ys).baselines, w)
  {
    RunPublishes(judge, st, xs);
    RunPublishes(judge, st, ys);
    InsertAllConfluent(BASELINES, st.baselines, Published(xs), Published(ys));
  }

  // ---------- Answers ----------

  /** The record can carry a comparison at all. */
  predicate Substantial(b: Baseline<real>) {
    b.valid && b.sampleCount > 0 && b.confidence > 0.0 && b.mean >= 0.0
  }

  /** Its figures are in range and its metric is one of the nine. */
  predicate WellFormed(b: Baseline<real>) {
    b.confidence <= 1.0 && b.variance >= 0.0 && b.metric in
      {MetricKind.Latency, MetricKind.Throughput, MetricKind.DeviceTime, MetricKind.TransferTime,
       MetricKind.CollectiveTime, MetricKind.StallTime, MetricKind.MemoryBandwidth, MetricKind.TailLatency,
       MetricKind.CompletionRate}
  }

  /** Another baseline is stored under the id: one of five fields differs. */
  predicate Conflicts(m: map<u64, Baseline<real>>, b: Baseline<real>) {
    b.id in m &&
    var a := m[b.id];
    !(a.generation == b.generation && a.workloadId == b.workloadId && a.deviceId == b.deviceId && a.mean == b.mean
      && a.sampleCount == b.sampleCount)
  }

  /** When a publication gets each of its three answers. */
  lemma PublicationAnswers(m: map<u64, Baseline<real>>, b: Baseline<real>)
    ensures PublishStatus(m, b) == InsufficientEvidence <==> b.id != 0 && b.generation != 0 && !Substantial(b)
    ensures PublishStatus(m, b) == InvalidInput
       <==> b.id == 0 || b.generation == 0 || (Substantial(b) && (!WellFormed(b) || Conflicts(m, b)))
    ensures PublishStatus(m, b) == Ok
       <==> b.id != 0 && b.generation != 0 && Substantial(b) && WellFormed(b) && !Conflicts(m, b)
  {
  }

  /** Only a first publication that is acknowledged is stored; an unknown freshness becomes Current. */
  lemma PublicationStores(judge: Judge, st: Observatory, b: Baseline<real>)
    ensures var t := Step(judge, st, Publish(b)).baselines;
            && (PublishStatus(st.baselines, b) == Ok && b.id !in st.baselines ==>
                  && t.Keys == st.baselines.Keys + {b.id} && (forall i :: i in st.baselines ==> t[i] == st.baselines[i])
                  && t[b.id] == b.(freshness := t[b.id].freshness)
                  && t[b.id].freshness == if b.freshness == Freshness.Unknown then Freshness.Current else b.freshness)
            && (PublishStatus(st.baselines, b) != Ok || b.id in st.baselines ==> t == st.baselines)
  {
  }

  /** When an observation is acknowledged, and what is stored. */
  lemma RecordAnswers(judge: Judge, st: Observatory, o: Observation<real>)
    ensures var m, t := st.observations, Step(judge, st, Record(o)).observations;
            && (RecordStatus(m, o) == Ok <==>
                  && o.id != 0 && o.generation != 0 && o.workloadId != 0
                  && o.measurement.value >= 0.0 && o.measurement.sampleCount > 0 && o.measurement.variance >= 0.0
                  && (o.id in m ==> m[o.id].timestampMs == o.timestampMs && m[o.id].workloadId == o.workloadId
                                    && m[o.id].measurement.value == o.measurement.value))
            && (RecordStatus(m, o) != Ok ==> RecordStatus(m, o) == InvalidInput)
            && t == (if RecordStatus(m, o) == Ok && o.id !in m then m[o.id := o] else m)
  {
  }

  // ---------- Duplicates ----------

  /** A second record under a known id is answered by three fields alone; the stored one stays. */
  lemma DuplicateObservation(m: map<u64, Observation<real>>, o: Observation<real>)
    requires o.id in m && Recordable(o)
    ensures RecordObservation(m, o) == m
    ensures RecordStatus(m, o) == Ok <==>
              m[o.id].timestampMs == o.timestampMs && m[o.id].measurement.value == o.measurement.value
              && m[o.id].workloadId == o.workloadId
  {
  }

  /** So an acknowledged record need not be there later: it is, exactly when no other one was stored before. */
  lemma AcknowledgedIsStored(judge: Judge, st: Observatory, o: Observation<real>, ops: seq<Op>)
    requires RecordStatus(st.observations, o) == Ok
    ensures var later := Run(judge, Step(judge, st, Record(o)), ops);
            && o.id in later.observations
            && (later.observations[o.id] == o <==> o.id !in st.observations || st.observations[o.id] == o)
  {
    ObservationsAppendOnly(judge, Step(judge, st, Record(o)), ops, o.id);
  }

  /** So a record that agrees with the stored one in the three fields and in not all is acknowledged and never there. */
  lemma AcknowledgedButDropped(judge: Judge, st: Observatory, o: Observation<real>, ops: seq<Op>)
    requires o.id in st.observations && Recordable(o)
    requires SameObservation(st.observations[o.id], o) && st.observations[o.id] != o
    ensures RecordStatus(st.observations, o) == Ok && Step(judge, st, Record(o)) == st
    ensures var later := Run(judge, st, ops).observations; o.id in later && later[o.id] != o
  {
    ObservationsAppendOnly(judge, st, ops, o.id);
  }

  /** Equal but for the freshness, which the observatory may change. */
  predicate SameReference(a: Baseline<real>, b: Baseline<real>) {
    b == a.(freshness := b.freshness)
  }

  lemma PublishedFirst(judge: Judge, st: Observatory, b: Baseline<real>)
    requires PublishStatus(st.baselines, b) == Ok
    ensures var after := Step(judge, st, Publish(b)).baselines;
            b.id in after && after[b.id] == if b.id in st.baselines then st.baselines[b.id] else Stored(b)
  {
  }

  /** Likewise an acknowledged baseline, up to its freshness: five fields are compared. */
  lemma AcknowledgedBaseline(judge: Judge, st: Observatory, b: Baseline<real>, ops: seq<Op>)
    requires PublishStatus(st.baselines, b) == Ok
    ensures var later := Run(judge, Step(judge, st, Publish(b)), ops).baselines;
            && b.id in later
            && (SameReference(later[b.id], b) <==> b.id !in st.baselines || SameReference(st.baselines[b.id], b))
  {
    PublishedFirst(judge, st, b);
    BaselinesRun(judge, Step(judge, st, Publish(b)), ops);
  }

  lemma BaselineButDropped(judge: Judge, st: Observatory, b: Baseline<real>, ops: seq<Op>)
    requires b.id in st.baselines && Fault(b) == Ok
    requires SameBaseline(st.baselines[b.id], b) && !SameReference(st.baselines[b.id], b)
    ensures PublishStatus(st.baselines, b) == Ok && Step(judge, st, Publish(b)) == st
    ensures var later := Run(judge, st, ops).baselines; b.id in later && !SameReference(later[b.id], b)
  {
    BaselinesRun(judge, st, ops);
  }
}

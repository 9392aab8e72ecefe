/** What registrations and epoch changes leave behind, record by record and over whole runs. */
module Registries {
  import opened Words
  import opened Domain
  import opened Machine
  import opened Ingestion

  // ---------- One epoch change ----------

  /** An effective epoch change touches the freshness of a source and nothing else of it. */
  lemma SourceMeetsEpoch(judge: Judge, st: Observatory, e: u64, i: u64)
    requires e != st.epoch && i in st.sources
    ensures var s, t := st.sources[i], Step(judge, st, Epoch(e)).sources;
            && i in t && t[i].generation == s.generation && t[i].name == s.name && t[i].caps == s.caps
            && (t[i].freshness == Freshness.Historical <==> s.freshness == Freshness.Historical)
            && (s.freshness != Freshness.Historical ==> t[i].freshness == Freshness.RevalidationRequired)
  {
  }

  /** It disconnects a worker and keeps the rest of it. */
  lemma WorkerMeetsEpoch(judge: Judge, st: Observatory, e: u64, i: u64)
    requires e != st.epoch && i in st.workers
    ensures var w, t := st.workers[i], Step(judge, st, Epoch(e)).workers;
            i in t && t[i].boot == w.boot && t[i].name == w.name && !t[i].connected
  {
  }

  /** No epoch change will touch it again. */
  predicate Settled(b: Baseline<real>) {
    || b.kind == BaselineType.HistoricalIsolated
    || b.freshness == Freshness.Historical || b.freshness == Freshness.RevalidationRequired
  }

  lemma SettledStep(judge: Judge, st: Observatory, op: Op, i: u64)
    requires i in st.baselines && Settled(st.baselines[i])
    ensures i in Step(judge, st, op).baselines && Step(judge, st, op).baselines[i] == st.baselines[i]
  {
  }

  lemma {:induction false} SettledRun(judge: Judge, st: Observatory, ops: seq<Op>, i: u64)
    requires i in st.baselines && Settled(st.baselines[i])
    ensures i in Run(judge, st, ops).baselines && Run(judge, st, ops).baselines[i] == st.baselines[i]
  {
    if ops != [] {
      var n := |ops| - 1;
      SettledRun(judge, st, ops[..n], i);
      SettledStep(judge, Run(judge, st, ops[..n]), ops[n], i);
    }
  }

  /**
    However the run goes on, a baseline that met an effective epoch change requires revalidation at
    the end exactly when it did before, or was neither of the historical type nor marked historical;
    otherwise it is as it was.
   */
  lemma BaselineMeetsEpoch(judge: Judge, st: Observatory, e: u64, after: seq<Op>, i: u64)
    requires e != st.epoch && i in st.baselines
    ensures var b, t := st.baselines[i], Run(judge, Step(judge, st, Epoch(e)), after).baselines;
            && i in t && t[i] == b.(freshness := t[i].freshness)
            && (t[i].freshness == Freshness.RevalidationRequired <==>
                  || b.freshness == Freshness.RevalidationRequired
                  || (b.kind != BaselineType.HistoricalIsolated && b.freshness != Freshness.Historical))
            && (t[i].freshness != Freshness.RevalidationRequired ==> t[i] == b)
  {
    SettledRun(judge, Step(judge, st, Epoch(e)), after, i);
  }

  // ---------- Sources over runs ----------

  /** The step registers this source, under a generation that is not nil. */
  predicate Registers(op: Op, i: u64) {
    op.NewSource? && op.id == i && i != 0 && op.generation != 0
  }

  predicate Unregistered(ops: seq<Op>, i: u64) {
    forall j :: 0 <= j < |ops| ==> !Registers(ops[j], i)
  }

  /** Some step of the run changes the epoch. */
  ghost predicate Changes(judge: Judge, st: Observatory, ops: seq<Op>) {
    exists j: nat :: j < |ops| && ChangesEpochAt(judge, st, ops, j)
  }

  lemma ChangesLast(judge: Judge, st: Observatory, ops: seq<Op>)
    requires ops != []
    ensures var n := |ops| - 1;
            Changes(judge, st, ops) <==> Changes(judge, st, ops[..n]) || ChangesEpochAt(judge, st, ops, n)
  {
    var n := |ops| - 1;
    if Changes(judge, st, ops) {
      var j: nat :| j < |ops| && ChangesEpochAt(judge, st, ops, j);
      if j < n {
        assert ops[..n][..j] == ops[..j];
        assert ChangesEpochAt(judge, st, ops[..n], j);
      }
    }
    if Changes(judge, st, ops[..n]) {
      var j: nat :| j < n && ChangesEpochAt(judge, st, ops[..n], j);
      assert ops[..n][..j] == ops[..j];
      assert ChangesEpochAt(judge, st, ops, j);
    }
  }

  /** What becomes of a source that nobody registers again. */
  function Lapsed(s: Source, changed: bool): Source {
    s.(freshness := if changed
      && s.freshness != Freshness.Historical then Freshness.RevalidationRequired else s.freshness)
  }

  lemma SourceStep(judge: Judge, st: Observatory, op: Op, i: u64)
    requires i in st.sources && !Registers(op, i)
    ensures i in Step(judge, st, op).sources
    ensures Step(judge, st, op).sources[i] == Lapsed(st.sources[i], NewEpoch(st, op))
  {
  }

  /**
    A source that is not registered in a run keeps everything but its freshness, and loses that
    exactly when the epoch changes: it then requires revalidation, unless it was historical.
   */
  lemma {:induction false} SourceLapses(judge: Judge, st: Observatory, ops: seq<Op>, i: u64)
    requires i in st.sources && Unregistered(ops, i)
    ensures i in Run(judge, st, ops).sources
    ensures Run(judge, st, ops).sources[i] == Lapsed(st.sources[i], Changes(judge, st, ops))
  {
    if ops != [] {
      var n := |ops| - 1;
      SourceLapses(judge, st, ops[..n], i);
      ChangesLast(judge, st, ops);
      SourceStep(judge, Run(judge, st, ops[..n]), ops[n], i);
    }
  }

  /** The three answers to a registration, and what is stored. */
  lemma SourceRegistered(judge: Judge, st: Observatory, id: u64, generation: u64, name: Text, caps: Capabilities)
    ensures var status := SourceStatus(st.sources, id, generation);
            var known := id in st.sources && st.sources[id].generation != generation;
            var t := Step(judge, st, NewSource(id, generation, name, caps)).sources;
            && (status == InvalidInput <==> id == 0 || generation == 0)
            && (status == StaleAuthority <==> id != 0 && generation != 0 && known)
            && (status == Ok <==> id != 0 && generation != 0 && !known)
            && (id == 0 || generation == 0 ==> t == st.sources)
            && (id != 0 && generation != 0 ==>
                  && t.Keys == st.sources.Keys + {id}
                    && (forall i :: i in st.sources && i != id ==> t[i] == st.sources[i])
                  && t[id].generation == generation && t[id].name == name && t[id].caps == caps
                  && t[id].freshness == if known then Freshness.RevalidationRequired else Freshness.Current)
  {
  }

  /**
    After its last registration in a run a source has the generation, name and capabilities given
    there. It is Current exactly when that registration did not change a known generation and no
    epoch change came after it, and requires revalidation otherwise.
   */
  lemma SourceAtEnd(judge: Judge, st: Observatory, ops: seq<Op>, i: u64, n: nat)
    requires n < |ops| && Registers(ops[n], i) && Unregistered(ops[n + 1..], i)
    ensures var before, op := Run(judge, st, ops[..n]), ops[n];
            var known := i in before.sources && before.sources[i].generation != op.generation;
            var lapsed := known || Changes(judge, Step(judge, before, op), ops[n + 1..]);
            && i in Run(judge, st, ops).sources
            && Run(judge, st, ops).sources[i]
                 == Source(op.generation, op.name, op.caps, if lapsed
                   then Freshness.RevalidationRequired else Freshness.Current)
  {
    var before, op := Run(judge, st, ops[..n]), ops[n];
    SourceRegistered(judge, before, i, op.generation, op.name, op.caps);
    SourceLapses(judge, Step(judge, before, op), ops[n + 1..], i);
    RunSplits(judge, st, ops, n);
  }

  lemma RunSplits(judge: Judge, st: Observatory, ops: seq<Op>, n: nat)
    requires n < |ops|
    ensures Run(judge, st, ops) == Run(judge, Step(judge, Run(judge, st, ops[..n]), ops[n]), ops[n + 1..])
  {
    assert ops == ops[..n + 1] + ops[n + 1..];
    RunAppend(judge, st, ops[..n + 1], ops[n + 1..]);
    assert ops[..n + 1][..n] == ops[..n];
  }

  // ---------- Workers over runs ----------

  predicate Boots(op: Op, i: u64) {
    op.NewWorker? && op.id == i && i != 0 && op.boot != 0
  }

  predicate Unbooted(ops: seq<Op>, i: u64) {
    forall j :: 0 <= j < |ops| ==> !Boots(ops[j], i)
  }

  function Dropped(w: Worker, changed: bool): Worker {
    w.(connected := w.connected && !changed)
  }

  lemma WorkerStep(judge: Judge, st: Observatory, op: Op, i: u64)
    requires i in st.workers && !Boots(op, i)
    ensures i in Step(judge, st, op).workers
    ensures Step(judge, st, op).workers[i] == Dropped(st.workers[i], NewEpoch(st, op))
  {
  }

  lemma {:induction false} WorkerDrops(judge: Judge, st: Observatory, ops: seq<Op>, i: u64)
    requires i in st.workers && Unbooted(ops, i)
    ensures i in Run(judge, st, ops).workers
    ensures Run(judge, st, ops).workers[i] == Dropped(st.workers[i], Changes(judge, st, ops))
  {
    if ops != [] {
      var n := |ops| - 1;
      WorkerDrops(judge, st, ops[..n], i);
      ChangesLast(judge, st, ops);
      WorkerStep(judge, Run(judge, st, ops[..n]), ops[n], i);
    }
  }

  lemma WorkerRegistered(judge: Judge, st: Observatory, id: u64, boot: u64, name: Text, connected: bool)
    ensures var status := WorkerStatus(st.workers, id, boot);
            var rebooted := id in st.workers && st.workers[id].boot != boot;
            var t := Step(judge, st, NewWorker(id, boot, name, connected)).workers;
            && (status == InvalidInput <==> id == 0 || boot == 0)
            && (status == StaleAuthority <==> id != 0 && boot != 0 && rebooted)
            && (status == Ok <==> id != 0 && boot != 0 && !rebooted)
            && (id == 0 || boot == 0 ==> t == st.workers)
            && (id != 0 && boot != 0 ==>
                  && t.Keys == st.workers.Keys + {id}
                    && (forall i :: i in st.workers && i != id ==> t[i] == st.workers[i])
                  && t[id].boot == boot && t[id].name == name && t[id].connected == connected)
  {
  }

  /**
    After its last registration in a run a worker has the boot id and name given there, and is
    connected exactly when it registered so and no epoch change came after.
   */
  lemma WorkerAtEnd(judge: Judge, st: Observatory, ops: seq<Op>, i: u64, n: nat)
    requires n < |ops| && Boots(ops[n], i) && Unbooted(ops[n + 1..], i)
    ensures var before, op := Run(judge, st, ops[..n]), ops[n];
            && i in Run(judge, st, ops).workers
            && Run(judge, st, ops).workers[i]
                 == Worker(op.boot, op.name, op.connected && !Changes(judge, Step(judge, before, op), ops[n + 1..]))
  {
    var before, op := Run(judge, st, ops[..n]), ops[n];
    WorkerRegistered(judge, before, i, op.boot, op.name, op.connected);
    WorkerDrops(judge, Step(judge, before, op), ops[n + 1..], i);
    RunSplits(judge, st, ops, n);
  }

  // ---------- Workloads ----------

  predicate Describes(op: Op, i: u64) {
    op.NewWorkload? && op.workload.id == i && i != 0 && op.workload.generation != 0
  }

  /** A workload is the last one registered under its id, or the one from the start. */
  lemma {:induction false} WorkloadAtEnd(judge: Judge, st: Observatory, ops: seq<Op>, i: u64, n: nat)
    requires n <= |ops| && forall j :: n <= j < |ops| ==> !Describes(ops[j], i)
    ensures n > 0 && Describes(ops[n - 1], i) ==>
              i in Run(judge, st, ops).workloads && Run(judge, st, ops).workloads[i] == ops[n - 1].workload
    ensures n == 0 ==> (i in Run(judge, st, ops).workloads <==> i in st.workloads)
    ensures n == 0 && i in st.workloads ==> Run(judge, st, ops).workloads[i] == st.workloads[i]
    decreases |ops|
  {
    if n < |ops| {
      WorkloadAtEnd(judge, st, ops[..|ops| - 1], i, n);
    }
  }

  /** A new observatory is at epoch 1: setting that changes nothing, setting any other is a change. */
  lemma FirstEpoch(judge: Judge, id: u64, generation: u64, e: u64)
    ensures Fresh<real>(id, generation).epoch == 1 && Fresh<real>(id, generation).id == id
    ensures Fresh<real>(id, generation).generation == generation
    ensures ChangesEpochAt(judge, Fresh(id, generation), [Epoch(e)], 0) <==> e != 1
  {
    assert [Epoch(e)][..0] == [];
  }
}

/** The observatory as a state machine: every locked operation is one step. */
module Machine {
  import opened Words
  import opened Domain
  import opened Comparison

  type Observatory = State<real>

  /** The arguments of one call of `compare`. */
  datatype Request = Request(
    affected: Workload, associated: Workload, domain: InterferenceDomain, obs: Batch, policy: Policy)
  {
    function Key(): CellKey {
      CellKey(affected.id, associated.id, domain)
    }
  }

  datatype Op =
    | Epoch(epoch: u64)
    | NewSource(id: u64, generation: u64, name: Text, caps: Capabilities)
    | NewWorker(id: u64, boot: u64, name: Text, connected: bool)
    | NewWorkload(workload: Workload)
    | Publish(baseline: Baseline<real>)
    | Record(observation: Observation<real>)
    | Recover(key: CellKey)
    | Ask(request: Request)

  // ---------- Epochs ----------

  /** Baselines of the historical type and those marked historical keep their freshness. */
  function Revalidate(b: Baseline<real>): Baseline<real> {
    b.(freshness := if b.kind == BaselineType.HistoricalIsolated || b.freshness == Freshness.Historical
                    then b.freshness else Freshness.RevalidationRequired)
  }

  function RevalidateSource(s: Source): Source {
    s.(freshness := if s.freshness == Freshness.Historical then s.freshness else Freshness.RevalidationRequired)
  }

  function RevalidateAll(m: map<u64, Baseline<real>>): map<u64, Baseline<real>> {
    map i | i in m :: Revalidate(m[i])
  }

  function RevalidateSources(m: map<u64, Source>): map<u64, Source> {
    map i | i in m :: RevalidateSource(m[i])
  }

  function Disconnect(m: map<u64, Worker>): map<u64, Worker> {
    map i | i in m :: m[i].(connected := false)
  }

  // ---------- Registration ----------

  function SourceStatus(m: map<u64, Source>, id: u64, generation: u64): Status {
    if id == 0 || generation == 0 then InvalidInput
    else if id in m && m[id].generation != generation then StaleAuthority
    else Ok
  }

  /** A source that comes back with another generation has to be revalidated. */
  function RegisterSource(m: map<u64, Source>, id: u64, generation: u64,
                          name: Text, caps: Capabilities): map<u64, Source>
  {
    match SourceStatus(m, id, generation)
    case StaleAuthority => m[id := Source(generation, name, caps, Freshness.RevalidationRequired)]
    case Ok => m[id := Source(generation, name, caps, Freshness.Current)]
    case _ => m
  }

  function WorkerStatus(m: map<u64, Worker>, id: u64, boot: u64): Status {
    if id == 0 || boot == 0 then InvalidInput
    else if id in m && m[id].boot != boot then StaleAuthority
    else Ok
  }

  function RegisterWorker(m: map<u64, Worker>, id: u64, boot: u64, name: Text, connected: bool): map<u64, Worker> {
    if id == 0 || boot == 0 then m else m[id := Worker(boot, name, connected)]
  }

  function RegisterWorkload(m: map<u64, Workload>, w: Workload): map<u64, Workload> {
    if w.id == 0 || w.generation == 0 then m else m[w.id := w]
  }

  // ---------- Evidence ----------

  /** Everything but a clash of ids that keeps a baseline out. */
  function Fault(b: Baseline<real>): Status {
    if b.id == 0 || b.generation == 0 then InvalidInput
    else if !Usable(b) then InsufficientEvidence
    else if b.confidence > 1.0 || b.variance < 0.0 || !b.metric.Named() then InvalidInput
    else Ok
  }

  /** The fields that make a second publication count as the same baseline. */
  predicate SameBaseline(a: Baseline<real>, b: Baseline<real>) {
    && a.generation == b.generation && a.workloadId == b.workloadId && a.deviceId == b.deviceId
    && a.mean == b.mean && a.sampleCount == b.sampleCount
  }

  /** A baseline of unknown freshness is taken to be current. */
  function Stored(b: Baseline<real>): Baseline<real> {
    b.(freshness := if b.freshness == Freshness.Unknown then Freshness.Current else b.freshness)
  }

  function PublishStatus(m: map<u64, Baseline<real>>, b: Baseline<real>): Status {
    if Fault(b) != Ok then Fault(b)
    else if b.id in m && !SameBaseline(m[b.id], b) then InvalidInput
    else Ok
  }

  function PublishBaseline(m: map<u64, Baseline<real>>, b: Baseline<real>): map<u64, Baseline<real>> {
    if Fault(b) != Ok || b.id in m then m else m[b.id := Stored(b)]
  }

  predicate Recordable(o: Observation<real>) {
    o.id != 0 && o.generation != 0 && o.workloadId != 0 && ValidMeasurement(o.measurement)
  }

  predicate SameObservation(a: Observation<real>, b: Observation<real>) {
    a.timestampMs == b.timestampMs && a.measurement.value == b.measurement.value && a.workloadId == b.workloadId
  }

  function RecordStatus(m: map<u64, Observation<real>>, o: Observation<real>): Status {
    if !Recordable(o) || (o.id in m && !SameObservation(m[o.id], o)) then InvalidInput else Ok
  }

  function RecordObservation(m: map<u64, Observation<real>>, o: Observation<real>): map<u64, Observation<real>> {
    if !Recordable(o) || o.id in m then m else m[o.id := o]
  }

  predicate Nameable(k: CellKey) {
    k.victim != 0 && k.neighbor != 0
  }

  function RecordRecovery(s: set<CellKey>, k: CellKey): set<CellKey> {
    if Nameable(k) then s + {k} else s
  }

  // ---------- Comparison ----------

  ghost function Gated(st: Observatory, q: Request): Gate {
    GateOf(st.baselines, q.affected, q.obs, q.policy)
  }

  ghost predicate Admitted(st: Observatory, q: Request) {
    Gated(st, q).Admit?
  }

  /** What an admitted comparison logs. */
  ghost function Logged(digest: seq<u8> -> u64, st: Observatory, q: Request): Pairwise<real>
    requires Admitted(st, q)
  {
    Verdict(digest, st.epoch, q.Key() in st.recoveries, Gated(st, q).baseline, q.affected, q.associated.id,
            q.domain, q.obs, q.policy)
  }

  ghost function Opened(digest: seq<u8> -> u64, st: Observatory, q: Request): Episode<real>
    requires Admitted(st, q)
  {
    EpisodeFor(digest, Logged(digest, st, q), SourceOfEvidence(q.obs, q.affected.id), q.obs)
  }

  /** What `compare` returns: a refusal, or the logged verdict with its episode filled in. */
  ghost function Result(digest: seq<u8> -> u64, st: Observatory, q: Request): Pairwise<real> {
    match Gated(st, q)
    case Refuse(outcome, freshness, baselineId, n) =>
      Blank(st.epoch, q.affected.id, q.associated.id, q.domain)
        .(outcome := outcome, freshness := freshness, baselineId := baselineId, sampleCount := n)
    case Admit(_) =>
      var v := Logged(digest, st, q);
      if v.outcome.Indicated() then v.(episodeId := Opened(digest, st, q).id) else v
  }

  /** What `compare` does to the state: nothing, or one record to note with the episode it may open. */
  datatype Effect = Refused | Noted(record: Pairwise<real>, episode: Episode<real>)

  ghost function EffectOf(digest: seq<u8> -> u64, st: Observatory, q: Request): Effect {
    if Admitted(st, q) then Noted(Logged(digest, st, q), Opened(digest, st, q)) else Refused
  }

  function Log(m: map<u64, Pairwise<real>>, e: Effect): map<u64, Pairwise<real>> {
    if e.Noted? then m[e.record.comparisonId := e.record] else m
  }

  function SetCell(m: map<CellKey, Pairwise<real>>, e: Effect): map<CellKey, Pairwise<real>> {
    if e.Noted? then m[KeyOf(e.record) := e.record] else m
  }

  /** An episode is opened, or replaced, only when interference is indicated. */
  function OpenEpisode(m: map<u64, Episode<real>>, e: Effect): map<u64, Episode<real>> {
    if e.Noted? && e.record.outcome.Indicated() then m[e.episode.id := e.episode] else m
  }

  // ---------- Steps and runs ----------

  /** How comparisons are decided; the steps depend on nothing else about them. */
  type Judge = (Observatory, Request) -> Effect

  ghost function Judging(digest: seq<u8> -> u64): Judge {
    (st, q) => EffectOf(digest, st, q)
  }

  function EffectIn(judge: Judge, st: Observatory, op: Op): Effect {
    if op.Ask? then judge(st, op.request) else Refused
  }

  /** An epoch counts only when it differs from the current one; a lower one counts too. */
  predicate NewEpoch(st: Observatory, op: Op) {
    op.Epoch? && op.epoch != st.epoch
  }

  /** The state after one operation, collection by collection. */
  function Step(judge: Judge, st: Observatory, op: Op): Observatory {
    var e := EffectIn(judge, st, op);
    State(
      st.id, st.generation,
      if op.Epoch? then op.epoch else st.epoch,
      if NewEpoch(st, op) then RevalidateSources(st.sources)
        else if op.NewSource? then RegisterSource(st.sources, op.id, op.generation, op.name, op.caps) else st.sources,
      if NewEpoch(st, op) then Disconnect(st.workers)
        else if op.NewWorker? then RegisterWorker(st.workers, op.id, op.boot, op.name, op.connected) else st.workers,
      if op.NewWorkload? then RegisterWorkload(st.workloads, op.workload) else st.workloads,
      if NewEpoch(st, op) then RevalidateAll(st.baselines)
        else if op.Publish? then PublishBaseline(st.baselines, op.baseline) else st.baselines,
      if op.Record? then RecordObservation(st.observations, op.observation) else st.observations,
      OpenEpisode(st.episodes, e),
      Log(st.comparisons, e),
      SetCell(st.matrix, e),
      if op.Recover? then RecordRecovery(st.recoveries, op.key) else st.recoveries)
  }

  function Run(judge: Judge, st: Observatory, ops: seq<Op>): Observatory {
    if ops == [] then st else Step(judge, Run(judge, st, ops[..|ops| - 1]), ops[|ops| - 1])
  }

  lemma {:induction false} RunAppend(judge: Judge, st: Observatory, xs: seq<Op>, ys: seq<Op>)
    ensures Run(judge, st, xs + ys) == Run(judge, Run(judge, st, xs), ys)
    decreases |ys|
  {
    if ys == [] {
      assert xs + ys == xs;
    } else {
      RunAppend(judge, st, xs, ys[..|ys| - 1]);
      assert (xs + ys)[..|xs + ys| - 1] == xs + ys[..|ys| - 1];
    }
  }
}

# Interference Observatory: a verified model

The Interference Observatory stores baselines, observations and recoveries, compares a victim
workload's co-run samples with a reference, and keeps what it found as a log of comparisons, a
directed matrix and a set of episodes. It saves that state in a checksummed file and talks to its
workers over framed TCP messages. This project models those four parts and proves what they keep.

* **The state machine.** `Comparison` gives the meaning of one comparison, `Machine` the state after
  each operation, `Observing` the object whose methods do it in place, loop by loop. `Runs`,
  `History`, `Explanation`, `Ledger`, `Ingestion` and `Registries` prove what every run keeps;
  `Selection`, `Statistics`, `Grading`, `Confounding` and `Invariance` prove what a single verdict
  means, `Outcomes` carries that to what `compare` returns, and `Thresholds`, `Anatomy` and `Listing`
  say it field by field in the terms of the records that go in. `Identities` tells when content ids are sure to
  differ, and `Scenario` is one small run that disappoints four expectations.
* **The state payload.** `Codec` interprets formats exactly as the printer and the parser of the
  source do, sticky error flag and bounds included, and proves the codec laws once for every format;
  `Buffers` has the mutable writer and reader. `Records`, `Bounds`, `Ordering`, `StateCodec` and
  `Payload` apply them to the whole state; `FieldOrder` spells out the bytes of every
  record, `Sizes` measures them, and `Acceptance` tells what any accepted payload leaves behind.
* **The envelope and the digests.** `Crc` (CRC-32C of section 12.1 of RFC 3720), `Sealing`,
  `Syndromes`, `Headers` and `Envelope` give error detection; `Digest` is 64-bit FNV-1a;
  `KnownAnswers` has the values that fix their constants. `Storage` and
  `Reload` put payload, envelope, digest and state machine together.
* **The wire.** `Frames` rebuilds frames from arbitrarily split sends and receives; `Delimiting`
  lifts that to streams of frames; `Messages` has the two record messages; `Ids` parses identities.

Conventions. Doubles are reals in the state machine and 64-bit patterns in the codecs; `Reload.AsBits`
joins the two for any encoding of reals as patterns. Enumerations are bytes with named values, because
the decoders accept any byte. A comparison's `digest` is a parameter of the specification, so every
theorem about runs holds whatever the digest; the object uses FNV-1a. Each public operation holds one
lock from start to end, so an operation is one step.

Where the code and its comments part ways, the code is modelled:

* A comment calls a repeated observation idempotent when its content is identical; the code compares
  three fields (`Ingestion.DuplicateObservation`, `Ingestion.AcknowledgedIsStored`), and for a repeated
  baseline five (`Ingestion.AcknowledgedBaseline`).
* A comment says that advancing the epoch invalidates; any different epoch does, a lower one too, and
  baselines of the historical type keep their freshness (`Runs.EpochOutlives`).
* Loading neither clears the matrix nor notices unread bytes, and it is not undone when it fails: exactly
  the payloads that do not pass the version byte leave every state alone (`Payload.LoadKeepsCells`,
  `Payload.TrailingBytesUnread`, `Payload.LeavesAloneExactly`). So what an observatory in use gets back
  depends on the cells it had, in an exact way (`Reload.LoadsIntoExactly`).
* The writer takes strings that the reader refuses, so a save can succeed that no load accepts: exactly
  when the state is beyond the reader's limits (`Storage.FileRestores`, `Acceptance.SavedAndRefused`).
* A frame stores its checksum between the bytes that it covers, so four consecutive changed bytes can pass
  when they straddle it; the pattern of the change decides (`Frames.AlteredExactly`,
  `Frames.StraddlingBurst`). The envelope stores it at the end and has no such gap
  (`Envelope.BurstRejected`).
* Confidence falls as confounders are added, except exactly when a hard one joins more than nine soft
  kinds; the declared enumerators are too few for that, other bytes are not
  (`Confounding.MoreConfoundersExactly`, `Scenario.ConfidenceRises`).
* The outcome lies between the grades of the samples, except that without overlap it falls to no
  interference (`Outcomes.ResultBracketed`, `Scenario.OutsideTheBracket`).
* The matrix is not a function of the log, so a reload restores it exactly when each cell is its pair's
  comparison of greatest id (`Ledger.RebuiltExactly`, `Scenario.OneLogTwoMatrices`).
* A second neighbor's episode replaces the first's exactly when their ids are the same and the neighbors
  are not; over a run an episode is that of the last comparison that indicated interference under its id
  (`Outcomes.NeighborsShareEpisode`, `History.EpisodesAreIndicated`, `Scenario.EpisodeLost`).

## Model

| member | source | states |
|---|---|---|
| `Runs.InvariantRun` | src/observatory.cpp:288-524 | After any run every logged comparison and every cell is sound: classified, Current, its baseline still stored, confidence between 0 and that baseline's, one delta, attribution never DirectResourceEvidence, its id the content id; an indicated one has a known attribution and its episode exists |
| `Runs.EpochSafety` | src/observatory.cpp:158-173 | A classified comparison never rests on a baseline that was already stored at an effective epoch change, unless that baseline is HistoricalIsolated |
| `Runs.RevalidationIsPermanent` | src/observatory.cpp:235-249 | A baseline that is not Current never becomes Current again in any run, and RevalidationRequired stays so |
| `Runs.BaselinesRun` | src/observatory.cpp:163-166 | Stored baselines are frozen in every run except that their freshness may turn to RevalidationRequired |
| `Runs.LoggedFacts` | src/observatory.cpp:395-471 | What an admitted comparison logs: the requested key, the selected baseline, a classified outcome, bounded confidence and at least the policy's sample minimum |
| `Runs.EpochOutlives` | src/observatory.cpp:158-166 | Of the baselines that an effective epoch change met, exactly the HistoricalIsolated ones that were Current before are Current in any later state |
| `Runs.HistoricalIsFrozen` | src/observatory.cpp:163-166 | A HistoricalIsolated baseline never changes in any run |
| `Runs.WorkersReconnect` | src/observatory.cpp:170-172 | A worker that is connected after an effective epoch change has registered as connected since |
| `Runs.SourcesReregister` | src/observatory.cpp:167-169 | A source that is Current after an effective epoch change has registered with its present generation since |
| `Runs.EpochStep` | src/observatory.cpp:158-173 | An equal epoch changes nothing; a different one disconnects every worker and makes every source that is not Historical RevalidationRequired, the rest of it unchanged |
| `Registries.SourceMeetsEpoch` | src/observatory.cpp:167-169 | An effective epoch change keeps generation, name and capabilities of a source; its freshness stays Historical exactly if it was, and is RevalidationRequired otherwise |
| `Registries.WorkerMeetsEpoch` | src/observatory.cpp:170-172 | It disconnects a worker and keeps its boot id and name |
| `Registries.BaselineMeetsEpoch` | src/observatory.cpp:163-166 | At the end of any run after an effective epoch change, a baseline that met it is RevalidationRequired exactly when it was before or was neither HistoricalIsolated nor Historical, and otherwise is as it was |
| `Registries.SourceLapses` | src/observatory.cpp:158-194 | A source that is not registered in a run keeps all but its freshness, which becomes RevalidationRequired exactly when the epoch changes and it is not Historical |
| `Registries.SourceRegistered` | src/observatory.cpp:175-194 | When a registration is answered InvalidInput, StaleAuthority or Ok, and what it stores, a changed generation as RevalidationRequired |
| `Registries.SourceAtEnd` | src/observatory.cpp:158-194 | After its last registration in a run a source has what was given there, and is Current exactly when that did not change a known generation and no epoch change followed |
| `Registries.WorkerRegistered` | src/observatory.cpp:196-214 | The same three answers for workers, a changed boot id being StaleAuthority, and what is stored |
| `Registries.WorkerAtEnd` | src/observatory.cpp:158-214 | After its last registration in a run a worker has what was given there, and is connected exactly when it registered so and no epoch change followed |
| `Registries.WorkloadAtEnd` | src/observatory.cpp:216-221 | A workload is the last one registered under its id with a non-nil generation |
| `Registries.FirstEpoch` | src/observatory.cpp:132-150 | A new observatory is at epoch 1, so setting any other epoch is a change |
| `History.CompareFrame` | src/observatory.cpp:288-354 | A comparison either changes nothing and returns one of four refusals, or writes exactly one cell, one log entry and, only when indicated, one episode; the stored record lacks the episode id of the returned one |
| `History.CompareIdempotent` | src/observatory.cpp:473-488 | Repeating a comparison returns the same result and leaves the same state |
| `History.CellsAreCompared` | src/observatory.cpp:487-488 | Over any run a cell exists exactly when that directed pair and domain was compared and classified |
| `History.MatrixUnread` | src/observatory.cpp:288-524 | A run does the same whatever cells it starts with, and lays the cells it sets over them |
| `History.SameButCells` | src/observatory.cpp:288-524 | States that are equal apart from the matrix, as a saved and a reloaded one are, stay so in every run, give the same results of comparisons and agree on every cell that the run sets |
| `History.CounterfactualExact` | src/observatory.cpp:444-463 | Over any run an admitted comparison claims counterfactual evidence exactly when its samples overlap, no hard confounder is reported and that ordered recovery was recorded before |
| `History.AttributionLadder` | src/observatory.cpp:444-452 | Attribution is Unknown, with no interference reported, exactly without overlap; TemporallyAssociated exactly when two different hard confounders are reported; at most Correlated exactly when one is |
| `History.RecoveryHistory` | src/observatory.cpp:281-286 | A recovery is known exactly when it was recorded with non-nil workloads |
| `History.RecoveryOnlyUpgrades` | src/observatory.cpp:454-462 | Recording a recovery changes nothing in the same comparison's result but an attribution from ControlledComparison to StrongCounterfactualEvidence |
| `History.EpisodeReplaced` | src/observatory.cpp:490-520 | After two indicated comparisons both episode ids are there and the second's holds its episode; the first's holds its episode exactly when the ids differ or the episodes are equal, and still names its neighbor exactly when the ids differ or the neighbors do not |
| `History.EpisodesAreIndicated` | src/observatory.cpp:490-520 | Over any run an episode is there exactly when it was at the start or some comparison indicated interference under its id, and it records victim, neighbor, domain, baseline, class and confidence of the last such comparison, or is the one from the start when there is none |
| `History.EpisodeHistory` | src/observatory.cpp:519 | However comparisons are judged, the episode under an id is that of the last step that opened it |
| `History.EpisodeSurvives` | src/observatory.cpp:490-520 | An episode that a comparison opened still names its neighbor at the end of a run exactly when the last comparison that indicated interference under its id was with the same neighbor |
| `Outcomes.NeighborsShareEpisode` | src/observatory.cpp:490-520 | From conditions on the stored baselines and the samples: when two comparisons interfere, one after the other, the episodes are the old ones and those two, and the first still names its neighbor exactly when the episode ids differ or the neighbors do not |
| `Outcomes.BaselinesKeepEpisodes` | src/observatory.cpp:510-520 | Under FNV-1a, for one workload and domain and baselines of ids below 256, the first neighbor stays named exactly when the baselines differ or the neighbors do not |
| `Outcomes.DomainsKeepEpisodes` | src/observatory.cpp:510-520 | Under FNV-1a, for one workload and baseline and digests other than 0, the first neighbor stays named exactly when the domains differ or the neighbors do not |
| `Identities.BaselinesSeparate` | src/observatory.cpp:510-516 | Under FNV-1a, episodes of one victim and domain against different baselines of ids below 256 have different ids, the replacement of 0 by 1 included |
| `Identities.DomainsSeparate` | src/observatory.cpp:510-516 | Under FNV-1a, episodes of one victim and baseline in different domains always have different digests, and equal ids exactly when those digests are 0 and 1 |
| `Scenario.EpisodeLost` | src/observatory.cpp:510-520 | A reachable run in which neighbors 2 and 3 both interfere severely and the one remaining episode names neighbor 3 only |
| `Explanation.ExplainRepeats` | src/observatory.cpp:559-604 | Until the cell is set again, explaining it under the comparing policy repeats outcome, attribution, confidence, freshness, degradation, variance, samples and provenance of the comparison |
| `Explanation.ExplainsOutcome` | src/observatory.cpp:590-596 | In a reachable state the explained outcome is the cell's own exactly when the cell has the policy's sample minimum |
| `Explanation.UncomparedIsUnknown` | src/observatory.cpp:564-572 | Over any run a pair is explained as Unknown exactly when no comparison of it in that domain was classified; then no baseline, sample, confounder or advice is given |
| `Explanation.BareCell` | src/observatory.cpp:574-596 | A cell without deltas, sources or baseline, as a file may hold, is explained with variance 0, Unknown provenance and no baseline |
| `Explanation.AdviceExactly` | src/observatory.cpp:589-603 | Each piece of advice is given exactly for its reason: no baseline, too few samples for the policy, not Current, each unresolved confounder, a controlled comparison |
| `Listing.AdviceInOrder` | src/observatory.cpp:589-603 | Advice comes in that order, at most one piece of each kind but for the controls, which follow the unresolved confounders |
| `Ledger.AgreementStep` | src/observatory.cpp:473-488 | Writing a record keeps every cell equal to the comparison under its own id exactly when the new id is not another cell's |
| `Ledger.AgreementRun` | src/observatory.cpp:487-488 | In every run without such a clash each cell is the comparison logged under its id and each logged comparison has a cell |
| `Ledger.CoveredRun` | src/observatory.cpp:487-488 | Every logged comparison has a cell, whatever the ids |
| `Ledger.OrderMatters` | src/observatory.cpp:487-488 | For two classified comparisons of one pair, the two orders leave equal matrices exactly when the records are equal, and equal logs also when the ids differ |
| `Outcomes.CountsMakeOrderMatter` | src/observatory.cpp:473-488 | Under FNV-1a, two comparable requests for one pair with different sample counts below 256 leave the same log and different matrices in the two orders |
| `Identities.CountsSeparate` | src/observatory.cpp:474-484 | Under FNV-1a, comparisons of one pair and baseline over different sample counts below 256 have different ids, the replacement of 0 by 1 included |
| `Scenario.OneLogTwoMatrices` | src/observatory.cpp:487-488 | A reachable run over one and two samples whose two orders have one log and two matrices, of which a reload restores at most one |
| `Ledger.RebuiltCell` | src/observatory.cpp:1051-1052 | A rebuilt cell holds the pair's comparison with the greatest id |
| `Ledger.RebuiltKeys` | src/observatory.cpp:1019-1053 | A matrix rebuilt from an agreeing log has the same cells |
| `Ledger.RebuiltExactly` | src/observatory.cpp:1019-1053 | The rebuilt matrix is the matrix exactly when each cell is the logged comparison of greatest id for its pair |
| `Ledger.SingleIsLatest` | src/observatory.cpp:1019-1053 | That holds in particular when the log agrees and no pair has two comparisons |
| `Ledger.RebuiltWithin` | src/observatory.cpp:1051-1052 | Every rebuilt cell was a cell, whatever the ids |
| `Ledger.OverlaidExactly` | src/observatory.cpp:1051-1052 | Laying the log's cells over any matrix gives another one exactly when that one holds, for each pair with comparisons, the one of greatest id, and elsewhere the cells that were there |
| `Ledger.RecoversAgreed` | src/observatory.cpp:1051-1052 | With an agreeing log that is: the first matrix has no cell too many and the second holds each pair's comparison of greatest id |
| `Ingestion.ObservationsConfluent` | src/observatory.cpp:259-279 | Runs that record the same observations, in any order, multiplicity and interleaving, end with the same map when equal ids mean equal records |
| `Ingestion.BaselinesConfluent` | src/observatory.cpp:223-250 | While the epoch stands, publication order affects neither the stored baselines nor any selection; setting the current epoch again is allowed |
| `Ingestion.SameEpochExactly` | src/observatory.cpp:158-161 | The epoch stands exactly when every epoch that is set is the initial one |
| `Ingestion.ObservationsAppendOnly` | src/observatory.cpp:265-277 | A stored observation never changes in any run |
| `Ingestion.DuplicateObservation` | src/observatory.cpp:266-276 | A record under a known id leaves the map alone and is accepted exactly when timestamp, value and workload agree |
| `Ingestion.RecordAnswers` | src/observatory.cpp:259-279 | An observation is acknowledged exactly when its ids are not nil, its value, count and variance are valid and a stored one agrees in three fields; it is stored exactly when it is then the first under its id |
| `Ingestion.PublicationAnswers` | src/observatory.cpp:223-246 | By fields, when a publication is answered Ok, InvalidInput or InsufficientEvidence; a republication is a conflict exactly when generation, workload, device, mean or sample count differs |
| `Ingestion.PublicationStores` | src/observatory.cpp:247-249 | Exactly an acknowledged first publication is stored, with freshness Unknown turned to Current and every other freshness kept |
| `Ingestion.AcknowledgedIsStored` | src/observatory.cpp:266-278 | An acknowledged record is the stored one at the end of any later run exactly when no different one was stored under its id before |
| `Ingestion.AcknowledgedButDropped` | src/observatory.cpp:268-274 | A record that agrees with the stored one in timestamp, value and workload and differs anywhere else is acknowledged, changes nothing, and is not the stored one at the end of any run |
| `Ingestion.AcknowledgedBaseline` | src/observatory.cpp:236-249 | An acknowledged baseline is, up to its freshness, the stored one at the end of any later run exactly when none other was stored under its id before |
| `Ingestion.BaselineButDropped` | src/observatory.cpp:238-244 | A baseline that agrees with the stored one in the five compared fields and differs anywhere else but in freshness is acknowledged, changes nothing and never becomes the stored one |
| `Selection.SelectsGreatest` | src/observatory.cpp:308-321 | The loop selects a baseline exactly when it is the usable, binding-matching one greatest by reference time and then id |
| `Selection.SelectsNothing` | src/observatory.cpp:308-321 | It selects none exactly when there is no candidate |
| `Selection.AdmittedBaseline` | src/observatory.cpp:323-385 | An admitted comparison rests on a stored, usable, binding-matching, Current baseline with enough samples under a valid policy |
| `Selection.RefusalsExact` | src/observatory.cpp:338-354 | BaselineInvalid is returned exactly when baselines concern the workload and none is a candidate; RevalidationRequired exactly when there is a candidate and the greatest one is not fresh enough |
| `Selection.AdmittedExactly` | src/observatory.cpp:323-385 | A baseline is admitted exactly when it is the greatest candidate, fresh enough and with the sample minimum |
| `Selection.InsufficientExactly` | src/observatory.cpp:338-385 | InsufficientEvidence is returned exactly when no baseline concerns the workload or the one that serves lacks samples |
| `Anatomy.SelectedByFields` | src/observatory.cpp:308-321 | By fields: the selected baseline is for that workload and device, usable, agrees in nine generations and fingerprints, and is latest, the greater id deciding |
| `Anatomy.RefusedOutright` | src/observatory.cpp:302-349 | By fields, when the policy, the lack of any baseline or the lack of a suitable one refuses a comparison, and that nothing is then said of freshness, baseline and samples |
| `Anatomy.RefusedByAge` | src/observatory.cpp:323-385 | A Current baseline serves up to the policy's first age limit, is reported Stale up to the second and Expired beyond it; one that is not Current is reported as it is; then the samples are counted |
| `Anatomy.RefusedIsEmpty` | src/observatory.cpp:288-306 | A refusal names whom it was asked about and carries no identity, finding or confidence |
| `Statistics.ComputeMean` | src/observatory.cpp:387-388 | The accumulation loop computes the mean |
| `Statistics.ComputeVariance` | src/observatory.cpp:389-393 | The second pass computes the sample variance |
| `Statistics.MeanBetween` | src/observatory.cpp:387-388 | The mean lies between any bounds of the samples |
| `Statistics.VarianceSign` | src/observatory.cpp:389-393 | The variance is never negative, and zero exactly when all samples agree |
| `Statistics.VarianceOnePass` | src/observatory.cpp:389-393 | The two-pass form equals the sum of squares minus n times the squared mean, over n - 1 |
| `Statistics.StatisticsPermuted` | src/observatory.cpp:387-393 | Mean and variance do not depend on the order of the samples |
| `Grading.OutcomeBracketed` | src/observatory.cpp:106-116 | The class of the measured degradation, before overlap is looked at, lies between the grades of the least and the most degraded accepted sample |
| `Outcomes.ResultBracketed` | src/observatory.cpp:428-448 | The returned outcome is never above the grade of the most degraded sample, and is at least that of the least degraded one exactly when a sample overlaps the neighbor or that grade is the lowest |
| `Scenario.OutsideTheBracket` | src/observatory.cpp:446-448 | After publishing one baseline, a single severely degraded sample beside another peer is admitted and returned as no interference |
| `Outcomes.OutcomeReturned` | src/observatory.cpp:428-448 | The returned outcome is the class of the measured degradation, or no interference when no sample overlaps |
| `Outcomes.IndicatedExactly` | src/observatory.cpp:428-492 | Interference is indicated exactly when a sample overlaps the neighbor and the mean is degraded by the first threshold or more |
| `Thresholds.ReturnedBand` | src/observatory.cpp:91-116 | For every overlapping comparison, each of the four classes is returned exactly when the mean exceeds the reference by that class's share of it, or falls short of it by that share, for six duration and three rate metrics by name; without a positive reference the excess is zero |
| `Thresholds.ReturnedShare` | src/observatory.cpp:102-109 | The returned worst degradation is that excess as a share of the reference |
| `Thresholds.OneOfNine` | src/observatory.cpp:229-233 | In a reachable state the metric is one of those nine |
| `Anatomy.SamplesExactly` | src/observatory.cpp:356-372 | The samples are, in order, exactly the valid measurements of that workload and metric |
| `Anatomy.OverlapExactly` | src/observatory.cpp:356-372 | They overlap exactly when one of them lists the neighbor among its peers |
| `Anatomy.ResultFigures` | src/observatory.cpp:395-471 | Victim, neighbor, domain, baseline, freshness, epoch and sample count of the returned record |
| `Anatomy.ResultDelta` | src/observatory.cpp:387-427 | Its one delta: metric, mean minus reference, that change relative to the reference, count and variance |
| `Anatomy.ResultEvidence` | src/observatory.cpp:399-442 | Its confidence in terms of baseline, samples and distinct confounders, and the confounders listed, hard ones first |
| `Listing.UnresolvedInOrder` | src/observatory.cpp:398-414 | The unresolved confounders of a result are those reported, hard ones first, and within each group in the order first reported |
| `Anatomy.ResultSource` | src/observatory.cpp:465-471 | Its evidence source is Measured exactly when every observation of the workload is measured or controlled, else Controlled |
| `Anatomy.ResultIdentity` | src/observatory.cpp:473-520 | The bytes whose digest names the comparison and the episode, 0 being replaced by 1 |
| `Anatomy.EpisodeFigures` | src/observatory.cpp:490-520 | Every field of the episode that an indicated comparison opens |
| `Outcomes.ComparableExactly` | src/observatory.cpp:302-385 | A comparison is admitted against a baseline exactly when the policy is valid and that baseline is the greatest candidate, fresh enough and with samples enough |
| `Grading.GradeMonotone` | src/observatory.cpp:91-116 | A longer duration or a lower rate never grades better |
| `Grading.OutcomeScales` | src/observatory.cpp:106-116 | Scaling baseline and samples keeps relative degradation and outcome and scales the absolute change |
| `Grading.RateLossBounded` | src/observatory.cpp:102-109 | A rate metric's degradation lies between 0 and 1 |
| `Invariance.GateReordered` | src/observatory.cpp:324-385 | Reordering observations with the last timestamp kept passes or fails the same gates |
| `Invariance.VerdictReordered` | src/observatory.cpp:356-471 | Reordering changes nothing in the verdict but the order in which confounders are listed |
| `Invariance.VerdictRescaled` | src/observatory.cpp:395-463 | Scaling the baseline and every sample by one positive factor keeps the whole verdict but its absolute figures |
| `Outcomes.ResultReordered` | src/observatory.cpp:288-524 | Reordering observations with the last timestamp kept changes at most the order of the listed confounders in what is returned |
| `Outcomes.GateRescaled` | src/observatory.cpp:308-385 | Measuring every baseline and sample in another unit passes or fails the same gates |
| `Outcomes.ResultRescaled` | src/observatory.cpp:288-524 | Doing so changes only the absolute figures of what is returned |
| `Confounding.KindsReported` | src/observatory.cpp:399-410 | The listed confounders are the reported ones, each once |
| `Confounding.HardsReported` | src/observatory.cpp:399-411 | The hard confounders counted are exactly the reported hard kinds, each once |
| `Confounding.NamedSoftKinds` | src/observatory.cpp:71-85 | Among declared enumerators at most nine soft kinds can be reported |
| `Confounding.FirstHardConfounder` | src/observatory.cpp:436-441 | A first hard confounder never raises the factor exactly when at most nine soft kinds were reported |
| `Confounding.ConfidenceRange` | src/observatory.cpp:433-442 | Confidence lies between 0 and the baseline's confidence, and is at most 1 |
| `Anatomy.ConfidenceRules` | src/observatory.cpp:433-442 | The rules that determine it: the baseline's own at twice the sample minimum, in proportion below, 0.85 for each soft kind, 0.2 once there is a hard one |
| `Anatomy.HardByName` | src/observatory.cpp:70-86 | The eight hard confounders by name |
| `Confounding.MoreSamplesMoreConfidence` | src/observatory.cpp:435 | More samples never lower the confidence, and beyond twice the minimum they no longer change it |
| `Confounding.MoreConfoundersExactly` | src/observatory.cpp:399-442 | On otherwise equal observations, further confounders do not raise a verdict's confidence, except exactly when a first hard one joins more than nine soft kinds |
| `Confounding.MoreConfoundersLessConfidence` | src/observatory.cpp:399-442 | They never do when the confounders reported before are declared enumerators |
| `Outcomes.ResultConfounded` | src/observatory.cpp:399-442 | The exact condition on what is returned in any reachable state |
| `Scenario.ConfidenceRises` | src/observatory.cpp:436-441 | After publishing one baseline, adding thermal throttling to ten soft confounders raises the returned confidence |
| `Observing.InterferenceObservatory.constructor` | src/observatory.cpp:146-150 | A new observatory is empty, at epoch 1 |
| `Observing.InterferenceObservatory.SetCoordinatorEpoch` | src/observatory.cpp:158-173 | The in-place loops produce the specified state; an equal epoch changes nothing |
| `Observing.InterferenceObservatory.RegisterSource` | src/observatory.cpp:175-194 | New state and status as specified, with the generation change reported as stale authority |
| `Observing.InterferenceObservatory.RegisterWorker` | src/observatory.cpp:196-214 | New state and status as specified, with the boot change reported as stale authority |
| `Observing.InterferenceObservatory.RegisterWorkload` | src/observatory.cpp:216-221 | New state and status as specified |
| `Observing.InterferenceObservatory.PublishBaseline` | src/observatory.cpp:223-250 | New state and status as specified, every refusal included |
| `Observing.InterferenceObservatory.RecordObservation` | src/observatory.cpp:259-279 | New state and status as specified |
| `Observing.InterferenceObservatory.RecordRecovery` | src/observatory.cpp:281-286 | New state and status as specified |
| `Observing.InterferenceObservatory.Compare` | src/observatory.cpp:288-524 | The imperative comparison returns the specified result and reaches the specified state, refusals included |
| `Observing.InterferenceObservatory.ExplainCell` | src/observatory.cpp:559-604 | The explanation, advice list included, is the specified one |
| `Observing.SelectBaseline` | src/observatory.cpp:308-321 | The loop reports whether any baseline concerns the workload and which one is selected |
| `Observing.CollectSamples` | src/observatory.cpp:356-372 | The loop collects exactly the accepted values and whether one was taken beside the neighbor |
| `Observing.CollectConfounders` | src/observatory.cpp:398-410 | The nested loops split the distinct confounders into hard and soft |
| `Observing.ComputeConfidence` | src/observatory.cpp:432-442 | The repeated discounts amount to the specified confidence |
| `Observing.EvidenceSource` | src/observatory.cpp:465-471 | The evidence counts as measured exactly when every observation of the workload is measured or controlled |
| `Observing.Assess` | src/observatory.cpp:387-485 | The steps after the gates build the specified verdict |
| `Observing.Admission` | src/observatory.cpp:302-385 | The gates are tested in order with the specified refusals |
| `Observing.ComparisonId` | src/observatory.cpp:473-485 | The builder calls derive the comparison's content id, never nil |
| `Observing.EpisodeId` | src/observatory.cpp:510-517 | The builder calls derive the episode's content id, never nil |
| `Codec.RoundTrip` | src/observatory.cpp:17-63 | For every format, reading what was written restores the value and stops at its end exactly when every bound is respected; otherwise the error flag is up |
| `Codec.PrefixRejected` | src/observatory.cpp:30-63 | No strict prefix of an encoding is accepted |
| `Codec.TrailingBytesIgnored` | src/observatory.cpp:30-63 | Bytes after an encoding do not change what is read |
| `Codec.EncodeInjective` | src/observatory.cpp:17-28 | Different values within the bounds have different encodings |
| `Codec.GetExact` | include/observatory/protocol.hpp:57-74 | Whatever is accepted respects the bounds, and formats without flags accept only encodings |
| `Buffers.Writer.Uint` | src/observatory.cpp:20-21 | The shift loop appends the little-endian bytes |
| `Buffers.Writer.Str` | src/observatory.cpp:25 | A string is appended as its length and its bytes |
| `Buffers.Writer.Put` | src/observatory.cpp:17-28 | For every value the writer appends exactly what is specified, prefixes cut to their width |
| `Codec.PrintEncodes` | src/observatory.cpp:17-28 | That is the encoding whenever the prefixes can express the counts and lengths |
| `Buffers.Reader.Uint` | src/observatory.cpp:41-50 | The byte loop reads the number, or what is left of it with the error flag |
| `Buffers.Reader.Str` | src/observatory.cpp:54-61 | A string is read within its limit, or nothing with the error flag |
| `Buffers.Reader.Next` | src/observatory.cpp:30-63 | The reader returns and leaves behind exactly what the parser specifies |
| `Records.CapsInverse` | src/observatory.cpp:655-697 | Unpacking the capability mask restores all seventeen flags |
| `StateCodec.StateInverse` | src/observatory.cpp:852-1062 | Reading the fields of a printed state back yields that state, collection by collection |
| `StateCodec.StateMatches` | src/observatory.cpp:699-785 | The printed parts are within the reader's and the writer's limits exactly when the state's own strings and vectors are |
| `Payload.Restore` | src/observatory.cpp:836-1065 | A saved state loads exactly when it is within the reader's limits, and then restores identity, epoch and eight collections, adding the comparisons to the matrix in id order |
| `Payload.SaveLoadSave` | src/observatory.cpp:703-785 | Saving what was loaded gives the same bytes |
| `Payload.SerializeInjective` | src/observatory.cpp:703-785 | Equal payloads come from states that are equal apart from the matrix |
| `Payload.TruncationRejected` | src/observatory.cpp:1063-1064 | No strict prefix of a saved state loads |
| `Payload.TrailingBytesUnread` | src/observatory.cpp:1054-1064 | Appending bytes to any accepted payload changes nothing |
| `Payload.LoadKeepsCells` | src/observatory.cpp:843-850 | No load, failed or not, removes a cell; what a successful one leaves is in Reload.LoadsIntoExactly |
| `Payload.LeavesAloneExactly` | src/observatory.cpp:838-850 | A payload leaves every state alone exactly when it is empty or its version byte is wrong |
| `Payload.FailedLoadEmpties` | src/observatory.cpp:838-854 | A payload of the version byte alone fails and leaves every collection empty and the matrix as it was |
| `Payload.Archive.SerializeState` | src/observatory.cpp:703-785 | For every state the writer calls produce the specified payload, counts cut to 32 bits |
| `FieldOrder.SerializeSpelled` | src/observatory.cpp:703-785 | The payload of every state, byte by byte: version, three ids and eight counted sections in the order of the source |
| `FieldOrder.SourceSpelled` | src/observatory.cpp:710-713 | The bytes of a source |
| `FieldOrder.WorkerSpelled` | src/observatory.cpp:714-717 | The bytes of a worker |
| `FieldOrder.WorkloadSpelled` | src/observatory.cpp:718-725 | The bytes of a workload |
| `FieldOrder.BaselineSpelled` | src/observatory.cpp:726-735 | The bytes of a baseline |
| `FieldOrder.ObservationSpelled` | src/observatory.cpp:736-749 | The bytes of an observation |
| `FieldOrder.EpisodeSpelled` | src/observatory.cpp:750-766 | The bytes of an episode, its deltas and its evidence |
| `FieldOrder.PairwiseSpelled` | src/observatory.cpp:767-781 | The bytes of a comparison and its deltas |
| `FieldOrder.RecoverySpelled` | src/observatory.cpp:782-783 | The bytes of a recovery |
| `FieldOrder.CellsOrdered` | src/observatory.cpp:782-783 | Recoveries are written by victim, then neighbor, then domain |
| `FieldOrder.CapsSpelled` | src/observatory.cpp:655-675 | Capability k is bit k of the mask |
| `FieldOrder.EnumeratorBytes` | include/observatory/domain.hpp:69-153 | The bytes that stand for the named enumerators |
| `Payload.Archive.DeserializeState` | src/observatory.cpp:836-1065 | The object ends in the specified state with the specified verdict, partly replaced on failure |
| `Payload.EmplaceSection` | src/observatory.cpp:858-867 | The loop keeps the first record under each key |
| `Ordering.FirstStays` | src/observatory.cpp:858-867 | A map filled by emplace has, under exactly the keys that came, the first record that came with each |
| `Payload.SetCells` | src/observatory.cpp:1051-1052 | The matrix gains the comparisons in the order read, the last one of a pair winning |
| `Payload.ReplaceAll` | src/observatory.cpp:843-1062 | The loops section by section build the specified state, the old matrix added to |
| `Reload.RunReloads` | src/observatory.cpp:836-1065 | Every state that any run reaches and that is within the reader's limits reloads into a fresh observatory: identity, epoch, all eight collections and the bytes exactly, no new cell, and the same matrix exactly when each cell is its pair's logged comparison of greatest id |
| `Reload.RunReloadsCells` | src/observatory.cpp:1019-1053 | Without clashing ids the same cells come back, and the same matrix when no pair has two comparisons |
| `Reload.ReloadRestores` | src/observatory.cpp:836-1065 | The same for any keyed state whose logged comparisons all have cells |
| `Reload.LoadsIntoExactly` | src/observatory.cpp:836-1065 | A saved state loads into any observatory, and the saved state is what is there afterwards exactly when each saved cell of a pair with comparisons is the one of greatest id and all other cells are the ones found |
| `Reload.LoadsIntoUsed` | src/observatory.cpp:843-850 | With an agreeing log: exactly when the observatory had no cell that the saved state has not and each saved cell is its pair's comparison of greatest id |
| `Reload.RunReloadsInto` | src/observatory.cpp:836-1065 | The same for every state that any run reaches and that is within the reader's limits, with the loaded state spelled out |
| `Reload.FingerprintSurvives` | src/observatory.cpp:787-797 | Saving and loading keeps the canonical digest |
| `Reload.FingerprintsDiffer` | src/observatory.cpp:787-797 | States whose payloads have one length and differ in one byte have different canonical digests |
| `Storage.Save` | src/observatory.cpp:799-820 | For every state the written bytes are the sealed payload, or nothing when it is over the bound |
| `Storage.LoadInto` | src/observatory.cpp:822-834 | Loading a file ends as specified |
| `Storage.FileRestores` | src/observatory.cpp:799-834 | Every state keyed by its own ids whose save succeeds: the file loads, into any observatory, exactly when the state is within the reader's limits, and then restores it |
| `Storage.NameLimit` | src/observatory.cpp:54-61 | A state with one worker loads exactly when the worker's name has at most 16 MiB |
| `Storage.CountLimit` | src/observatory.cpp:699-699 | A state with only recoveries loads exactly when there are at most fifty million |
| `Sizes.SmallIsSavable` | src/persist.cpp:28-32 | A state whose payload is below 2^32 bytes, as the envelope demands, is printed with no count or length cut |
| `Acceptance.SavedAndRefused` | src/observatory.cpp:54-61 | Registering one worker under a name of more than 16 and at most 20 MiB leaves a state whose save succeeds and whose file no observatory loads |
| `Acceptance.AcceptedWithin` | src/observatory.cpp:836-1065 | Whatever payload is accepted, the state left is keyed by its own ids and within the reader's limits |
| `Acceptance.AcceptedReloads` | src/observatory.cpp:836-1065 | So it loads again from its own payload, anywhere, with identity, epoch and all eight collections and with its log's cells over those found |
| `Acceptance.PayloadImage` | src/observatory.cpp:703-785 | An accepted payload is what the loaded state is saved as exactly when some state is saved as it |
| `Acceptance.TrailingIsNotSaved` | src/observatory.cpp:1054-1064 | A saved payload with bytes behind it is accepted, is nobody's payload, and is saved back without them |
| `Storage.CorruptionIsHarmless` | src/observatory.cpp:822-834 | A file with up to four consecutive bytes changed is refused and the state is as it was |
| `Storage.ResizedIsHarmless` | src/observatory.cpp:822-834 | So is a truncated or extended file |
| `Crc.Crc32c` | src/persist.cpp:8-26 | The table-driven loop computes the bit-by-bit CRC-32C |
| `KnownAnswers.LeadingZero` | src/persist.cpp:21-25 | A leading zero byte always changes the checksum |
| `KnownAnswers.OneZero` | src/persist.cpp:20-25 | The checksum of one zero byte |
| `KnownAnswers.CheckValue` | src/persist.cpp:8-26 | The check value of CRC-32C for the digits 1 to 9 |
| `Crc.BuildTable` | src/persist.cpp:9-19 | The nested loops tabulate eight bit steps for every byte |
| `Crc.TableStepIsByteStep` | src/persist.cpp:22-24 | One table step is eight bit steps |
| `Crc.RegisterInjective` | src/persist.cpp:22-24 | Each byte maps different registers to different registers |
| `Crc.FourByteBurst` | src/persist.cpp:20-25 | From one register, different four-byte strings lead to different registers |
| `Sealing.SealedResidue` | src/persist.cpp:46-50 | The register after a string and its stored checksum is the same for every string |
| `Sealing.SealedApart` | src/persist.cpp:46-50 | Two checksummed strings never differ within four consecutive bytes only |
| `Sealing.VouchesExactly` | src/persist.cpp:92-100 | The stored bytes pass the test exactly when they are the checksum's bytes |
| `Syndromes.ChecksumsDiffer` | src/persist.cpp:20-25 | The difference of two checksums of strings of one length is a function of where and how the strings differ |
| `Syndromes.PassesExactly` | src/persist.cpp:92-100 | Changed bytes pass a changed checksum exactly when the syndrome of the change of the bytes is the change of the checksum |
| `Envelope.Encode` | src/persist.cpp:28-52 | The envelope is header, payload and checksum; a payload over 256 MiB is refused |
| `Envelope.Decode` | src/persist.cpp:54-104 | The checks run in order, each with its own reason |
| `Envelope.AcceptsExactly` | src/persist.cpp:28-104 | Decoding yields p exactly on the envelope of p, for every p within the bound |
| `KnownAnswers.EnvelopeBytes` | src/persist.cpp:28-52 | The bytes of an envelope, magic and version literally |
| `KnownAnswers.EnvelopeReasons` | src/persist.cpp:54-104 | Which byte strings are refused for which reason, in that order, and what is accepted |
| `KnownAnswers.SizeLimits` | src/persist.cpp:28-32 | Payloads up to 256 MiB and frames up to 16 MiB, and no larger ones, can be read back |
| `Envelope.BurstRejected` | src/persist.cpp:54-104 | Any change within four consecutive bytes, anywhere in an envelope, is rejected |
| `Envelope.OneByteRejected` | src/persist.cpp:54-104 | Any change of one byte is rejected |
| `Envelope.SameLength` | src/persist.cpp:83-91 | An accepted envelope is neither a strict prefix nor a strict extension of another |
| `Digest.DigestBuilder.AddU8` | include/observatory/digest.hpp:16 | One byte is one digest step |
| `Digest.DigestBuilder.AddU64` | include/observatory/digest.hpp:17-19 | The shift loop feeds the little-endian bytes |
| `Digest.DigestBuilder.AddBytes` | include/observatory/digest.hpp:41-45 | Length and then bytes are fed |
| `Digest.DigestBuilder.Finish` | include/observatory/digest.hpp:51-61 | The loop renders sixteen digits, most significant first |
| `Digest.StepInjective` | include/observatory/digest.hpp:16 | Each byte maps different states to different states, and different bytes map one state to different states |
| `Digest.HexInjective` | include/observatory/digest.hpp:51-61 | The rendering determines the digest |
| `Digest.FingerprintDetects` | include/observatory/digest.hpp:41-61 | Changing one byte of the input always changes the rendered digest |
| `KnownAnswers.FnvValues` | include/observatory/digest.hpp:64-65 | The digests of nothing and of the letter a |
| `KnownAnswers.HexRendering` | include/observatory/digest.hpp:51-61 | Digit by digit, the rendering is lower-case hexadecimal with the most significant digit first |
| `Digest.CanonicalDigest` | src/observatory.cpp:787-797 | The canonical digest is the rendering of the digest of length and bytes |
| `Frames.Stream.WriteAll` | src/protocol.cpp:119-131 | All bytes are sent, or a strict prefix and a failure; on a healthy connection all, however sends split them |
| `Frames.Stream.ReadExact` | src/protocol.cpp:133-146 | Exactly n bytes are taken in order, or the stream is drained and closed, or the receive failed |
| `Frames.Stream.SendFrame` | src/protocol.cpp:149-169 | A frame within 16 MiB is put on the stream whole; a larger one puts nothing |
| `Frames.Stream.RecvFrame` | src/protocol.cpp:171-200 | However the bytes arrive, the outcome and the bytes consumed are those of parsing them at once |
| `Frames.ReceivesExactly` | src/protocol.cpp:149-200 | A frame is received exactly when its own bytes stand first, and exactly they are consumed |
| `KnownAnswers.FrameBytes` | src/protocol.cpp:149-169 | The bytes of a frame, magic and version literally |
| `KnownAnswers.FrameReasons` | src/protocol.cpp:171-200 | Which bytes on a stream are refused for which reason and how many are taken, and what is received |
| `Frames.StreamExact` | src/protocol.cpp:149-200 | Receiving yields a list of frames exactly when the stream starts with the bytes sent for it |
| `Frames.Exchange` | src/protocol.cpp:119-200 | Sending a list and receiving as many returns that list and empties the stream, for every split |
| `Frames.BurstRejected` | src/protocol.cpp:176-195 | A change within four consecutive checksummed bytes that leaves the length field alone is rejected, in magic, version, kind or payload |
| `Frames.AlteredExactly` | src/protocol.cpp:176-195 | Whatever is changed in a frame apart from its length field, checksum included, it is accepted exactly when magic and version are intact and the syndrome of the changes to the covered bytes is the change of the checksum |
| `Frames.StraddlingBurst` | src/protocol.cpp:188-195 | Every frame with a one-byte payload has a change within four consecutive bytes, three of the checksum and the payload, that is accepted |
| `Frames.SealChangeRejected` | src/protocol.cpp:191-195 | Any change of the stored checksum is rejected |
| `Frames.OneByteRejected` | src/protocol.cpp:171-195 | Changing any one byte of a frame outside its length field is rejected, whatever follows on the stream |
| `Messages.BaselineRoundTrip` | tools/messages.hpp:8-42 | A baseline message decodes to its baseline exactly when no string is over 16 MiB |
| `Messages.BaselineImage` | tools/messages.hpp:25-42 | An accepted baseline message encodes back to the same bytes exactly when its last byte is 0 or 1 |
| `Messages.ObservationRoundTrip` | tools/messages.hpp:44-77 | An observation message decodes to its observation, with p95, capabilities and confounders from the target and the peers appended, exactly when its unit is within 16 MiB |
| `Messages.ObservationImage` | tools/messages.hpp:61-77 | Every accepted observation message encodes back to the same bytes |
| `Messages.EncodeBaseline` | tools/messages.hpp:8-23 | The writer calls produce the specified message |
| `FieldOrder.BaselineMessageSpelled` | tools/messages.hpp:8-23 | A baseline message, byte by byte |
| `FieldOrder.ObservationMessageSpelled` | tools/messages.hpp:44-59 | An observation message, byte by byte |
| `Messages.DecodeBaseline` | tools/messages.hpp:25-42 | The verdict and the record left behind, also by a rejected message, are those specified |
| `Messages.EncodeObservation` | tools/messages.hpp:44-59 | For every observation the writer calls produce the specified message |
| `Messages.DecodeObservation` | tools/messages.hpp:61-77 | The verdict and the record left behind are those specified; a rejected message leaves the fields read and every peer pushed, the short one included |
| `Messages.ReadIsParse` | tools/messages.hpp:61-77 | The peer loop accepts exactly the messages of the format, with the same record |
| `Ids.ParseIdValue` | include/observatory/ids.hpp:107-117 | A value is returned exactly for non-empty digit strings whose number fits 64 bits, and it is that number |

## Left out

- IEEE rounding, NaN and infinity: comparisons use exact reals, so finiteness checks are always passed and no claim is made about rounded sums.
- Age arithmetic: `now - timestamp` is computed without 64-bit overflow.
- `run_experiment`: it holds the lock while calling `compare`, which takes it again; nothing is claimed about it.
- Sockets, listening, processes, files and renames: sends and receives are any positive number of bytes or a failure, and a file is its bytes.
- Reason and error texts: refusals of the envelope and of frames are told apart, those of the payload are not; a count over its bound is modelled as raising the reader's error flag, which leaves the same state and the same verdict.
- Payload.Restore: takes counts that fit 32 bits and lengths that fit 64 bits; larger ones are written under a cut prefix, and what reading that back yields is not modelled. No file is that large (`Sizes.SmallIsSavable`), so `Storage.FileRestores` does without.
- Messages.ObservationRoundTrip: takes at most 2^32 - 1 peers and a unit below 2^64 bytes, for the same reason.
- Messages.BaselineRoundTrip: takes strings below 2^64 bytes, for the same reason.
- Observing.InterferenceObservatory.Compare: takes fewer than 2^63 observations, so that doubling the sample minimum cannot wrap.
- Frames.BurstRejected: is about covered bytes; bursts that straddle the stored checksum can pass (`Frames.StraddlingBurst`) and are decided by `Frames.AlteredExactly`. A change of the length field makes the receiver read another number of bytes, so that the verdict depends on the rest of the stream; `Frames.ReceivesExactly` is all that is said of it.
- The largest p95 of the samples, which the source collects and never uses, and the discount for stale baselines, which its own freshness gate makes unreachable.
- Lookups, counters, episode and observation listings, checked-arithmetic wrappers, name tables, the command-line tools and the CUDA backend: only easy members.
- Freedom from digest collisions: it cannot hold for a 64-bit digest, so it is a hypothesis about the ids of the run (`Ledger.NoClash`), with the exact condition in `Ledger.AgreementStep`.

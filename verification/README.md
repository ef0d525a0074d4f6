# WaterTwin: a verified model of its delivery, audit and numeric kernels

This project models the parts of the WaterTwin repository whose correctness is not visible from any
single function, and proves what they promise.

* **Store and forward** (`Decimal`, `SpoolFiles`, `Spools`, `Ingest`, `StoreForward`, `Delivery`,
  `Gateways`, `DeliveryLimits`). `Spools.Spool` is the durable spool: a class over a directory of names and file
  contents, with a recovered sequence counter. `StoreForward` is the whole protocol as a step system:
  reserve a number, persist it, write the batch, peek, send, late or repeated or lost delivery,
  reply or no reply, acknowledge, crash, restart. `Delivery` proves what holds in every state of
  every run. `Gateways.Gateway` is the gateway's own class; each of its methods is proved to extend a
  run of the step system, so the theorems of `Delivery` apply to the code's own control flow.
  `DeliveryLimits` shows where those promises end.
* **Audit chain** (`Json`, `JsonUnique`, `JsonCanonical`, `JsonReader`,
  `HashChain`, `AuditChain`). The canonical
  JSON printer (sorted keys, compact separators, ASCII escapes as in section 7 of RFC 8259, UTF-16
  surrogate escapes), a reader for the same compact form written from the grammar alone, the hash chain
  over those texts, `link_event` as a mutation of a stored event and
  the verification loop. SHA-256 is an arbitrary function to 64-character texts. Since no such
  function is injective, nothing assumes that it is: each theorem says that equal heads mean equal
  histories *unless* two of the texts hashed in those very chains collide or one hashes to the anchor.
* **Geometry** (`Segments`, `Rings`). The orientation-based intersection test against its meaning (a
  common point of two closed segments), and the pair search over a ring.
* **Drift** (`Quantiles`, `Psi`). The two independent Population Stability Index implementations, each
  as the loops it is, and their agreement.
* **Edge collection** (`Quality`, `Buffers`, `Collector`). The per-signal quality state machine against
  a specification over the signal's history, the encrypted bounded buffer, the monotonic clock, and
  the collector that composes them, over any number of processes that use one buffer in turn.
* **Event bus** (`EventBuses`). The degrading publish/subscribe bus driving its in-process transport.
* **Alert and score statistics** (`FalseAlarms`, `Backtest`, `ScoreBins`, `Calibration`). The sliding
  window of shared alert entries, the back-test scans and the Wilson interval, the two score
  histograms.
* **Plant numerics** (`UsefulLife`, `ReverseOsmosis`, `MembranePhysics`, `RecoveryLimits`,
  `OperatingPoint`, `OperatingModel`). The least-squares remaining
  life, the segment-marching membrane solve and what drives it, and the operating-point search around a solver that may
  answer anything, together with the evaluation it searches over.

`Options`, `Orders` and `Reals` are shared helpers. Arithmetic is exact, over `int` and `real`; results
are stated before the code's final rounding, except in `ScoreBins`, `Psi.Check` and `OperatingPoint`,
where the rounding of bin edges, of compared indices and of compared energies decides the result and is
modelled.

## Where the code does not do what one would expect

* A lost counter file: numbering resumes above every *pending* batch, so a number may be handed out
  twice (`Delivery.LostCounter` says exactly when). The batch filed under the resumed number is dropped
  upstream if and only if nothing is pending, something was appended, and the first number used was 0
  (`DeliveryLimits.LostCounterLoses`); so nothing is dropped while anything is pending.
  `DeliveryLimits.LostCounterRepeats` is a run that loses a batch, `DeliveryLimits.RepeatedButKept` one
  that repeats a number and loses none. Later numbers are dropped exactly while they name accepted
  batches (`DeliveryLimits.KnownNumbers`).
* The twelve-digit file name: the number read back is the number written exactly below 10^12
  (`SpoolFiles.NameRoundTrip`).
* A batch the ingest endpoint refuses (an id over 200 characters, no readings, or a malformed reading)
  stays at the head of the queue for good, and everything behind it waits
  (`DeliveryLimits.RefusedBlocksForGood`). `Delivery.RecoveryCompletes` therefore is an
  if-and-only-if over "every pending batch is acceptable". The generator's readings are well formed,
  so the one way to get there is the gateway id: with 188 characters or more the first batch already
  blocks (`DeliveryLimits.LongGatewayIdBlocks`), with fewer no number below 10^12 does
  (`DeliveryLimits.RecoveryOfWellFormed`).
* The collector's push carries no batch id. The path it is configured for by default,
  `/api/v1/ingestion/telemetry`, requires one and refuses every push, so nothing the collector buffers is
  ever delivered there: rows leave the buffer only trimmed or unreadable
  (`Collectors.RunOverDurable`). Configured for the companion path
  `/api/v1/ingestion/telemetry/gateway`, pushes are taken: what was received is the acknowledged records,
  in order and once each, if and only if no push arrived without being confirmed
  (`Collectors.OnceEachExactly`). `Collectors.LostReplyRepeats` is a collector run in which a lost reply
  doubles a record; there the view of newest readings does not show it, but the audit trail counts the
  batch twice (`Collectors.RepeatOnlyAudits`).
* `condition/drift.py` documents an index of zero for a baseline with fewer than two distinct values
  and comments on the early return as that case. The early return is taken only for at most one
  requested bin; otherwise two open bins remain, and the index is zero if and only if no live value
  exceeds the baseline's (`Psi.ConstantBaseline`). `Psi.ConstantBaselineDrifts` is an input where it
  is positive. The model follows the code.
* With a frozen limit of one the first sample of a signal is not frozen and every later one is
  (`Quality.FrozenMeans`).
* Re-using an alert id inside the window makes later resolutions of it disappear silently.
  `FalseAlarms.LostExactly`, `RepeatsLose` and `SpacedLosesNothing` say exactly when.
* The recalibration map looks scores up between edges rounded to four decimals while the histogram
  uses exact ones; the two agree on every score if and only if the number of bins divides 10000
  (`ScoreBins.MapMatchesHistogram`).
* The operating-point search documents that a solver's answer is accepted only when it lowers the
  energy. It compares energies rounded to five decimals, so the slack of 1e-9 in the comparison never
  matters (`OperatingPoint.SlackIsIdle`), but a tie is accepted: the exact energy of the answer may be
  up to 1e-5 above that of a grid point (`OperatingPoint.Optimise`), and only in a tie
  (`OperatingPoint.WorseOnlyInATie`). `OperatingModel.TieTakesTheWorse` is such a case for a brackish
  plant under the code's own evaluation and default bounds.
* The drift monitor compares indices rounded to six decimals: an index just below a band can reach it
  and a positive one can name no feature (`Psi.RoundingDecides`).
* `ConfidenceCalibrator` is described as monotone by bin. Its map is monotone if and only if the fitted
  frequencies never decrease (`Calibration.MapMonotone`); `Calibration.FallingFit` is a fit that breaks it.
* In the membrane march the inlet does not decide whether permeate is produced: salt leaks out on the way,
  so a feed that only just fails to press through the inlet's wall still yields some
  (`MembranePhysics.LeakStartsPermeate`). `MembranePhysics.ProducesExactly` is the exact condition, in
  closed form.
* More pressure or a more permeable membrane can lower the recovery: a channel drawn too thin in one
  segment is too salty to yield more in the next (`RecoveryLimits.RecoveryCanFall`, with the osmotic
  coefficient of salt and any number of segments from two on). It never does for every plant exactly when
  there is one segment (`RecoveryLimits.AlwaysRisesExactly`), and never for a plant whose channel stays
  thick enough (`MembranePhysics.RecoveryRises`).
* A health trend that falls, but by no more than 1e-6 a day, gets the open-ended horizon even when the
  unit is at its failure threshold (`UsefulLife.SlowDeclineKeepsHorizon`); `UsefulLife.NoLifeLeft` says
  exactly when the estimate is zero.

## Model

| member | source | states |
|---|---|---|
| Decimal.PaddedPrefixRoundTrip | services/edge-gateway/app/spool.py:24-26 | The first twelve characters of a padded number read back as that number if and only if it is below 10^12 |
| Decimal.PaddedInjective | services/edge-gateway/app/forwarder.py:191 | Batch ids never coincide for different numbers, however many digits they have |
| SpoolFiles.NameRoundTrip | services/edge-gateway/app/spool.py:61-70 | Parsing a batch file name returns its number exactly when the number fits twelve digits |
| SpoolFiles.LeftoverIsIgnored | services/edge-gateway/app/spool.py:76-84 | What a failed write leaves behind changes neither the queue nor the numbering |
| SpoolFiles.NameOrder | services/edge-gateway/app/spool.py:109-112 | Sorting file names sorts batches by number, both ways |
| Spools.RecoversQueue | services/edge-gateway/app/spool.py:52-74 | Recovery from the raw listing is recovery from the abstract queue: the next number is the least that the counter and all pending numbers allow |
| Spools.Spool.constructor | services/edge-gateway/app/spool.py:41-47 | Starting over any directory resumes at that number |
| Spools.RecoverNextSeq | services/edge-gateway/app/spool.py:52-74 | The scanning loop, foreign and malformed names included, computes it |
| Spools.Spool.NextSeq | services/edge-gateway/app/spool.py:86-92 | A number handed out is already covered by the counter on disk, and no batch file changes; when the counter cannot be written the number is skipped and the queue stays as it was |
| Spools.Spool.Append | services/edge-gateway/app/spool.py:97-107 | Exactly one batch is added, or on a failed write none, and the queue is otherwise unchanged |
| Spools.SortedListing | services/edge-gateway/app/spool.py:109-112 | The listing holds each entry once, in strictly ascending order |
| Spools.Spool.Pending | services/edge-gateway/app/spool.py:109-129 | Every readable batch and nothing else, in ascending name order |
| Spools.FirstIsOldest | services/edge-gateway/app/spool.py:131-134 | In a clean directory the head of that listing is the batch with the least number |
| Spools.Spool.Peek | services/edge-gateway/app/spool.py:131-134 | None exactly when nothing is pending, otherwise the oldest batch with its own payload |
| Spools.Spool.Ack | services/edge-gateway/app/spool.py:136-142 | Removes the acknowledged file and no other; a repeated ack is harmless |
| Ingest.IngestConsistent | services/watertwin-api/app/store.py:580-621 | The id ledger, the stored readings and the audit trail tell of exactly the accepted batches, each once, whatever arrives again |
| Ingest.RefusedExactly | services/watertwin-api/app/main.py:913-951 | A batch is refused exactly for an empty or overlong id, for having no readings, or for a malformed one |
| Ingest.EventTells | services/watertwin-api/app/store.py:604-614 | The audit event of an accepted batch has its kind, its id as subject, and a payload of exactly id, number of readings, digest of their canonical text, and source |
| Ingest.EventBears | services/watertwin-api/app/store.py:376-443 | The event bears the id, time and actor it was given |
| Ingest.AuditKeepsEvent | services/watertwin-api/app/store.py:376-443 | What is appended is the event itself with only its two hashes set |
| Ingest.AuditAdds | services/watertwin-api/app/store.py:376-443 | Linking an event into the trail adds it at the end and leaves what the trail tells otherwise alone |
| Ingest.ItemsMean | services/watertwin-api/app/store.py:538-540 | The array that is digested lists the readings in order |
| StoreForward.GloballyUnique | services/edge-gateway/app/config.py:122-124 | Equal batch ids mean equal gateway ids and equal numbers, whatever characters the gateway ids hold |
| StoreForward.StepKeepsInv | services/edge-gateway/app/forwarder.py:188-248 | Every step of the protocol, crash, failed write and late delivery included, keeps the invariant |
| StoreForward.ReplyMeansAccepted | services/edge-gateway/app/forwarder.py:203-222 | A 200 to the current attempt proves that the held batch itself has been accepted |
| StoreForward.ResumesAtCounter | services/edge-gateway/app/spool.py:52-74 | With the counter file intact a restart resumes at the counter itself |
| Delivery.NoLossNoDuplication | services/edge-gateway/app/spool.py:1-15 | In every state of every run: each appended batch is pending or accepted, each acknowledged one is accepted, the accepted log is a prefix of the append order with each batch once, the stored readings are exactly theirs, and the audit trail verifies and holds exactly one event for each accepted batch, in order |
| Delivery.NumbersNeverRepeat | services/edge-gateway/app/spool.py:86-92 | Over every run with crashes and restarts, numbers handed out strictly increase and their batch ids differ |
| Delivery.LostCounter | services/edge-gateway/app/spool.py:55-58 | Without the counter file the next number exceeds every pending one, and is new exactly when nothing was issued or the highest issued number is still pending |
| Delivery.ReusedNumberIsDropped | services/watertwin-api/app/store.py:589-597 | A batch filed under an acknowledged number changes nothing upstream |
| Delivery.RecoveryCompletes | services/edge-gateway/app/forwarder.py:203-236 | From every reachable state some continuation delivers everything in order, if and only if the endpoint accepts every pending batch |
| DeliveryLimits.RefusedBlocksForGood | services/edge-gateway/app/forwarder.py:203-236 | A refused batch and everything behind it are never acknowledged nor accepted, in any continuation of any run |
| DeliveryLimits.AcceptedExactly | services/watertwin-api/app/main.py:913-924 | A batch is accepted exactly when the gateway id has at most 187 characters and the readings are well formed and not empty |
| DeliveryLimits.RecoveryOfWellFormed | services/edge-gateway/app/forwarder.py:188-236 | For well-formed readings recovery completes if and only if nothing is pending or the gateway id has at most 187 characters |
| DeliveryLimits.LongGatewayIdBlocks | services/watertwin-api/app/main.py:921 | A run with such an id whose first batch no continuation delivers |
| DeliveryLimits.KnownNumbers | services/watertwin-api/app/store.py:589-597 | The upstream knows a batch id exactly when it names a batch it accepted |
| DeliveryLimits.LostCounterLoses | services/edge-gateway/app/spool.py:55-74 | The first batch after a lost counter is dropped upstream if and only if nothing is pending, something was appended, and the first number used was 0 |
| DeliveryLimits.RepeatedButKept | services/edge-gateway/app/spool.py:55-74 | A run that repeats a number whose batch is new to the upstream |
| DeliveryLimits.LostCounterRepeats | services/edge-gateway/app/spool.py:55-58 | A run after which losing the counter file makes the gateway hand out number 0 again, and the batch filed under it changes nothing upstream |
| Gateways.Uplink.Post | services/edge-gateway/app/forwarder.py:147-165 | One attempt, with request or reply lost at will: ok only after acceptance, and duplicate only if nothing changed |
| Gateways.Uplink.Arrive | services/watertwin-api/app/main.py:937-959 | A late or repeated arrival changes the upstream exactly when its batch is new and acceptable, and is answered with a 200 exactly when it is acceptable |
| Gateways.Gateway.ProduceOnce | services/edge-gateway/app/forwarder.py:188-201 | Appends one batch under the next number with the readings of the next tick, or after a failed write none, as steps of the protocol |
| Gateways.Gateway.ForwardOnce | services/edge-gateway/app/forwarder.py:203-222 | Acknowledges exactly the oldest batch and only after ok; a failure leaves every file; the counters record which happened |
| Gateways.Gateway.Drain | services/edge-gateway/app/forwarder.py:224-236 | The count returned is the number of batches acknowledged, and all acknowledged batches are in the upstream log |
| Gateways.Gateway.Restart | services/edge-gateway/app/forwarder.py:171-186 | A new process over the same directory continues the same run at the number in the counter file, with every batch still there |
| Gateways.Produced | services/edge-gateway/app/forwarder.py:188-201 | Reserve, persist and append compose to producing one batch |
| Gateways.Skipped | services/edge-gateway/app/forwarder.py:240-248 | A failed write after reserving or persisting composes to a skipped number |
| Gateways.Settled | services/edge-gateway/app/forwarder.py:208-222 | A reply followed by the ack, or a failure, composes to the reported outcome |
| JsonUnique.PutUnique | services/watertwin-api/app/audit.py:36-42 | The printer is prefix-free: two texts that begin with printed values begin with the same value |
| JsonUnique.PrintExact | services/watertwin-api/app/audit.py:36-42 | Printed texts coincide exactly for values equal up to UTF-16 coding |
| JsonCanonical.SortSorts | services/watertwin-api/app/audit.py:36-42 | Key sorting yields strictly ascending keys at every depth |
| JsonCanonical.CanonicalIgnoresInsertionOrder | services/watertwin-api/app/audit.py:36-42 | Insertion order of dict keys never shows in the canonical text |
| JsonCanonical.CanonicalExact | services/watertwin-api/app/audit.py:36-42 | For all values: canonical texts coincide exactly when the sorted values agree up to UTF-16 coding |
| JsonCanonical.CanonicalNamesTheValue | services/watertwin-api/app/audit.py:36-42 | Without split surrogates the canonical text determines the logical value, and is determined by it |
| JsonReader.CanonicalReadsBack | services/watertwin-api/app/audit.py:36-42 | A reader for compact ASCII JSON, which knows nothing of the printer, reads the canonical text of every value without split surrogates back to that value; so the text has no white space outside strings, short escapes wherever there are any, and one spelling of every number and word |
| JsonReader.ReadsValue | services/watertwin-api/app/audit.py:36-42 | The same in front of any text that may follow a value |
| JsonCanonical.SplitSurrogatesCollide | services/watertwin-api/app/audit.py:36-42 | A concrete pair of values that only that restriction excludes |
| HashChain.MaterialSplits | services/watertwin-api/app/audit.py:49-52 | With a predecessor of fixed length the concatenated hash material determines both parts |
| HashChain.AcceptedIsBuilt | services/watertwin-api/app/audit.py:55-93 | Verification accepts exactly the chains that linking from the anchor builds |
| HashChain.AcceptedPrefix | services/watertwin-api/app/audit.py:62-93 | Every prefix of an accepted chain is accepted |
| HashChain.EqualHeadsEqualChains | services/watertwin-api/app/audit.py:62-93 | Two accepted chains with one head are equal, or the digest broke on a text hashed in them |
| HashChain.HeadsDistinct | services/watertwin-api/app/audit.py:62-93 | No two prefixes of an accepted chain share a head |
| HashChain.AlterationIsLocated | services/watertwin-api/app/audit.py:62-93 | Replacing one protected text is reported at that link |
| HashChain.RemovalIsLocated | services/watertwin-api/app/audit.py:62-93 | Removing any link but the last is reported at the place of the removal |
| AuditChain.StoredEvent.LinkEvent | services/watertwin-api/app/audit.py:55-59 | Writing the two hashes into an event makes it the link its own content calls for and leaves that content alone |
| AuditChain.VerifyChain | services/watertwin-api/app/audit.py:62-93 | Intact exactly when every event records the stored hash before it, or 64 zeros, and the digest of that followed by its own text; otherwise the least failing index, its event id and which of the two tests failed |
| AuditChain.AcceptedMeans | services/watertwin-api/app/audit.py:62-93 | An accepted chain is one whose every event does so |
| AuditChain.AnchorIsZeros | services/watertwin-api/app/audit.py:28 | The anchor is 64 zeros |
| AuditChain.CoreFields | services/watertwin-api/app/audit.py:33-46 | What is hashed is the object of the six fields, each under its own name, and nothing else |
| AuditChain.HashedTextReads | services/watertwin-api/app/audit.py:36-52 | The hashed text reads back as exactly that object |
| AuditChain.CoreExact | services/watertwin-api/app/audit.py:45-46 | The hashed dict means the same exactly when all six hashed fields do |
| AuditChain.EqualHeadsEqualHistory | services/watertwin-api/app/audit.py:36-93 | Two intact trails with one head have equal length and equal hashed fields, event by event |
| AuditChain.TamperingIsLocated | services/watertwin-api/app/audit.py:62-93 | Rewriting a stored event breaks verification at that event if and only if a hashed field changed in meaning |
| Segments.IntersectExact | packages/network_twin/gis_validation.py:72-101 | The test succeeds if and only if the closed segments share a point: crossing, touching, collinear and degenerate cases alike |
| Rings.RingSelfIntersects | packages/network_twin/gis_validation.py:104-118 | The nested loops find a shared point exactly when two compared edges have one |
| Rings.ValidateRing | packages/network_twin/gis_validation.py:133-144 | Each reason is given exactly when it is the first that applies |
| Rings.SearchIsComplete | packages/network_twin/gis_validation.py:104-118 | The compared pairs are exactly the cyclically non-adjacent ones |
| Rings.RotationKeepsVerdict | packages/network_twin/gis_validation.py:104-118 | The verdict does not depend on the start vertex |
| Rings.ReversalKeepsVerdict | packages/network_twin/gis_validation.py:104-118 | The verdict does not depend on the direction in which the ring is listed |
| Quantiles.CutsNonDecreasing | packages/watertwin_engineering/condition/drift.py:91-105 | Interpolated quantile edges never decrease |
| Quantiles.CutExactly | packages/watertwin_engineering/condition/drift.py:95-101 | Cut i of n lies at i * (len - 1) / n of the sorted sample, between its neighbours by the remainder |
| Psi.BinEdges | packages/watertwin_engineering/condition/drift.py:91-105 | The edges are the open ends around the deduplicated quantile cuts |
| Psi.Fractions | packages/watertwin_engineering/condition/drift.py:108-116 | The counting loop gives each bin its share of the sample |
| Psi.FloorIs | packages/watertwin_models/drift.py:71-79 | Empty bins count as a millionth, fuller ones as they are |
| Psi.PsiOfCondition | packages/watertwin_engineering/condition/drift.py:119-143 | The condition library's loops compute the index over deduplicated cuts, zero for an empty sample or at most one bin |
| Psi.Distribution | packages/watertwin_models/drift.py:62-74 | The model library's bin search counts every value in the bin that holds it |
| Psi.PsiOfModels | packages/watertwin_models/drift.py:23-80 | The model library's loops compute the index over all cuts |
| Psi.DedupKeepsIndex | packages/watertwin_engineering/condition/drift.py:91-105 | Deduplicating the cuts leaves the index of any two samples unchanged |
| Psi.RepeatedCutIsEmpty | packages/watertwin_engineering/condition/drift.py:103-104 | The bin a repeated cut would open holds no value of any sample |
| Psi.ImplementationsAgree | packages/watertwin_models/drift.py:23-80 | For every pair of samples and bin count both give the same index; only one rejects a bin count below 1 |
| Psi.IndexSign | packages/watertwin_engineering/condition/drift.py:119-143 | The index is never negative and is zero exactly when no bin tells the samples apart |
| Psi.OrderIrrelevant | packages/watertwin_engineering/condition/drift.py:119-143 | Samples with the same values in any order have index zero |
| Psi.PsiIgnoresOrder | packages/watertwin_models/drift.py:23-80 | Neither index depends on the order in which either sample lists its values |
| Psi.RoundingDecides | packages/watertwin_models/drift.py:80 | Inputs for which the rounded index reaches a band or vanishes although the exact one does not |
| Psi.ConstantBaseline | packages/watertwin_engineering/condition/drift.py:125-135 | For a constant baseline and more than one bin the index is zero if and only if no live value exceeds it |
| Psi.ConstantBaselineDrifts | packages/watertwin_engineering/condition/drift.py:125-135 | An input on which the documented zero is not what comes out |
| Psi.Check | packages/watertwin_models/drift.py:125-158 | Refused exactly when the bin count is below 1 and some feature is to be scored; otherwise the report's maximum over the rounded indices is attained by the feature it names, exceeds or equals all others, and decides the status |
| Quality.QualityMonitor.Track | services/edge-gateway/app/quality.py:119-150 | The stored last value and counter give the frozen and deadband checks their meaning over the whole history |
| Quality.QualityMonitor.Evaluate | services/edge-gateway/app/quality.py:94-162 | Flag, reasons and validity are those a history-only specification prescribes, in priority order |
| Quality.ReasonsMean | services/edge-gateway/app/quality.py:94-162 | Each reason in its own terms: range, age, last equal values, small change; the flag is the first of them and only range makes a value unusable |
| Quality.LimitsClamped | services/edge-gateway/app/quality.py:80-92 | Limits are kept as given except a frozen limit below 1 and a negative deadband |
| Quality.RunLengthMeans | services/edge-gateway/app/quality.py:119-150 | The repeat count is the length of the maximal suffix of equal values |
| Quality.FrozenMeans | services/edge-gateway/app/quality.py:119-150 | Frozen if and only if the last `limit` finite samples are equal and the sample is not the signal's first |
| Quality.FrozenExcludesDeadband | services/edge-gateway/app/quality.py:119-150 | Frozen and deadband never coincide for a limit of two or more |
| Buffers.EncryptedBuffer.AppendMany | services/edge-gateway/app/buffer.py:120-136 | Rows are appended in order under fresh ids and only the newest `max_rows` stay |
| Buffers.EncryptedBuffer.Pending | services/edge-gateway/app/buffer.py:138-155 | Exactly those of the oldest rows that open are returned, in order, and exactly the others among them are deleted |
| Buffers.WithoutForeign | services/edge-gateway/app/buffer.py:146-155 | Deleting the unreadable rows by id keeps every other row in order |
| Buffers.EncryptedBuffer.Ack | services/edge-gateway/app/buffer.py:157-167 | Exactly the rows with the given ids go, and the count is how many went |
| Buffers.AckRemovesPrefix | services/edge-gateway/app/buffer.py:138-167 | Acknowledging what was pending removes exactly the oldest rows |
| Buffers.MonotonicClock.Stamp | services/edge-gateway/app/timesync.py:46-61 | Each stamp is later than the last, and ahead of the wall clock only by the least amount needed |
| Collectors.Collector.Prepare | services/edge-gateway/app/collector.py:96-119 | Each reading yields one record, flagged as its signal's history requires, stamped with the wall clock's time or just after the stamp before it |
| Collectors.Collector.constructor | services/edge-gateway/app/collector.py:36-59 | A process may start over the rows earlier processes left, those under another key being the older ones |
| Collectors.Reopened | services/edge-gateway/app/buffer.py:62-78 | Opening the same rows under a key that sealed none of them makes all of them unreadable and keeps the account |
| Collectors.Collector.CollectOnce | services/edge-gateway/app/collector.py:84-130 | One retried read; the records are appended, exactly the overflow is trimmed from the old end, and the row limit holds afterwards |
| Collectors.Collector.FlushOnce | services/edge-gateway/app/collector.py:132-151 | Unreadable rows of the batch are dropped unsent; only a confirmed push removes the others; an unconfirmed one may have arrived and stays pending |
| Collectors.AppendConserves | services/edge-gateway/app/buffer.py:120-190 | Over all processes the buffer stays the newest part of everything ever appended: appended = buffered + acknowledged + trimmed + unreadable |
| Collectors.PushConserves | services/edge-gateway/app/collector.py:132-151 | A push keeps that equation, and every acknowledged record has arrived upstream |
| Collectors.PushBalances | services/edge-gateway/app/collector.py:132-151 | A push keeps the account of what was received against what was acknowledged |
| Collectors.OnceEachExactly | services/edge-gateway/app/collector.py:132-151 | The upstream received exactly the acknowledged records, in order and once each, if and only if no push arrived unconfirmed |
| Collectors.RunOnce | services/edge-gateway/app/collector.py:153-156 | A cycle appends what it read, then drops the unreadable among the oldest rows and pushes the rest of that batch |
| Collectors.RunOverDurable | services/edge-gateway/app/forwarder.py:78-106 | Over the durable path, whatever is collected in any number of cycles, nothing is received or acknowledged |
| Collectors.LostReplyRepeats | services/watertwin-api/app/main.py:1057-1115 | A collector run over the companion path in which an acknowledged record is received twice |
| Collectors.LatestIs | services/watertwin-api/app/main.py:1076-1087 | The view of newest readings shows of each signal its last finite record |
| Collectors.RepeatOnlyAudits | services/watertwin-api/app/main.py:1057-1115 | Sending records again leaves the view of newest readings as if they had come once, and adds an audit event |
| EventBuses.EventBus.Connect | packages/watertwin_events/bus.py:82-110 | After connecting there is exactly one transport subscription per subject that has handlers |
| EventBuses.EventBus.Subscribe | packages/watertwin_events/bus.py:122-143 | Adds the handler to advisory subjects only, binding the subject once |
| EventBuses.EventBus.Publish | packages/watertwin_events/bus.py:166-207 | Connected or degraded, every handler of the subject runs exactly once; errors counts exactly the calls that raised, deliveries the others, and publishes are published or degraded |
| EventBuses.Session | packages/watertwin_events/bus.py:82-207 | Any sequence of operations, with or without a transport, makes exactly the expected handler calls in order |
| EventBuses.ConnectionsDoNotMatter | packages/watertwin_events/bus.py:1-20 | The calls Session is proved to make are those of the same operations without any connecting or closing |
| FalseAlarms.FalseAlarmTracker.Record | packages/watertwin_models/false_alarm.py:67-75 | The window and the index of shared entries follow the call's effect on the full alert history |
| FalseAlarms.FalseAlarmTracker.Resolve | packages/watertwin_models/false_alarm.py:77-81 | Writing through the index changes the latest live alert of that id, if the index still knows it, and no other |
| FalseAlarms.FalseAlarmTracker.Summarise | packages/watertwin_models/false_alarm.py:83-101 | The counts are those of the last `window` records and partition them; the rate is a proportion |
| FalseAlarms.LostExactly | packages/watertwin_models/false_alarm.py:77-81 | What Resolve is proved to do differs from what the call is for if and only if the alert is live, not already so resolved, and an evicted older alert took its index entry |
| FalseAlarms.RepeatsLose | packages/watertwin_models/false_alarm.py:67-75 | Some continuation leaves an alert live with its resolutions lost if and only if its id was used less than `window` alerts before |
| FalseAlarms.SpacedLosesNothing | packages/watertwin_models/false_alarm.py:67-81 | With ids spaced at least `window` apart, no sequence of calls loses a resolution |
| Backtest.Confuse | packages/watertwin_engineering/condition/backtest.py:154-171 | Each count is the number of samples of its kind and the four partition the history |
| Backtest.OnsetsAreRuns | packages/watertwin_engineering/condition/backtest.py:178-186 | Onsets are exactly the starts of the maximal labelled stretches, one for each |
| Backtest.FindLead | packages/watertwin_engineering/condition/backtest.py:186-194 | On a chronological history the backward walk returns the longest warning any alarm inside the window gave, or none |
| Backtest.ScanOnsets | packages/watertwin_engineering/condition/backtest.py:178-194 | Every onset is counted and each announced one contributes its lead, in order; no lead exceeds the window or, on a chronological history, is negative |
| Backtest.WilsonBrackets | packages/watertwin_engineering/condition/backtest.py:44-58 | For all counts the unclamped bounds bracket the proportion inside [0, 1], touching it and the ends only at none or all successes, so clamping changes nothing |
| ScoreBins.LookupMatchesFit | packages/watertwin_models/calibration.py:113-140 | The insertion point among the inner edges is the bin the score is counted in, for every score and bin count |
| ScoreBins.MapMatchesHistogram | packages/watertwin_engineering/condition/calibration.py:67-80 | The recalibration scan over rounded edges uses the histogram's bin for every score if and only if the bin count divides 10000 |
| Calibration.BinsPartition | packages/watertwin_engineering/condition/calibration.py:112-122 | The bins drop nothing and count nothing twice |
| Calibration.BiasWithinErrors | packages/watertwin_engineering/condition/calibration.py:124-138 | The overall bias is at most ECE, ECE at most MCE, MCE at most 1 |
| Calibration.Calibrate | packages/watertwin_engineering/condition/calibration.py:110-161 | The binning and accumulation loops, from each bin's mean score and event frequency, compute those errors; empty or mismatched inputs and a bin count below 1 are refused |
| Calibration.ConfidenceCalibrator.Fit | packages/watertwin_models/calibration.py:113-131 | The stored frequencies are those of the outcomes in each bin; a refused fit changes nothing |
| Calibration.ConfidenceCalibrator.Calibrate | packages/watertwin_models/calibration.py:133-140 | A score maps to the event frequency of its own bin, and only scores in [0, 1] are accepted |
| Calibration.MapMonotone | packages/watertwin_models/calibration.py:133-140 | The map never falls if and only if the bin frequencies never decrease |
| Calibration.FallingFit | packages/watertwin_models/calibration.py:113-140 | A fit whose map falls |
| UsefulLife.DenominatorPositive | packages/watertwin_engineering/equipment.py:499-505 | The zero-denominator branch is unreachable |
| UsefulLife.DecliningSlope | packages/watertwin_engineering/equipment.py:488-506 | For every non-increasing trend the least-squares slope is at most zero, and zero exactly when the trend is constant |
| UsefulLife.LeastSquares | packages/watertwin_engineering/equipment.py:488-506 | No line through the mean point is closer to the samples in squares than the one with this slope, and no other as close |
| UsefulLife.AffineSlope | packages/watertwin_engineering/equipment.py:488-506 | On an affine trend the slope is exactly its rate |
| UsefulLife.EstimateBand | packages/watertwin_engineering/equipment.py:547-601 | An estimate exists exactly for acceptable inputs, with 0 <= lower <= life <= upper, life at most three intervals plus 365, and the band strict whenever life is positive |
| UsefulLife.BandIs | packages/watertwin_engineering/equipment.py:588-592 | The band is symmetric, a quarter plus half the duty plus 0.15 or 0.30 wide, and at most nine tenths |
| UsefulLife.TrendMeetsThreshold | packages/watertwin_engineering/equipment.py:566-574 | The projected days are those after which the trend, at its slope, is at the threshold |
| UsefulLife.LifeIs | packages/watertwin_engineering/equipment.py:564-586 | The life is those days or the horizon, less 0.6 of the duty, half per interval since maintenance down to a fifth, times the peer factor, capped |
| UsefulLife.HarderUseNeverHelps | packages/watertwin_engineering/equipment.py:566-594 | Harder duty, older maintenance and weaker peers never lengthen the estimate |
| UsefulLife.NoLifeLeft | packages/watertwin_engineering/equipment.py:566-594 | The estimate is zero if and only if the slope is below -1e-6 and the unit has reached its threshold |
| UsefulLife.DecliningEstimate | packages/watertwin_engineering/equipment.py:566-574 | A declining trend that falls by no more than 1e-6 a day, a constant one included, gets the horizon |
| UsefulLife.SlowDeclineKeepsHorizon | packages/watertwin_engineering/equipment.py:566-574 | A declining unit at its threshold that gets the whole horizon |
| ReverseOsmosis.Solve | services/treatment-sim/app/ro_model.py:49-79 | The marching loop with its early exit computes the state after all segments |
| MembranePhysics.SegmentDraws | services/treatment-sim/app/ro_model.py:60-79 | Each segment draws A x its area x the pressure left above the wall's osmotic pressure / 1000, never less than nothing nor more than the channel holds, and passes B x wall x area / 1000 of salt |
| MembranePhysics.PressureAt | services/treatment-sim/app/ro_model.py:49-79 | Segment k of n has the feed pressure less k / n of the channel drop |
| MembranePhysics.AreasAddUp | services/treatment-sim/app/ro_model.py:49 | The segments share the membrane area |
| MembranePhysics.InletIs | services/treatment-sim/app/ro_model.py:52-58 | The march starts from the feed |
| MembranePhysics.ProducesExactly | services/treatment-sim/app/ro_model.py:60-79 | Permeate is produced if and only if at some segment the pressure left exceeds the osmotic pressure of the feed's wall less the salt leaked so far |
| MembranePhysics.InletDrives | services/treatment-sim/app/ro_model.py:60-79 | A feed pressing harder than its own wall at the inlet yields permeate |
| MembranePhysics.LeakStartsPermeate | services/treatment-sim/app/ro_model.py:60-79 | A feed that just fails to do so yields permeate all the same, given two segments and no drop |
| MembranePhysics.RecoveryRises | services/treatment-sim/app/ro_model.py:60-82 | Recovery does not fall with pressure and permeability while the channel they leave is thick enough for its salt |
| RecoveryLimits.RecoveryCanFall | services/treatment-sim/app/ro_model.py:60-82 | For any march of two segments or more, a plant that recovers less at higher pressure and less through a more permeable membrane |
| RecoveryLimits.AlwaysRisesExactly | services/treatment-sim/app/ro_model.py:60-82 | Recovery rises with pressure and permeability for every plant if and only if the march has one segment |
| ReverseOsmosis.Conserved | services/treatment-sim/app/ro_model.py:49-79 | Water is conserved exactly; total salt never falls below the feed's and equals it if and only if no segment was asked for more salt than entered it |
| ReverseOsmosis.NeverStarved | services/treatment-sim/app/ro_model.py:49-79 | If the final channel flow is at least the leak flow, salt is conserved exactly |
| ReverseOsmosis.ReportIsPhysical | services/treatment-sim/app/ro_model.py:81-125 | Recovery and rejection lie in [0, 1], no flow or concentration is negative, and energy is infinite exactly without permeate |
| ReverseOsmosis.ReportedSalt | services/treatment-sim/app/ro_model.py:81-97 | When both streams flow they are never reported to carry more salt than the feed, and carry all of it exactly when the permeate cap does not bind; after a starved segment it always binds |
| ReverseOsmosis.ReportIs | services/treatment-sim/app/ro_model.py:81-100 | Permeate carries the salt that passed or its share of the feed's, whichever is less, concentrate what is left, and rejection is the share kept back |
| ReverseOsmosis.EnergyIs | packages/watertwin_engineering/calculations.py:163-174 | Energy x permeate x 36 x pump efficiency is the feed's pressure flow less the device's share of the concentrate's after the channel drop |
| ReverseOsmosis.EnergyFloor | packages/watertwin_engineering/calculations.py:148-174 | Reported energy is at least pressure / (36 x pump efficiency), with equality exactly at full recovery, no pressure, or a lossless device and channel |
| OperatingPoint.Optimise | packages/watertwin_engineering/energy.py:325-436 | Whatever the solver answers: an error exactly when no grid point is feasible, otherwise a feasible point that reports no more energy than any feasible grid point and exactly needs at most 1e-5 more; the solver's own exactly when it is that good |
| OperatingPoint.GridSpans | packages/watertwin_engineering/energy.py:380-388 | The grid has 26 evenly spaced points each way, from bound to bound |
| OperatingPoint.SlackIsIdle | packages/watertwin_engineering/energy.py:427-432 | Among rounded energies the slack admits nothing that a plain comparison would not |
| OperatingPoint.WorseOnlyInATie | packages/watertwin_engineering/energy.py:427-432 | A returned answer that needs more exact energy than a feasible grid point ties with it once rounded |
| OperatingModel.OptimiseDesign | packages/watertwin_engineering/energy.py:161-317 | For the code's own evaluation: an answer exactly when some grid point supplies its flux at the driving pressure left and keeps every limit given, to within 1e-6; the answer does so itself and reports no more energy than any such point |
| OperatingModel.FeasibleExactly | packages/watertwin_engineering/energy.py:275-317 | A point counts as feasible if and only if it meets those conditions on its quantities |
| OperatingModel.NoneBelowOsmotic | packages/watertwin_engineering/energy.py:303-306 | No point at or below the feed's osmotic pressure meets them |
| OperatingModel.OsmoticIs | packages/watertwin_engineering/osmotic.py:54-62 | One mole per litre presses with 2 R T, and pressure is proportional to salt |
| OperatingModel.DefaultBounds | packages/watertwin_engineering/energy.py:325-338 | Without limits the search spans 30 to 80 bar and recoveries of 0.30 to 0.55 |
| OperatingModel.PlainEnergyOrder | packages/watertwin_engineering/energy.py:212-221 | Without a recovery device the energy falls with lower pressure and higher recovery |
| OperatingModel.TieTakesTheWorse | packages/watertwin_engineering/energy.py:424-432 | A plant, the default bounds and a solver's answer that is returned although one feasible grid point needs less exact energy |

## Left out

- Floating point: arithmetic is exact; rounding of reported results is not modelled.
- Spools.Spool.Append: the steps of an atomic replace are one step; a crash leaves only a temporary file, which no listing reads.
- Spools.Spool.Pending: number parsing accepts plain digits; Python's `int` also takes signs, spaces and underscores, which no name the spool writes contains.
- Spools.Spool.Peek: that the head is the least number is stated for clean directories (files written by the spool, numbers below 10^12).
- Spools.RecoverNextSeq: the counter file holds a number, something unreadable, or is missing; its text is not parsed, and file contents are values rather than JSON text.
- Spool.depth, the gateway's health report, thread start and stop, back-off timing: plumbing.
- Gateways.Gateway.ProduceOnce: one producer thread; the clock and the synthesized readings are a parameter. Validity afterwards is stated for numbers below 10^12.
- Gateways.Gateway.Drain: other arrivals can happen at every attempt; interleaving with the producer thread is covered by the step system, not by this method.
- Ingest.IngestConsistent: the in-memory store. With a database each ingest is one transaction; the fallback that mirrors a batch into the memory ledger when that transaction fails (services/watertwin-api/app/store.py:563-578) is not modelled, and with it one batch can be accepted once by each store.
- Gateways.Uplink.Arrive: which readings are well formed is a parameter, the reading schema; a request refused for its credentials counts as lost.
- AuditChain.VerifyChain: events carry JSON values with string keys; `default=str` for other objects and non-string keys are not modelled, and float literals are whatever text Python prints.
- The copy of the verifier in `scripts/verify_audit_chain.py`: the same code, proved once.
- Rings.ValidateRing: positions of a wrong shape are one malformed case; the other geometry kinds only loop over this one.
- Psi.PsiOfCondition: the logarithm is any function with the logarithm's sign on either side of 1, which is all the index needs.
- `monitor_drift`: mean and deviation columns of the report.
- Buffers.EncryptedBuffer.Pending: encryption is a token that opens under its own key only; SQL and file handling are table operations.
- Collectors.Collector.FlushOnce: the upstream of this path is the log of what it received.
- Collectors.Collector.constructor: rows under another key come before this process's own, as they do whenever a key is not taken up again after a change.
- Collectors.Collector.CollectOnce: unit conversion, provenance and source health are not modelled; a reading's value is the canonical one.
- Quality.QualityMonitor.Evaluate: parsing of timestamps becomes an optional age; a missing and a non-finite value are one case.
- EventBuses.EventBus.Publish: handlers do not call back into the bus; envelope encoding, the network transport and locks are not modelled.
- FalseAlarms.FalseAlarmTracker.Summarise: the comparison with the target rate.
- Backtest.FindLead: on histories whose times go back the walk stops early, so its meaning is stated for chronological ones, as its documentation asks.
- Calibration.Calibrate: the Brier score and the per-bin report are not modelled.
- ReverseOsmosis.Solve: the osmotic relation is any function; parameter ranges are those the request contract enforces.
- `ro_performance`: the lumped reference model and its fixed-point iteration.
- OperatingModel.OptimiseDesign: negative pressures, a flow or pump efficiency of zero and out-of-range water chemistry are errors of the code; boron rejection is a number of the design.
- `run_optimize` of the treatment simulator: the same least-of-a-grid search without a solver.
- Component penalty tables, water chemistry formulas, EPANET and WaterTAP engines, field connectors, dashboards, the assistant and access control: straight-line code, solvers or foreign systems.

# AdPulse measurement pipeline: models and proofs

AdPulse attributes conversions to clicks and clicks to impressions, counts them in windowed metric rows, and checks the
streaming results against an independent batch calculation. This project models both sides of each such pair, as the
repository has them, and proves that they agree; where they do not always agree it proves exactly when they do. What both
sides of a pair share is held to laws over the fields of events, rows and objects alone.

## What is modelled

**Streaming attribution and the batch calculation.** `ExposureJoin`, `ConversionJoin`, `Aggregate` and `Dimensions` hold the
keyed operators of the attribution job twice: as a step function on their state, and as a class whose fields are updated per
record and per timer and whose methods are proved equal to the step function. Time is a watermark that only grows; advancing
it fires the armed timers in ascending order and then forwards the watermark. `ExposureInvariant`, `ConversionInvariant`,
`ConversionOutcomes`, `LateClicks` and `AggregateInvariant` prove what every step and every run of one operator keeps.
`Lane*` puts both joins together with the channel between them, read at any progress, for one impression key and one click
key. `Oracle` is the batch calculation as it runs; `Counting`, `Batch` and `BatchTotals` relate its rows to the contributions
of the streaming joins; `Pipeline` joins all of it end to end. `Conservation`, `Content`, `Reordering` and `Corruption` are
about the batch calculation itself, with `Disagreement` as a concrete case; `Normalize`, `Dedup` and `Cleaning` are about what
precedes it.

**What the results mean.** `Attribution` says over the fields of events which click a conversion is due to, which impression a
click may be linked to, and why not; the batch calculation is held to it, `JoinVerdicts` holds both joins to it in every run,
and `EndToEnd` the whole pipeline. `Cells` says of every cell of every row which events it counts, `Contributions` whose
receipt, identity and window a contribution carries, `Dispositions` what becomes of every record, `Signals` which events are
reported for a replay, and `Staleness` how far a row may lag behind. `Transport` says what transport may do to records, and what
it leaves alone in the results themselves. `Schedules` constructs, for any events, a run that satisfies the hypotheses of the
end-to-end results.

**The sink.** `Sink`, `LookupPacking` and `SinkProtocol` model the check of a batch, its bounded lookups, and the protocol of
deliveries, outputs and commits under failures, crashes, retries, re-batching and background merges; `SnapshotStore` is the
local reference store that it is proved against; `SinkTables` says of the fields of the log what every table holds.

**The archive.** `ArchiveWriter`, `Archive`, `ArchiveIndex`, `ArchiveAgreement`, `Packets` and `Coverage` cover the archive,
its simple reader and its incremental index; `ArchiveHistory` interleaves growth, loads and refreshes from an empty index
on, and composes them with what the writers leave. `Integrity` and `Accounting` say of the objects and records alone what is
taken in and what is reported. `LineSplitter` is the byte-level splitter.

**The disk-backed reference.** `Disk` models the containers that keep keys and values as text in numbered rows,
`Dictionaries` the ordered dictionaries that they stand in for, and `Sorting` the order in which results are listed.
`Reference` is the whole calculation in memory, from records to listed results; `DiskReference` is the same calculation with
every container on disk. `CompareStreams` is the comparison through a table, against `Compare`.

**Serving.** `Releases` models the registry with any number of publications, each a process of its own, beside operators who
activate what they like; `Cursors`, `Traversal` and `Leases` cursors, keyset traversal under interleaved activations and
writes, and what the cursors that are out entitle to; `Publication` the zero rows of a published release.

## Where a property needs a condition

* The final metric rows of the stream equal those of the batch calculation exactly if the conversions of every click without
  a linked impression agree on region and application version (`Pipeline.PipelineMeetsCalculation`). A converted click without
  an impression is keyed by its conversion, so the calculation counts it in the row of the first conversion and the stream in
  every row that one of its conversions falls into. The same condition decides whether transport copies and reorderings can
  change a comparison (`Corruption.TransportIsHarmlessExactly`). `Disagreement.AgreementCanFail` is a case: two conversions
  of one unlinked click that name different application versions.
* A late click is reported exactly if it is late itself or the latest timeout is still remembered
  (`LateClicks.ReportedExactly`). A conversion that arrives past its own deadline may shorten that memory;
  `LateClicks.SilentDivergence` is a run in which a divergence then goes unreported, and `LateClicks.NoSilentDivergence` proves
  that none does when every conversion arrives before its deadline.
* Between stream and batch, the reason recorded for an unmatched conversion or a failed link may differ, so status, experiment,
  variant and metrics are compared, not that reason.
* The cleaning job reads a region that an event does not name as the empty text, the batch calculation does not look for it.
  The two accept the same events in every short run exactly if the rules do not filter the empty region
  (`Cleaning.CleanersAgreeExactly`).

## Model

| member | source | states |
|---|---|---|
| ExposureJoin.Operator.ProcessElement | flink-jobs/src/main/java/io/adpulse/AttributionJob.java:44-64 | The in-place operator makes exactly the specified step for every impression and click, late ones included |
| ExposureJoin.Operator.TimerFired | flink-jobs/src/main/java/io/adpulse/AttributionJob.java:65-76 | A timer releases exactly the overdue clicks unlinked and drops the impression exactly at the end of its retention |
| ExposureJoin.Operator.AdvanceWatermark | flink-jobs/src/main/java/io/adpulse/AttributionJob.java:65-76 | Advancing the watermark fires all due timers in ascending order before the watermark goes downstream |
| ExposureInvariant.StepKeeps | flink-jobs/src/main/java/io/adpulse/AttributionJob.java:44-76 | Every step keeps timers armed for all that waits, and puts no click or contribution behind a watermark at which it would be late or frozen |
| ConversionJoin.Operator.ProcessElement | flink-jobs/src/main/java/io/adpulse/AttributionJob.java:91-125 | The in-place operator makes exactly the specified step for every click and conversion |
| ConversionJoin.Operator.TimerFired | flink-jobs/src/main/java/io/adpulse/AttributionJob.java:126-144 | A timer gives up exactly the overdue conversions, drops the click at the end of its retention and forgets timeouts at the end of their memory |
| ConversionJoin.Operator.AdvanceWatermark | flink-jobs/src/main/java/io/adpulse/AttributionJob.java:126-144 | All due timers fire in ascending order, including those that firing arms, before the watermark is forwarded |
| ConversionInvariant.StepKeeps | flink-jobs/src/main/java/io/adpulse/AttributionJob.java:91-144 | Every step keeps: a held click means nothing waits, whatever waits has its timer armed above the watermark, and no contribution follows a mark that freezes its row |
| ConversionInvariant.WaitingIsBounded | flink-jobs/src/main/java/io/adpulse/AttributionJob.java:117-123 | A conversion waits only below its deadline, with the timer that ends the wait armed, and never beside a held click |
| ConversionInvariant.DueExactly | flink-jobs/src/main/java/io/adpulse/AttributionJob.java:128-138 | What a timer finds overdue was due at exactly that instant |
| ConversionOutcomes.OneOutcome | flink-jobs/src/main/java/io/adpulse/AttributionJob.java:91-144 | Over every run, a conversion that was not late is announced pending at most once and judged at most once, in that order, and is unjudged exactly while it waits; a late one is never announced |
| ConversionOutcomes.JudgedAtDeadline | flink-jobs/src/main/java/io/adpulse/AttributionJob.java:126-139 | Once the watermark passes its deadline, a conversion has its verdict and nothing follows it |
| JoinVerdicts.VerdictsAreTrue | flink-jobs/src/main/java/io/adpulse/AttributionJob.java:91-144 | Over any run of one click key, everything said is said of a conversion that arrived, and is a wait or a verdict against the click held then: matched exactly if that click has its advertiser, application, identifier, user and campaign and lies 0 to the attribution window before it, with the experiment and variant of the click's impression, and unmatched with what is true of the two otherwise |
| JoinVerdicts.LinksAreTrue | flink-jobs/src/main/java/io/adpulse/AttributionJob.java:44-76 | Over any run of one impression key, every click that leaves arrived, and carries the impression held then exactly if user, campaign and time allow it; otherwise the reason is true of the two |
| Signals.LateEventsAreReported | flink-jobs/src/main/java/io/adpulse/AttributionJob.java:46-48 | Over any run, the exposure join reports exactly the events that arrive after their own retention |
| Signals.ReportsAreExact | flink-jobs/src/main/java/io/adpulse/AttributionJob.java:93-143 | Over any run, the conversion join reports exactly: what arrives after its retention, conversions that stop waiting because a deadline passed, clicks first held whose link failed, and clicks that come while a timeout is remembered |
| LateClicks.ReportedExactly | flink-jobs/src/main/java/io/adpulse/AttributionJob.java:108 | The first click of a key is reported for replay if and only if it is late itself or the latest timeout is still remembered |
| LateClicks.NoSilentDivergence | flink-jobs/src/main/java/io/adpulse/AttributionJob.java:108-143 | With conversions arriving before their own deadline, a click that would have matched a conversion given up on is always reported |
| LateClicks.SilentDivergence | flink-jobs/src/main/java/io/adpulse/AttributionJob.java:116 | A proper run, with no earlier click, in which a conversion past its own deadline shortens the memory and such a click goes unreported |
| LaneRun.RunKeeps | flink-jobs/src/main/java/io/adpulse/AttributionJob.java:28-145 | The joint invariant of both joins and their channel holds in every allowed run |
| LaneRun.ClickComesFirst | flink-jobs/src/main/java/io/adpulse/AttributionJob.java:65-73 | The click reaches the conversion join ahead of every watermark at which a promised conversion would be given up on |
| LaneOutcomes.WaitingForExposureIsFree | flink-jobs/src/main/java/io/adpulse/AttributionJob.java:44-76 | A legal conversion whose click reached the exposure join, and which itself reached the conversion join, below the conversion's deadline ends matched, however long the click waits for its impression |
| LaneOutcomes.DroppedClickIsSpent | flink-jobs/src/main/java/io/adpulse/AttributionJob.java:140-142 | In any run, a click that was cleared could match no conversion still before its deadline |
| LaneOutcomes.DroppedImpressionIsSpent | flink-jobs/src/main/java/io/adpulse/AttributionJob.java:74-75 | An impression that was cleared could be linked to no click still before its deadline |
| LaneOutcomes.NeverFrozen | flink-jobs/src/main/java/io/adpulse/AttributionJob.java:195-196 | No contribution of either join reaches an aggregate that follows its stream after the row was frozen |
| LaneOutcomes.LaneRefinesBatch | flink-jobs/src/main/java/io/adpulse/AttributionJob.java:28-145 | In any finished run whose legal pairs met in time, every conversion's last association has the batch outcome and the contributions are exactly those of the batch |
| Schedules.SomeRunCompletes | flink-jobs/src/main/java/io/adpulse/AttributionJob.java:28-251 | Whatever the events, some lanes take all of them through to the end and some feeding of the rows leaves nothing pending, so the end-to-end results are about runs that exist |
| EndToEnd.ConversionsEndByFields | flink-jobs/src/main/java/io/adpulse/AttributionJob.java:91-144 | Whatever the schedule, a conversion ends matched exactly if the events hold a click it is due to by identifiers, user, campaign and time, with the experiment and variant of the impression that this click may be linked to |
| EndToEnd.ClicksLeaveByFields | flink-jobs/src/main/java/io/adpulse/AttributionJob.java:44-76 | Whatever the schedule, every click leaves the exposure join, linked to exactly the impression among the events that it may be linked to |
| EndToEnd.DueConversionsAreMatched | flink-jobs/src/main/java/io/adpulse/AttributionJob.java:44-144 | In any run, a conversion due to its click is still waiting below its deadline or ends matched, as soon as the click reached the exposure join and the conversion the conversion join before the deadline |
| Aggregate.Operator.ProcessElement | flink-jobs/src/main/java/io/adpulse/AttributionJob.java:194-219 | The in-place aggregate replaces a contribution's prior values, or freezes it, exactly as specified |
| Aggregate.Operator.WatermarkReaches | flink-jobs/src/main/java/io/adpulse/AttributionJob.java:220-231 | Event time reaching the cleanup emits the last snapshot, forgets the row and disarms the emit timer |
| AggregateInvariant.StepKeeps | flink-jobs/src/main/java/io/adpulse/AttributionJob.java:194-231 | After every step the total is the sum over identities of their latest values, and a timer is armed exactly while something is pending |
| AggregateInvariant.SnapshotIsCurrent | flink-jobs/src/main/java/io/adpulse/AttributionJob.java:220-231 | A snapshot is the current sum and announces exactly the receipts accepted since the last one, with the earliest arrival |
| AggregateInvariant.RepeatingChangesNothing | flink-jobs/src/main/java/io/adpulse/AttributionJob.java:196-203 | In any run, receiving a contribution again moves no counter while the row is open and is dropped once it is closed |
| AggregateInvariant.NothingAfterCleanup | flink-jobs/src/main/java/io/adpulse/AttributionJob.java:195-196 | Once the watermark has passed the end of its retention a row holds nothing, and no run emits anything of it again |
| AggregateInvariant.QuietMeansCurrent | flink-jobs/src/main/java/io/adpulse/AttributionJob.java:214-230 | Over any run, with no emission pending the last snapshot is the total of everything accepted; by Staleness.EmissionIsDue none stays pending once its instant has come |
| Staleness.EmissionIsDue | flink-jobs/src/main/java/io/adpulse/AttributionJob.java:214-225 | Over any run, a pending emission lies ahead of the clock by at most the interval |
| Staleness.StalenessIsBounded | flink-jobs/src/main/java/io/adpulse/AttributionJob.java:214-230 | Over any run, once the clock has reached the instant of acceptance plus the interval, a snapshot emitted since then sums up everything accepted before it, the contribution included, and announces its receipt |
| Staleness.FrozenExactly | flink-jobs/src/main/java/io/adpulse/AttributionJob.java:195-196 | Over any run, a contribution is accepted exactly if it arrives while the watermark is below window start, window length and retention together, and otherwise set aside |
| Tallies.SumReplaced | flink-jobs/src/main/java/io/adpulse/AttributionJob.java:202-203 | Subtracting the prior value and adding the new one moves an unordered sum by exactly the difference |
| Dimensions.HistoricalDimension.Broadcast | flink-jobs/src/main/java/io/adpulse/AttributionJob.java:167-179 | A change replaces the version it names; tombstones and empty envelopes change nothing |
| Dimensions.HistoricalDimension.Lookup | flink-jobs/src/main/java/io/adpulse/AttributionJob.java:150-165 | Scanning the versions in any order finds the channel that the batch lookup finds in any listing of them |
| Dimensions.ArchivedDimensions | adpulse/cli.py:46-62 | The archived changes fold into the same table that the broadcast keeps |
| Dimensions.VersionsAreLastCarried | adpulse/cli.py:46-62 | The table holds for every campaign, start and source version the row of the last change that carries it, deleted if the row is or the change is a deletion, and nothing else |
| Dimensions.LatestIsBest | adpulse/oracle.py:58-65 | The batch lookup returns an applicable version that no applicable version beats, or none if none applies |
| Dimensions.ChannelIs | adpulse/oracle.py:58-65 | The channel is that of a version in force with the highest source version and, of those, the latest start: "deleted" if it deletes, "unknown" if it names none or none is in force |
| Dimensions.DeliveryOrderDoesNotMatter | adpulse/cli.py:46-62 | Deliveries that end with the same row per version give every campaign the same channel at every instant |
| Normalize.Run | adpulse/oracle.py:16-55 | The loop over records computes the specified events and lineage |
| Normalize.EveryRecordDisposedOnce | adpulse/oracle.py:27-54 | Every record gets exactly one disposition, in order |
| Normalize.CleanedAreTheEvents | adpulse/oracle.py:50-54 | The clean events are those, in order, that the lineage calls clean |
| Normalize.KeysAreUnique | adpulse/oracle.py:44-51 | No business key is accepted twice, and the keys refused as seen are exactly those accepted |
| Dispositions.DispositionsAreRight | adpulse/oracle.py:34-54 | Every record is disposed of by its content and those before it: malformed, of a disabled version, filtered by start or region, a repeat of an event identifier that passed the rules, a repeat of an accepted business event, or accepted, in that order |
| Dispositions.EventsAreAccepted | adpulse/oracle.py:52-53 | Every clean event is an accepted record's, with its receipt and arrival |
| Oracle.Calculate | adpulse/oracle.py:83-167 | The loops over tables, rows and sets compute the rows, associations and link signals of the declarative calculation, which Attribution and Cells explain over fields |
| Oracle.RowsAreTotals | adpulse/oracle.py:94-102 | A row holds the sum of everything added under its key, and exists exactly if something was |
| Oracle.TableHolds | adpulse/oracle.py:89-90 | The event tables hold exactly the events of their kind by identifier |
| Attribution.MatchedExactly | adpulse/oracle.py:131-145 | For events that were each given their own identifier, a conversion is matched exactly if some click has its advertiser, application, click identifier, user and campaign and lies 0 to the attribution window before it; if not, the reason given is true |
| Attribution.LinkedExactly | adpulse/oracle.py:107-124 | A click is linked to exactly the impression that has its advertiser, application, impression identifier, user and campaign and lies 0 to the attribution window before it |
| Attribution.AssociationsTell | adpulse/oracle.py:147-155 | There is one association of every conversion, in order, with its key, click, time and receipt, its status and reason over fields, and experiment and variant of the impression its click may be linked to, or "unknown" |
| Attribution.SignalsTell | adpulse/oracle.py:120-123 | There is one signal of every click that no impression may be linked to, in order, with its receipt and a reason that is true |
| Cells.CellsAreCounts | adpulse/oracle.py:68-163 | Over the fields of events: a row counts the impressions shown, clicks made and conversions due or not due to a click that fall into it by window, cohort, currency, dimensions and channel, sums the values of those due, and counts as converted the clicks whose first due conversion falls into it; a row exists only if something does |
| Reference.CalculateInMemory | adpulse/oracle.py:83-167 | From records to sorted listings: lineage in record order with the signals after it, associations and rows in the order of their names |
| Reference.OneDispositionEach | adpulse/oracle.py:27-54 | In the lineage of a result, signals included, every record has exactly one disposition, in the order of the records |
| BatchTotals.CalculationCountsOnce | adpulse/oracle.py:104-163 | A batch row is the sum of the events' contributions with every identity counted where it first appears |
| BatchTotals.OnlyClaimsRepeat | flink-jobs/src/main/java/io/adpulse/Measurement.java:46-47 | Among the contributions of distinct events, only a converted click's identity repeats, always with value one |
| BatchTotals.AggregationMeetsCalculation | adpulse/oracle.py:158-161 | Row by row aggregation gives the batch rows exactly if conversions of clicks without an impression agree on region and version |
| Cells.AgreementIs | adpulse/oracle.py:158-161 | The agreement condition, over fields: conversions due to one click that no impression may be linked to name one region and one application version |
| Counting.AggregationMeetsCounting | flink-jobs/src/main/java/io/adpulse/Measurement.java:33-47 | Counting an identity once in every row equals counting it once over all rows exactly if no identity reaches two rows |
| Pipeline.JoinsContributeTheBatch | flink-jobs/src/main/java/io/adpulse/AttributionJob.java:233-251 | Over all lanes of a run, the joins emit exactly the contributions of the batch |
| Pipeline.EveryConversionEndsAsInBatch | adpulse/oracle.py:131-155 | Every conversion's last association has the status, experiment and variant of the batch |
| Pipeline.SnapshotsEndAsRowTotals | flink-jobs/src/main/java/io/adpulse/AttributionJob.java:194-231 | A row that reads every contribution at least once, in any order, ends at the fold of the batch contributions of that row |
| Pipeline.PipelineMeetsCalculation | flink-jobs/src/main/java/io/adpulse/AttributionJob.java:28-232 | For any arrival order and schedule, the final values of all rows equal the batch rows exactly under the agreement condition |
| Cells.PipelineCounts | flink-jobs/src/main/java/io/adpulse/AttributionJob.java:28-232 | Whatever the schedule, under the agreement the final value of every row counts and sums exactly the events that fall into it, over fields |
| Contributions.ContributionsTell | flink-jobs/src/main/java/io/adpulse/Measurement.java:31-49 | Whatever the schedule, every contribution is one of an event of the run: its receipt, arrival, source time and scope, the only window that holds its instant, what its counter counts, and the identity of the event or of its click |
| Contributions.EveryEventContributes | flink-jobs/src/main/java/io/adpulse/Measurement.java:69-92 | Whatever the schedule, every event is announced by some contribution with its receipt and arrival |
| Conservation.CalculationConserves | adpulse/oracle.py:104-163 | Matched and unmatched make up all conversions, the cohorts agree on matched totals and clicks, converted clicks are the distinct matched clicks and at most the clicks, and value is conserved per currency |
| Conservation.RowsSumToAdditions | adpulse/oracle.py:94-102 | However additions spread over rows, summing the chosen rows gives what was added to them |
| Content.CalculationStrips | adpulse/oracle.py:68-80 | The calculation does not depend on event identifiers, receipts and arrival times |
| Reordering.RowsMatch | adpulse/oracle.py:104-163 | Under the agreement condition the rows do not depend on the order of the events |
| Reordering.ConvertedAreFirstClaims | adpulse/oracle.py:158-161 | A row's converted clicks are the clicks whose first matched conversion falls into it |
| Reordering.OrderMatters | adpulse/oracle.py:158-161 | Without the agreement, moving one of two conversions to the front moves the click from one row to the other |
| Corruption.AcceptedIfFirst | adpulse/oracle.py:44-54 | With identifiers that name one business event, a record is accepted exactly if its business key is the first admitted |
| Corruption.VerdictsSurvive | adpulse/oracle.py:176-180 | Every verdict survives any transport; Transport.JudgmentsSurvive says it field by field |
| Corruption.TransportIsHarmlessExactly | adpulse/generator.py:43-56 | Every permutation with copies, fresh identifiers and malformed records passes the comparison exactly under the agreement condition |
| Transport.JudgmentsSurvive | adpulse/oracle.py:176-180 | Whatever transport did, the same conversions are judged, each with the same status, reason, experiment and variant |
| Transport.GenuineIs | adpulse/generator.py:11-42 | The hypothesis of the results on transport, over fields: true records are well-formed, an event identifier stands for one business event, and a business event has one content |
| Transport.TransportsAre | adpulse/generator.py:43-56 | Transport over the fields of records: everything true is delivered in some copy that differs at most in event identifier, receipt and arrival, nothing well-formed is delivered that is no such copy, and an event identifier stands for one business event |
| Transport.DisturbancesAreTransport | adpulse/generator.py:43-56 | What the generator does is transport: leaving the truth as it is, adding copies under their own or unused event identifiers, adding malformed records, and any change of order |
| Transport.TransportKeepsResultsExactly | adpulse/generator.py:43-56 | Every transport leads to the same rows that count something and the same judgments exactly if conversions due to one click without an impression name one region and one version |
| Disagreement.AgreementCanFail | adpulse/oracle.py:158-161 | Genuine, clean records with distinct keys whose conversions disagree: some transport of them fails the comparison, and rows added up by identity differ from the calculation |
| Compare.PassesExactly | adpulse/oracle.py:170-181 | A comparison passes exactly if both sides give every key the same nonzero values and every conversion the same verdict; Compare.PassesMeans says which fields that is |
| Compare.PassesMeans | adpulse/oracle.py:170-181 | For outputs that do not contradict themselves, a comparison passes exactly if both have associations under the same keys, any two under one key agree in status, reason, experiment and variant, and both have the same rows that are nonzero in some counter |
| Dedup.Deduplicate.ProcessElement | flink-jobs/src/main/java/io/adpulse/CleanJob.java:78-91 | An element is accepted exactly if no expiry is held or it has passed, and then sets the next one |
| Dedup.Deduplicate.OnTimer | flink-jobs/src/main/java/io/adpulse/CleanJob.java:92-94 | A timer clears an expiry exactly if it has been reached |
| Dedup.DecisionsIgnoreCleanup | flink-jobs/src/main/java/io/adpulse/CleanJob.java:78-94 | Timers, fired late or not, never change a decision: it depends on the elements alone |
| Dedup.AcceptedAreSpaced | flink-jobs/src/main/java/io/adpulse/CleanJob.java:83-88 | Two accepted elements of a key are at least the span apart |
| Dedup.DropsAreCovered | flink-jobs/src/main/java/io/adpulse/CleanJob.java:84-87 | Every dropped element follows an accepted one of its key by less than the span |
| Dedup.ShortRunAcceptsFirsts | flink-jobs/src/main/java/io/adpulse/CleanJob.java:83-88 | In a run shorter than the span exactly the first element of every key is accepted |
| Cleaning.Cleaner.ProcessElement | flink-jobs/src/main/java/io/adpulse/CleanJob.java:39-91 | Validation and the two filters dispose of a record in the specified order |
| Cleaning.EveryRecordIsAnswered | flink-jobs/src/main/java/io/adpulse/CleanJob.java:39-91 | Every record gets one answer, by its content and the expiries held for its event identifier and business key |
| Cleaning.BriefRunsClean | flink-jobs/src/main/java/io/adpulse/CleanJob.java:104-106 | Under rules that do not filter the empty region, a run shorter than the span accepts the events and gives the dispositions of the single pass with two sets |
| Cleaning.CleanersAgreeExactly | flink-jobs/src/main/java/io/adpulse/CleanJob.java:60-64 | Job and single pass agree on all short runs exactly if the rules do not filter the empty region |
| LookupPacking.Pack | adpulse/storage.py:30-48 | Packing fails exactly if one key alone exceeds the budget, and otherwise gives the greedy packing of the distinct keys |
| LookupPacking.GreedyIsSplit | adpulse/storage.py:42-48 | The packing keeps the order of the keys, and every parameter is non-empty and fits |
| LookupPacking.GreedyIsFewest | adpulse/storage.py:42-48 | No order-preserving packing uses fewer parameters |
| LookupPacking.FirstSeenHolds | adpulse/storage.py:37 | The keys packed are the given ones, each once |
| Sink.PlanBatch | adpulse/storage.py:216-274 | The loop over messages computes the specified plan or refusal, which SinkTables explains over fields |
| Sink.RefusedExactly | adpulse/storage.py:238-274 | A batch is refused exactly if a message is at fault by itself or two contradict each other; otherwise every delivery, result, receipt, disposition and visible receipt is planned |
| SinkTables.RefusedWhen | adpulse/storage.py:238-273 | Over fields: a batch is refused exactly if a message is of no known kind, has other content than its place had, lies in another topic than its release's or in another partition than its key had, or two of its messages give one place two contents or one key two partitions |
| SinkTables.PlannedExactly | adpulse/storage.py:258-274 | An accepted batch plans all its deliveries, a result row exactly for every metric or association at its place, a quality row exactly for every disposition, a receipt row exactly for every acknowledgement, and a visibility row exactly for every receipt that a result lists |
| Sink.ReadPrior | adpulse/storage.py:222-237 | Bounded lookups plan and refuse as the whole tables would |
| SnapshotStore.LocalSnapshotStore.InsertMessage | adpulse/storage.py:62-74 | An insertion is refused on a conflicting hash or route and otherwise keeps the later offset |
| SnapshotStore.StoreHoldsLatest | adpulse/storage.py:62-74 | Whatever the order and repetitions, the store holds the latest message of every key |
| SinkProtocol.CommitOffsets | adpulse/worker.py:77-80 | The offsets committed are one past the last message of every partition in the batch |
| SinkProtocol.NothingSkipped | adpulse/worker.py:77-80 | Whatever lies below the offsets of a batch was committed before or is in the batch |
| SinkProtocol.StepKeeps | adpulse/storage.py:275-279 | Every step, failing at any point, keeps one hash per place, deliveries covering all outputs, one route per key, and everything committed persisted: result rows, quality, receipts and visible receipts |
| SinkProtocol.RunKeeps | adpulse/worker.py:59-91 | The same over every schedule of failures, crashes, retries, re-batching and merges |
| SinkTables.TablesMirrorTheLog | adpulse/worker.py:59-91 | After any run, over fields: a disposition, acknowledgement, visible receipt or result that is committed past is stored in its table (a result by itself or a later one of its key), and every row stored is one of a message of the log |
| SinkTables.UndisturbedBatchIsStored | adpulse/worker.py:59-91 | From any state between batches, a batch that continues the log and is not refused can be taken through, and then all that it brings is stored and its offsets are passed |
| SinkProtocol.VisibleNeverDecreases | adpulse/storage.py:149-150 | Whatever happens between two reads of a key, the second sees an offset at least as great |
| SinkProtocol.VisibleIsUnique | adpulse/storage.py:149-150 | In any run a key has one visible payload, whatever was delivered twice and whatever merges have left |
| SinkProtocol.SinkMeetsReference | adpulse/storage.py:51-79 | Once committed to the end of the log, what readers see is what the local store holds after the same messages: the last of every key |
| SinkTables.VisibleExactly | adpulse/storage.py:149-150 | Once committed to the end of the log, a row is visible exactly if it stands for the last message of its release and key |
| ArchiveWriter.StepKeeps | adpulse/archive.py:78-88 | No write of a batch is refused or changes anything written, however often repeated |
| ArchiveWriter.ArchiveAlwaysReads | adpulse/archive.py:78-108 | After any writes, repeated or broken off, the simple reader succeeds and reads the log's rows |
| ArchiveWriter.WrittenIsRead | adpulse/archive.py:78-108 | Every row of every batch whose manifest was written reads back at its place as it was |
| Archive.VerifiedRecords | adpulse/archive.py:91-108 | The reader's loops succeed exactly if every listed manifest is sealed and no two archived rows contradict each other, and then return every archived row at its place and nothing else |
| Archive.ReaderHolds | adpulse/archive.py:91-108 | The reader succeeds exactly if every manifest verifies and no rows conflict, and then holds exactly the archived rows |
| Archive.ReadsSealed | adpulse/archive.py:91-108 | Over the objects alone: reading succeeds exactly if every listed manifest names an object with its checksum and count, whose row at every ordinal has the place and the digest that the reference names, and no place has two rows |
| LineSplitter.Chunks | adpulse/archive_index.py:23-39 | For any cutting into blocks the lines are the same; it fails exactly if the whole or some line exceeds its budget; the buffer stays within a line and a block |
| LineSplitter.LinesAreTheInput | adpulse/archive_index.py:31-39 | The lines concatenate to the input and each but possibly the last ends in its only newline |
| ArchiveIndex.Tables.LoadManifest | adpulse/archive_index.py:78-118 | A manifest is loaded in full or leaves no trace; if loaded, its object has its checksum and count, and every row the place and digest of its reference |
| ArchiveIndex.Tables.RefreshFrom | adpulse/archive_index.py:68-125 | A refresh stops at the first failure, a key listed twice among them, keeping the manifests loaded before it |
| Integrity.LoadsExactly | adpulse/archive_index.py:78-118 | A manifest is loaded exactly if its object is sealed and within the budgets, and its rows and acknowledgements contradict neither themselves nor what is indexed |
| ArchiveAgreement.RefreshKeeps | adpulse/archive_index.py:72-120 | Successful or broken off, the index holds exactly the rows and acknowledgements of its recorded manifests |
| ArchiveAgreement.RefreshSucceedsExactly | adpulse/archive_index.py:68-125 | A refresh over a complete listing succeeds exactly if the archive is sound and no key is listed twice, and then records every manifest |
| ArchiveAgreement.RefreshedIsCold | adpulse/archive_index.py:68-125 | A successful refresh of any index leaves what a cold refresh of the same manifests leaves, in any order, auditing or not |
| ArchiveAgreement.IndexEqualsReader | adpulse/archive.py:91-108 | A refreshed index holds the records of the simple reader, which succeeds as well |
| ArchiveAgreement.MissingManifestFails | adpulse/archive_index.py:122-123 | An indexed manifest that is no longer listed fails the refresh |
| ArchiveHistory.AlwaysIndexed | adpulse/archive_index.py:68-125 | From the empty index on, through growth of the archive, loads and refreshes that succeed or break off, the index holds exactly the rows of its manifests at every commit |
| ArchiveHistory.RefreshIsColdAndReads | adpulse/archive_index.py:68-125 | Any successful refresh of such a history equals a cold refresh in any other listing order, and holds what the simple reader reads |
| Integrity.RefreshesExactly | adpulse/archive_index.py:68-125 | Whatever happened before, a refresh over a complete listing succeeds exactly if no key is listed twice, every object is sealed and within the budgets, rows do not contradict each other, and acknowledgements are orderly and consistent, all over the objects alone |
| ArchiveHistory.WrittenArchiveRefreshes | adpulse/archive_index.py:68-125 | Over what writers wrote, repeated or broken off, a refresh succeeds exactly if every object splits into lines and the acknowledgements of the log are well-formed and consistent |
| Packets.QueryEqualsReplay | adpulse/cli.py:121-122 | The index's ordered query and the replay's stable sort list the same packets in the same order |
| Packets.ReplayOrderIs | adpulse/cli.py:121-122 | The packets come by arrival, then batch and index, then topic, partition and offset |
| Coverage.Cover | adpulse/archive_index.py:139-178 | Coverage returns exactly without conflicting dispositions, acknowledgements or receipts, and then reports the set differences |
| Coverage.Reconcile | adpulse/archive.py:111-138 | Reconciling returns exactly if acknowledgements and dispositions are consistent, and then reports the set differences |
| Coverage.CoverageAgrees | adpulse/archive_index.py:139-178 | Whenever coverage returns, reconciling the reader's records succeeds with the same report |
| Accounting.ReconcileAccounts | adpulse/archive.py:133-138 | The report counts the receipts that some record acknowledges or that are expected, those of archived packets among them, and those with a disposition other than a signal |
| Accounting.ReconcilesExactly | adpulse/archive.py:116-132 | Reconciling is refused exactly if some acknowledgement differs in count, receipts, place or digest from what it refers to, or a receipt has two dispositions |
| Accounting.CoverAccounts | adpulse/archive_index.py:139-178 | The index reports the same counts over its tables |
| Coverage.Sample | adpulse/archive_index.py:175-176 | A sample is the first of the sorted receipts up to the limit |
| Disk.DiskMap.Set | adpulse/disk.py:50-53 | An upsert is a dictionary assignment: in place if the key is held, at the end if not |
| Disk.DiskMap.SetDefault | adpulse/disk.py:61-67 | The held value, or the default after storing it; a copy either way |
| Disk.DiskMap.Items | adpulse/disk.py:69-71 | Items come in insertion order |
| Disk.DiskMap.Ordered | adpulse/disk.py:77-81 | Values come in the order of what their keys read back as, not of the stored text |
| Disk.DiskSequence.All | adpulse/disk.py:96-98 | Everything appended comes back, in that order |
| Disk.DiskSequence.Ordered | adpulse/disk.py:100-104 | The rows come sorted by the field, as a stable sort of the list in memory gives them |
| Reference.DictionaryHoldsRows | adpulse/oracle.py:92-102 | The ordered dictionary of rows that are changed in place holds the rows of the calculation |
| DiskReference.AddAllOnDisk | adpulse/oracle.py:94-102 | Rows copied, changed and written back hold, in order, what rows changed in place hold |
| DiskReference.NormalizeOnDisk | adpulse/oracle.py:16-55 | With both seen sets, events and lineage on disk, events and lineage are those of the loop in memory, in order |
| DiskReference.CalculateOnDisk | adpulse/oracle.py:83-167 | With every container on disk the result is that of the calculation in memory: lineage, associations and rows, in the same order |
| CompareStreams.CompareOutputs | adpulse/reconciliation.py:16-46 | The comparison through a table is refused exactly if a side repeats a compared key, and otherwise passes exactly if both sides have the same rows that count something and the same status, reason, experiment and variant under the same keys, with the count of the comparison in memory |
| Releases.Database.ActivateRelease | adpulse/releases.py:55-73 | Activation retires the old release, moves the pointer and records the move in one transaction, or refuses |
| Releases.Database.ValidateRelease | adpulse/releases.py:45-52 | Only a building release with a complete report is validated |
| Releases.StepKeeps | adpulse/releases.py:17-108 | Every step of any publication or operator keeps the active status at the pointer, the audit leading to it without a gap, and every release building until its publication has committed |
| Releases.RunKeeps | adpulse/releases.py:17-108 | The same for any interleaving of publications, failures, validations and activations |
| Releases.LifeCycleHolds | adpulse/releases.py:45-73 | In any run no release is forgotten and no status turns back: failed is final, and what was validated or active is never building or failed again |
| Releases.StatusIsExplained | adpulse/releases.py:45-73 | In any run, a release is known only if it was registered under a well-formed identifier, and is validated, active or retired only if a complete passing report was made for it, and active or retired only if it was activated |
| Releases.PublicationActivates | adpulse/cli.py:139-143 | From any state, a publication under a fresh valid identifier that nothing disturbs ends with its release active |
| Releases.FailureFindsItBuilding | adpulse/releases.py:104-108 | In any run a failing publication finds its release building, so the failure moves no pointer and ends no service |
| Releases.ServedStaysServed | adpulse/releases.py:55-73 | A release that is served at some point of a run is served at every later one |
| Publication.ZeroFill | adpulse/releases.py:89-94 | The loop appends a zero row for every baseline key that the snapshot lacks |
| Publication.ZerosAreNeutral | adpulse/releases.py:89-94 | Every baseline key is answered in the new release, and no comparison with it changes |
| Leases.EveryLeaseBegan | adpulse/pagination.py:43-76 | Every token issued goes back to a request without a cursor, of the same scope and release, from which its expiry counts: passing cursors on, in any order and branching, never renews it |
| Leases.AcceptedInItsScope | adpulse/pagination.py:55-76 | Whatever is accepted in a scope was issued to a traversal of that kind, filters and release which began less than a lease before |
| Leases.AcceptedExactly | adpulse/pagination.py:43-76 | A token is accepted exactly by requests about the scope and release of a traversal it was issued to, less than a lease after that traversal began |
| Leases.IssuedWhileServed | adpulse/api.py:55-88 | Every token issued names a release that was validated, active or retired when it was issued, and fits the bounds on key and size |
| Traversal.KeysAlwaysIncrease | adpulse/storage.py:171-175 | Under any activations and writes between requests, the keys of a traversal strictly increase under one release |
| Traversal.CursorsAreOfOnePiece | adpulse/api.py:51-88 | All cursors of a traversal, however long and whatever happens between its requests, name one release and one expiry |
| Traversal.TraversalIsExact | adpulse/api.py:51-88 | Over a release that does not change, with any page sizes, the rows met and those to come are all matching rows, once each, in key order |
| Traversal.TraversalMeetsAll | adpulse/api.py:51-88 | A finished traversal of a release that does not change has met exactly the rows with a non-empty key whose fields have the filters' values, each once, in order |
| Traversal.PagesAreFull | adpulse/storage.py:171-175 | A page holds only rows sought beyond its position and at most as many as asked for; it is full and something is left exactly if there is a cursor |
| Traversal.PinnedReleaseStaysServed | adpulse/api.py:62-69 | A traversal under way is never turned away by what is published, failed, validated or activated meanwhile |

## Left out

- Pipeline.PipelineMeetsCalculation: events dropped as late and pairs that nothing brings together in time are excluded by the definition of a complete lane; they are what replay releases repair.
- Pipeline.EveryConversionEndsAsInBatch: the reason of an unmatched conversion is not compared, because cleared state and released clicks may weaken it.
- LaneOutcomes.LaneRefinesBatch: one lane sees one impression key and one click key; operators that serve several lanes are seen once per lane.
- Cleaning.BriefRunsClean: records pass both filters in one order; with parallel filters that reorder records of different keys, which copy of a duplicate is accepted may differ.
- SinkProtocol.RunKeeps: one writer at a time is assumed, as one consumer group with one partition owner gives it; several writers racing on one key are not modelled.
- ArchiveAgreement.RefreshedIsCold: the columns that say which manifest first brought a row, and when it was checked, are not part of the index modelled.
- Coverage.CoverageAgrees: quality payloads kept for tracing are not modelled.
- Disk.DiskMap.Set: the periodic commits of the workspace are not modelled, since a workspace is never reopened after a crash.
- DiskReference.CalculateOnDisk: encodings are parameters that read back what was written; that JSON does so is not modelled.
- Leases.AcceptedExactly: that the keys of result rows carry the prefix of their kind is taken from the rows, which the sink stores under such keys.
- Releases.RunKeeps: a publication whose process dies is taken to stop without a trace; the release it registered stays as it is.
- Counters and instants are unbounded integers; the 64-bit range of the jobs is not modelled.
- The enumeration order of keyed map state is taken to be insertion order; the proofs about due conversions show that nothing depends on it.
- Rule, policy and release identifiers that are constant within a release are omitted from keys and rows.
- Field mappings, JSON and schema validation are represented by well-formed and malformed records; hashes are free of collisions where that is said, and signatures cannot be forged.
- The suffix of an archived topic is represented by the kind of the value.
- The samples of differences that a failed comparison prints are not modelled.
- Quality rows about missing dimensions, and the details of schema errors, are not modelled.
- Kafka, Flink, ClickHouse, PostgreSQL, S3 and SQLite appear as step environments: watermarks grow, event-time timers fire in ascending order, channels are first in first out, transactions are atomic.
- The collector, inspection, Prometheus, deployment, scripts, tools and the random choices of the generator are left out.

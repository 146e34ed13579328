# Verified model of the fraud platform's stateful code

A Dafny model of the parts of the platform that hold state, interleave or compute: the
investigation agent (FIA) that turns declined transactions into reports, the learning agent (MLA)
that retrains the fraud model, the loops and codecs of the dashboard, and the analysis scripts.
`dafny verify dfyconfig.toml` checks everything.

## What is modelled

**Investigation agent.** `Handler` is the Kafka handler with its retry map and counters;
`Consumer` the poll loop; `ReportStore` the report and conversation tables with their
insert-if-absent writes; `OnDemand` the `POST /v1/reports` thread. `Delivery` puts them together
as one protocol: partitioned logs, committed offsets and fetch positions, replicas with private
retry maps, request threads on the same table, crashes, rebalances, failing and lost commits. A
run is any sequence of enabled steps. `DeliveryProofs` proves what holds in every state of every
run, `Provenance` where each stored report comes from, `Redelivery` which messages are ever
delivered again, `ConsumerRefines` that the poll loop is such a run, `RetryLedger` what the counters
mean. `Conversation` does the same for concurrent `add_message` threads.

**Learning agent.** `DriftWindows` is the detector's three bounded queues with hot resizing;
`DriftFeed` the watermarked, limited feeding of labels into them, `RaisingFeed` the same when the
detector may raise; `Retrain` one pipeline call with its cooldown, version label and outcome;
`RetrainRuns` any number of calls, a restart, and the label-volume trigger; `PartialUploads`
uploads that raise half way. What training, the A/B test, conversion and upload answer is left open.

**Dashboard.** `CivilDate` is day arithmetic (section 21.4.1 of ECMA-262), `Calendar` the month
grid, `DateText` the date picker's text form, `Csv` the audit export with a reader for section 2
of RFC 4180, `BulkOverride` the pool of five workers, `PagedExport` the paging loop, `LabelLines`
the bulk label parser, `LiveFeed` the polling feed.

**Scripts.** `Metrics`, `SimulationAnalysis` and `ThresholdSweep` are the confusion matrix, the
base-rate projection and the threshold sweep, over real numbers.

Classes and loops of the original are classes and loops here, each tied by its `ensures` to a
function of the old state; the properties are proved about those functions and about all runs.

## Where the code does not keep what its text says

The model follows the code. Each of these has a lemma with the exact condition.

- A failed message is logged as "will retry on next poll" (fia-service/src/consumer/kafka_consumer.py:107-112)
  and documented as re-delivered (docs/ARCHITECTURE.md:641-645). The position has moved on, so the
  next poll fetches another one; a failed message waits for a rebalance
  (`FailedMessageWaitsForARebalance`), and whether it can still be delivered at all depends on the
  committed offset alone (`DeliveredAgainIff`). A later success on the partition commits past it:
  `RunSkipsNothingIff` says exactly which runs leave nothing behind, and
  `FailedMessageIsNotDeliveredAgain` is a run that loses a declined transaction for good.
- Conversation turns are documented as persisted (docs/FIA-API.md:183-185). Two overlapping calls
  can both answer 201 with only the first one's turns stored: `OverlappingCallsLoseTurns`;
  `CallIsStoredIff` gives the condition, `SerialCallsLoseNothing` the case without overlap.
- The label-volume trigger moves its watermark before the cooldown is asked
  (mla-service/src/main.py:801-803): `TriggerIsLostIff`, `TriggerIsLostOnce`.
- The next version is counted from the version loaded at start, so a process started anew can
  reuse one, with its first upload or a later one: `RestartOverwritesIff`, with its two cases
  `RestartReusesAVersionIff` and `FallbackReusesAVersionIff` and a witness of each. An upload that
  raises after its first file leaves the version to the next run: `NoFileIsOverwrittenIff`,
  `RestartOverwritesAFileIff`, `NextRunWritesTheSameVersion`.
- The drift feed skips the rest of a group of equal timestamps that a LIMIT splits, and feeds rows
  again after the detector raised: `FedExactlyOnceIff`, `BacklogDrains`, `SkippedForGood`,
  `NoRowIsFedTwiceIff`, `RaisingPollFeedsAgain`, with the witness `SecondOfTwoIsNeverFed`.
- Years 0 to 99 show and read back as other years: `GridShowsTheYearIff`, `RoundTripIff`, `TextRoundTrip`.
- An export whose page size exceeds the server's cap stops after one page: `PagedExport.Export`
  with `CapCutsNothingIff` and `StopsAfterTheCap`. With `maxRows` of zero or less it reports
  `truncated` as false without asking.
- A null entry in a live-feed page leaves keys noted but never shown: `TotalCountsTheSeenIff`, `NullLosesARow`.

## Model

| member | source | states |
|---|---|---|
| ReportStore.WriteOnlyAppends | fia-service/src/persistence/report_writer.py:24-42 | a write never changes a stored row, adds at most one, keeps transaction ids unique, and after a normal return the transaction has a row; True means a row was added |
| ReportStore.Lookup | fia-service/src/persistence/report_writer.py:56-66 | finds a row of that transaction exactly when one exists |
| ReportStore.LookupFindsTheRow | fia-service/src/persistence/report_writer.py:215-219 | with unique ids, reading by transaction id returns that very row |
| ReportStore.ReportWriter.Write | fia-service/src/persistence/report_writer.py:143-183 | a write adds exactly one row when the transaction is new and the insert reached the server, none otherwise; the row holds the event key by key, its transaction id and the report; the result says what happened |
| ReportStore.WriteStoresTheEvent | fia-service/src/persistence/report_writer.py:143-183 | the same of the function the protocol runs use |
| ReportStore.ReportWriter.AddTurn | fia-service/src/persistence/report_writer.py:268-290 | inserts a turn unless its report and index are taken, and says which |
| Handler.FIAService.constructor | fia-service/src/main.py:48-59 | empty retry map, zero counters, three retries |
| Handler.FIAService.RecordFailure | fia-service/src/main.py:120-145 | one more failure; at the bound the counter is cleared, poison counted, and True returned |
| Handler.FIAService.HandleMessage | fia-service/src/main.py:69-118 | the whole effect of one event on counters, retry map and table, and its verdict |
| PythonText.UpperIsDeclineIff | fia-service/src/main.py:80-83 | a decision upper-cases to DECLINE exactly when it is those seven letters in either case, the i perhaps dotless |
| Handler.OwedIff | fia-service/src/main.py:75-83 | a report is owed exactly for a named transaction whose decision spells DECLINE |
| Handler.SuccessIsStoredAndCounted | fia-service/src/main.py:85-118 | a generated report is stored with its event and counted as processed, or, when the transaction has its row, counted as a duplicate; nothing else is counted and only this retry counter is cleared |
| Handler.SafeMeansStoredOrPoison | fia-service/src/main.py:69-118 | True for a declined transaction means its row is stored or it was just counted as poison; other events change nothing |
| RetryLedger.RetriesCountTheStreak | fia-service/src/main.py:120-145 | after any run the live counter is the failure streak since the last success modulo the bound, and lies in 1..bound-1 when present |
| RetryLedger.SafeExactlyOnTheLastRetry | fia-service/src/main.py:120-145 | a failing handling returns True, and counts poison, exactly on every bound-th failure since the last success |
| RetryLedger.FailuresAreConserved | fia-service/src/main.py:101-145 | failed = bound * dropped + live counters + counters cleared by successes; published <= dropped; all counters in range |
| RetryLedger.CountersCount | fia-service/src/main.py:101-145 | over any run each counter is a number read off the run: successes of new and of known transactions, failures, drops at every bound-th failure of a streak, and drops the dead-letter topic took |
| OnDemand.AdvanceKeeps | fia-service/src/main.py:178-228 | one step of a request thread keeps ids unique, only appends, and a 200 or 201 carries a stored row of its transaction |
| OnDemand.CreateReport | fia-service/src/main.py:164-228 | the method run alone is the request thread run to its reply |
| OnDemand.CallerWins | fia-service/src/main.py:204-209 | hydration keeps what the caller supplied, key by key, and fills only the blanks from the audit row |
| OnDemand.ServedRequest | fia-service/src/main.py:164-228 | every reply of a request served alone, with its code, its body and what it leaves in the table |
| DeliveryProofs.InvKept | fia-service/src/consumer/kafka_consumer.py:91-126 | every step of the protocol keeps the delivery invariant |
| DeliveryProofs.CommitAccounts | fia-service/src/consumer/kafka_consumer.py:115-119 | a commit that lands accounts for every offset it newly covers |
| DeliveryProofs.DeliveryLedger | fia-service/src/consumer/kafka_consumer.py:91-126 | in every run, every offset below a committed offset returned True once, or failed and was overtaken by a later success of its partition |
| DeliveryProofs.DeclinesAreStoredDroppedOrOvertaken | fia-service/src/main.py:69-145 | in every run, a declined transaction below a committed offset has its row, or was counted as poison, or was overtaken without any True |
| DeliveryProofs.CommittedMovesForward | fia-service/src/consumer/kafka_consumer.py:114-119 | a step moves at most one committed offset, that of the partition just processed, and only forward |
| DeliveryProofs.CommittedIsInTheLog | fia-service/src/consumer/kafka_consumer.py:114-119 | no committed offset passes the end of its log |
| DeliveryProofs.RunKeeps | fia-service/src/consumer/kafka_consumer.py:91-126 | over whole runs the invariant holds, tables and history only grow, committed offsets never fall |
| DeliveryProofs.OneReportPerTransaction | fia-service/src/main.py:178-228 | in every run at most one row per transaction, never overwritten, and every 200 or 201 for it carries that row, now and later |
| Provenance.EveryRowWasWritten | fia-service/src/persistence/report_writer.py:143-183 | in every run each stored row carries its event's transaction id and was written, with that event and that report, for a handled DECLINE or by a request that held them |
| Provenance.RequestsHaveStories | fia-service/src/main.py:164-228 | in every run each request holds the event it was asked with, or that event filled up from the audit row it was answered, and writes only a report generated for it |
| Redelivery.GapWasHandled | fia-service/src/consumer/kafka_consumer.py:98-119 | every offset a landing commit newly covers was handled live: safely at some time, or only ever down the failing branch |
| Redelivery.CommitSkipsNothingIff | fia-service/src/consumer/kafka_consumer.py:107-119 | a step first leaves a failed message behind exactly when it is a commit that lands past an offset for which the loop has only taken its failing branch |
| Redelivery.RunSkipsNothingIff | fia-service/src/consumer/kafka_consumer.py:91-126 | over whole runs from the empty system: no state ever skips a message of the partition exactly when no commit of the run lands past such a failure |
| Redelivery.PassedIsNotFetchedAgain | fia-service/src/consumer/kafka_consumer.py:91-126 | until a rebalance, no run fetches an offset below the position again |
| Redelivery.FailedMessageWaitsForARebalance | fia-service/src/consumer/kafka_consumer.py:107-112 | after a handling that did not return True, no poll fetches the message again before a rebalance |
| Redelivery.CommittedIsNotFetchedAgain | fia-service/src/consumer/kafka_consumer.py:114-119 | no run at all fetches an offset below the committed one again |
| Redelivery.DeliveredAgainIff | fia-service/src/consumer/kafka_consumer.py:77-126 | in every state a message of the log can still be delivered, by some run, exactly when it is not below the committed offset |
| Redelivery.FailedMessageIsNotDeliveredAgain | fia-service/src/consumer/kafka_consumer.py:107-112 | a concrete run: a failed DECLINE below the committed offset with no row and no poison, which no continuation ever fetches again |
| Consumer.BlockedTransactionConsumer.Process | fia-service/src/consumer/kafka_consumer.py:98-126 | one record is handled and only its own partition committed, only after True |
| Consumer.BlockedTransactionConsumer.Consume | fia-service/src/consumer/kafka_consumer.py:77-128 | the nested loop handles exactly the records fetched before a stop or a lost commit, in order; unconnected or already stopped it changes nothing |
| Consumer.FetchedPlaces | fia-service/src/consumer/kafka_consumer.py:91-98 | every record of every poll the loop gets to is handed over, at the place given by the records before it |
| Consumer.FetchedLength | fia-service/src/consumer/kafka_consumer.py:91-98 | and nothing else is: the number handed over is the sum of the batch sizes up to the last poll |
| Consumer.BlockedTransactionConsumer.ConsumeOne | fia-service/src/consumer/kafka_consumer.py:77-126 | a poll of one record handles and, after True, commits that record |
| Consumer.HandleAllSplits | fia-service/src/consumer/kafka_consumer.py:91-96 | how records are cut into batches and polls does not matter |
| ConsumerRefines.RecordRefines | fia-service/src/consumer/kafka_consumer.py:96-126 | one record of the loop is a poll, a handling and perhaps a commit of the protocol |
| ConsumerRefines.LoopRefinesProtocol | fia-service/src/consumer/kafka_consumer.py:91-126 | the loop's effect on handler, table and offsets is that of a run of the protocol |
| ConsumerRefines.InterleavedLoopRefinesProtocol | fia-service/src/consumer/kafka_consumer.py:91-126 | the same with any steps of other replicas, request threads and producers, and rebalances, between its records |
| ConsumerRefines.RunConsumer | fia-service/src/consumer/kafka_consumer.py:77-128 | the consumer object, run on the polls of one replica, ends with the table, offsets and counters of a run of the protocol |
| Conversation.InvKept | fia-service/src/main.py:230-263 | every step of any thread keeps all conversations gap-free and all pending indices reached |
| Conversation.ConversationsHaveNoGaps | fia-service/src/main.py:230-263 | in every run stored indices of a report are exactly 0..n-1 in storage order, and stored turns never change or move |
| Conversation.TurnIsStoredIff | fia-service/src/persistence/report_writer.py:110-120 | one insertion takes effect exactly when the conversation still ends where the thread expects |
| Conversation.CallIsStoredIff | fia-service/src/main.py:230-274 | over whole runs: a call answered 201 has both its turns stored exactly when no other call stored a turn of the report between its reading of the index and its reply |
| Conversation.AddMessage | fia-service/src/main.py:230-274 | a call without overlap does what the exchange function says; it replies 404 exactly for an unknown report, else 500 for a failed chat and 201 otherwise |
| Conversation.ThreadAloneIsExchange | fia-service/src/main.py:230-274 | a thread alone in the interleaved system does that too |
| Conversation.SerialCallsLoseNothing | fia-service/src/main.py:230-274 | calls without overlap extend the conversation by exactly their transcript, numbered on |
| Conversation.OverlappingCallsLoseTurns | fia-service/src/main.py:237-263 | a concrete run from an empty chat: two calls, both answered 201, of which only the first one's turns are stored |
| DriftWindows.WindowsHoldTheNewestSamples | mla-service/src/monitoring/drift_detector.py:53-64 | after any samples, resets and resizes the three windows hold, entry by entry, the last of the samples since the reset, at most the size in force, and as many as all sizes since allowed |
| DriftWindows.LengthIsGreatestAffordable | mla-service/src/main.py:603-627 | the windows' length is the greatest number that fitted every size in force |
| DriftWindows.DriftDetector.Update | mla-service/src/monitoring/drift_detector.py:96-120 | each queue takes its part of the sample and drops its oldest |
| DriftWindows.DriftDetector.ResetAll | mla-service/src/monitoring/drift_detector.py:263-276 | all three queues are emptied and the size stays |
| DriftWindows.DriftDetector.PutDriftConfig | mla-service/src/main.py:603-627 | 422 and no change outside 100..100000, otherwise all queues keep their newest samples |
| DriftFeed.LabelFeed.FeedDriftFromLabels | mla-service/src/main.py:693-761 | one poll: rows past the mark up to the limit enter the windows, the mark moves only if none raised, and then the j-th newest prediction, actual and probability are those of the j-th row from the end |
| DriftFeed.NewestAreTheRows | mla-service/src/main.py:742-747 | the same of the function: 1 for a decision that spells DECLINE, 1 for fraud, the score or 0 |
| DriftFeed.PollIsNext | mla-service/src/main.py:706-728 | a poll reads one slice of the sorted table, from the first row past the mark |
| DriftFeed.NoRowIsFedTwice | mla-service/src/main.py:750-755 | over any polls of a growing table, fed rows lie at strictly increasing places |
| DriftFeed.NextPollSkipsNothingIff | mla-service/src/main.py:706-755 | the next poll goes on where the last ended exactly when no equal timestamps straddle that point; all it skips carry that timestamp |
| DriftFeed.SkippedForGood | mla-service/src/main.py:706-755 | a row left behind the start of a poll is fed by no later poll |
| DriftFeed.SecondOfTwoIsNeverFed | mla-service/src/main.py:706-728 | two rows of one timestamp and a limit of one: however often the feed polls, the second never comes |
| DriftFeed.FedIsAPrefix | mla-service/src/main.py:706-755 | if no poll goes on behind a boundary that splits equal timestamps, the rows fed are a prefix of the table at full pace |
| DriftFeed.FedExactlyOnceIff | mla-service/src/main.py:693-761 | on any growing table the rows fed are its own, each once and at full pace, exactly when no poll goes on behind such a boundary; the condition names only the table, its growth and the limit |
| DriftFeed.BacklogDrains | mla-service/src/main.py:750-755 | k polls feed a fixed backlog of n rows, each once and in order, exactly when k * limit >= n and no multiple of the limit splits equal timestamps |
| DriftFeed.WindowsTakeTheFedRows | mla-service/src/main.py:730-748 | the windows and the counter take exactly the fed rows in order |
| DriftFeed.RaisingPollFeedsAgain | mla-service/src/main.py:735-755 | a poll that raises leaves the mark and the next one feeds its rows again; each comes once exactly when it raised before the first |
| RaisingFeed.NoRowIsFedTwiceIff | mla-service/src/main.py:693-761 | over any polls of a growing table that may each raise at any row: no row is fed twice exactly when no poll takes a row after one that raised part way |
| RaisingFeed.PollsFeedThePlaces | mla-service/src/main.py:730-755 | over the same polls, the service's windows take exactly the rows at the places fed, in order |
| Retrain.LabelRoundTrip | mla-service/src/main.py:209-212 | a version label reads back as the version it names |
| Retrain.MLAService.constructor | mla-service/src/main.py:152-250 | the state after start for each answer of the registry |
| Retrain.MLAService.CooldownSuppresses | mla-service/src/main.py:299-318 | blocks automatic triggers inside the cooldown, and counts them |
| RetrainRuns.SuppressedIff | mla-service/src/main.py:299-318 | over any calls, in clock readings: a call is suppressed exactly when its trigger is neither manual nor initial and it is checked less than the cooldown after the last start; every other call starts a run |
| RetrainRuns.RunEndsAs | mla-service/src/main.py:351-553 | when a run deploys, is rejected or fails, and what each leaves of model, version, counters and windows |
| Retrain.MLAService.RunTrainingPipeline | mla-service/src/main.py:320-553 | one call: suppressed, or started, tried and ended with one outcome |
| Retrain.MLAService.TryPipeline | mla-service/src/main.py:360-553 | how far a run gets changes model, version, detector and counters as the stages answer |
| RetrainRuns.EveryRunHasOneOutcome | mla-service/src/main.py:320-553 | between calls nothing is in progress, started = succeeded + failed + rejected, and every other call was suppressed |
| RetrainRuns.AutomaticRunsKeepTheirDistance | mla-service/src/main.py:299-318 | every automatic run starts at least the cooldown after the previous start of any kind |
| RetrainRuns.UploadsAreConsecutive | mla-service/src/main.py:320-553 | uploads of one process carry consecutive versions, also when a run fails after its upload |
| RetrainRuns.UploadedVersionsIncrease | mla-service/src/main.py:320-553 | uploaded versions strictly increase and none is reused |
| RetrainRuns.RestartOverwritesIff | mla-service/src/main.py:152-250 | whatever the registry holds and however the start went, a process that uploads k times overwrites a version exactly when the registry holds one of the k it numbers on with |
| RetrainRuns.RestartReusesAVersionIff | mla-service/src/main.py:205-212 | after a restart from a readable model, some upload of the process overwrites a version exactly when it uploads at all and the loaded one is not the highest |
| RetrainRuns.FallbackReusesAVersionIff | mla-service/src/main.py:223-248 | without a readable model, booster or label the process counts from v1.0 or v1.1, and overwrites a version exactly when its k versions meet the registry's |
| RetrainRuns.SecondUploadAfterAFallbackOverwrites | mla-service/src/main.py:243-248 | with v1.1 and v1.2 in an unreadable registry the first upload is new and the second overwrites v1.1 |
| RetrainRuns.WaitingCandidateIsOverwritten | mla-service/src/main.py:205-212 | with v1.0 served and v1.1 waiting, the next upload overwrites v1.1 |
| PartialUploads.NoFileIsOverwrittenIff | mla-service/src/deployment/model_registry.py:176-268 | within a process no version's model file is written twice exactly when no run writes one after a run that wrote its file and then raised in the upload |
| PartialUploads.RestartOverwritesAFileIff | mla-service/src/deployment/model_registry.py:176-268 | counting such files too: a process writes over a file exactly when the registry holds one of the consecutive versions it writes for |
| PartialUploads.NextRunWritesTheSameVersion | mla-service/src/deployment/model_registry.py:176-194 | an upload that raises after its first file and a good run after it: both write under the same version |
| RetrainRuns.LabelMonitor.CheckLabelVolume | mla-service/src/main.py:763-803 | one check: the drift run, then the volume trigger with its guards |
| RetrainRuns.TriggerIsLostIff | mla-service/src/main.py:801-803 | enough pending labels are always uncounted; no run starts for them exactly when the cooldown blocks |
| RetrainRuns.TriggerIsLostOnce | mla-service/src/main.py:801-803 | one label inside the cooldown: uncounted, and no run starts |
| RetrainRuns.PendingAddsUp | mla-service/src/main.py:775-783 | the pending count adds up over lists, and one label counts exactly past the mark |
| RetrainRuns.CheckStartsIff | mla-service/src/main.py:763-803 | which of the two triggers of a check starts a run, by count, switch and clock |
| CivilDate.DayFromYearFormula | frontend/src/components/date-time-picker.jsx:58-71 | counting years one by one is the closed formula of section 21.4.1 of ECMA-262 |
| CivilDate.LengthsOfTheMonths | frontend/src/components/date-time-picker.jsx:58-71 | the twelve month lengths and the leap rule |
| CivilDate.DayOfCivilDate | frontend/src/components/date-time-picker.jsx:58-71 | the day number of every date in closed form from year, month and date |
| CivilDate.WeekDayOfDate | frontend/src/components/date-time-picker.jsx:60-61 | the weekday of every date by Zeller's congruence |
| CivilDate.MonthsCarry | frontend/src/components/date-time-picker.jsx:30-30 | a month past December is a month of the next year |
| CivilDate.DateRoundTrip | frontend/src/components/date-time-picker.jsx:58-71 | a valid civil date is the year, month and date of its day number |
| CivilDate.DayRoundTrip | frontend/src/components/date-time-picker.jsx:58-71 | every day number is a valid civil date's |
| CivilDate.JsDate.SetDate | frontend/src/components/date-time-picker.jsx:67-67 | setting the date moves the day by the difference of the two dates, across month and year ends |
| Calendar.BuildGrid | frontend/src/components/date-time-picker.jsx:58-71 | 42 cells, each the i-th day of the grid with its flag |
| Calendar.GridIsTheMonth | frontend/src/components/date-time-picker.jsx:58-71 | for every month: consecutive days, cell i on weekday (i + 1) mod 7 with Sunday 0, and the unmarked cells are exactly days 1..DaysInMonth in one block starting in the first week, though the flag ignores years |
| Calendar.GridShowsTheYearIff | frontend/src/components/date-time-picker.jsx:59-59 | the grid shows the year asked for exactly outside 0..99, and there the year 1900 later |
| DateText.ParseOfText | frontend/src/components/date-time-picker.jsx:25-34 | what reading a formatted year, month, date and time yields, for every year |
| DateText.RoundTripIff | frontend/src/components/date-time-picker.jsx:25-46 | date and time read back exactly for years from 100 on |
| DateText.TextRoundTrip | frontend/src/components/date-time-picker.jsx:25-46 | formatting what was read is the identity on a formatted text exactly when it is empty or of a year from 100 on; a missing time is midnight |
| DateText.TextHasItsShape | frontend/src/components/date-time-picker.jsx:36-46 | every text is its year, then -MM-DDTHH:MM in two digits each, month counted from 1 |
| DateText.DateOnlyIsMidnight | frontend/src/components/date-time-picker.jsx:28-33 | a text without a time is that date at midnight |
| DateText.NothingReadsAsNothing | frontend/src/components/date-time-picker.jsx:26-29 | the empty text, a zero month and a zero day are no date |
| Csv.ToCsv | frontend/src/pages/audit-log.jsx:585-596 | the export reads back as the 23 headers and, row by row, under each header the text of the row's field of that name, empty when missing or null |
| Csv.CellReadsBack | frontend/src/pages/audit-log.jsx:578-583 | any cell, quoted or not, reads back as its text |
| Csv.BareIff | frontend/src/pages/audit-log.jsx:581-582 | a text is written bare exactly when it holds no quote, comma or line end |
| Csv.RecordReadsBack | frontend/src/pages/audit-log.jsx:594-594 | one line reads back as its cells, whatever they hold |
| Csv.CsvRoundTrip | frontend/src/pages/audit-log.jsx:578-596 | reading the export recovers the 23 headers and every cell of every row in order |
| BulkOverride.DoBulk | frontend/src/pages/review-queue.jsx:300-335 | in every order of replies: one request per target in order, never more than five in flight, the failures are exactly the refused targets, and the queue ends as the failures followed by the unselected rows |
| BulkOverride.RunPool | frontend/src/pages/review-queue.jsx:312-329 | the pool ends, requests each target once, keeps at most five in flight and collects each refusal once |
| BulkOverride.PoolKept | frontend/src/pages/review-queue.jsx:318-328 | when a request settles, every requested target is still settled or held by one worker, and none idles while targets are left |
| BulkOverride.PickSplits | frontend/src/pages/review-queue.jsx:302-309 | selection splits the queue without losing or copying a row |
| BulkOverride.PickKeepsTheOrder | frontend/src/pages/review-queue.jsx:302-309 | the rows picked stand in the order of the queue, at exactly the places of those wanted |
| BulkOverride.RowsAreConserved | frontend/src/pages/review-queue.jsx:300-335 | accepted rows and the rows left are together the old queue, each as often |
| PagedExport.Export | frontend/src/api/client.js:557-576 | against any slices the rows are a prefix within maxRows; against full slices exactly the reachable ones; truncated exactly when rows are missing; nothing is asked for maxRows <= 0. The transactions export (530-549) has the same body |
| PagedExport.CapCutsNothingIff | frontend/src/api/client.js:561-573 | the export gets as far as its row limit exactly when its first page, or the whole list, fits the server's cap |
| PagedExport.StopsAfterTheCap | frontend/src/api/client.js:561-573 | two rows, page size two, one row a page: the export stops after the first |
| LabelLines.ParseLabelLines | frontend/src/pages/labels.jsx:25-58 | the splicing loop yields the entries no later line replaces, and the complaints in line order |
| LabelLines.NextWins | frontend/src/pages/labels.jsx:52-54 | one more entry moves its transaction to the end; any other line changes no label |
| LabelLines.ListedOnce | frontend/src/pages/labels.jsx:52-54 | exactly the transactions named by an entry are listed, each once |
| LabelLines.LastLineDecides | frontend/src/pages/labels.jsx:33-55 | each label comes from the last entry for its transaction, in the order of those lines |
| LabelLines.IllFormedLinesChangeNothing | frontend/src/pages/labels.jsx:35-50 | without the ill-formed lines the labels are the same; well-formed lines and complaints add up to the lines |
| LabelLines.ComplaintsQuoteTheirLine | frontend/src/pages/labels.jsx:36-49 | complaints are exactly the ill-formed lines with their numbers, ascending |
| LabelLines.BareIdTakesTheDefault | frontend/src/pages/labels.jsx:34-40 | a bare id takes the verdict of the page |
| LabelLines.VerdictOf | frontend/src/pages/labels.jsx:40-50 | the four words for fraud and the five for legitimate, an empty verdict and an unknown one |
| LabelLines.IllFormedLines | frontend/src/pages/labels.jsx:34-38 | a line without an id or with a third part is ill-formed |
| LabelLines.NotBlankKeepsTheOthers | frontend/src/pages/labels.jsx:28-31 | blank lines are dropped and all others kept in order |
| LabelLines.TrimTakesSpaces | frontend/src/pages/labels.jsx:30-34 | trimming takes spaces off both ends and nothing else |
| LabelLines.SpacesOfAscii | frontend/src/pages/labels.jsx:30-34 | which ASCII characters are spaces |
| LabelLines.LowerByPlace | frontend/src/pages/labels.jsx:42-42 | lower-casing letter by letter |
| LabelLines.WrittenLabelsReadBack | frontend/src/pages/labels.jsx:25-58 | labels written one to a line read back as they were, without complaint |
| LiveFeed.Feed.SetPaused | frontend/src/pages/live-decisions.jsx:34-71 | pausing cancels the polls in flight, resuming starts a new effect |
| LiveFeed.Feed.Tick | frontend/src/pages/live-decisions.jsx:38-64 | one reply is dropped or merged into keys, rows, total and cursor |
| LiveFeed.Feed.NoteKeys | frontend/src/pages/live-decisions.jsx:43-53 | the loop over a page notes the new keys up to an entry that raises |
| LiveFeed.NewRowsAreNew | frontend/src/pages/live-decisions.jsx:47-53 | the rows taken from a page are one for each key carried, not blank and not seen |
| LiveFeed.RunIsSound | frontend/src/pages/live-decisions.jsx:38-61 | in every run of replies in any order and of pauses: shown keys are distinct and noted, as many as the total up to 60, and total + lost = noted keys |
| LiveFeed.ShowsTheNewestOfTheHistory | frontend/src/pages/live-decisions.jsx:59-60 | entry by entry the rows are the newest 60 of everything ever shown, and the total is the length of that history |
| LiveFeed.OneRowPage | frontend/src/pages/live-decisions.jsx:47-60 | a page of one row: its key, the row on top if the key is new, the sixty-first dropped, the total and the cursor |
| LiveFeed.NewRowsKeepTheOrder | frontend/src/pages/live-decisions.jsx:47-53 | the new rows keep the order of the page |
| LiveFeed.CancelledRepliesChangeNothing | frontend/src/pages/live-decisions.jsx:41-42 | a reply to an earlier effect, a reply while paused and a failed poll change nothing |
| LiveFeed.TotalCountsTheSeenIff | frontend/src/pages/live-decisions.jsx:47-60 | the total is the number of noted keys exactly when no accepted page raised after a new key |
| LiveFeed.NullLosesARow | frontend/src/pages/live-decisions.jsx:47-60 | a row and a null in one page: the key is noted, and the row is not shown, not even when it comes again |
| LiveFeed.RepeatedPageShowsNothing | frontend/src/pages/live-decisions.jsx:48-58 | a page that comes again shows and counts nothing more |
| LiveFeed.ReplyOrderDoesNotMatter | frontend/src/pages/live-decisions.jsx:38-61 | two replies note and count the same in either order |
| Metrics.OwnRateGivesThePrecision | scripts/analyze_simulation.py:94-100 | the projection at the sample's own fraud rate is its precision, in every zero case |
| Metrics.PrecisionRisesWithTheBaseRate | scripts/analyze_simulation.py:94-100 | the projected precision lies in 0..1 and never falls as the base rate rises |
| Metrics.F1IsTheBalance | scripts/analyze_simulation.py:72-78 | F1 = 2tp / (2tp + fp + fn), between precision and recall |
| SimulationAnalysis.ConfusionOf | scripts/analyze_simulation.py:49-69 | the loop counts the rows of each cell |
| SimulationAnalysis.MatrixCounts | scripts/analyze_simulation.py:49-69 | each of the four counts is the number of rows with a score and a status of 200 or more that are fraud or not and blocked or not, by the rule's decision or the threshold |
| SimulationAnalysis.CellsSplitTheTruth | scripts/analyze_simulation.py:49-69 | the fraud cells and the other cells each add up to a number that no threshold changes |
| SimulationAnalysis.StricterBlocksFewer | scripts/analyze_simulation.py:58-64 | a higher threshold, or letting reviews pass, never raises recall or false-positive rate |
| SimulationAnalysis.ProjectionAtTheOwnRate | scripts/analyze_simulation.py:49-100 | from rows to projection: at the rows' own fraud rate the projection is the measured precision |
| ThresholdSweep.Sweep | scripts/threshold_sweep.py:77-93 | the lines are those of all thresholds up to 0.96; the running best is the first line within the target, or none |
| ThresholdSweep.LineMeans | scripts/threshold_sweep.py:79-90 | line k stands for the threshold 0.05 + k * step, and its numbers are the shares of the scores at or above it |
| ThresholdSweep.SweptUpToIff | scripts/threshold_sweep.py:76-77 | the sweep goes on exactly up to 0.96 |
| ThresholdSweep.ReportedThresholdIsBest | scripts/threshold_sweep.py:91-92 | below the reported threshold no swept one meets the target; from it on all do and none has greater recall |
| ThresholdSweep.RatesFall | scripts/threshold_sweep.py:79-86 | recall and false-positive rate never rise with the threshold |
| ThresholdSweep.SweepEndsIff | scripts/threshold_sweep.py:77-93 | the thresholds pass 0.96 exactly for a positive step |

## Left out

- The language model, XGBoost training, ONNX conversion and A/B statistics: each is an open success, failure or value.
- Which of an upload's further files a raising upload leaves behind, and the review of candidates in the registry.
- F1, PSI and the per-feature windows of the drift detector: only the three parallel queues are modelled.
- Transaction ids and decisions that are not text; such a value is a message the handler raises on.
- Kafka's `auto_offset_reset` beyond a group that starts at the log's beginning; brokers, sockets and signals.
- `SystemExit` and `KeyboardInterrupt` inside a pipeline call: a thread that dies between calls is covered, one that dies inside is not.
- Two pipeline calls at once: the in-progress check and its setting are separate steps of the original, so no exclusion between threads is claimed.
- DriftFeed.FedIsAPrefix: rows relabelled with a new timestamp, the order of rows with equal timestamps, and the rounding of float timestamps are not modelled.
- ConsumerRefines.InterleavedLoopRefinesProtocol: steps of others come between records; steps between the poll, the handling and the commit of one record are in the protocol but not in this refinement.
- Conversation.AddMessage: the history passed to the model is not stored, so it is not part of the state.
- CivilDate.JsDate.SetDate: time zones, daylight saving and the range limit of JavaScript dates are not modelled.
- DateText.ParseOfText: JavaScript's `Number` is modelled on digit strings; signs, fractions, exponents and blanks, which the formatter never writes, read as NaN here.
- BulkOverride.DoBulk: other changes to the queue during a bulk action, and the refetch after it, are not modelled.
- LabelLines.ParseLabelLines: complaints are kept as data, not as sentences; lower-casing outside ASCII cannot produce a verdict word and is the identity here.
- LiveFeed.Feed.Tick: what the server answers for a cursor is left open; the other columns of a shown row are one opaque text.
- ThresholdSweep.Sweep: thresholds are exact reals, without the rounding of repeated float addition; a step that is not positive never ends and is excluded.
- The accuracy that `metrics` also returns: one quotient of the four counts.
- Metrics.OwnRateGivesThePrecision: exact over the reals; floats can differ in the last place.
- React rendering, toasts, authentication, permissions, configuration clamping, data generators and load-test personas.

# LinSight, modelled and proved in Dafny

LinSight is a hardware monitor: a daemon (`linsightd`) samples sensors that plugins provide, stores and
watches the samples, and serves them to a desktop client over a framed protocol, if need be through a
tunnel. This project models the parts of it that keep state over a long time and proves what holds in
every run of them:

| files | component |
|---|---|
| `Scheduler.dfy`, `SchedulerRuns.dfy` | one cadence per sensor out of many subscriptions; plan, sample, commit |
| `Samples.dfy`, `Pipeline.dfy` | what travels through the daemon; a sample's way from the sampler into history and alerts |
| `Downsample.dfy`, `History.dfy`, `HistoryRuns.dfy` | batching writer, last-write-wins table, pruning, bucketed queries |
| `AlertRules.dfy`, `AlertRuns.dfy`, `AlertContext.dfy`, `SensorRefs.dfy`, `Expressions.dfy`, `AlertEngine.dfy`, `ShellSplit.dfy` | alert rules and their edits, the evaluation context, rule expressions, the event ring, the argv tokenizer |
| `Wire.dfy`, `FrameIO.dfy` | message bodies, length-prefixed frames, the reader and the writer |
| `RpcClient.dfy`, `Reconnects.dfy`, `Subscriptions.dfy` | request correlation, connection generations, replayed subscriptions |
| `Tunnel.dfy` | the bidirectional copy loop |
| `Slugs.dfy`, `Dashboards.dfy` | dashboard file names and the dashboards directory |
| `DeviceLabels.dfy`, `PluginHost.dfy`, `HardwareRegistry.dfy` | plugin registration, device list, label cache |

The pattern is the same throughout. Where the source changes state in place there is a class (or a
method with its loop) proved to do exactly what a function on values says; the theorems about whole runs
are then proved about those functions. Protocols between threads are state machines whose steps are the
single atomic actions of the source. Clocks, databases, files, peers and evaluated expressions enter as
parameters that may do anything the real ones may.

`dafny verify dfyconfig.toml` checks everything.

## Where code and documentation differ

The model follows the code.

- `prune_unreferenced_values` is documented to keep what an *enabled* rule refers to; it keeps what any
  rule refers to (apps/linsightd/src/alerts.rs:538-546).
- `shell_split` documents two escapes inside double quotes; it honours four, also `$` and the backtick
  (apps/linsightd/src/alerts.rs:926-972).
- `HardwareRegistry::build` is documented to drop a sensor that does not refer to a device of its own
  plugin; it attaches a sensor to any device registered so far (apps/linsightd/src/hardware.rs:113-125).
  `HardwareRegistries.SensorsAreAttached` says exactly which sensors a device gets.
- The rewriting of `.` to `__` is meant for sensor names but applies to a whole expression
  (apps/linsightd/src/alerts.rs:380). `Expressions.OnlyNamesRewrittenExactly` says for which expressions this
  makes no difference; `Expressions.LiteralsAreRewritten` and `AlertContext.DecimalsAreRewritten` show what
  becomes of a decimal literal such as `85.5`.

## Properties that hold only under a condition

Each comes with the input or run that breaks it and with its exact condition.

- The alive flag of a workspace is down exactly when the current forwarder has cleared it, as long as no
  generation is published while that forwarder stands between its comparison and its clear
  (`Reconnects.AliveExactly`). Whenever one is, the flag can end up down over a healthy connection
  (`Reconnects.SplitClearRaces`), and this is reached (`Reconnects.RaceIsReachable`).
- Subscription calls that fall between the replay and the swap of a reconnect are remembered but never
  asked for on the new connection: `Subscriptions.OverlappingCallsAreLost` and
  `Subscriptions.OverlappingCallHarmlessExactly` say exactly when that matters.
- A caller gets its own answer as long as no call is made while an earlier one still claims the same 32-bit
  id (`RpcClient.CallersGetTheirOwnAnswer`); a span of live numbers below 2^32 is enough for that
  (`RpcClient.SpanRunsAreFresh`). A call made in spite of such a claim can go wrong, and only such a call
  (`RpcClient.SafeToCallExactly`); it happens after 2^32 - 1 ordinary calls (`RpcClient.CollisionIsReachable`).
- Rewritten sensor names are distinct exactly for ids in which no underscore is followed by an underscore
  or a dot: `AlertContext.RewriteInjectiveExactly` gives the colliding twin of every other id.
- A rule index taken before a deletion means the same rule exactly when no rule up to and including that
  index was deleted (`AlertRuns.IndexKeepsRuleExactly`), and is in range exactly when that many rules remain
  (`AlertRules.DeletionKeepsInRange`); if anything is deleted the last index is not
  (`AlertRules.LastIndexGoesOutOfRange`), and applying an outcome there would index past the list. `AlertRuns`
  follows each rule through edits and deletions of others; an outcome in such a run is the one for the rule
  its index means when it is applied.
- Saving a layout, or renaming to a name with the same slug, overwrites another dashboard exactly when the
  file stores a slug other than its own name and that slug is in use:
  `Dashboards.SavingOverwritesOnlyOnMismatch`, `Dashboards.RenamingOverwritesOnlyOnMismatch`, with
  `Dashboards.RenamingCanReplaceAnother` as the example.
- Waiting for a response by skipping frames gives what decoding every frame gives, at the same byte, unless
  the frame at which decoding stops is complete and its first byte does not tell the skipping reader so: it
  is empty or undecodable and not marked as a Response or Bye, or decodes to an answer of a kind its first
  byte does not announce. `Wire.SkippingAgainstDecoding` says this for every byte string and every decoder of
  bodies; `Wire.ReadersDisagree` (five bytes), `Wire.CutPayloadDisagrees` (six bytes) and
  `Wire.UninspectedFrameParts` (also an overlong variant index) are the inputs. On streams a writer produced
  the two never differ (`Wire.SkippingAgreesWithDecoding`).
- A frame of length zero makes the reader index an empty body. `Wire.ReadingEndsEmptyExactly` and
  `Wire.SkippingEndsEmptyExactly` say, for every decoder, exactly for which byte strings this happens.

## Assumptions

- Scheduler: each subscription handle is released at most once, the clock does not go back
  and stays below 2^64 minus 256 of the longest periods, a commit has at most one result per item of the
  latest plan. Subscribing and unsubscribing may fall anywhere.
- History: a flush is a transaction that commits as a whole or not at all; the writer's monotonic clock
  does not go back.
- Alerts: rules are edited between samples, not while outcomes of a sample are awaited; what an edit in between
  would do to an index is stated above.
- Frames: the decoder of bodies is arbitrary; results about written streams ask of it that it gives back the
  messages written, nothing else.
- RPC: the daemon answers a request it received at most once.
- Tunnel: a read that yields data yields between one byte and a bufferful; everything else about peers
  and timeouts is arbitrary.

## Model

| member | source | states |
|---|---|---|
| `Downsample.Limit` | apps/linsightd/src/history.rs:364 | the row limit of a query is 500 if none is asked for, and otherwise what is asked for, brought into 1 to 10000 |
| `Downsample.FirstOfBucket` | apps/linsightd/src/history.rs:366-402 | a row ranks first in its bucket if and only if it is the first row or the row before lies in an earlier bucket |
| `Downsample.ChosenExact` | apps/linsightd/src/history.rs:366-402 | of n rows exactly min(n, limit) rank first, and the k-th of them is row ceil(k*n/limit) |
| `Downsample.SelectIsExact` | apps/linsightd/src/history.rs:364-402 | a downsampled query returns exactly min(n, limit) rows starting with the oldest, and the trailing LIMIT cuts nothing |
| `Downsample.GapsEven` | apps/linsightd/src/history.rs:366-402 | successive chosen rows are floor(n/limit) or ceil(n/limit) apart, so gaps differ by at most one |
| `Downsample.PicksAscend` | apps/linsightd/src/history.rs:366-402 | chosen rows are in strictly increasing order |
| `History.HistoryStore.constructor` | apps/linsightd/src/history.rs:251-256 | the writer starts with empty batches and a prune clock backdated so that only the initial delay remains, where the clock can express that |
| `History.HistoryStore.Record` | apps/linsightd/src/history.rs:72-102 | scalar, counter and state samples are sent with the matching column set; tables are ignored |
| `History.HistoryStore.Send` | apps/linsightd/src/history.rs:108-118 | a record joins the end of the channel, or is counted as dropped when the channel is full |
| `History.HistoryStore.FlushSamples` | apps/linsightd/src/history.rs:309-329 | the batch is folded into the table last write winning, or the table stays as it was |
| `History.HistoryStore.FlushAlertEvents` | apps/linsightd/src/history.rs:331-347 | the same for alert events keyed by rule and time |
| `History.HistoryStore.MaybePrune` | apps/linsightd/src/history.rs:221-243 | with retention on and an hour elapsed exactly the rows not older than the retention time remain, events too when both DELETEs worked, and the prune clock advances whatever the outcome |
| `History.HistoryStore.WriterPass` | apps/linsightd/src/history.rs:257-299 | one turn of the writer loop is receive, flush samples when due, flush events, maybe prune; the batch stays below 4096 |
| `History.HistoryStore.WriterExit` | apps/linsightd/src/history.rs:266-281 | leaving, the writer flushes both batches |
| `HistoryRuns.RunKeepsInv` | apps/linsightd/src/history.rs:72-347 | every run of producers and writer keeps the partition of samples, the table's coverage and the pacing of prunes |
| `HistoryRuns.SamplesAreConserved` | apps/linsightd/src/history.rs:72-300 | in every run each persistable sample is in exactly one place: dropped, queued, in the batch, stored, or lost with a failed transaction |
| `HistoryRuns.ExitTableIsLastWriteWins` | apps/linsightd/src/history.rs:245-347 | if no flush fails, the table at exit is the last-write-wins table of the accepted samples, short only of rows that were out of the retention window at some due prune |
| `HistoryRuns.TableRetainsStored` | apps/linsightd/src/history.rs:221-329 | at every moment of every run a stored row missing from the table was out of the retention window at some due prune that deleted, and the others hold what was stored last |
| `HistoryRuns.EventsAreConserved` | apps/linsightd/src/history.rs:104-347 | at every moment each alert event the channel took is queued, stored or lost with a failed transaction, and the event table is that of the stored ones, short only of rows out of the retention window at a due prune |
| `HistoryRuns.PrunesArePaced` | apps/linsightd/src/history.rs:221-256 | in every run with a prune attempt the first waits out the initial delay, and the i-th and j-th attempt are at least j-i intervals apart |
| `HistoryRuns.FirstPruneDue` | apps/linsightd/src/history.rs:251-256 | a prune is first due five minutes after the start, or an hour if the clock cannot be set back, and never without retention |
| `HistoryRuns.PruneRemovesOld` | apps/linsightd/src/history.rs:122-128 | a due prune that went through keeps a row if and only if its time is not negative and, with the retention added, not before the wall clock; the same for alert events when both DELETEs worked |
| `HistoryRuns.BatchesAreShortLived` | apps/linsightd/src/history.rs:282-297 | after each turn the batch is empty, or short and younger than the flush window, and no event is pending |
| `HistoryRuns.WrittenIsLast` | apps/linsightd/src/history.rs:309-329 | each key holds the row of the sample stored last under it, or what the table began with |
| `HistoryRuns.WrittenEventsIsLast` | apps/linsightd/src/history.rs:331-347 | each rule and time holds the kind of the event stored last under it, or what the table began with |
| `HistoryRuns.RowsReadBack` | apps/linsightd/src/history.rs:405-416 | a row reads as its scalar, else its counter taken as unsigned, else its state, else as zero |
| `HistoryRuns.RowRoundTrip` | apps/linsightd/src/history.rs:315-325 | decoding a stored row gives the sample back, including 64-bit values stored as signed integers |
| `HistoryRuns.QueryReturnsLastStored` | apps/linsightd/src/history.rs:353-423 | of the timestamps the table holds for the sensor from since to until, both included, a query returns min(n, limit) in ascending order from the oldest, all of them if they are at most limit, otherwise evenly spread, each with the sample last stored under its key or, if none was, what the database held when it was opened |
| `HistoryRuns.QueryAtAnyMoment` | apps/linsightd/src/history.rs:245-423 | the same for a query at any moment of any run, from any database and for samples that fit 64 bits |
| `Scheduling.PeriodFor` | apps/linsightd/src/scheduler.rs:127-147 | every subscription period lies between 50000 and 9999999 microseconds, the floor rate being 0.1 as an `f32` |
| `Scheduling.PeriodHonoursRequest` | crates/linsight-plugin-sdk/src/manifest.rs:68-73 | without a request the period is that of the native rate, 50000 above 20 Hz and 9999999 below the floor; a request in range and not above the native rate is honoured exactly, a faster one gets the native rate, a slower one the floor |
| `Scheduling.FastestPeriod` | apps/linsightd/src/scheduler.rs:152-156 | the cadence is the least period that is asked for |
| `Scheduling.ProducedExactly` | apps/linsightd/src/scheduler.rs:234-296 | a commit hands on a sample if and only if it is the success of a sensor still subscribed to |
| `Scheduling.Scheduler.constructor` | apps/linsightd/src/scheduler.rs:81-93 | a scheduler starts without entries |
| `Scheduling.Scheduler.Subscribe` | apps/linsightd/src/scheduler.rs:115-170 | unknown sensors are refused; otherwise the period is counted, the fastest one taken, and the sensor due at once |
| `Scheduling.Scheduler.Unsubscribe` | apps/linsightd/src/scheduler.rs:172-199 | the period is uncounted, an entry without periods goes, otherwise it is rescheduled from its last sample |
| `Scheduling.Scheduler.TickPlan` | apps/linsightd/src/scheduler.rs:212-229 | exactly the due sensors are planned, each once, and each is moved one period on |
| `Scheduling.Scheduler.TickCommit` | apps/linsightd/src/scheduler.rs:234-296 | each result settles its entry in order; the successes of live entries are returned in order, and they are what the history records and the alert engine handles, in that order |
| `Scheduling.Scheduler.CommitOne` | apps/linsightd/src/scheduler.rs:241-292 | one result settles its entry and no other, and a success of a live entry is handed on |
| `Scheduling.Scheduler.HandOn` | apps/linsightd/src/scheduler.rs:257-262 | a handed-on sample is the next one recorded and the next one judged |
| `Pipeline.OnlySubscribedAreHandedOn` | apps/linsightd/src/scheduler.rs:241-263 | in every run a commit hands on only successes of sensors with a live subscription, whoever came and went since the plan |
| `Pipeline.CommitIsARun` | apps/linsightd/src/scheduler.rs:257-259 | what a commit does to the history is a run of its recording steps |
| `Pipeline.EverySuccessIsAccountedFor` | apps/linsightd/src/scheduler.rs:257-259 | a kept success of a subscribed sensor is at every later moment refused, queued, in the batch, stored or lost with a failed transaction |
| `Pipeline.EverySuccessIsJudged` | apps/linsightd/src/scheduler.rs:260-262 | each numeric sample handed on leads to exactly one outcome for each enabled rule that refers to its sensor |
| `SchedulerRuns.RunKeepsInv` | apps/linsightd/src/scheduler.rs:115-296 | every run of subscribe, unsubscribe, plan and commit keeps the invariant of counters, times and strikes |
| `SchedulerRuns.CadenceFollowsSubscribers` | apps/linsightd/src/scheduler.rs:115-199 | in every run the counters are the multiset of live handles, an entry exists if and only if there is one, and it runs at the least of their periods |
| `SchedulerRuns.CommittedAt` | apps/linsightd/src/scheduler.rs:234-296 | a commit changes each entry by the one result for it and by nothing else |
| `SchedulerRuns.PlansKeepApart` | apps/linsightd/src/scheduler.rs:212-293 | two plans of a sensor whose subscribers stay the same are at least its period apart, whatever is in flight, dropped or failed between them |
| `SchedulerRuns.BackOffIsExponential` | apps/linsightd/src/scheduler.rs:265-288 | the k-th timeout (or unsupported) since the last success delays by exactly period * 2^min(k,8), at most 256 periods, without overflow |
| `SchedulerRuns.ParkedExactlyAfterReading` | apps/linsightd/src/scheduler.rs:151-256 | an entry is parked if and only if the sensor is static and a success was committed since its last subscribe; every other entry is planned by late enough ticks |
| `SchedulerRuns.DroppedItemReturns` | apps/linsightd/src/scheduler.rs:212-293 | an item that was dropped or failed for another reason is due again exactly one period after its plan |
| `SchedulerRuns.ReleaseReschedules` | apps/linsightd/src/scheduler.rs:172-199 | releasing one of several handles reschedules from the last success by the fastest remaining period, never overflowing |
| `SchedulerRuns.NewSubscriberIsServedNext` | apps/linsightd/src/scheduler.rs:151-168 | the plan right after a subscribe takes the sensor, parked or not |
| `AlertRules.FiresExactlyWhen` | apps/linsightd/src/alerts.rs:565-630 | in every run a tick fires if and only if it is true, the rule is not firing, the true stretch lasted `for` and the cooldown is over; it clears if and only if it is false while firing |
| `AlertRules.StretchStartMeaning` | apps/linsightd/src/alerts.rs:602-622 | the stretch the rule measures starts at a true outcome and has no false one; without a stretch every true outcome was followed by a false one |
| `AlertRules.StretchStartIsFirst` | apps/linsightd/src/alerts.rs:602-622 | the stretch starts no later than any true outcome with no false one since |
| `AlertRules.FiresAsSoonAsDue` | apps/linsightd/src/alerts.rs:565-630 | a true outcome fires if and only if the rule is not firing, some true outcome lies `for` or more back with no false one since, and every earlier Fired is a cooldown or more ago |
| `AlertRules.TransitionsWellBehaved` | apps/linsightd/src/alerts.rs:565-630 | for every outcome sequence Fired and Cleared alternate starting with Fired, Fired are a cooldown apart, and each ends a long enough stretch |
| `AlertRules.RulesDoNotInterfere` | apps/linsightd/src/alerts.rs:315-324 | however outcomes of many rules interleave, each rule's state and events are those it would have alone |
| `AlertRuns.RunKeepsInv` | apps/linsightd/src/alerts.rs:365-645 | every run of outcomes, upserts and deletions keeps each rule tied to its own history of outcomes and events |
| `AlertRuns.EngineLogWellBehaved` | apps/linsightd/src/alerts.rs:365-645 | in every such run the logged events of each rule between two edits of it alternate, cool down and are debounced, and carry its name |
| `AlertRuns.RingFollowsLog` | apps/linsightd/src/alerts.rs:635-645 | over the same runs the ring is the newest min(512, n) logged events, newest first |
| `AlertRuns.NumbersThroughUpsert` | apps/linsightd/src/alerts.rs:378-405 | an upsert starts a new history for the rule it edits or adds and leaves all others theirs |
| `AlertRuns.NumbersThroughDelete` | apps/linsightd/src/alerts.rs:410-415 | a deletion ends the histories of the deleted rules, and every other rule keeps its own at its new index |
| `AlertRuns.VerdictsAreARun` | apps/linsightd/src/alerts.rs:315-324 | what `on_sample` does to rules and ring is such a run |
| `AlertRules.RingIsNewestReversed` | apps/linsightd/src/alerts.rs:635-645 | the ring is always the newest min(512, n) events of the full log, newest first |
| `AlertRules.NameIndex` | apps/linsightd/src/alerts.rs:378 | the first rule of a name is found, or none has it |
| `AlertRules.WithoutShrinks` | apps/linsightd/src/alerts.rs:410-415 | deletion keeps exactly the rules of other names, and is reported if and only if some rule had the name |
| `AlertRules.DeletionShifts` | apps/linsightd/src/alerts.rs:410-415 | a surviving rule moves down by the number of deleted rules in front of it |
| `AlertRules.DeletionKeepsInRange` | apps/linsightd/src/alerts.rs:410-415 | a deletion shortens the list by the rules of the name, so an index stays in range if and only if it is below what remains |
| `AlertRules.LastIndexGoesOutOfRange` | apps/linsightd/src/alerts.rs:303-324 | if a rule is deleted while an outcome for the last index is awaited, that index is out of range |
| `AlertRuns.IndexKeepsRuleExactly` | apps/linsightd/src/alerts.rs:303-324 | an index taken before a deletion means the same rule after it if and only if no rule up to and including it was deleted |
| `AlertContext.RewriteInjectiveExactly` | apps/linsightd/src/alerts.rs:520 | rewriting is injective on ids without underscore before underscore or dot, and every other id collides with one of those |
| `AlertContext.RestoreUndoesRewrite` | apps/linsightd/src/alerts.rs:520 | such an id can be read back from its rewritten name |
| `AlertContext.DecimalsAreRewritten` | apps/linsightd/src/alerts.rs:380 | a decimal literal comes out with two underscores for its point |
| `Expressions.OnlyNamesRewrittenExactly` | apps/linsightd/src/alerts.rs:380 | rewriting an expression changes its sensor names and nothing else if and only if every dot lies in a maximal run that names a sensor |
| `Expressions.LiteralsAreRewritten` | apps/linsightd/src/alerts.rs:380 | any dotted run that is not a sensor name, such as a decimal literal, is changed too |
| `AlertContext.SetKeepsBacked` | apps/linsightd/src/alerts.rs:517-520 | setting a value and its rewritten name together keeps every context name backed by a known sensor's value |
| `AlertContext.BackedIsImage` | apps/linsightd/src/alerts.rs:504-561 | among unambiguous ids a backed context is exactly the rewritten image of the values |
| `AlertEngines.ContextIsAlwaysImage` | apps/linsightd/src/alerts.rs:504-561 | over any run of samples and rule edits from an empty engine, with unambiguous sensors, the context is exactly the rewritten image of the values |
| `AlertContext.ValuesStayBounded` | apps/linsightd/src/alerts.rs:511-517 | for a fixed rule set the values never outgrow max(4096, referenced + 1) |
| `AlertContext.ReferencedSurvive` | apps/linsightd/src/alerts.rs:541-561 | a referenced sensor keeps its latest observed value through every prune |
| `AlertContext.ForgottenExactly` | apps/linsightd/src/alerts.rs:511-561 | a new sensor makes the others no rule refers to forgotten if and only if 4096 or more are known; nothing else is |
| `AlertEngines.AlertEngine.Observe` | apps/linsightd/src/alerts.rs:504-536 | a scalar stores its value, a counter its count, and a state or table changes nothing; values are pruned at the cap, the jobs are exactly the enabled rules referring to the sensor, and the context stays the image of the values |
| `AlertEngines.HandledValue` | apps/linsightd/src/alerts.rs:504-536 | over a handled sample the latest value of its sensor becomes the scalar or the count; a state or table leaves values, rules and events alone |
| `AlertEngines.AlertEngine.PruneUnreferencedValues` | apps/linsightd/src/alerts.rs:541-561 | exactly the values referred to by some rule remain, and the context stays backed |
| `AlertEngines.AlertEngine.ApplyEvalResult` | apps/linsightd/src/alerts.rs:565-630 | the rule at the index is judged, the reported transition is pushed, and notifications go out if and only if it fired |
| `AlertEngines.AlertEngine.PushEvent` | apps/linsightd/src/alerts.rs:635-645 | the event becomes the newest, the oldest of 512 goes |
| `AlertEngines.AlertEngine.OnSample` | apps/linsightd/src/alerts.rs:296-329 | the value is stored and one outcome applied for every enabled rule that refers to the sensor and for no other; rules and ring follow the run of these outcomes |
| `AlertEngines.AlertEngine.UpsertRule` | apps/linsightd/src/alerts.rs:365-407 | an unparsable duration changes nothing; otherwise the first rule of the name is reset to the new settings, or a new one appended, and all others stay |
| `AlertEngines.AlertEngine.DeleteRule` | apps/linsightd/src/alerts.rs:410-415 | all rules of the name go, and the result says whether there was one |
| `SensorRefs.ExtractSensorRefs` | apps/linsightd/src/alerts.rs:1043-1072 | the result holds exactly the maximal runs of token characters that contain a dot and start with a letter |
| `SensorRefs.ReferencesExactly` | apps/linsightd/src/alerts.rs:1043-1072 | a text is among the references if and only if it stands in the expression starting with an ASCII letter, holding a dot, made of ASCII letters, digits, dots and underscores, and continued by none of them |
| `ShellSplit.ShellSplit` | apps/linsightd/src/alerts.rs:934-991 | the loops over the input compute the outcome of the character-by-character tokenizer, errors included |
| `ShellSplit.SingleCharacter` | apps/linsightd/src/alerts.rs:934-991 | space, tab and newline alone make no argument, a quote or backslash alone is an error, any other character is an argument |
| `ShellSplit.QuotedBackslash` | apps/linsightd/src/alerts.rs:934-991 | inside double quotes a backslash protects backslash, double quote, dollar and backtick, and stays in front of anything else |
| `ShellSplit.SplitUndoesWriting` | apps/linsightd/src/alerts.rs:934-991 | a line written with any mix of bare, escaped, single- and double-quoted stretches, kept backslashes and blanks splits back into its words; one that breaks off is rejected with the error that says where |
| `ShellSplit.EveryInputIsALine` | apps/linsightd/src/alerts.rs:934-991 | every text whatsoever is such a line |
| `ShellSplit.AcceptedExactly` | apps/linsightd/src/alerts.rs:934-991 | an input gives an argv list if and only if it is a line that does not break off and has these words |
| `ShellSplit.RejectedExactly` | apps/linsightd/src/alerts.rs:934-991 | an input is rejected with an error if and only if it is a line that ends inside single quotes, inside double quotes, behind a backslash there, or behind a bare backslash, as the error says |
| `ShellSplit.SplitUndoesQuoting` | apps/linsightd/src/alerts.rs:934-991 | single-quoting every argument, joining with spaces and splitting gives every argv list back |
| `Wire.LE32RoundTrip` | crates/linsight-protocol/src/frame.rs:61-79 | the length prefix reads back as the length |
| `Wire.U32RoundTrip` | crates/linsight-protocol/src/messages.rs:104-125 | a varint `req_id` reads back, whatever follows it |
| `Wire.CodecRoundTrip` | crates/linsight-protocol/src/messages.rs:104-125 | a decoder that reads the variant index as a varint gives every encoded message back |
| `Wire.DecoderExists` | crates/linsight-protocol/src/messages.rs:104-125 | so there are decoders as the results about written streams ask for |
| `Wire.StreamAppend` | crates/linsight-protocol/src/frame.rs:179-193 | writing one more message appends exactly its frame to the stream |
| `Wire.ReadCutFrame` | crates/linsight-protocol/src/frame.rs:47-79 | a cut frame reads as an end-of-stream error, never as a message |
| `Wire.ReadPrefix` | crates/linsight-protocol/src/frame.rs:47-79 | reading any prefix of a written stream gives exactly the messages whose frames are complete, then an end-of-stream error |
| `Wire.ReadWhole` | crates/linsight-protocol/src/frame.rs:47-79 | reading a whole stream gives all messages and then the end of the connection |
| `Wire.SkippingAgainstDecoding` | crates/linsight-protocol/src/frame.rs:42-142 | for every decoder and byte string both readers get to the frame at which decoding stops and agree there, answer or error, at the same byte, unless that frame is overlooked, and then skipping goes on behind it |
| `Wire.RoundAgainstRead` | crates/linsight-protocol/src/frame.rs:100-142 | the same for a single frame |
| `Wire.UninspectedFrameParts` | crates/linsight-protocol/src/frame.rs:100-142 | what both readers make of any single frame not marked as Response or Bye: skipping passes it over, decoding stops at a body that does not decode or that answers |
| `Wire.CutPayloadDisagrees` | crates/linsight-protocol/src/frame.rs:42-142 | the bytes 2 0 0 0 2 255 are a decode error to one reader and are passed over by the other |
| `Wire.EmptyFrameExactly` | crates/linsight-protocol/src/frame.rs:47-55 | a frame read runs into an empty body if and only if its four length bytes are zero; the skipping reader only if the next byte moreover marks a Response or Bye |
| `Wire.ReadersDisagree` | crates/linsight-protocol/src/frame.rs:47-142 | the bytes 0 0 0 0 2 stop the decoding reader and are passed over by the skipping one |
| `Wire.ReadingEndsEmptyExactly` | crates/linsight-protocol/src/frame.rs:47-55 | for every decoder, reading a byte string ends at an empty body if and only if a frame boundary that decoding gets to is followed by four zero bytes and one more |
| `Wire.SkippingEndsEmptyExactly` | crates/linsight-protocol/src/frame.rs:100-142 | the same for the skipping reader, with the mark of an inspected frame behind the zeros |
| `Wire.SkippingAgreesWithDecoding` | crates/linsight-protocol/src/frame.rs:83-142 | on any prefix of a written stream the skipping reader gives the result of decoding every frame, at the same byte |
| `Wire.AwaitFindsFirst` | crates/linsight-protocol/src/frame.rs:100-142 | on a written stream the skipping reader returns what a scan of the messages finds first, having consumed exactly up to its frame |
| `Wire.AwaitReturnsExactly` | crates/linsight-protocol/src/frame.rs:100-142 | waiting for an id on a written stream returns an answer after some bytes if and only if a first message is a Bye or the Response with that id, the answer is its reason, payload or error, and the bytes end its frame; without one the stream runs out |
| `Wire.OversizedExactly` | crates/linsight-protocol/src/frame.rs:61-79 | a frame is refused as oversized if and only if its little-endian length exceeds 2^20 |
| `Wire.BodyInNumbers` | crates/linsight-protocol/src/messages.rs:104-125 | variant 4 is a Bye and 5 a Response, followed by the id in groups of seven bits and by 0 for success or 1 for failure |
| `FrameIO.FrameReader.ReadFrameHeader` | crates/linsight-protocol/src/frame.rs:61-79 | length and first body byte are read; oversized lengths, the end of the stream and other I/O errors are reported as such |
| `FrameIO.FrameReader.ReadFrameBody` | crates/linsight-protocol/src/frame.rs:47-55 | the whole body is read behind the header, or the error that cuts it |
| `FrameIO.FrameReader.ReadServer` | crates/linsight-protocol/src/frame.rs:42-55 | the next frame is decoded and the position moves exactly over it |
| `FrameIO.FrameReader.SkipFrameBody` | crates/linsight-protocol/src/frame.rs:83-95 | skipping in 1024-byte chunks consumes exactly the bytes asked for, or fails if and only if they are not there |
| `FrameIO.FrameReader.ReadServerResponse` | crates/linsight-protocol/src/frame.rs:100-142 | the loop computes the skipping reader's result and stops right behind the answer; on a written stream that is what the first Bye or Response with this id says, in its very bytes |
| `FrameIO.FrameWriter.SerializeBody` | crates/linsight-protocol/src/frame.rs:195-207 | the growth loop ends, and the buffer then starts with exactly the encoding |
| `FrameIO.FrameWriter.BuildFrame` | crates/linsight-protocol/src/frame.rs:179-193 | the frame buffer is exactly the frame of the message, whatever the buffers held before |
| `FrameIO.FrameWriter.WriteFrame` | crates/linsight-protocol/src/frame.rs:179-193 | nothing of an oversized message reaches the sink, and of any other exactly its frame or the part the sink took; so what a reused writer has put out is always the stream of its messages, or a prefix of it after a failure |
| `RpcClient.RunKeepsInv` | apps/linsight-gui/src/client.rs:512-727 | every interleaving of callers, reader thread and daemon keeps the invariant of entries, answers and waiters |
| `RpcClient.ResponsesReachMatchingIds` | apps/linsight-gui/src/client.rs:512-727 | an answer wakes at most one caller, always one with its `req_id`, and a returned call has no entry left |
| `RpcClient.FreshRunKeepsInv` | apps/linsight-gui/src/client.rs:512-727 | while no call is made under an id still claimed, claims are unique and every pending caller owns its entry or its answer |
| `RpcClient.CallersGetTheirOwnAnswer` | apps/linsight-gui/src/client.rs:512-727 | then a call returns the answer to its own request, and an arriving answer goes to its waiting caller |
| `RpcClient.SpanRunsAreFresh` | apps/linsight-gui/src/client.rs:516-518 | a span of claimed numbers below 2^32 is enough for that |
| `RpcClient.CollisionWrongs` | apps/linsight-gui/src/client.rs:512-727 | a call made under a claimed id can end with a foreign answer or a missed one, whatever the claim consists of |
| `RpcClient.SafeToCallExactly` | apps/linsight-gui/src/client.rs:512-727 | the next call can wrong somebody if and only if an earlier one still claims its id |
| `RpcClient.CollisionIsReachable` | apps/linsight-gui/src/client.rs:516-535 | after a timed-out call and 2^32 - 1 ordinary ones, so as call number 2^32 + 1, the next caller can get the stale answer |
| `Reconnects.RunKeepsInv` | apps/linsight-gui/src/workspace.rs:254-343 | every interleaving of reconnects, forwarders and clients keeps the invariant of generations, bridge and flag |
| `Reconnects.BridgeCarriesPrefixes` | apps/linsight-gui/src/workspace.rs:254-343 | bridged messages carry tags of published generations only, and those tagged g are, in order, the first messages pushed by the client the steps published as generation g, one for each send of its forwarder |
| `Reconnects.ConnectionIsTheLastFinished` | apps/linsight-gui/src/workspace.rs:288-343 | whenever no reconnect is under way, client and target are those of the last one that finished or the initial ones, and every published generation has the forwarder that reads the client published with it |
| `Reconnects.StoppedHasDelivered` | apps/linsight-gui/src/workspace.rs:323-343 | while the pump is there, a forwarder that has left its loop has bridged everything its client ever pushed, in order |
| `Reconnects.AliveIsNotCleared` | apps/linsight-gui/src/workspace.rs:288-343 | at every moment a raised flag means that the current forwarder has not cleared it |
| `Reconnects.AliveExactly` | apps/linsight-gui/src/workspace.rs:288-343 | while no generation is published over a pending clear, outside the moment between the two stores the flag is down if and only if the current forwarder cleared it |
| `Reconnects.AliveIffForwarderRuns` | apps/linsight-gui/src/workspace.rs:337-342 | with compare and clear as one action the flag is down if and only if the current forwarder has finished |
| `Reconnects.SplitClearRaces` | apps/linsight-gui/src/workspace.rs:288-343 | whenever a generation is published over a pending clear, the run can end with the flag down over a running forwarder |
| `Reconnects.RaceIsReachable` | apps/linsight-gui/src/workspace.rs:288-343 | such a moment is reached when the first daemon goes away during a reconnect |
| `Reconnects.FailedReplayChangesNothing` | apps/linsight-gui/src/workspace.rs:254-286 | while no reconnect gets past its replay, client, generation and target stay, and only forwarders of before can lower the flag |
| `Reconnects.BackoffIsCappedDoubling` | apps/linsight-gui/src/workspace.rs:391-398 | the supervisor's pause after the k-th failure in a row is min(2^k, 15) seconds |
| `Subscriptions.Workspace.Subscribe` | apps/linsight-gui/src/workspace.rs:172-185 | new ids are remembered behind the old ones and asked for on the current client |
| `Subscriptions.Workspace.Unsubscribe` | apps/linsight-gui/src/workspace.rs:189-198 | the ids are forgotten and given up on the current client |
| `Subscriptions.Workspace.ReplaceSubscriptions` | apps/linsight-gui/src/workspace.rs:205-221 | exactly the new ids are remembered, the old ones given up first |
| `Subscriptions.Workspace.ReconnectWithClient` | apps/linsight-gui/src/workspace.rs:254-298 | what is remembered is replayed on the new client, and only if that works does it become current |
| `Subscriptions.RememberedMeaning` | apps/linsight-gui/src/workspace.rs:176-183 | remembering keeps the old ids in front, adds the new ones, and doubles none |
| `Subscriptions.DaemonHasWhatIsWanted` | apps/linsight-gui/src/workspace.rs:172-298 | in every run of calls exactly what callers want is remembered; without a failed write since the last reconnect the daemon was asked for exactly that, and every successful reconnect restores it |
| `Subscriptions.OverlappingCallsAreLost` | apps/linsight-gui/src/workspace.rs:272-300 | after calls between replay and swap the new connection has what was wanted at the replay, so it is in step if and only if the calls, by their arguments, cancel out |
| `Subscriptions.OverlappingCallHarmlessExactly` | apps/linsight-gui/src/workspace.rs:272-300 | a single such call leaves the new connection in step if and only if it subscribes to nothing new, gives up nothing wanted, or replaces the ids by the same ones |
| `Tunnel.CopyBidirectionalIdle` | apps/linsight-tunnel/src/main.rs:713-763 | each side always holds a prefix of what was read from the other and is shut if and only if the other ended; a clean return delivered and counted everything; nothing is read past an end of file |
| `Tunnel.Forward` | apps/linsight-tunnel/src/main.rs:729-758 | one read is passed on whole, or in part if the write fails, and an end of file becomes a shutdown |
| `Tunnel.ReadInto` | apps/linsight-tunnel/src/main.rs:724-731 | a read fills the front of the reused buffer and leaves the rest |
| `Tunnel.Endpoint.WriteAll` | apps/linsight-tunnel/src/main.rs:699-704 | all of the chunk or the part that got through, and never after a shutdown |
| `Tunnel.Endpoint.Shutdown` | apps/linsight-tunnel/src/main.rs:706-711 | the side is shut and keeps what it received |
| `Slugs.DeriveSlugLoop` | apps/linsight-gui/src/qobjects/dashboards_model.rs:88-117 | the loop, the trims and the fallback compute the slug of the collapsed name |
| `Slugs.DerivedSlugIsValid` | apps/linsight-gui/src/qobjects/dashboards_model.rs:88-117 | every name yields a valid slug |
| `Slugs.ValidSlugIsFixed` | apps/linsight-gui/src/qobjects/dashboards_model.rs:59-117 | a valid slug is its own slug |
| `Slugs.DerivingIsIdempotent` | apps/linsight-gui/src/qobjects/dashboards_model.rs:88-117 | deriving twice is deriving once |
| `Slugs.SlugIsJoinedRuns` | apps/linsight-gui/src/qobjects/dashboards_model.rs:88-117 | the slug of any name is its maximal runs of ASCII letters and digits, in lower case, joined by single dashes and cut to 40 characters without a trailing dash |
| `Slugs.FallbackInNumbers` | apps/linsight-gui/src/qobjects/dashboards_model.rs:110-114 | a name without letters and digits gets "dash-" and eight hexadecimal digits that read back as its 32-bit hash |
| `Slugs.ValidSlugExactly` | apps/linsight-gui/src/qobjects/dashboards_model.rs:59-67 | a slug is valid if and only if it is 1 to 40 lower-case letters, digits and dashes, without a dash at an end or two in a row |
| `Slugs.AllocateUniqueSlug` | apps/linsight-gui/src/qobjects/dashboards_model.rs:129-153 | the first candidate that is valid and free when it is tried is returned, whatever others create or remove meanwhile, and failure means that each was invalid or taken in its turn |
| `Slugs.FirstFreeIsUnique` | apps/linsight-gui/src/qobjects/dashboards_model.rs:129-153 | the first free candidate is determined by base and directory |
| `Slugs.CandidatesInNumbers` | apps/linsight-gui/src/qobjects/dashboards_model.rs:129-153 | the 99 candidates are the base and the base with a dash and the numbers from 2 on, in decimal |
| `Slugs.ShortBaseCandidates` | apps/linsight-gui/src/qobjects/dashboards_model.rs:129-153 | from a base of at most 37 characters all 99 candidates are valid |
| `Dashboards.DashboardStore.PlaceNew` | apps/linsight-gui/src/qobjects/dashboards_model.rs:129-198 | a dashboard is stored under the first free slug; a failed write leaves nothing, a broken file or the complete one under that unused slug |
| `Dashboards.DashboardStore.WriteOne` | apps/linsight-gui/src/qobjects/dashboards_model.rs:171-176 | the file its slug names is replaced, or nothing changes |
| `Dashboards.DashboardStore.Create` | apps/linsight-gui/src/qobjects/dashboards_model.rs:464-486 | an empty dashboard appears under the first free slug of its name |
| `Dashboards.DashboardStore.Rename` | apps/linsight-gui/src/qobjects/dashboards_model.rs:205-240 | the file the stored slug names is rewritten, or the dashboard moves to the first free slug, the old file staying if it cannot be removed; every failure leaves all dashboards as before |
| `Dashboards.DashboardStore.Duplicate` | apps/linsight-gui/src/qobjects/dashboards_model.rs:242-272 | a copy with the same layout appears under the first free slug |
| `Dashboards.DashboardStore.Remove` | apps/linsight-gui/src/qobjects/dashboards_model.rs:511-522 | the file goes if the slug is valid, there and removable |
| `Dashboards.DashboardStore.SaveLayout` | apps/linsight-gui/src/qobjects/dashboards_model.rs:524-561 | the layout is replaced in the file the stored slug names; unparsable text, a tile without id, with a negative position or without extent, or a failure changes nothing |
| `Dashboards.RunsSpareOthers` | apps/linsight-gui/src/qobjects/dashboards_model.rs:171-272 | from any directory and over any run with failures, a file changes only by a step whose stored slug or target it is, and the file count is the sum of the steps' gains |
| `Dashboards.RunsNeverOverwrite` | apps/linsight-gui/src/qobjects/dashboards_model.rs:171-272 | from a directory whose files store their own slugs that stays so, only the dashboard an operation is pointed at changes, and the count is creations, duplications and leftovers of failures less removals |
| `Dashboards.LayoutsSurvive` | apps/linsight-gui/src/qobjects/dashboards_model.rs:205-272 | renaming keeps layout and creation date, duplicating keeps the original and copies the layout |
| `Dashboards.SavingOverwritesOnlyOnMismatch` | apps/linsight-gui/src/qobjects/dashboards_model.rs:524-561 | saving leaves all other dashboards alone if and only if the file stores its own slug, an unused one, or the very content written |
| `Dashboards.RenamingOverwritesOnlyOnMismatch` | apps/linsight-gui/src/qobjects/dashboards_model.rs:221-240 | the same for renaming in place; a rename that moves never touches another dashboard |
| `Dashboards.RenamingCanReplaceAnother` | apps/linsight-gui/src/qobjects/dashboards_model.rs:221-225 | with file a storing slug b, renaming a to "A" replaces the dashboard in file b |
| `DeviceLabels.KeyIsSchemeAndSuffix` | crates/linsight-core/src/hardware.rs:58-90 | scheme and suffix together identify a key |
| `DeviceLabels.AcceptedKeys` | crates/linsight-core/src/hardware.rs:58-80 | a key is accepted if and only if it is an allowed scheme, a colon and a non-empty payload of allowed characters, at most 140 long |
| `DeviceLabels.AcceptedNicknames` | crates/linsight-core/src/hardware.rs:123-136 | an accepted nickname has at most 64 characters, no control characters and no blanks at its ends, and is accepted unchanged again |
| `DeviceLabels.NicknameExactly` | crates/linsight-core/src/hardware.rs:123-136 | what stands between the blanks at the ends of an input decides: nothing clears, more than 64 characters or a control character is refused, anything else is taken as it stands |
| `DeviceLabels.LabelIgnoresOrder` | crates/linsight-core/src/hardware.rs:164-182 | a label does not depend on the order of the devices |
| `DeviceLabels.LabelMeaning` | crates/linsight-core/src/hardware.rs:164-182 | a nicknamed device is labelled by its nickname, one without an un-nicknamed twin of its model by the model, any other by model and, in brackets, what follows the first colon of its key |
| `DeviceLabels.LabelsTellApart` | crates/linsight-core/src/hardware.rs:164-182 | two un-nicknamed devices of one model share a label if and only if their keys agree after the scheme, never within one scheme |
| `PluginHosts.PluginHost.FinishRegister` | apps/linsightd/src/plugin_host.rs:344-393 | a known plugin id changes nothing; otherwise the plugin joins with the first offer of each new sensor id |
| `PluginHosts.PluginHost.PluginIdFor` | apps/linsightd/src/plugin_host.rs:406-409 | a registered sensor has an owner in range whose list holds its descriptor, and only registered ones have |
| `PluginHosts.RegistrationIsSound` | apps/linsightd/src/plugin_host.rs:344-393 | after any manifests plugin ids are unique, every sensor maps to an owner that lists it, and the counts add up to the registry |
| `PluginHosts.RegistrationIsComplete` | apps/linsightd/src/plugin_host.rs:344-393 | a new plugin is always taken in, every sensor it offers ends up registered, the first offer of a new id under this plugin |
| `PluginHosts.SensorsListedOnce` | apps/linsightd/src/plugin_host.rs:344-423 | over all plugins together no sensor id is listed twice |
| `HardwareRegistries.HardwareRegistry.constructor` | apps/linsightd/src/hardware.rs:83-150 | devices and index are built plugin by plugin, exactly the nicknames whose keys parse are kept, and the label cache is right |
| `HardwareRegistries.HardwareRegistry.RebuildLabels` | apps/linsightd/src/hardware.rs:154-165 | every device's cached label is the one computed from any listing of the devices |
| `HardwareRegistries.HardwareRegistry.DeviceLabelFor` | apps/linsightd/src/hardware.rs:172-174 | the label handed out is the one computed afresh, a nickname if there is one, and an unknown key is its own label |
| `HardwareRegistries.HardwareRegistry.SetNickname` | apps/linsightd/src/hardware.rs:196-227 | nicknames change as validated or not at all, and the cache stays right |
| `HardwareRegistries.HardwareRegistry.Snapshot` | apps/linsightd/src/hardware.rs:236-244 | the snapshot holds exactly the devices, and the label computed from it by the GUI is the daemon's cached one |
| `HardwareRegistries.HardwareRegistry.KeyFor` | apps/linsightd/src/hardware.rs:180-182 | a lookup finds a device with that plugin and device id, and finds none only if there is none |
| `HardwareRegistries.BuiltIsIndexed` | apps/linsightd/src/hardware.rs:83-125 | every (plugin, device id) lookup leads to a device that plugin registered under that id, and every device's own pair is found |
| `HardwareRegistries.BuiltSensorsOnce` | apps/linsightd/src/hardware.rs:113-125 | no sensor sits in two places of the device lists |
| `HardwareRegistries.RegistryMatchesHost` | apps/linsightd/src/hardware.rs:83-125 | both hold for the host that results from any sequence of manifests |
| `HardwareRegistries.AttachedExactly` | apps/linsightd/src/hardware.rs:91-125 | a device's list holds a sensor id if and only if some plugin offers it for that key when the key has been declared |
| `HardwareRegistries.SensorsAreAttached` | apps/linsightd/src/hardware.rs:91-125 | for the plugins any manifests leave, a sensor is in the list of a key if and only if it refers to the key and its own or an earlier plugin declares it |
| `HardwareRegistries.FirstDeclarationWins` | apps/linsightd/src/hardware.rs:91-111 | of several declarations of one key the first is kept, with its plugin filled in |

## Left out

- Scheduling.PeriodFor: `f32` rates are taken at their exact value, but the `f64` division behind a period does not round here, and NaN rates are left out.
- HardwareRegistries.HardwareRegistry.Snapshot: states the contents, not the sort order, which labels do not depend on.
- SensorRefs.ExtractSensorRefs: returns a set, so the sorted order of the references is not captured.
- Downsample.SelectIsExact: SQLite's 64-bit overflow of (rn-1)*limit is not captured; it takes more than 2^49 rows.
- Dashboards.DashboardStore.PlaceNew: the directory does not change while one operation looks for a slug; `Slugs.AllocateUniqueSlug` alone allows that.
- DeviceLabels.AcceptedKeys: the length limit of a key counts characters, which for accepted keys is the same as bytes.
- RpcClient.RunKeepsInv: a response is correlated by number only; extracting its payload variant, and the catalogue fan-out of `dispatch`, would add easy members.
- Reconnects.RunKeepsInv: the catalogue forwarder is the sample forwarder without the flag and is not repeated; saturation of the 64-bit generation is not captured.
- Subscriptions.Workspace.ReconnectWithClient: the replayed pump interval is left out.
- AlertEngines.AlertEngine.PushEvent: the copy of an event that goes to the history store is left out.
- Tunnel.CopyBidirectionalIdle: the counters do not wrap at 2^64 bytes.
- Notification dispatch (desktop, exec, webhook), worker pools and the evaluation of expressions: outcomes are parameters.
- Duration parsing and formatting, `retention_from_env`, path helpers, command line parsing, Prometheus serving: pure glue.
- SQLite, TOML, JSON and postcard internals beyond what frames and rows need.
- Importing and migrating dashboards, listing and sorting them for display.
- TLS, SSH targets, certificate lists, file permissions, dynamic loading and panic catching in plugins.
- Qt and QML code.

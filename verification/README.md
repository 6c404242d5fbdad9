# Verified model of the run log and what is derived from it

An append-only log of JSON lines is the only record of a run. Everything else is computed from it:
a run is forked by cutting its log at an event, reloaded by parsing what was kept, exported as one
trajectory per stretch of an agent's life, and examined through stored queries that outlive the
vocabulary they were written in. This project models those computations in Dafny and proves what
they promise each other.

| modules | what they model |
|---|---|
| `Sorting`, `TextOrder`, `Decimal`, `Wrappers` | the stable sort, text order and integer text that the rest relies on, each proved, none assumed |
| `JsonLines`, `JsonRewrite` | splitting a file into lines, strict and tolerant reading, rewriting record by record |
| `EventLog`, `LogFork`, `ResumeRound`, `CopiedEvents` | loading a log with its rounds filled in, cutting it at an event, and which events a fork copied |
| `SimulationEvents`, `AtifSteps`, `TrajectoryBuilder` | events, steps, and the loops that turn one into the other |
| `TrajectoryGenerations`, `TrajectoryLaws`, `TrajectoryPrompts`, `TrajectoryTurns`, `TrajectoryTranscript`, `TrajectorySpend` | what the split into generations and the steps of a generation keep |
| `ForkAccounting` | from the bytes of a source's and a fork's log to the totals of their trajectories |
| `LegacyLineage`, `StoredQueries`, `DashboardFiles`, `DashboardStore` | rewriting stored queries, which of them validation accepts, and the store that reads, writes and crashes |
| `PromptTemplates` | the variables a template reads through its includes |
| `RoundWorld` | the metering of a budgeted round |
| `VerdictPairing` | matching verdicts to tool calls |
| `KnobFilter`, `KnobMatching` | parsing a written filter and testing it on a recorded config |
| `RunArchive` | claiming run directories and trashing runs |

Loops that update variables are methods, and objects whose methods update fields are classes. The
trajectory loop carries the prompt to send next, the pending failures and a counter; its contract
looks back over the events before each turn and mentions none of the three. Contracts of that kind
are the aim. A few loops are instead proved equal to a recursive function that takes the same steps
(`Generations`, `SeedStepsThrough`, `ToolReturns`, `HandledLines`), and what the source
promises of them is proved about that function in the rows next to theirs.

## What turned out not to hold

- The header of the lineage translation calls its value shifts exact. Two old columns, rounds after
  a swap and rounds after a resume, become one new column, so a filter on either now also selects
  runs that have the other: `MergedColumnsKeepAnswers` proves that answers are kept for a run if and
  only if it does not carry the other count, and `ShiftPreservesMeaning` proves which filters on a
  shifted column move exactly. A stored filter that already lists the new derivation name alone
  changes its answer too (`DerivationKeepsAnswers`). Slicing by either count regroups runs in the same
  cases (`GroupingIsKept`).
- A dashboard that is read once may not be read again. Translation can turn two distinct group-by keys
  of a chart into one column, which validation refuses, and the store writes the translation back
  unvalidated: the read that breaks the file still answers, every later one fails, the listing drops
  the dashboard and its name becomes free (`ReadBreaksSideBySide`). `AcceptedAfterTranslation` proves
  which dashboards that happens to, `ReadingDamagesExactly` when a listing damages nothing, and the
  store's operations are stated with what they then lose.
- A fork's log can be appended to only if the boundary line ended with a newline. An unterminated
  last line runs on into the first appended one (`AppendingAddsLines`, `GluedLines`), and two
  objects on one line are no JSON text. `AppendedIsRead` proves exactly when appended lines are
  read: otherwise the log does not load at all, as in `UnterminatedForkIsLost`. In every case where
  it does load its copied events are the kept ones (`CopiedIdsStay`).
- Token totals are not always what responses logged: counts that cancel leave a response unmeasured
  (`CancellingCountsAreLost` gives a run for each kind of token). `SpendIsWholeExactly` proves that an
  agent's totals are right at every point of a log if and only if none of its own responses cancels,
  and `ShortfallIsLost` what is missing when one does.
- A mistyped filter value is meant never to hide behind an empty selection. Filters are tested in
  order up to the first that fails, so behind one that fails it does (`MistypedValueHides`);
  `AllAreTested` proves exactly when a run refuses it, and `EmptySelectionHides` exactly when an empty
  selection leaves it unreported.
- The scan for the round to resume at takes the greatest round on any line that mentions the type of
  a round opening. It fails on a line that merely names the type and carries no round, as older logs
  may (`RoundlessNamesakeStopsScan`): `ScanAnswersExactly` proves when it answers. It misses a log
  that went back to an earlier round (`GoingBackIsMissed`) and would count a later round on a line
  that merely names the type (`NamesakeIsCounted`, a line the writer itself would not log). Provided
  that openings mention their type and carry their round, `ScanMissesOnlyLaterRounds` proves that it
  finds the round the loaded log ends in exactly when no line that mentions the type carries a later
  one; `ResumesInLastRound` is the case in which no line merely names the type.

## Model

| member | source | states |
|---|---|---|
| `TrajectoryBuilder.SelectAgentEvents` | src/glossogen/atif_export/atif_trajectory_builder.py:131-143 | the agent's events before the exclusive cutoff round, in log order |
| `TrajectoryBuilder.SplitGenerations` | src/glossogen/atif_export/atif_trajectory_builder.py:146-181 | the loop computes the fold whose laws are below, and stops with the swap error where that fold does |
| `TrajectoryGenerations.SplitIsLossless` | src/glossogen/atif_export/atif_trajectory_builder.py:146-181 | the generations' opening events and events, put one after the other, are exactly the agent's events from its first registration on; there is no generation only when it never registered |
| `TrajectoryGenerations.FirstRegistrationAt` | src/glossogen/atif_export/atif_trajectory_builder.py:179-181 | what is left out is everything before the first registration, and nothing else |
| `TrajectoryGenerations.GenerationsOnlyGrow` | src/glossogen/atif_export/atif_trajectory_builder.py:146-181 | as the log goes on, only the generation that is playing changes, and only by gaining events |
| `TrajectoryGenerations.SplitFailsOnEarlySwap` | src/glossogen/atif_export/atif_trajectory_builder.py:159-161 | splitting raises if and only if a swap comes before any registration |
| `TrajectoryGenerations.CurrentModel` | src/glossogen/atif_export/atif_trajectory_builder.py:154-181 | the last generation plays under the model that the latest registration or swap named, whether the agent resumed or started over |
| `TrajectoryGenerations.SwapStarts` | src/glossogen/atif_export/atif_trajectory_builder.py:159-195 | a swap adds a generation in the same seat: the seat's registration with the swap's prompt if it brought one, the swap's model and provider, and the history rebuilt for that registration |
| `TrajectoryGenerations.CurrentRegistration` | src/glossogen/atif_export/atif_trajectory_builder.py:184-223 | through resumes and swaps a generation's registration is the seat's own, and it counts as copied exactly while every registration so far was copied |
| `TrajectoryGenerations.SeededSeatEntry` | src/glossogen/atif_export/atif_trajectory_builder.py:198-223 | the seat is entered exactly at its first registration that was not copied, after one that was |
| `TrajectoryGenerations.RegistrationOpens` | src/glossogen/atif_export/atif_trajectory_builder.py:151-223 | any registration of any agent: it is added to the events of the generation that is playing exactly when it names the model that plays and does not take over the seeded seat from a copied one; otherwise, as the first always does, it begins a generation under its own id, model and provider, from the boundary's history exactly when it takes over and from none otherwise |
| `TrajectoryGenerations.SeededSeatEnteredOnce` | src/glossogen/atif_export/atif_trajectory_builder.py:206-213 | no two registrations of an agent are both seeded at the boundary |
| `TrajectoryGenerations.ForkCopiesFirst` | src/glossogen/atif_export/copied_context.py:114-140 | in a log of distinct ids whose copied events are a prefix, every agent's copied events come before its own; the premise of the seat lemmas |
| `TrajectoryBuilder.FirstInvocationIsEarliest` | src/glossogen/atif_export/atif_trajectory_builder.py:324-335 | a response's turn time is the least among its logged invocations, and there is none only when no call of it was logged |
| `TrajectoryBuilder.TurnTimeIsFirstCall` | src/glossogen/atif_export/atif_trajectory_builder.py:324-335 | a response's turn is at the earliest time one of its calls was last invoked, at its log time when none was; every other event's is at its log time |
| `TrajectoryBuilder.ResultsAreLatest` | src/glossogen/atif_export/atif_trajectory_builder.py:235-237 | a call's result is what the last event of that call returned, and there is none without such an event |
| `TrajectoryBuilder.InvocationsAreLatest` | src/glossogen/atif_export/atif_trajectory_builder.py:238-242 | a call was invoked when the last event of that invocation was logged, if one was |
| `TrajectoryBuilder.BuildSteps` | src/glossogen/atif_export/atif_trajectory_builder.py:226-306 | the steps are those each turn owes by looking back from it: its due prompt, the failures since the previous response, and the size of the cycle it closes; the failures after the last response come back apart |
| `TrajectoryBuilder.BuildTrajectory` | src/glossogen/atif_export/atif_trajectory_builder.py:393-440 | a generation's model, steps, totals over those steps and trailing failures |
| `TrajectoryBuilder.BuildTrajectories` | src/glossogen/atif_export/atif_trajectory_builder.py:99-108 | as many trajectories as generations, the i-th being that of the i-th generation, numbered from 1 |
| `TrajectoryBuilder.BuildAgentTrajectories` | src/glossogen/atif_export/atif_trajectory_builder.py:83-108 | the trajectories of the agent's generations, or the error of an early swap or of an agent that never registered |
| `TrajectoryLaws.StepIdsAreConsecutive` | src/glossogen/atif_export/atif_trajectory_builder.py:244-306 | step ids are 1, 2, 3 and so on without a gap, seed history and prompts included |
| `TrajectoryLaws.MeasuredStepsCountTheirCycle` | src/glossogen/atif_export/atif_trajectory_builder.py:274-305 | a call count stands on exactly the measured own turns, and is one more than the own turns since the last measured step |
| `TrajectoryLaws.CallCountsCoverResponses` | src/glossogen/atif_export/atif_trajectory_builder.py:274-305 | the counts on the steps plus the responses of the still open cycle are all the generation's responses |
| `TrajectoryLaws.FailuresRecordedOnce` | src/glossogen/atif_export/atif_trajectory_builder.py:263-306 | the failed cycles recorded on the steps, then the trailing ones, are the generation's failures in order, each once |
| `TrajectoryPrompts.RunnerPromptsPlacement` | src/glossogen/atif_export/atif_trajectory_builder.py:251-321 | every runner prompt is a user step in the registered words, answered by the agent's next step and copied exactly when that is; the initial one comes at most once, before any own turn, and only without a seed |
| `TrajectoryTurns.FirstTurnIsOpened` | src/glossogen/atif_export/atif_trajectory_builder.py:251-313 | the first own turn has a prompt directly before it: the initial one if and only if the generation has no seed and nothing failed and no registration came before that turn, the continue prompt otherwise; it records exactly the cycles that failed before it |
| `TrajectoryTurns.ContinuesExactlyWhenOwed` | src/glossogen/atif_export/atif_trajectory_builder.py:251-306 | of two successive own turns the later has a prompt directly before it, the continue prompt, if and only if the earlier closed its cycle, the later records a cycle that failed in between, or the agent registered again in between; the later records exactly the cycles that failed in between |
| `TrajectoryTurns.TurnStands` | src/glossogen/atif_export/atif_trajectory_builder.py:267-305 | a response's step stands where its turn comes in the sorted order, with the prompt that was due, if any, directly before it |
| `TrajectoryPrompts.TurnsAreChronological` | src/glossogen/atif_export/atif_trajectory_builder.py:254-256 | agent turns and compactions stand in the order of their turn times, whatever order they were logged in |
| `TrajectoryTranscript.TranscriptIsKept` | src/glossogen/atif_export/atif_step_builder.py:91-159 | reading the steps back gives every response with its turn time, the model, its text, thinking, calls, results and logged usage, and every compaction with its log time, each with whether it was copied, in turn order, none lost and none invented |
| `TrajectoryTranscript.OpensWithPromptAndSeed` | src/glossogen/atif_export/atif_trajectory_builder.py:243-250 | a generation opens with the system prompt in force, a step spelled out field by field, and then its seed's steps, and neither comes again |
| `TrajectoryTranscript.SeedHistoryIsKept` | src/glossogen/atif_export/seed_history_steps.py:32-99 | reading a seed's steps back gives the history's prompts and responses in order, with what their calls returned |
| `TrajectoryTranscript.CostIsWholeOrUnknown` | src/glossogen/atif_export/atif_trajectory_builder.py:361-390 | a cost total exists exactly when something was measured in this run and all of it was priced, and is then the sum of the prices |
| `TrajectoryTranscript.TotalCostIs` | src/glossogen/atif_export/atif_trajectory_builder.py:379-382 | one missing price makes the total unknown; otherwise it is the sum |
| `AtifSteps.BuildSeedSteps` | src/glossogen/atif_export/seed_history_steps.py:32-55 | one user step per prompt and one agent step per response, numbered on from the first id |
| `AtifSteps.ToolReturnsByCallId` | src/glossogen/atif_export/seed_history_steps.py:58-66 | the last return of each call id in the history |
| `AtifSteps.ToolReturnsAreLatest` | src/glossogen/atif_export/seed_history_steps.py:58-66 | a call has a return if and only if some part of a request returns it, and it is what the last such part returned |
| `AtifSteps.SeedStepsAreCopied` | src/glossogen/atif_export/seed_history_steps.py:102-116 | seed steps are numbered without a gap, all copied context, never measured, counted or timed, without a model; only the agent's carry thinking, calls or results |
| `AtifSteps.ObservationLinksCalls` | src/glossogen/atif_export/atif_step_builder.py:212-226 | an observation holds the result of each call that returned, and nothing else; when all returned, one per call |
| `AtifSteps.ObservationFollowsCalls` | src/glossogen/atif_export/atif_step_builder.py:212-226 | one result for each call that returned, in the order the calls were made, each that call's |
| `AtifSteps.FailuresAreRecorded` | src/glossogen/atif_export/atif_step_builder.py:162-167 | each failure is recorded in order with its cycle, its kind of error and its message |
| `TrajectorySpend.FinalTotal` | src/glossogen/atif_export/atif_trajectory_builder.py:361-390 | each total is the sum over uncopied measured steps, and `None` exactly when there is none; the step count is that of all steps |
| `TrajectorySpend.GenerationSpend` | src/glossogen/atif_export/atif_trajectory_builder.py:226-390 | a generation's total is what its uncopied measured responses logged, through the sort and the step building |
| `TrajectorySpend.SpendIsConserved` | src/glossogen/atif_export/atif_trajectory_builder.py:131-390 | over all trajectories of an agent the totals are what its uncopied responses logged from its first selected registration on: measured ones for any counts, all of them when no count is negative |
| `TrajectorySpend.NonNegativeIsMeasured` | src/glossogen/atif_export/atif_step_builder.py:170-187 | without negative counts, the responses that go unmeasured logged nothing |
| `TrajectorySpend.ResponseIsWhole` | src/glossogen/atif_export/atif_step_builder.py:170-187 | a step carries all that its response logged, of every kind, if and only if the response was copied, logged no such tokens, or logged counts that do not sum to zero |
| `TrajectorySpend.SpendIsWholeExactly` | src/glossogen/atif_export/atif_trajectory_builder.py:131-390 | at every point of a run's log an agent's totals of every kind are what its uncopied responses logged, if and only if none of those its trajectories are built from logged counts that cancel |
| `TrajectorySpend.ShortfallIsLost` | src/glossogen/atif_export/atif_trajectory_builder.py:131-390 | at one point of a log a total falls short by exactly the sum of the counts of the responses that cancel |
| `TrajectorySpend.CancellingCountsAreLost` | src/glossogen/atif_export/atif_step_builder.py:178-187 | for each kind, a run whose trajectories total none of the five tokens its one response logged |
| `TrajectorySpend.ForkSpendsNothingTwice` | src/glossogen/atif_export/atif_trajectory_builder.py:361-367 | for an agent registered before the boundary, a source's spend and its fork's are together the spend of the source's whole log followed by the fork's own events, also when the source is a fork itself |
| `ForkAccounting.SourceAndForkTotals` | src/glossogen/run_archive.py:162-164 | the same from bytes to totals: cut a source log at an event, append anything, load both, take the copied ids from the boundary, build both runs' trajectories, and their totals count each logged token once; the source may be a fork, and the boundary line may lack its newline |
| `Sorting.SortSorts` | src/glossogen/atif_export/atif_trajectory_builder.py:254-256 | the built-in sort puts a list in order |
| `Sorting.SortPermutes` | src/glossogen/atif_export/atif_trajectory_builder.py:254-256 | it keeps exactly the elements, each as often as before |
| `Sorting.SortIsStable` | src/glossogen/atif_export/atif_trajectory_builder.py:254-256 | elements the key cannot tell apart stay in their original order |
| `Sorting.StableSortIsUnique` | src/glossogen/dashboards/filesystem_dashboard_store.py:122-126 | order and stability leave one possible result |
| `Sorting.SortingTwice` | src/glossogen/dashboards/filesystem_dashboard_store.py:122-126 | sorting by the minor key and then stably by the major one is one lexicographic sort |
| `Sorting.SortKeepsSum` | src/glossogen/atif_export/atif_trajectory_builder.py:254-256 | totals do not depend on the order of the turns |
| `JsonLines.SplitKeepsEveryByte` | src/glossogen/run_archive.py:49-52 | the lines of a file are its bytes cut after each newline and nowhere else: put together they are the file, none is empty, and only the last may lack its newline |
| `JsonLines.StripTrims` | src/glossogen/jsonl_lines.py:81 | stripping takes the blanks off both ends of a line and nothing else |
| `JsonLines.AppendingAddsLines` | src/glossogen/run_archive.py:162-164 | appending bytes adds lines and leaves the earlier ones alone if and only if the file was empty or ended its last line, or nothing is appended |
| `JsonLines.GluedLines` | src/glossogen/run_archive.py:162-164 | an unterminated last line and the first appended one become one line, and every other line stays |
| `JsonLines.CutLeavesLines` | src/glossogen/run_archive.py:32-34 | the bytes up to the end of the k-th line split into exactly the first k lines |
| `JsonLines.JsonObjectLines.Advance` | src/glossogen/jsonl_lines.py:64-91 | the next object in file order with its line number, past blank lines only; or the first line that is not one; or the end with nothing left |
| `JsonLines.ReadSkippingMalformed` | src/glossogen/jsonl_lines.py:94-127 | every non-blank line is handled once, in file order, yielded or reported |
| `JsonLines.TolerantReadPartitions` | src/glossogen/jsonl_lines.py:94-127 | yielded records and reported lines partition the non-blank lines; every report has the number, the stripped text and the fault of its line, and every line that holds something but no object is reported |
| `JsonLines.ReadersAgreeUpTo` | src/glossogen/jsonl_lines.py:64-127 | up to the first malformed line the tolerant reader yields what the strict one does and reports nothing |
| `JsonLines.BlankIsStripped` | src/glossogen/jsonl_lines.py:81-83 | blank text after a line that is not blank leaves what is parsed of it the same |
| `JsonRewrite.RewriteJsonObjects` | src/glossogen/jsonl_lines.py:130-148 | a rewrite succeeds exactly on files the strict reader accepts, with the kept objects' lines and their number; otherwise it names the first bad line |
| `JsonRewrite.RewriteRoundTrip` | src/glossogen/jsonl_lines.py:130-148 | reading the rewritten content yields exactly the kept objects in order, a lone newline when none is kept |
| `EventLog.RoundNumberBackfill.constructor` | src/glossogen/event_parsing.py:32-33 | a pass starts before any record |
| `EventLog.RoundNumberBackfill.Observe` | src/glossogen/event_parsing.py:35-40 | the running round stays that of the latest record seen that opened one, 0 before any |
| `EventLog.RoundNumberBackfill.Apply` | src/glossogen/event_parsing.py:42-51 | the record with the round it was emitted in, read off the records before it |
| `EventLog.LoadedOneByOne` | src/glossogen/event_parsing.py:23-75 | the loaded events are the records of known types, one each and in order, each validated from its record with its own round or that of the latest round opened at or before it or 0, with that round on a sent message that had none, and with nothing else changed |
| `EventLog.LoadFailsOnInvalidRecord` | src/glossogen/event_parsing.py:23-75 | records fail to load only if one of a known type, with its round filled in the same way, does not validate |
| `EventLog.LoadedEventsNext` | src/glossogen/evaluation/log_reader.py:52-61 | a record of unknown type leaves the loaded events alone while still counting for the round of later ones |
| `EventLog.ReadAndParseEvents` | src/glossogen/evaluation/log_reader.py:42-71 | skipping unknown types on the way gives what filling in the whole log and dropping them afterwards gives; a failure is at the first line up to which the log does not load |
| `LogFork.FindEventOffset` | src/glossogen/run_archive.py:29-64 | the first line holding an event of that id, with the number of bytes up to its end; nothing when no line does; an error only at a malformed line before it |
| `LogFork.CutLoadsPrefix` | src/glossogen/run_archive.py:162-164 | cutting commutes with loading: the cut log loads to a prefix of the whole log's events, rounds included, ending at the first event with that id when its type is known |
| `LogFork.AppendedIsRead` | src/glossogen/run_archive.py:162-164 | appended lines that load after the kept ones do so in the fork's log if and only if nothing is appended, the boundary line ended with a newline, or they start with a blank line; otherwise that log does not load at all |
| `LogFork.ObjectsCanEnd` | src/glossogen/run_archive.py:56-57 | the condition that the previous row puts on the JSON library is met by one that reads events |
| `LogFork.UnterminatedForkIsLost` | src/glossogen/run_archive.py:162-164 | a log of one event without a newline, cut at that event, and the same event appended: on lines of their own both load, but the fork's log does not |
| `LogFork.CopiedIdsStay` | src/glossogen/atif_export/copied_context.py:134-140 | however the fork's log grows, if it loads, the ids taken through the boundary event are exactly those of the events kept at the cut |
| `CopiedEvents.IdsThrough` | src/glossogen/atif_export/copied_context.py:134-140 | the ids up to and including the first event of the target's id, or an error exactly when there is none |
| `CopiedEvents.PrefixIsCopiedFirst` | src/glossogen/atif_export/copied_context.py:114-140 | with distinct ids, no selection of a fork's events has an own event before a copied one |
| `ResumeRound.ResumeRoundFromLog` | src/glossogen/run_archive.py:231-251 | the greatest of 1 and the rounds on lines that mention the type, 1 for a missing file, an error at the first such line without a readable round |
| `ResumeRound.MentionIsQuotedType` | src/glossogen/run_archive.py:248 | a line matters exactly when the quoted type stands somewhere in its bytes |
| `ResumeRound.RoundIsOnLine` | src/glossogen/run_archive.py:250 | the round of such a line is what `int` makes of `round_number` in the object it holds |
| `ResumeRound.OpeningIsOnLine` | src/glossogen/event_parsing.py:35-40 | the round that loading takes from a line: the integer, or the boolean counted as one, of the opening that the line holds |
| `ResumeRound.ScanMissesOnlyLaterRounds` | src/glossogen/run_archive.py:231-251 | where every line that opens a round mentions the type and carries that round, the answer is the round the loaded log ends in, counting from 1, if and only if no line that mentions the type carries a later one |
| `ResumeRound.ScanAnswersExactly` | src/glossogen/run_archive.py:245-251 | there is an answer, one, if and only if every line that mentions the type carries a readable round |
| `ResumeRound.ResumesInLastRound` | src/glossogen/run_archive.py:231-251 | where only lines that open a round mention the type, it is that round if and only if the log never went back to an earlier round |
| `ResumeRound.GoingBackIsMissed` | src/glossogen/run_archive.py:245-250 | a log that opens round 3 and then round 2, where the scan answers 3 and the loaded log ends in 2 |
| `ResumeRound.NamesakeIsCounted` | src/glossogen/run_archive.py:247-250 | a log that never goes back, where a later message only names the type and carries round 7: the scan answers 7 and the loaded log ends in 3 |
| `ResumeRound.RoundlessNamesakeStopsScan` | src/glossogen/run_archive.py:247-250 | the same with a message that, as in older logs, carries no round: the scan has no answer and the loaded log ends in 3 |
| `ResumeRound.LastRoundIsLastOpened` | src/glossogen/event_parsing.py:23-40 | the round a log ends in is the one its last round-opening line names, 0 if no line opens one |
| `RunArchive.RunsDirectory.MoveRunToTrash` | src/glossogen/run_archive.py:189-210 | the search for a name ends, at the first free one; the run moves there and nothing in the trash is replaced |
| `RunArchive.DestinationsAreDistinct` | src/glossogen/run_archive.py:203-206 | no two names tried are the same, which is why the search ends |
| `RunArchive.NoTrashedRunIsLost` | src/glossogen/run_archive.py:189-210 | over any run of deletions every earlier trashed run stays as it was |
| `RunArchive.ClaimRunDir` | src/glossogen/run_archive.py:213-228 | a claim and what others do meanwhile are a history in which the claim's last attempt is the first of its own to succeed; it returns the name that attempt created |
| `RunArchive.ClaimsInHistory` | src/glossogen/run_archive.py:213-228 | whether an attempt of a claim succeeds is the same in the claim's own segment and in the whole history around it, which ties each claim to the next row |
| `RunArchive.ClaimsAreUnique` | src/glossogen/run_archive.py:213-228 | under any interleaving and any clocks, two attempts create one directory only if the run in it was moved away in between |
| `LegacyLineage.TranslationIs` | src/glossogen/dashboards/legacy_lineage_translation.py:16-93 | the whole translation, term by term: where each key goes, which values move and by how much, the derivation name, and that everything else is left as written, what `contains` looks for included |
| `LegacyLineage.TranslationIsExact` | src/glossogen/dashboards/legacy_lineage_translation.py:57-93 | a dashboard comes back as it was if and only if it held no legacy term, and none is left afterwards |
| `LegacyLineage.TranslationIsIdempotent` | src/glossogen/dashboards/legacy_lineage_translation.py:83-93 | translating twice is translating once |
| `LegacyLineage.TranslationStaysValid` | src/glossogen/dashboards/legacy_lineage_translation.py:57-68 | a filter the query model accepts is still accepted after translation |
| `LegacyLineage.ShiftedMembers` | src/glossogen/dashboards/legacy_lineage_translation.py:39-47 | a shifted list holds an integer's shift exactly when the list held some spelling of the integer |
| `LegacyLineage.OperatorsAsk` | src/glossogen/run_analysis/dimension_filter.py:99-121 | what each operator asks of a cell; a comparison fails on a cell that is no number |
| `LegacyLineage.ShiftPreservesMeaning` | src/glossogen/dashboards/legacy_lineage_translation.py:39-68 | over every integer a shifted column can hold, the translated filter selects the shifted cell when the stored one selected the cell, if and only if every numeral listed is also listed canonically, or the bound is a numeral |
| `LegacyLineage.TranslationPreservesAnswers` | src/glossogen/dashboards/legacy_lineage_translation.py:16-68 | a translatable filter on a shifted column answers the same on a run's old and new row, blank cells included |
| `LegacyLineage.MergedColumnsKeepAnswers` | src/glossogen/dashboards/legacy_lineage_translation.py:16-26 | for either of the two counts that became one column, all translatable filters keep their answers on a run if and only if the run does not carry the other count |
| `LegacyLineage.DerivationKeepsAnswers` | src/glossogen/dashboards/legacy_lineage_translation.py:50-61 | a list of derivation kinds keeps its answer for every old run if and only if it does not hold the new name without the old one |
| `LegacyLineage.SelectionIsKept` | src/glossogen/dashboards/legacy_lineage_translation.py:16-93 | a run passes a stored list of filters on its old row if and only if it passes the translated list on its new row, for filters that are exact by the conditions above or on columns that are only renamed |
| `StoredQueries.WhichKeysMerge` | src/glossogen/dashboards/legacy_lineage_translation.py:16-21 | which different group-by keys become one column: any two of the three counts of rounds after, and each other renamed key with its current name |
| `StoredQueries.RefusedExactly` | src/glossogen/run_analysis/analysis_query_models.py:73-92 | a dashboard is refused exactly for a filter that compares with nothing or with a bound that is not one number, two charts of one id, or a chart with more than two group-by keys, one key twice, or a rest that is refused |
| `StoredQueries.AcceptedAfterTranslation` | src/glossogen/dashboards/legacy_lineage_translation.py:57-93 | a dashboard that validation accepts is still accepted after translation if and only if none of its charts groups by two keys that become one column |
| `StoredQueries.SideBySideIsLost` | src/glossogen/dashboards/legacy_lineage_translation.py:71-80 | a chart by rounds after a swap and rounds after a resume is accepted as stored and refused once translated |
| `StoredQueries.GroupingIsKept` | src/glossogen/dashboards/legacy_lineage_translation.py:16-21 | slicing by a renamed key keeps two old runs in one group or apart if and only if the counts merged with theirs agree, as they do for runs that do not carry one |
| `StoredQueries.SlicesAreKept` | src/glossogen/dashboards/legacy_lineage_translation.py:75 | the same for all keys of a chart together |
| `Decimal.ReadShow` | src/glossogen/dashboards/legacy_lineage_translation.py:41-47 | reading an integer's text gives the integer, negative ones included |
| `Decimal.DigitsShown` | src/glossogen/dashboards/legacy_lineage_translation.py:47 | the decimal text of an integer, digit by digit, with a minus sign in front of a negative one |
| `Decimal.ShowInjective` | src/glossogen/run_archive.py:204-206 | different integers have different text |
| `DashboardFiles.NamesAreApart` | src/glossogen/dashboards/filesystem_dashboard_store.py:60-89 | a pending file is never one the listing's pattern matches, nor the file it is to replace |
| `DashboardFiles.ReplacementIsAtomic` | src/glossogen/dashboards/filesystem_dashboard_store.py:67-95 | however far a replacement got, a read finds the old version or the new one, whole, and no pending file; the new one shows if a read accepts it and is damaged if not |
| `DashboardFiles.StepKeepsSound` | src/glossogen/dashboards/filesystem_dashboard_store.py:54-194 | one operation, finished, refused or crashed, leaves names distinct and nobody's id, creator or creation time changed, and damages no file but one whose translation a read does not accept |
| `DashboardFiles.EveryRunStaysSound` | src/glossogen/dashboards/filesystem_dashboard_store.py:39-194 | the same over every run of operations and crashes: a readable file turns broken only if its translation was not acceptable at some point, and none does where that never is |
| `DashboardFiles.DoomIsStored` | src/glossogen/dashboards/filesystem_dashboard_store.py:141-185 | an unacceptable translation comes from what an operation stored, never from a read |
| `DashboardFiles.ReadingDamagesExactly` | src/glossogen/dashboards/filesystem_dashboard_store.py:54-85 | reading a group leaves every readable file readable if and only if no readable file has a chart that groups by two keys which become one column |
| `DashboardFiles.ReadBreaksSideBySide` | src/glossogen/dashboards/filesystem_dashboard_store.py:80-84 | a file with a chart that groups by rounds after a swap and rounds after a resume: shown before it is read, damaged after, and its name is free again |
| `TextOrder.AtMostIs` | src/glossogen/dashboards/filesystem_dashboard_store.py:125 | a name comes before another if it is a start of it or has the smaller character where they first differ |
| `DashboardStore.ListingOrder` | src/glossogen/dashboards/filesystem_dashboard_store.py:118-127 | the two sorts list by update time, newest first, then by name, each dashboard once |
| `DashboardStore.SortedListingIsComplete` | src/glossogen/dashboards/filesystem_dashboard_store.py:54-127 | the listing has every readable dashboard of the group once, in that order |
| `DashboardStore.FilesystemDashboardStore.WriteToPath` | src/glossogen/dashboards/filesystem_dashboard_store.py:87-95 | a replacement that a crash stops leaves the old or the new file; one that survives leaves the new file and no pending one |
| `DashboardStore.FilesystemDashboardStore.ReadOne` | src/glossogen/dashboards/filesystem_dashboard_store.py:67-85 | answers with the translation of what it accepts, and with an error exactly for what it does not; afterwards the file is damaged if and only if the translation is not acceptable, and a crash leaves it before or after |
| `DashboardStore.FilesystemDashboardStore.ReadAll` | src/glossogen/dashboards/filesystem_dashboard_store.py:54-65 | every dashboard of the group that is readable beforehand, the rest passed over; afterwards exactly the files with an unacceptable translation are damaged besides |
| `DashboardStore.FilesystemDashboardStore.RefuseDuplicateName` | src/glossogen/dashboards/filesystem_dashboard_store.py:104-116 | refuses exactly when another dashboard of the group that is readable beforehand has the name; either way everything has been read |
| `DashboardStore.FilesystemDashboardStore.ListDashboards` | src/glossogen/dashboards/filesystem_dashboard_store.py:118-127 | a summary, field by field, of each dashboard readable beforehand, once, newest first and then by name; afterwards everything has been read |
| `DashboardStore.FilesystemDashboardStore.GetDashboard` | src/glossogen/dashboards/filesystem_dashboard_store.py:129-139 | what a read answers under the id, `None` when there is no file, an error exactly when it is not accepted; afterwards that file has been read |
| `DashboardStore.FilesystemDashboardStore.CreateDashboard` | src/glossogen/dashboards/filesystem_dashboard_store.py:141-161 | stored under its own id with the content, the creator and now as creation and update time, if its name was free among what was readable; refused and nothing written if not; either way everything has been read; after a crash, a point in between |
| `DashboardStore.FilesystemDashboardStore.UpdateDashboard` | src/glossogen/dashboards/filesystem_dashboard_store.py:163-185 | replaces the content, sets the update time to now and keeps id, creator and creation time; a duplicate name writes nothing; a missing or broken dashboard changes nothing; the rest of the group has been read |
| `DashboardStore.FilesystemDashboardStore.DeleteDashboard` | src/glossogen/dashboards/filesystem_dashboard_store.py:187-194 | removes the file, readable or not, and tells whether there was one |
| `PromptTemplates.VariablesRead` | linter/check_prompt_templates.py:325-340 | a visit returns the variables of exactly the templates it is first to see; each is reachable and has all its includes seen at the end; it ends on any include graph |
| `PromptTemplates.ClosedIsReachable` | linter/check_prompt_templates.py:325-340 | what such a visit has seen is exactly what is reachable |
| `PromptTemplates.AllVariablesRead` | linter/check_prompt_templates.py:297-340 | started with nothing seen, the names read are those undeclared in some reachable template, cycles and diamonds included |
| `PromptTemplates.VariableFindings` | linter/check_prompt_templates.py:297-322 | a call has no finding if and only if it passes exactly the names read; otherwise the findings name exactly the missing and the unused ones |
| `RoundWorld.PayerIsTeam` | src/glossogen/engine/round_world.py:122-148 | whoever is charged is a declared team, so no charge fails |
| `RoundWorld.PayerRules` | src/glossogen/engine/round_world.py:48-66 | the only team on a task channel pays whoever spoke; on a shared one the last declared team that lists the sender does, and nobody only if no team lists it; nobody on any other channel |
| `RoundWorld.RoundWorld.constructor` | src/glossogen/engine/round_world.py:27-76 | the lookups built at the start agree with the declaration of the teams; exactly the declared teams have a counter, each zero, and nothing is claimed |
| `RoundWorld.RoundWorld.TeamForTaskChannel` | src/glossogen/engine/round_world.py:82-88 | a channel's owner, exactly when it is the only team on it |
| `RoundWorld.RoundWorld.CharactersUsed` | src/glossogen/engine/round_world.py:90-92 | a team's counter, and an error exactly for a team that has none |
| `RoundWorld.RoundWorld.OnMessage` | src/glossogen/engine/round_world.py:122-148 | an exclusive task channel charges its owner whoever spoke, a shared one the sender's team, any other nobody |
| `RoundWorld.RoundWorld.RestoreCharactersUsed` | src/glossogen/engine/round_world.py:94-99 | sets one team's counter and nothing else |
| `RoundWorld.RoundWorld.ClaimRoundBudgetThreshold` | src/glossogen/engine/round_world.py:101-114 | answers True exactly for a declared threshold not claimed yet, claims it with every milder one, and fails exactly on an unknown team or an undeclared threshold that is not claimed |
| `RoundWorld.RoundWorld.BeginRound` | src/glossogen/engine/round_world.py:116-120 | the same teams, every counter zero and every claim forgotten |
| `RoundWorld.CounterIsWhatWasPaid` | src/glossogen/engine/round_world.py:94-148 | over any run a team's counter is what it was last set to plus the length of exactly the messages it paid for since |
| `RoundWorld.CountersSumToTraffic` | src/glossogen/engine/round_world.py:116-148 | within a round the teams' counters add up to the length of all charged messages |
| `RoundWorld.ClaimedIsWhatWasTold` | src/glossogen/engine/round_world.py:101-120 | over any run a team's claimed thresholds are those no more severe than one it claimed this round: a suffix of the severity order that other teams do not touch |
| `RoundWorld.GrantsGrowMoreSevere` | src/glossogen/engine/round_world.py:101-120 | within a round the claims of a team answered True grow strictly more severe |
| `RoundWorld.GrantedExactlyWhenOwed` | src/glossogen/engine/round_world.py:101-120 | a claim is answered True if and only if nothing as severe was claimed before it in the round |
| `VerdictPairing.PairWithToolCalls` | src/glossogen/scenario_run_detail_extension.py:86-108 | the queues compute, for each judged result in order, the agent's oldest verdict not taken yet |
| `VerdictPairing.VerdictsAreConsumedInOrder` | src/glossogen/scenario_run_detail_extension.py:96-108 | the payloads an agent's results got, then those still queued, are its verdicts in order, each once |
| `VerdictPairing.AgentsDoNotInterfere` | src/glossogen/scenario_run_detail_extension.py:101-108 | an agent's pairs are those made from its own events alone |
| `VerdictPairing.KthResultGetsKthVerdict` | src/glossogen/scenario_run_detail_extension.py:94-99 | when no result precedes its verdict, every result is paired and the k-th gets the k-th verdict |
| `VerdictPairing.PairedAreLeast` | src/glossogen/scenario_run_detail_extension.py:98-107 | how many results are paired in any log, verdicts late or not: the least, over all its points, of the agent's verdicts up to there and its judged results from there on |
| `VerdictPairing.LastPairWins` | src/glossogen/scenario_run_detail_extension.py:107 | the dictionary has exactly the paired call ids, each with the payload of its last pair |
| `VerdictPairing.DistinctCallsKeepEveryPair` | src/glossogen/scenario_run_detail_extension.py:107 | with distinct call ids the dictionary holds every pair and nothing else |
| `VerdictPairing.PairedCallsAreLogged` | src/glossogen/scenario_run_detail_extension.py:104-107 | distinct call ids in the log give distinct keys, all of them logged results |
| `KnobFilter.SymbolTexts` | src/glossogen/knob_filter.py:46-54 | how each operator is written |
| `KnobFilter.StripTrims` | src/glossogen/knob_filter.py:136-160 | stripping takes the spaces off both ends of a text and nothing else |
| `KnobFilter.Find` | src/glossogen/knob_filter.py:129 | the least place a text occurs at, or -1 when it does not |
| `KnobFilter.FindSeparator` | src/glossogen/knob_filter.py:114-133 | the least place any operator occurs at and the longest operator there, nothing only when none occurs |
| `KnobFilter.SeparatorIsUnique` | src/glossogen/knob_filter.py:114-133 | that place and operator are determined by the text |
| `KnobFilter.ParseKnobFilter` | src/glossogen/knob_filter.py:136-160 | the stripped name before the separator, the operator and the stripped value after it, or the error for no operator or no name |
| `KnobFilter.ParsingIsDetermined` | src/glossogen/knob_filter.py:136-160 | a text has one parse |
| `KnobFilter.PrintThenParse` | src/glossogen/knob_filter.py:136-160 | a filter written out and parsed comes back if and only if its name is non-empty, stripped, free of `=`, `<` and `>` and does not end in `!` under `=`, and its value is stripped and does not start with `=` under `>` or `<` |
| `KnobMatching.Lookup` | src/glossogen/knob_filter.py:304-327 | the loop finds the value that the name or, failing that, its dotted reading leads to |
| `KnobMatching.DottedNameReadsNested` | src/glossogen/knob_filter.py:304-327 | a dotted name reads the value that its parts lead to through nested mappings, and nothing when they lead nowhere, unless the config has that very name at the top, which wins |
| `KnobMatching.EqualityPartitions` | src/glossogen/knob_filter.py:216-355 | `=` and `!=` split the runs between them if and only if the run recorded the knob and the filter asks about null or its value reads as a comparable recorded type |
| `KnobMatching.OrderingComparesNumbers` | src/glossogen/knob_filter.py:201-301 | an ordering holds of recorded numbers only, where each of the four is its comparison of numbers; it is refused exactly when the filter's value is no number, and null asked about satisfies none |
| `KnobMatching.EqualityAsks` | src/glossogen/knob_filter.py:183-355 | what `=` and `!=` ask: set or not when the filter names null; otherwise numbers as numbers, truth values by their words, texts but for case; a recorded null differs from everything, a list or mapping and a knob not recorded satisfy neither |
| `KnobMatching.AllAreTested` | src/glossogen/knob_filter.py:358-370 | a run is selected exactly when it satisfies every filter; a misread value is refused exactly when the run satisfies every filter before it |
| `KnobMatching.SelectRuns` | src/glossogen/server/runs/listing.py:177-198 | the runs with a recorded config that satisfies every filter, in order; an error exactly when testing some run comes upon a misread filter |
| `KnobMatching.EmptySelectionHides` | src/glossogen/knob_filter.py:15-17 | if no run can read a filter's value nothing is selected, and the mistake goes unreported if and only if every run fails some earlier filter first |
| `KnobMatching.MistypedValueHides` | src/glossogen/knob_filter.py:358-370 | one config and two filters where the order decides between a refusal and an empty selection |

## Left out

- JSON text itself: parsing and serializing are functions given to the model. `RewriteRoundTrip` asks of them that what is written is one line that reads back as the same object, as section 7 of RFC 8259 makes it; and `AppendedIsRead` that anything but blanks after an object makes the text no JSON; nothing else is assumed.
- Event validation: the event classes are a set of known type names and a validating function. The fork theorems ask of it that a validated event has the looked-for id exactly when its record does.
- The history a seat or a swap is seeded with, registered runner prompts and prices: opaque inputs of the trajectory builder, since the code that rebuilds or looks them up is not part of this model. Text and thinking parts of a seed, and the parts of a prompt, are taken as already joined.
- BuildTrajectory: leaves out trajectory ids and file names, tool definitions, the agent's role, channels and settings, the scenario's name and config and the text form of times, which are copied through and meet no other rule.
- Copying a run's other files, what is excluded from the copy, and removing an old `.git` directory: no state that the log depends on.
- Floating point: times are integers and prices, cells and bounds are reals, so rounding, infinities and not-a-number are not modelled. A numeral's reading as a number is exact.
- `contains` filters on a shifted column: the code leaves their text alone, and nothing is claimed about what they then select.
- Digits outside ASCII, which `str.isdecimal` accepts, and the length limit on converting integers: not in the model of decimal text.
- A dashboard's selection of runs: content that every operation copies through.
- The rest of what a chart says (its measures, sort, limit, kind and encoding): one text with a verdict given to the model, since translation does not touch it. Content handed to the store is taken as validated, as its type has it.
- Errors of the file system other than a crash: a failed write-back of a translated dashboard, which the listing passes over, and a failed write, which the caller sees, do not occur in the model.
- The store's lock: an operation is one method call, so operations take turns. Groups and dashboard ids are texts; a new id is one no file of the group has.
- Template parsing: a template is the set of names it leaves undeclared and the list of templates it refers to; where a reference leads is a function. Findings carry their names as a set, without the sorted text and the place of the call.
- ResumeRoundFromLog: what `int` makes of a text or a fraction in `round_number` is a function given to the model.
- ClaimRunDir: the attempts there is time for are given as a list of clock readings, so the wait between them is not in the model.
- Reading the messages of a filter error, the listing of operators in it, and `knob_filter_problem`: text only.
- Postgres storage, the command line, the server, the frontend and everything that runs agents: plumbing or services without rules of their own here.

# GEAK trace and workflow engines, modelled in Dafny

GEAK is an agent-driven kernel optimizer. Around the agents sit a number of small deterministic engines
that decide what may be claimed: which recorded relationships are proven, which launch configuration is
in force, which transcripts a run owns, where its money went, which GPU a job may use and when it is cut
off. This project models those engines and proves what each of them promises, for every input, every run
or every reachable state. Where the code does not meet a promise made in its comments, the model keeps the
code, a lemma gives an input on which the promise fails, and another states exactly when it holds.

| module | what it models |
|---|---|
| `Reconcile`, `ReconcileRuns`, `Attempts`, `AttemptLaws`, `AttemptOrder` | the identity-keyed store of captures, and the reconciliation of spawn attempts built on it |
| `Blocks` | the migration of legacy input blocks to recorded positions |
| `Events`, `EventLaws`, `LinkageLaws`, `EventContents`, `EventOrder` | joining recorded linkage events into proven edges |
| `Text`, `Flags`, `FlagSyntax`, `ConfigMerge`, `MergeLaws`, `MergeReport`, `ReplaySkip` | parsing, printing and merging launch flag and environment strings (JavaScript side), and the test that skips a replay |
| `EffectiveConfig`, `LayerConflicts`, `LaunchSyntax` | the layered configuration of the benchmark launcher (Python side) |
| `Strip`, `KernelNames`, `KernelNameLaws`, `KernelIdentity`, `KernelFolding` | canonical kernel names and the comparison of kernel identities |
| `GpuPool`, `Clock` | the GPU lease semaphore; the timer-based clock and the agent cut-off |
| `Scope`, `ScopeLaws`, `Mirror`, `MirrorLaws` | which transcripts a run owns, and copying them under one budget |
| `Ledger`, `LedgerFigures`, `DelegationTree` | call rows into agent nodes and run totals; nodes into a delegation tree |
| `Persist` | the atomic replacement of an export |
| `Outcome`, `OutcomeFigures` | the roll-up of measured speedups |
| `Wrappers`, `Sequences`, `Sorting` | the optional value; sequences and sorting with the facts used about them |

Code that the source writes as loops over mutable state is modelled as methods and classes, each proved
against a specification function; the results below are about those functions. What such a function gives is also
told in terms of the inputs alone, field by field and in order (`EventContents`, `MergeReport`, `LedgerFigures` and
the other modules listed second above). `dafny verify dfyconfig.toml`
checks everything. Every lemma switches automatic induction off, so each induction is spelled out in its proof.

## What turned out not to hold

- `reconcile_attempts`: "never un-conflict" holds inside one call only. A second call on the first one's
  output forgets a contradiction that lay between an earlier and a new capture (`ForgottenConflict`);
  `SecondPass` says exactly when a second call repeats the verdict.
- `migrate_blocks`: a capture may hand one position to two blocks (`TwoKindsOnePlace`); it can for some legacy
  list exactly when it shows one place once under each of two kinds (`CollisionFreeIff`). The collector
  (interface/geak_trace_collector.py:307-337) emits at most one block per source position, so such a capture
  needs two records under one uuid.
- `block_key`: distinct blocks can share a key when a recorded source or tool id is spelled like one of the
  markers keys make up (`MarkerCollides`, `ToolIdCollides`); `SameKeyIff` is exact for any two blocks, and
  `MigratedKeysIff` after a migration.
- `build_edges`: order independence needs replays of a return to agree on its recorded `seq`, which is not
  among the compared fields (`MarkerDependsOnOrder`, `EdgesIgnoreOrderIff`); and because spawn and transfer ids
  share one conflict set, a transfer that was emitted can also be listed as invalidated when a misnamed spawn
  carries its id (`CollisionExample`, `EmittedAndInvalidatedIff`).
- `mergeConfig`: "the output names every key once" holds exactly for baselines that do (`NamedTwice`,
  `NamesEachOnceIff`); a nameless token that lands behind a valueless flag is read back as its value
  (`StraySwallowed`), and `ReparsesIff` says for which two strings nothing is; an empty recovered value does
  not override a missing one, nor a missing one an empty one (`EmptyLosesToAbsentText`), which is the only case
  where the recovered value loses (`RecoveredWinsIff`).
- The test that skips a replay does not always agree with what the merge reports: an override can be put back
  (`OverriddenAndRestored`), also as words only (`PutBackAsWords`), and a nameless token is added without a
  report (`StrayUnreported`). `ReportIsRightIff`, `FlagSkipIff` and `SkipTestIff` say exactly when they agree.
- `_render_flags`: a value given as `--a=-b` is printed so that it reads back as two flags
  (`FlagLikeValueLost`, `ParseRoundTripIff`).
- `kernelIdentitiesMatch` is not transitive, for three reasons: a name without a list matches all instances
  (`NotTransitive`), a list that was cut off matches all that begin like it (`CutOffNotTransitive`), and so does
  a name cut at the display limit (`TruncationNotTransitive`). `TransitiveIff` is exact for any three symbols.
- `makeSem`: a request that still fits overtakes those waiting (`MixedSizesStarve`), and grants are in request
  order exactly when none does (`InOrderIff`); a request larger than the pool blocks every later waiter
  (`OversizedBlocks`), and a standstill can be reached exactly when there is one (`StallsIff`).
- `FINAL_RESERVE_MS`: "no mode starts new work inside" the reserve cannot hold of a clock that advances a step
  at a time (`ReserveKeptIff`), and not even the budget is safe once the reserve is smaller than one step and the
  timers' lateness: by default an agent can overrun a budget of four minutes with perfect timers
  (`DefaultReserveOverruns`, `DefaultReserveIff`). `BudgetHoldsIff` is exact for every reserve, cap and lateness,
  `BudgetRespectedIff` for agents that have room for their floor, and `SpentMeansFloorIff` for agents that start
  when the budget is spent (`LateStartOverruns`). Nothing bounds the reserve from below: a negative one lets an
  agent run on by all of it (`FirstAgentOverruns`, `NegativeReserveOverruns`).
- `_persist`: "at no point is there no valid export" holds of the root and its retired siblings together. The
  root alone is missing after a call whose promotion and rollback both fail (`ExportDir.Persist`), or after a
  kill between two renames (`RootCanVanish`); `RootMissingIff` is exact for every run.
- `resolve_run_scope`: a complete scope can still carry warnings, about journals that were met and not adopted
  (`CompleteNotSilent`), and a call that asks for nothing is silent without being complete (`SilentNotComplete`);
  `SilentIff` is exact.
- `summarize`: a stage that ends at zero or below is never parted from the next one (`ZeroHandoffUnseen`,
  `NegativeHandoffUnseen`), nor is one that starts at zero from the one before (`ZeroStartUnseen`), and a speedup
  that is zero or unknown counts as one, so the figures can disagree by any factor with nothing called an
  estimate; that no seam is listed can be trusted exactly if the earlier stage ended positive and the later one
  did not start at zero (`TrustedHandoffIff`).

## Model

| member | source | states |
|---|---|---|
| `Reconcile.Reconciled.Absorb` | interface/geak_trace_reconcile.py:49-79 | one absorption moves the store as specified: first record kept, clash on identity fields recorded, conflict sticky, otherwise merged |
| `Reconcile.Reconciled.RetainMissing` | interface/geak_trace_reconcile.py:81-92 | exactly the unseen, unconflicted, not yet retained keys change, and their number is returned |
| `Reconcile.Reconciled.Usable` | interface/geak_trace_reconcile.py:95-98 | every key that is not contradicted with its item, in insertion order |
| `Reconcile.Reconciled.ConflictedKeys` | interface/geak_trace_reconcile.py:100-101 | the loop lists the contradicted keys in insertion order, and a key is listed iff it is contradicted |
| `Reconcile.ConflictedAreReported` | interface/geak_trace_reconcile.py:64-101 | in every state a run reaches the contradicted keys are exactly those with a report on file, and every key is listed once, as usable or as contradicted |
| `Reconcile.RunInvariant` | interface/geak_trace_reconcile.py:49-92 | after any run items, states and order share the domain of all keys ever absorbed, and a key is conflicted iff it has a conflict entry |
| `Reconcile.ConflictIsForever` | interface/geak_trace_reconcile.py:63-75 | a conflicted key stays conflicted and its item frozen, whatever follows |
| `Reconcile.ConflictIffDisagreement` | interface/geak_trace_reconcile.py:63-79 | with one set of identity fields and identity-preserving merges, a key is conflicted iff two absorbed values disagree on an identity field |
| `Reconcile.ConflictsIgnoreOrder` | interface/geak_trace_reconcile.py:63-92 | two runs that absorb the same values for a key, in any order and number, agree on whether it is conflicted |
| `Reconcile.LatestWins` | interface/geak_trace_reconcile.py:77 | without a merge function an unconflicted key holds the value absorbed last |
| `Reconcile.RunOrder` | interface/geak_trace_reconcile.py:57-61 | keys stay in the order of their first absorption |
| `ReconcileRuns.LabelIs` | interface/geak_trace_reconcile.py:59-92 | after any run an uncontradicted key is labelled by the last operation that concerns it: retained if that read the whole without it, replayed if it captured just the item kept, observed if it captured another, and a first capture is observed or retained as it says |
| `ReconcileRuns.ContradictedIff` | interface/geak_trace_reconcile.py:63-75 | for any fields and any merges: a key is conflicted after a run iff some capture of it differed, in a field it was to be compared by, from the item kept until then |
| `ReconcileRuns.ReportsGrow` | interface/geak_trace_reconcile.py:64-69 | each such capture files one report behind those on file, with the fields that differ, what the kept item holds there as the previous and what the capture holds as the incoming data; nothing else files any |
| `ReconcileRuns.KeptIs` | interface/geak_trace_reconcile.py:56-78 | the item kept is the first capture, each later one merged into it in order (kept item first), up to the first contradiction |
| `Attempts.ReconcileAttempts` | interface/geak_trace_reconcile.py:290-331 | the two loops, the ordering rule and the conflict override compute exactly the specified verdict |
| `Attempts.ConflictedIffContradicted` | interface/geak_trace_reconcile.py:298-310 | an attempt id is conflicted iff two records that are compared disagree on status, result or error |
| `Attempts.Survivors` | interface/geak_trace_reconcile.py:298-312 | one surviving record for each uncontradicted id: the last of the new records followed by the earlier ones |
| `AttemptLaws.NoAttemptLost` | interface/geak_trace_reconcile.py:290-331 | every attempt id is either merged, once, or conflicted, and never both |
| `AttemptLaws.OutcomeIsEarned` | interface/geak_trace_reconcile.py:312-330 | a concrete status only for a single attempt or the unique last of all-distinct sequence numbers, and only without conflict |
| `AttemptLaws.OrderFreeIff` | interface/geak_trace_reconcile.py:290-331 | the verdict is independent of list order iff the records that compete to speak for an uncontradicted id are identical |
| `AttemptLaws.UniqueIdsAreOrderFree` | interface/geak_trace_reconcile.py:290-331 | ids unique within each list make the verdict independent of order |
| `AttemptLaws.SecondPass` | interface/geak_trace_reconcile.py:290-331 | feeding the merged attempts back gives the same conflicts iff every contradiction is visible in the new records alone, and then the same attempts and outcome too |
| `AttemptLaws.SecondPassWithoutConflict` | interface/geak_trace_reconcile.py:290-331 | without conflict, or without earlier captures, the second pass changes nothing |
| `AttemptLaws.ForgottenConflict` | interface/geak_trace_reconcile.py:304-330 | an input on which the second pass loses the conflict |
| `AttemptOrder.MergedInOrder` | interface/geak_trace_reconcile.py:312-319 | if every surviving attempt has a sequence number of its own they are listed in that sequence, otherwise in the order in which the records first name them, the latest read first |
| `AttemptOrder.OutcomeIs` | interface/geak_trace_reconcile.py:312-330 | the outcome in terms of records and listing: "conflicted" if any two records of an id disagree, else the status of the last listed if it is the only one or all have places, else "unknown" |
| `Blocks.MigrateBlocks` | interface/geak_trace_reconcile.py:212-279 | the grouping, counting and claiming loops compute the specified migration |
| `Blocks.MigrationKeepsContent` | interface/geak_trace_reconcile.py:255-279 | length, order and content are kept; only a legacy block changes, and only its position and its markers |
| `Blocks.MigrationSettles` | interface/geak_trace_reconcile.py:257-277 | migrating the result again, against any later capture, changes nothing |
| `Blocks.PlacedOnEvidence` | interface/geak_trace_reconcile.py:246-274 | a placed block was the only legacy one of its source and kind, and its place was shown once and held by nobody |
| `Blocks.CollisionFreeIff` | interface/geak_trace_reconcile.py:246-274 | a capture never hands out a position twice, for any legacy list, iff it shows no place once under each of two kinds |
| `Blocks.TwoKindsOnePlace` | interface/geak_trace_reconcile.py:246-274 | a capture, and two legacy blocks to which it gives one position |
| `Blocks.MigratedKeysIff` | interface/geak_trace_reconcile.py:115-136 | after such a migration different blocks of one call share a block key iff one carries a name that the key of the other makes up |
| `Blocks.MigratedKeysDistinct` | interface/geak_trace_reconcile.py:115-136 | so recorded names that look like no such marker are enough for distinct keys |
| `Blocks.SameKeyIff` | interface/geak_trace_reconcile.py:115-136 | two blocks at different indices share a key iff they are of one call and were recorded under one place, or one is an unresolved legacy block and the other has its marker as tool id, or one has no source and the other has the marker for that as source and its index as position |
| `Blocks.MarkerCollides` | interface/geak_trace_reconcile.py:130-134 | a source named `#nosource` and a block without a source can share a key |
| `Blocks.ToolIdCollides` | interface/geak_trace_reconcile.py:125-136 | a tool id spelled like the marker of an unresolved legacy block shares its key |
| `Blocks.PositionsRecovered` | interface/geak_trace_reconcile.py:212-279 | a capture whose blocks differ in source or kind, stripped of its positions, is restored by migrating against itself |
| `Events.BuildEdges` | interface/geak_trace_events.py:157-345 | the imperative fold over the events, with its dictionaries and its growing conflict set, equals the declarative edges, gaps and statistics; the invalidated relationships are those declared, listed in the order of their ids |
| `Events.Collect` | interface/geak_trace_events.py:186-235 | each collecting loop keeps the first record of every identity and flags every disagreement |
| `Events.SpawnLoop` | interface/geak_trace_events.py:259-317 | the spawn loop joins as specified although it adds to the conflict set it reads |
| `EventLaws.ClashingIff` | interface/geak_trace_events.py:192-235 | an id is flagged iff two of its records disagree on a compared field |
| `EventLaws.EdgesExact` | interface/geak_trace_events.py:237-317 | an edge is emitted iff its records justify it: all records of the id agree, both ends known, the tool captured, every return names the child |
| `EventLaws.AttemptsRecorded` | interface/geak_trace_events.py:277-301 | the attempts on a spawn edge are exactly the recorded ones, one per attempt id |
| `EventLaws.EdgeStatus` | interface/geak_trace_events.py:298-314 | the return status is "unmatched", that of a decisive attempt, or "unknown" |
| `EventLaws.MisnamedExact` | interface/geak_trace_events.py:281-297 | a spawn is invalidated while joining iff it could be joined and some return names another child |
| `LinkageLaws.InvalidatedExact` | interface/geak_trace_events.py:323-333 | a relationship is listed as invalidated iff its id was contradicted and such a record exists |
| `LinkageLaws.InvalidationIgnoresOrder` | interface/geak_trace_events.py:157-345 | permuting or duplicating the events never changes what is invalidated |
| `LinkageLaws.EdgesIgnoreOrderIff` | interface/geak_trace_events.py:205-217 | the edges depend only on the set of events iff replayed returns of a joined spawn agree in full |
| `LinkageLaws.MarkerDependsOnOrder` | interface/geak_trace_events.py:205-217 | a stream on which order changes an edge: one return replayed with another `seq` |
| `LinkageLaws.InvalidationPersists` | interface/geak_trace_events.py:323-333 | appending events never makes an invalidated relationship valid again |
| `LinkageLaws.EdgeSurvivesOrFalls` | interface/geak_trace_events.py:157-345 | after any further events an emitted edge is still there with at least its attempts, or is listed as invalidated |
| `LinkageLaws.EmittedAndInvalidatedIff` | interface/geak_trace_events.py:177-177 | an edge is both emitted and invalidated iff it is a transfer whose id a misnamed spawn shares |
| `LinkageLaws.CollisionExample` | interface/geak_trace_events.py:177-177 | three events by which a transfer is emitted and listed as invalidated |
| `LinkageLaws.GapMeansUnrepresented` | interface/geak_trace_events.py:179-180 | every reported gap is about an event that no edge represents; a spawn counts as represented only once a return is attached to its edge, so one emitted as "unmatched" is still a gap |
| `LinkageLaws.CompleteIffRepresented` | interface/geak_trace_events.py:157-345 | nothing is unresolved iff every event is represented by an edge, a spawn by an edge with a return attached |
| `EventContents.TransferContents` | interface/geak_trace_events.py:237-257 | field by field: a transfer edge leads from the producer to the consumer of a recorded transfer, with its id, both references, forwarding and transformation, iff no record of the id contradicts another and both ends are known |
| `EventContents.SpawnContents` | interface/geak_trace_events.py:259-314 | field by field: there is a spawn edge from parent to child with this id and tool iff a record says so, nothing contradicts it, both ends are known, the tool was captured and no return names another child |
| `EventContents.AttemptContents` | interface/geak_trace_events.py:277-301 | the attempts of a spawn edge are those of its recorded returns: attempt id, status, result, error and order marker |
| `EventContents.GapsJustified` | interface/geak_trace_events.py:179-321 | every gap is about a recorded event and gives a reason that is the case: a contradicting record, the ends that are not known, a tool that was not captured, a return for another child, no return, no spawn |
| `EventContents.StatsCount` | interface/geak_trace_events.py:335-345 | the statistics count what the lists hold, the invalidated ids apart |
| `EventOrder.EdgesInOrder` | interface/geak_trace_events.py:237-317 | transfers come before spawns, both in the order in which the events first name them |
| `EventOrder.AttemptsInOrder` | interface/geak_trace_events.py:280-301 | the attempts of a spawn are in the sequence they record, else in the order of their ids |
| `EventOrder.GapsByRound` | interface/geak_trace_events.py:179-321 | the gaps are in the order of the rounds that find them: contradictions by kind of record, then transfers, spawns, and returns without a spawn |
| `EventOrder.InvalidatedInOrder` | interface/geak_trace_events.py:328-333 | the invalidated relationships are in the order of their ids, for one id the transfer before the spawn |
| `Flags.ParseFlagString` | e2e_workflow/e2e_workflow.js:2392-2407 | the two nested loops compute the specified items |
| `Flags.RoundTripIff` | e2e_workflow/e2e_workflow.js:2392-2412 | printing well-formed items and parsing again gives them back iff no nameless token follows a flag that would take it as a value |
| `Flags.ParseRoundTrip` | e2e_workflow/e2e_workflow.js:2392-2412 | whatever was parsed from a string survives printing and parsing |
| `Flags.EnvRoundTrip` | e2e_workflow/e2e_workflow.js:2415-2423 | environment items survive printing and parsing |
| `FlagSyntax.FlagIff` | e2e_workflow/e2e_workflow.js:2389-2389 | a token is a flag iff it is one or two dashes, a letter and anything |
| `FlagSyntax.WordIs` | e2e_workflow/e2e_workflow.js:2392-2407 | a word by itself is a flag without value or a nameless token |
| `FlagSyntax.FlagTakes` | e2e_workflow/e2e_workflow.js:2401-2404 | a flag takes all the words behind it up to the next flag as its one value |
| `FlagSyntax.EnvWordIs` | e2e_workflow/e2e_workflow.js:2415-2420 | an assignment is split at its first `=` iff what stands before it is a name |
| `ConfigMerge.MergeConfig` | e2e_workflow/e2e_workflow.js:2436-2459 | the in-place merge over the array and its index map computes the specified merge |
| `ConfigMerge.MergedValue` | e2e_workflow/e2e_workflow.js:2436-2459 | each single-valued name reads as the recovered list's last value if that names it (empty and missing alike), else as the baseline's |
| `ConfigMerge.MergedPlaces` | e2e_workflow/e2e_workflow.js:2428-2457 | the baseline's names keep their places as a prefix, and items not overridden are untouched |
| `ConfigMerge.MergedConcatenates` | e2e_workflow/e2e_workflow.js:2442-2448 | repeatable and nameless items of both lists are concatenated in order |
| `ConfigMerge.MergedCount` | e2e_workflow/e2e_workflow.js:2380-2382 | how often the result holds a name: as often as the baseline, or once if only the recovered list names it |
| `MergeLaws.NamesEachOnceIff` | e2e_workflow/e2e_workflow.js:2380-2382 | the result names every single-valued key at most once iff the baseline does |
| `MergeLaws.NamedTwice` | e2e_workflow/e2e_workflow.js:2380-2382 | "-a -a": a key the result names twice |
| `ConfigMerge.UnchangedIffNothingReported` | e2e_workflow/e2e_workflow.js:2440-2458 | when the recovered list names nothing twice, the merge is the baseline iff nothing is reported overridden or added |
| `ReplaySkip.SilentIff` | e2e_workflow/e2e_workflow.js:2441-2457 | nothing is overridden or added iff every named recovered item shows what the baseline has in force |
| `ReplaySkip.UnchangedIff` | e2e_workflow/e2e_workflow.js:2436-2459 | the merge is the baseline iff no recovered item opens a place and every place settles back to what it held |
| `ReplaySkip.ReportIsRightIff` | e2e_workflow/e2e_workflow.js:2436-2459 | for any two lists: "unchanged iff nothing is reported" holds iff nothing overridden was put back and no nameless token was added in silence |
| `ReplaySkip.FlagTextIff` | e2e_workflow/e2e_workflow.js:2797-2797 | for any two strings: the merged flags print as the baseline does iff the items are unchanged, or the last flag lost words that the nameless recovered tokens are |
| `ReplaySkip.FlagSkipIff` | e2e_workflow/e2e_workflow.js:2797-2797 | so on flags the test agrees with the report iff nothing was put back, as an item or as words, and no nameless token was added in silence |
| `ReplaySkip.EnvSkipIff` | e2e_workflow/e2e_workflow.js:2798-2798 | on environments it does iff nothing was put back as an item and no nameless token was added in silence |
| `ReplaySkip.SkipTestIff` | e2e_workflow/e2e_workflow.js:2797-2798 | for any four strings: when the test skips the replay, when nothing is reported, and when the two agree |
| `ReplaySkip.StrayUnreported` | e2e_workflow/e2e_workflow.js:2441-2447 | "-a" and "x": the text changes and nothing is reported |
| `ReplaySkip.PutBackAsWords` | e2e_workflow/e2e_workflow.js:2797-2797 | "-a x" and "x -a": an override is reported and the text is the same |
| `ConfigMerge.MergedReparsesIff` | e2e_workflow/e2e_workflow.js:2461-2462 | the merged string parses to the merged items iff no nameless token follows an open flag |
| `MergeLaws.ReparsesIff` | e2e_workflow/e2e_workflow.js:2461-2462 | on the two strings as given: it parses to the merged items iff no single-valued baseline flag directly before a nameless token ends up valueless or open, and no nameless recovered token is put behind an item that does, namely the nearest earlier recovered item that opens a place or else the last of the baseline |
| `ConfigMerge.StrayFreeReparses` | e2e_workflow/e2e_workflow.js:2461-2462 | strings without nameless tokens always satisfy that |
| `ConfigMerge.MergedMeaning` | e2e_workflow/e2e_workflow.js:2436-2462 | read back under last-wins, the merged string gives the recovered value where there is one, the baseline's elsewhere, and all repeatables |
| `ConfigMerge.MergedEnvMeaning` | e2e_workflow/e2e_workflow.js:2463-2464 | the same for environment strings, with no side condition |
| `MergeLaws.StraySwallowed` | e2e_workflow/e2e_workflow.js:2400-2404 | "-a" and "x" merge to a flag and a nameless token, and are read back as the flag with that value |
| `MergeLaws.MergedIs` | e2e_workflow/e2e_workflow.js:2436-2459 | the merge in closed form, place by place: the baseline with the places the recovered list opens, each single-valued name settled at its last place |
| `MergeLaws.ValueInForce` | e2e_workflow/e2e_workflow.js:2436-2459 | for any two lists, the value in force of a single-valued name: the first of the last run of given values that print alike |
| `MergeLaws.RecoveredWinsIff` | e2e_workflow/e2e_workflow.js:2449-2457 | the recovered value is in force iff that one equals it, so always unless it prints as the empty string |
| `MergeLaws.RecoveredWinsOnceIff` | e2e_workflow/e2e_workflow.js:2449-2457 | for a recovered list naming nothing twice: it wins iff the baseline does not name it, has the same value, or has one that prints differently |
| `ConfigMerge.EmptyLosesToAbsent` | e2e_workflow/e2e_workflow.js:2451-2454 | an empty recovered value leaves a valueless baseline flag as it was |
| `MergeLaws.EmptyLosesToAbsentText` | e2e_workflow/e2e_workflow.js:2451-2454 | the same in the strings the launcher reads: "-a" and "-a=" |
| `MergeReport.ReportExact` | e2e_workflow/e2e_workflow.js:2440-2458 | the three lists of the report, exactly and in order: added names the items that are repeatable or find no place, unchanged those whose value in force is alike, and each override gives the value in force before the item as the baseline and the value of the item as the recalled one |
| `MergeReport.OverridesOnce` | e2e_workflow/e2e_workflow.js:2449-2456 | for a recovered list naming nothing twice: the entry about a name gives the last value of the baseline and the recovered one, and there is one iff both have the name and print differently |
| `ConfigMerge.OverriddenAndRestored` | e2e_workflow/e2e_workflow.js:2441-2457 | a list that names a flag twice can report overrides and yet restore the baseline |
| `Strip.StripBalanced` | e2e_workflow/e2e_workflow.js:1599-1608 | repeated innermost replacement terminates in what one pass with a stack computes |
| `Strip.ReplacingShortens` | e2e_workflow/e2e_workflow.js:1603-1606 | every pass that changes the text shortens it |
| `Strip.ScanReplaced` | e2e_workflow/e2e_workflow.js:1601-1606 | replacing the innermost groups does not change what the one-pass scan computes |
| `Strip.StrippedIsOrdered` | e2e_workflow/e2e_workflow.js:1596-1608 | the result has no opener before a later closer, and text that has none is left alone |
| `KernelNames.CanonicalDeviceKernel` | e2e_workflow/e2e_workflow.js:1620-1633 | the three strips, the cut, the joining of qualifiers and the last segment, as specified |
| `KernelNames.StripAllDeco` | e2e_workflow/e2e_workflow.js:1621-1622 | on a properly nested symbol the three strips remove every group of each kind |
| `KernelNameLaws.DecorationIrrelevant` | e2e_workflow/e2e_workflow.js:1609-1633 | template, parameter and bracket decoration after a name, properly nested and possibly cut off, leaves the canonical name unchanged |
| `KernelNameLaws.CanonicalName` | e2e_workflow/e2e_workflow.js:1609-1633 | the canonical name is the lower-cased last identifier, whatever namespaces (templated and unnamed ones too), return type `void` and decoration surround it |
| `KernelNameLaws.FirstOfTwo` | e2e_workflow/e2e_workflow.js:1629-1632 | of two words before the decoration the first is the name, unless it is `void` |
| `KernelNameLaws.SingleColon` | e2e_workflow/e2e_workflow.js:1630-1632 | a single colon does not divide a name, it is only left out |
| `KernelIdentity.TemplateArguments` | e2e_workflow/e2e_workflow.js:1645-1655 | the depth-counting loop computes the specified arguments |
| `KernelIdentity.ArgumentsOfTemplate` | e2e_workflow/e2e_workflow.js:1639-1655 | for a properly nested symbol the arguments are those of its first template group, and closed |
| `KernelIdentity.KernelIdentitiesMatch` | e2e_workflow/e2e_workflow.js:1656-1669 | the cascade of tests computes the specified comparison |
| `KernelIdentity.MatchLaws` | e2e_workflow/e2e_workflow.js:1656-1669 | the comparison is symmetric, and a symbol matches itself iff it has a canonical name |
| `KernelIdentity.BareNameMatches` | e2e_workflow/e2e_workflow.js:1660-1665 | a bare name matches its decorated spelling |
| `KernelIdentity.InstancesMatchIff` | e2e_workflow/e2e_workflow.js:1660-1666 | two instances of one template match iff their folded arguments are equal or one is empty |
| `KernelIdentity.TransitiveIff` | e2e_workflow/e2e_workflow.js:1656-1669 | for any three symbols, two of which match the third: they match each other iff their names do not fork behind the third's, and one shows no list, or both lists are complete and equal or the third's list is complete too, or one is cut off and they do not fork behind the third's |
| `KernelIdentity.NotTransitive` | e2e_workflow/e2e_workflow.js:1656-1669 | two different instances both match the bare name and not each other |
| `KernelIdentity.TruncationNotTransitive` | e2e_workflow/e2e_workflow.js:1659-1659 | two longer names both match a name cut at the display limit and not each other |
| `KernelIdentity.CutOffNotTransitive` | e2e_workflow/e2e_workflow.js:1664-1668 | two complete lists both match a cut-off one that they begin with and not each other |
| `KernelFolding.FoldAlikeIff` | e2e_workflow/e2e_workflow.js:1647-1647 | two argument texts fold alike iff they hold the same runs of letters and digits up to case, and separators at the same ends |
| `KernelFolding.PlainInstancesMatchIff` | e2e_workflow/e2e_workflow.js:1656-1669 | two instances of one name with plain arguments match iff the arguments are equal up to case, so `k<1>` and `k<2>` do not |
| `KernelFolding.CanonicalSmall` | e2e_workflow/e2e_workflow.js:1620-1633 | the canonical name of a qualified, decorated symbol, character by character: its last identifier, capitals in lower case |
| `KernelFolding.DisplayLimitIff` | e2e_workflow/e2e_workflow.js:1637-1659 | a plain name matches a longer one that begins with it iff it has sixty characters or more |
| `GpuPool.Semaphore.Take` | e2e_workflow/e2e_workflow.js:2300-2301 | grants at once what fits in the free cards, else queues; the whole new state |
| `GpuPool.Semaphore.GiveBack` | e2e_workflow/e2e_workflow.js:2296-2302 | returns the cards and serves waiters from the head while they fit; the whole new state |
| `GpuPool.RunSound` | e2e_workflow/e2e_workflow.js:2294-2305 | in every reachable state the free cards and the outstanding leases are the pool, and the head waiter needs more than is free |
| `GpuPool.IdleQueueIsOversized` | e2e_workflow/e2e_workflow.js:2294-2305 | if anyone waits while nothing is leased, the head asked for more than the pool has |
| `GpuPool.NoDeadlock` | e2e_workflow/e2e_workflow.js:2294-2305 | when no request exceeds the pool, nobody waits while nothing is leased |
| `GpuPool.OversizedBlocks` | e2e_workflow/e2e_workflow.js:2296-2301 | an oversized head is never served, nor is anyone behind it |
| `GpuPool.StallsIff` | e2e_workflow/e2e_workflow.js:2294-2305 | a run can be brought by returns alone to an idle pool with waiters iff some request in it exceeds the pool |
| `GpuPool.UniformIsFair` | e2e_workflow/e2e_workflow.js:2294-2305 | when all requests ask for the same number of cards, grants are in request order in every reachable state |
| `GpuPool.InOrderIff` | e2e_workflow/e2e_workflow.js:2296-2302 | over any run, grants are in request order iff no request finds others waiting and still few enough cards asked for to be served at once |
| `GpuPool.StartIsFair` | e2e_workflow/e2e_workflow.js:2294-2295 | the initial state satisfies both invariants, so they hold in every reachable one |
| `GpuPool.ServedWithin` | e2e_workflow/e2e_workflow.js:2296-2302 | then the waiter with p others before it is served within p + 1 returns |
| `GpuPool.MixedSizesStarve` | e2e_workflow/e2e_workflow.js:2300-2300 | with mixed sizes a waiter can be overtaken any number of times |
| `Clock.ArmRungs` | e2e_workflow/e2e_workflow.js:283-296 | the loop arms one rung per step up to one past the budget |
| `Clock.RungsBounded` | e2e_workflow/e2e_workflow.js:285-291 | at most 2049 rungs, for every budget |
| `Clock.Elapsed.Rung` | e2e_workflow/e2e_workflow.js:293-293 | a firing rung raises elapsed time to its mark or leaves it |
| `Clock.ElapsedMonotone` | e2e_workflow/e2e_workflow.js:293-293 | whatever rungs fire next, elapsed time does not go back |
| `Clock.ElapsedTracksTime` | e2e_workflow/e2e_workflow.js:283-297 | for any firing order without early timers and with lateness at most L, elapsed time never exceeds real time and lags by less than step + L until nothing remains |
| `Clock.ShownIsSteps` | e2e_workflow/e2e_workflow.js:283-297 | whatever fired, the record is some number of steps, and real time is then not past the next rung and its lateness |
| `Clock.AgentCutInTime` | e2e_workflow/e2e_workflow.js:1388-1391 | for any reserve, an agent started before the final phase is cut by the later of its floor (or the reserve's negative) and budget - reserve + step + L, plus its own timer's lateness |
| `Clock.BudgetHoldsIff` | e2e_workflow/e2e_workflow.js:283-311 | over all plausible firings and starting times, for a given cap and given latenesses: every agent is cut by the end of its floor or `keep` before the end of the budget, iff the reserve covers `keep`, one step and both latenesses, or no agent is given more than its floor, or the last one that is given more is cut by its cap in time |
| `Clock.EveryCapIff` | e2e_workflow/e2e_workflow.js:283-311 | for all caps: iff one of the first two holds |
| `Clock.ReserveKeptIff` | e2e_workflow/e2e_workflow.js:299-303 | the whole reserve is held back only where no agent is given more than its floor or caps cut every agent in time, never by the reserve itself |
| `Clock.BudgetRespectedIff` | e2e_workflow/e2e_workflow.js:299-311 | every agent with room for its floor is cut within the budget iff there can be no such agent or the budget holds for all caps |
| `Clock.DefaultReserveIff` | e2e_workflow/e2e_workflow.js:304-311 | the default reserve with perfect timers holds every budget of at most 150 s or from 299.995 s to 7372802.048 s, and no other |
| `Clock.DefaultReserveOverruns` | e2e_workflow/e2e_workflow.js:304-311 | a budget of 240 s, the default reserve and cap, perfect timers: an agent that starts at 59.999 s is cut at 251.999 s |
| `Clock.FirstAgentOverruns` | e2e_workflow/e2e_workflow.js:308-311 | with a negative reserve, an agent that starts with the clock may run past the budget by the whole of it |
| `Clock.SpentMeansFloorIff` | e2e_workflow/e2e_workflow.js:283-311 | over all plausible firings: agents that start at the end of the budget or later get at most their floor iff the cap does, or reserve and floor cover what may not be on record by then |
| `Clock.LateStartOverruns` | e2e_workflow/e2e_workflow.js:283-311 | a budget of 409599 s and no reserve: an agent that starts after the budget can get more than its floor |
| `Clock.NegativeReserveOverruns` | e2e_workflow/e2e_workflow.js:308-311 | with a reserve more negative than the floor, even when every rung fired on time and nothing remains, an agent runs on by the negative reserve |
| `Clock.AgentTimeIs` | e2e_workflow/e2e_workflow.js:1388-1391 | before the final phase an agent is given two minutes or more; more only within its cap and what remains above the reserve; less than its cap only if no more remains |
| `Clock.FinalPhaseIff` | e2e_workflow/e2e_workflow.js:1388-1391 | over all plausible firings an agent armed in the final phase is given its whole cap, and entering that phase shortens no agent's time iff the cap is no less than two minutes |
| `Clock.FinalPhaseGivesMoreIff` | e2e_workflow/e2e_workflow.js:1388-1391 | it lengthens an agent's time iff its cap is above two minutes and reaches into the reserve or past the budget |
| `DelegationTree.BuildTree` | interface/geak_call_tree_html.py:269-288 | the stack loop fills the children lists so that each node hangs under its nearest earlier node of smaller rank, or the root; read off those lists in preorder, the tree is the root and then all nodes in time order |
| `DelegationTree.TimeOrderIsSorted` | interface/geak_call_tree_html.py:277-278 | nodes are taken in order of time, the undated last, ties by index, each once |
| `DelegationTree.OrderedDistinct` | interface/geak_call_tree_html.py:277-278 | the order holds every node once and nothing else |
| `DelegationTree.PopIsSafe` | interface/geak_call_tree_html.py:284-285 | what is popped is never the parent of a later node |
| `DelegationTree.SubtreeReadBack` | interface/geak_call_tree_html.py:269-288 | the subtree of a node, read off the children lists, is a contiguous run of the time order |
| `DelegationTree.TreeReadsBack` | interface/geak_call_tree_html.py:269-288 | any children lists built that way read back as the root and then every node once, in time order |
| `DelegationTree.EarlierFirst` | interface/geak_call_tree_html.py:277-278 | of two nodes in the order: dated before undated, the earlier time first, and at one time the one listed first |
| `DelegationTree.ChildIff` | interface/geak_call_tree_html.py:269-288 | a node is another's child iff it comes later, its role ranks below, and nothing between ranks above its own role |
| `DelegationTree.RankOfRole` | interface/geak_call_tree_html.py:44-52 | which roles have which rank |
| `Persist.ExportDir.Persist` | interface/geak_report.py:248-307 | one call: normal return iff the new export is at the root; a staging failure changes neither root nor retired copy; after any failure the old export is at the root or retired whole; a root that was there is missing iff promoting and rolling back both failed; and the call is a run of the step protocol |
| `Persist.RunInvariant` | interface/geak_report.py:255-260 | any number of processes, interleaved, failing or killed anywhere: what a process promotes is complete, what it rolls back to is complete |
| `Persist.ExportNeverLost` | interface/geak_report.py:255-307 | the root is never incomplete, and once a complete export exists at the root or retired, one exists for ever |
| `Persist.PromotedIsOwn` | interface/geak_report.py:298-299 | a promotion puts the promoting process's own export at the root |
| `Persist.Deleted` | interface/geak_report.py:248-307 | a deletion that is not finished never leaves a complete export behind, and leaves nothing only where there was nothing |
| `Persist.RootMissingIff` | interface/geak_report.py:293-306 | over any run, kills included, the root is missing iff its last successful retirement was followed by no successful promotion or rollback |
| `Persist.RootCanVanish` | interface/geak_report.py:293-299 | a kill between retiring and promoting leaves the root missing |
| `Scope.ResolveRunScope` | interface/claude_trace_mirror.py:791-1081 | the loop over the requested instances yields the specified globs, labels, kind, invocations and anchor (which of the four), and the warnings in order: for each instance its reasons, then each conflicting and each merely mentioned journal once, then an unresolved top-level run |
| `Scope.WarnedOfIff` | interface/claude_trace_mirror.py:887-1018 | an instance is warned of, for some reason and under its own name, iff it is short of proof |
| `Scope.CompleteIff` | interface/claude_trace_mirror.py:1058-1063 | complete iff a top-level run was asked for and every requested instance is owned on record with every transcript of every owning invocation readable |
| `Scope.SilentIff` | interface/claude_trace_mirror.py:1022-1063 | nothing is warned of iff every requested instance is proven and no journal conflicts or merely mentions a requested directory; asked for by name, iff the scope is then complete |
| `Scope.SilentNotComplete` | interface/claude_trace_mirror.py:1043-1058 | a call that asks for nothing: silent, and not complete |
| `Scope.CompleteNotSilent` | interface/claude_trace_mirror.py:1022-1035 | one invocation on record and one journal that mentions the run: complete, with a warning |
| `Scope.ResolvedOrMissing` | interface/claude_trace_mirror.py:887-1020 | every requested label is resolved or missing, and no other label is |
| `Scope.Partition` | interface/claude_trace_mirror.py:887-1020 | with distinct labels, resolved and missing split the requested ones |
| `Scope.GlobsBacked` | interface/claude_trace_mirror.py:833-838 | any scope but unresolved has non-empty, duplicate-free globs, one of them leading to readable top-level transcripts, and exactly those that usable evidence offers |
| `Scope.OfferedIff` | interface/claude_trace_mirror.py:887-1018 | what an instance offers: the glob of each usable owning invocation, else its usable fallback |
| `ScopeLaws.WarnedForIff` | interface/claude_trace_mirror.py:894-1018 | for each reason, an instance is warned of for it iff its evidence calls for it |
| `ScopeLaws.AnchorIs` | interface/claude_trace_mirror.py:943-1000 | by journals alone, by journals and records, by containment in an enclosing run, or by the directory: which evidence makes which anchor |
| `ScopeLaws.KindIff` | interface/claude_trace_mirror.py:1037-1070 | unresolved, with no globs, iff the top-level run has no readable transcripts; run-scoped iff everything asked for is proven; partial iff some transcript of something asked for is missing or unreadable |
| `ScopeLaws.MissingOneByOne` | interface/claude_trace_mirror.py:908-1010 | which instances are listed as missing, and in which order |
| `ScopeLaws.JournalsWarnedIff` | interface/claude_trace_mirror.py:1020-1035 | there is one warning for each distinct journal that some instance came across without adopting it |
| `ScopeLaws.JournalsInOrder` | interface/claude_trace_mirror.py:1020-1035 | conflicts before mentions, both in the order of characters by run, then by directory |
| `Mirror.Manifest.MirrorInvocations` | interface/claude_trace_mirror.py:1254-1435 | the nested loops over shared budget and seen paths fill manifest and entries as specified, with each invocation's own files and transcripts; the deadline flag says whether a file was left out for it; the coverage says complete or not, the runs that are not in order, and how many are |
| `Mirror.SeenExact` | interface/claude_trace_mirror.py:1339-1361 | the counts of an invocation's transcripts say of each kind whether there is one |
| `Mirror.NotOkExact` | interface/claude_trace_mirror.py:1427-1433 | a run is listed as incomplete iff an entry of it is not in order, and every entry is either listed or counted as captured |
| `Mirror.Conservation` | interface/claude_trace_mirror.py:1314-1404 | remaining budget + bytes copied = the maximum; the manifest's lists and bytes are the entries' joined; bytes are the sizes of the files copied |
| `Mirror.FiledOnce` | interface/claude_trace_mirror.py:1362-1404 | every listed path is filed exactly once among files, skipped and errors, over all invocations |
| `Mirror.CompleteIff` | interface/claude_trace_mirror.py:1405-1432 | coverage is complete iff every listing was read, every invocation has transcripts of its own, all readable, and every listed file is in the mirror |
| `Mirror.SecondPassCopiesNothing` | interface/claude_trace_mirror.py:1216-1219 | after a complete pass, a second one over the same unchanged files copies, skips and fails nothing, whatever its budget |
| `Mirror.SecondPassOnlyMissing` | interface/claude_trace_mirror.py:1216-1219 | after any first pass, a second one copies, skips or fails only files the first did not get into the mirror |
| `Mirror.CapturedEntry` | interface/claude_trace_mirror.py:1339-1424 | with distinct run ids an invocation reported as captured has all its own transcripts among its own files |
| `MirrorLaws.HeldIff` | interface/claude_trace_mirror.py:1362-1404 | a listed file ends up in the mirror iff its first listing is on time, its size can be read, and it is current or fits what the copies before it left of the maximum and copies |
| `MirrorLaws.SkippedIff` | interface/claude_trace_mirror.py:1362-1392 | a file is left out for its size iff its first listing is stale and larger than the maximum less the bytes copied before it, and for the deadline iff that listing is late |
| `MirrorLaws.StatusIs` | interface/claude_trace_mirror.py:1339-1424 | which status an invocation is given, by its listing, its own transcripts and what was skipped or failed |
| `MirrorLaws.FitsMeansComplete` | interface/claude_trace_mirror.py:1362-1432 | if every file is on time, can be read and copies, and the stale ones together fit the maximum, coverage is complete iff there is an invocation and every one has transcripts of its own, all readable |
| `EffectiveConfig.ParseFlags` | interface/effective_config.py:139-160 | the index loop computes the specified flags, or stops at the first token that is no flag |
| `EffectiveConfig.RoundTripIff` | interface/effective_config.py:139-191 | parsing printed flags gives them back iff every name reads as a flag without '=' and every value is canonical and does not read as a flag |
| `EffectiveConfig.ParseRoundTripIff` | interface/effective_config.py:139-191 | for flags that were parsed, the round trip holds iff each name reads as a flag and no value does |
| `EffectiveConfig.FlagLikeValueLost` | interface/effective_config.py:149-151 | `--a=-b` is printed so that it reads back as two flags |
| `EffectiveConfig.LastFlagWins` | interface/effective_config.py:178-182 | a name means its last flag |
| `EffectiveConfig.Reconcile` | interface/effective_config.py:208-223 | succeeds iff both agree on every shared key, then is their union in order; an error names a key they disagree on |
| `EffectiveConfig.ReconcileSymmetric` | interface/effective_config.py:208-223 | which of the two comes first changes neither the outcome nor a value |
| `EffectiveConfig.Resolution.MergeLayer` | interface/effective_config.py:226-250 | one layer merged in place: values, sources and the overrides recorded, in order |
| `EffectiveConfig.HighestWins` | interface/effective_config.py:343-366 | every key has the value and the source of the highest layer that defines it |
| `EffectiveConfig.ConflictsChain` | interface/effective_config.py:236-250 | the conflicts about a key lead step by step from the lowest layer's value to the final one |
| `EffectiveConfig.NoConflictIff` | interface/effective_config.py:236-250 | a key has no conflict iff all layers that define it give one value |
| `EffectiveConfig.ResolveFlags` | interface/effective_config.py:332-366 | parsing, reconciling, three layers, printing: succeeds iff all parse and the two statements of the best agree |
| `EffectiveConfig.ParseEnv` | interface/effective_config.py:194-205 | succeeds iff every token is `KEY=VALUE` with a key; an error names a token that is not |
| `EffectiveConfig.EnvRoundTrip` | interface/effective_config.py:194-205 | an environment written as assignments is read back as it was, order and values with '=' included |
| `EffectiveConfig.ResolveEnv` | interface/effective_config.py:368-393 | succeeds iff both statements of the best can be read and agree, and then is the recipe's environment under theirs, with its conflicts |
| `EffectiveConfig.ResolvedMeaning` | interface/effective_config.py:343-401 | the printed arguments of the resolved layers read back as the resolved flags, in order, iff each of them is readable; and the last flag of each name is the resolved one |
| `LaunchSyntax.TokenIsFlagIff` | interface/effective_config.py:129-136 | a token is a flag iff it is a dash and more, and not a number |
| `LaunchSyntax.FlagWithValueIs` | interface/effective_config.py:139-160 | a flag takes the one token behind it as its value, unless that is a flag; a negative number is a value |
| `LaunchSyntax.AssignmentIff` | interface/effective_config.py:194-205 | an environment token is an assignment iff it is a key, `=` and anything |
| `LayerConflicts.ResolvedFlagIs` | interface/effective_config.py:343-366 | each flag resolves to the last one of its name in the highest statement that names it (accepted part of the current best, its extra part, launch flags, recipe), and is recorded as from there |
| `LayerConflicts.ConflictsExact` | interface/effective_config.py:236-250 | a conflict is on record iff it names a layer that defines the key, the highest layer below it that does, and their two different values |
| `LayerConflicts.ClashAdds` | interface/effective_config.py:236-250 | a layer that clashes with one below it adds the one entry about the key that says so |
| `LayerConflicts.ConflictsFollowKeys` | interface/effective_config.py:235-250 | the entries of a layer follow those of the layers below it, in the order of its own keys |
| `Ledger.Agentize` | interface/geak_call_tree_html.py:184-266 | the nodes, in order of first appearance, each determined by exactly the rows of its conversation: figures, models, span, responses and texts in order, the names and prompt of its first row, the time of its earliest |
| `Ledger.KeysPrefix` | interface/geak_call_tree_html.py:191-221 | nodes stay in first-seen order, whatever rows follow |
| `Ledger.FirstTsIsEarliest` | interface/geak_call_tree_html.py:239-241 | a node's time is the earliest of its rows, unknown only if none has one |
| `Ledger.NodesConserve` | interface/geak_call_tree_html.py:184-266 | calls, tokens, cost buckets, dollars and time of the rows and of the nodes are equal |
| `Ledger.RunTotals` | interface/geak_call_tree_html.py:413-444 | the totals are the nodes' figures added up, the span the hull of their spans, and each model has its share of all responses |
| `Ledger.RunSpanIsRows` | interface/geak_call_tree_html.py:413-425 | the run's span contains every call's window and both of its ends are some call's, however the rows were grouped; it is unknown iff no row carries a time |
| `Ledger.SplitConserves` | interface/geak_call_tree_html.py:435-443 | the shares by model add up to all calls and dollars of the rows |
| `Ledger.ModelPaysForItsRows` | interface/geak_call_tree_html.py:435-443 | each model is charged for exactly the rows that name it, however they were grouped |
| `LedgerFigures.RunShowsRows` | interface/geak_call_tree_html.py:413-444 | each figure shown for the run is that field of all rows added up, and each figure of a node that of its own rows |
| `LedgerFigures.WindowIs` | interface/geak_call_tree_html.py:106-111 | a call ends when it was last seen, or else at its row's time, and starts its duration before that time; it never ends before it starts |
| `LedgerFigures.NodeHolds` | interface/geak_call_tree_html.py:191-263 | a node keeps one response for each of its rows with all its fields, the names of its first row, and the models its rows name |
| `LedgerFigures.StampIs` | interface/geak_call_tree_html.py:239-241 | a node shows the time of the first of its rows with the earliest time |
| `LedgerFigures.SameConversationIff` | interface/geak_call_tree_html.py:176-181 | two rows are of one conversation iff the ledger groups them, or, grouped neither, they agree in transcript, label, role and sub-phase |
| `LedgerFigures.SplitIs` | interface/geak_call_tree_html.py:435-443 | the split by model has an entry for each model that a row names: the number of those rows and the sum of their prices; rows that name none are the unknown model's |
| `Outcome.Summarize` | interface/geak_outcome_report.py:238-275 | the roll-up, for any way of rounding: product of the speedups, the seams and their gaps in per cent, observed speedup and change first to last, reference baseline |
| `Outcome.SeamsExact` | interface/geak_outcome_report.py:251-261 | a seam is listed for exactly the neighbouring stages that part by more than one per cent |
| `Outcome.GapIsShown` | interface/geak_outcome_report.py:254-261 | every listed gap is more than one per cent up or down, of a positive figure |
| `Outcome.ObservedIsCompoundedTimesHandoffs` | interface/geak_outcome_report.py:246-271 | over positive stages the observed speedup is the compounded one times what the handoffs did |
| `Outcome.MeasuredIsPositive` | interface/geak_outcome_report.py:102-109 | a stage measured with positive throughput on both sides is one the following bounds speak of |
| `Outcome.NoSeamNoDrift` | interface/geak_outcome_report.py:241-272 | without a seam the two differ by at most one per cent for each handoff |
| `Outcome.JoinedIsExact` | interface/geak_outcome_report.py:241-272 | and are equal when each stage starts where the one before ended |
| `Outcome.TrustedHandoffIff` | interface/geak_outcome_report.py:251-254 | for any two figures: that no seam is listed says they are within one per cent iff the earlier stage ended positive and the later one did not start at zero |
| `Outcome.ZeroHandoffUnseen` | interface/geak_outcome_report.py:248-254 | a stage ending at zero hides any disagreement |
| `Outcome.NegativeHandoffUnseen` | interface/geak_outcome_report.py:251-254 | a stage ending negative hides any disagreement too |
| `Outcome.ZeroStartUnseen` | interface/geak_outcome_report.py:246-254 | so does a stage that starts at zero, and it counts as a speedup of one |
| `OutcomeFigures.PctIs` | interface/geak_outcome_report.py:62-71 | the change in per cent is known iff the speedup is, and is a hundred times it less a hundred |
| `OutcomeFigures.MeasuredIs` | interface/geak_outcome_report.py:87-112 | a stage is present iff both figures are, and its speedup is that of the figures unless they have none or zero; then it is the claimed one |
| `OutcomeFigures.DeltasJoin` | interface/geak_outcome_report.py:234-235 | the stages rolled up are the present delta stages, in order |
| `OutcomeFigures.SeamsSay` | interface/geak_outcome_report.py:250-261 | field by field: a seam names two neighbouring stages, in order, what the first ended with and the second started with, and the two are more than one per cent apart |
| `OutcomeFigures.SeamOfLast` | interface/geak_outcome_report.py:250-261 | seams are listed in the order of the stages, once for each handoff |

## Left out

- Agent prompts and schemas, nested workflow calls, GPU benchmarking, the knowledge base, and all HTML and Markdown rendering: foreign or output only.
- `validate`, `read_events` and `attach` of geak_trace_events.py: field-by-field checks and file reading; the model starts from validated events.
- `summary()` of the store: counts of lists that are modelled.
- `Events.BuildEdges`: does not model a `seq` that is not an integer (treated as absent), because nothing proved depends on it.
- `edge_key`, `merge_block`, `merge_action` and `normalize_invalidation_key`: single-branch choices; the store takes any merge function as a parameter.
- `Flags.ParseFlagString`: works on UTF-16 code units as characters; lower-casing in the kernel names is ASCII only, as kernel symbols are.
- `Strip.StripBalanced`: only for an opener and a closer that differ from each other and from the space, as in all its uses.
- `EffectiveConfig.ParseFlags`: does not model `shlex` quoting or the protection of bare JSON; it starts from tokens, with the test for a number and the canonical spelling of a value as parameters. Schema version 1, reading the recipe file and the digest are not modelled.
- `Clock.AgentCutInTime`: time is in whole milliseconds and the 20 per cent cap is an integer quotient; a budget that is not a number, and JavaScript's timer overflow, are not modelled.
- `GpuPool.Semaphore.Take`: a lease is returned whole and once, as `with` does; handing back cards that were not leased is not modelled.
- `Persist.ExportDir.Persist`: directories are missing, incomplete or a complete export; files that an undeleted earlier stage leaves inside a new export are not modelled.
- `Scope.ResolveRunScope`: the ownership evidence (`_owned_sites`, `_resolve_one`, the enclosing-run anchor) is data, as are the journals that conflict with or merely mention each instance; warnings keep their reason and the instance, not their wording or the runs they list.
- `Mirror.Manifest.MirrorInvocations`: listings, sizes, currency, deadline and copy failures are data fixed per listed file; a path knows the run whose directory it is in; the lists of empty and unreadable transcripts are in listing order, not sorted; the manifest's own writing is not modelled.
- `Ledger.Agentize`: coercion of malformed numbers is not modelled; money and time are reals.
- `Ledger.RunTotals`: start and end stay numbers and are not formatted as dates; the elapsed time is their difference.
- `DelegationTree.BuildTree`: nodes are taken to be distinct objects, as `agentize` makes them.
- `Outcome.Summarize`: the rounding of a stage's own speedup, before the roll-up, is not modelled; how the roll-up rounds is a parameter.

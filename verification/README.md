# Bounded accounting, offline sync, portable contracts and updates

A Dafny model of four components of TikTools, with proofs that range over every input, every run or
every interleaving.

* **Ranking engine** (`crates/tiktools-aggregation`). `Boards`, `Rankings`, `EngineSpec` say what each
  operation does to scores, rankings and the whole engine. The classes `RankingIndex`, `Aggregation`,
  `Ranking` and `Engine` update fields in place as the source does, keep their index and totals
  incrementally, and are proved to do exactly that. The run theorems (`RollingHistory`, `DailyHistory`,
  `ClockHistory`, `UserHistory`, `UserAdmission`, `CheckpointRuns`, `Votes`, `ChangeTokens`) relate a ranking to the
  history of what it accepted and tell from it what is accepted next. `CheckpointAcceptance`, `Presentation`,
  `Control` and `EngineLimits` say exactly what is restored, shown, controlled and how large it gets. All arithmetic
  is in 64-bit words with the source's checks written out.
* **Offline-first sync** (`crates/cloud-client`). `SyncModel` holds the client's operations; `SyncSession`
  the objects that perform them; `SyncRuns` what every run keeps, whatever the server answers. `SyncServer`
  models the server as an append-only log whose pages and listings are honest views at their own moments;
  `SyncRebuild` and `SyncDevices` prove convergence and that nothing unseen is overwritten, `SyncCompleteness`
  when pulls and rebuilds succeed. `StateStore` is the file as one cell under compare-and-swap.
* **Portable widget contract** (`src/universal`). `Json` prints canonical texts and reads JSON by the grammar
  of RFC 8259; `JsonRoundTrip` proves that one undoes the other. `JsValidator` and `NativeValidator` are the
  two schema validators; `ParsedValues` says what either side's parser makes of a number, and `ValidatorsAgree`,
  `ValidatorsDiffer` and `SchemasDiffer` exactly when the two decide the same.
  `LayerTrees`, `Editing` and `EditorSessions` model the editor's commands and its bounded history, and
  `CommandAcceptance` says which commands are accepted.
* **Application updater** (`crates/tiktools-app-update`). `AppUpdate` is the service as calls and job reports
  under one lock, refining the declared phase relation.

What comes from outside is a parameter: clocks, random identities, server replies, faults of the file system,
the verdicts of the version, origin and pattern parsers, which numbers a double can hold, what JavaScript prints for
those that are not whole, and the project schema. `dafny verify dfyconfig.toml` checks everything.

## What does not hold

* `EngineSpec.ExhaustedCreationLeavesIndexDangling`: when instance numbers run out, a refused creation has
  already listed its id, so the source index names a ranking that does not exist. `Engine.Create` breaks the index
  in that case and in no other.
* `ChangeTokens.RestoreCanKeepToken`: restoring a checkpoint of revision 0 can change what is shown under an
  unchanged token. `ChangeTokens.RestoreIsLaterExactly` has the exact condition, on the checkpoint's own paused flag,
  counters and identity; all other restores are covered by the run theorem.
* `ChangeTokens.SpentRevisionHidesFailures`: so can a failure once the revision is spent.
* `CheckpointRoundTrip.RoundTrip`: a checkpoint whose revision does not cover its participants is refused; a vote
  rebuild can leave a ranking in that state. The condition is exact.
* `ValidatorsDiffer.AgreementIsExact`: under plain schemas the validators part on values with a key that JavaScript
  objects inherit, and on values with a number that the two parsers read apart; on all others they agree. A key such as
  `toString` finds a rule in `properties` that nobody wrote, so the JavaScript validator lets it through where the
  native one applies `additionalProperties`; at the depth limit it is the other way round. Read apart are integers that
  JavaScript rounds, integers written with a fraction or an exponent, and zero with a sign: natively they are another
  integer, or a floating-point number, which equals no integer. So `const`, `enum` and `uniqueItems` tell them apart
  there and not here: `ValidatorsDiffer.RoundedNumbersSplit`, `ValidatorsDiffer.SpelledNumbersSplit`,
  `ValidatorsDiffer.NegativeZeroSplits`.
* `SchemasDiffer`, `ValidatorsDiffer.ConstantsAgreeExactly`: registration admits schemas that are read differently, each
  kind with its exact set. Limits on lengths and on numbers of items that are not plainly written integers within 64
  bits are none natively and are compared in JavaScript: fractions, `2.0`, `1e1`, `-0`, negative upper limits, lower
  limits beyond 64 bits. Then constants and options with numbers read apart, demands for distinct items that only count
  as true, type names that are empty or inherited functions (`toString`, `toLocaleString`, `valueOf`, `constructor`,
  `hasOwnProperty`, `propertyIsEnumerable`, `__lookupGetter__`, `__lookupSetter__`), and empty references.

## Model

| member | source | states |
|---|---|---|
| Scoring.ScoreIsExact | crates/tiktools-aggregation/src/scoring.rs:8-48 | a packet has a score exactly when no rule depends on a missing gift and the unbounded-integer rule sum fits 64 bits, and then the score is that sum |
| Scoring.ComputeScore | crates/tiktools-aggregation/src/scoring.rs:8-48 | the checked loop over rules returns that score, or the first error it meets |
| Scoring.AddRule | crates/tiktools-aggregation/src/scoring.rs:35-45 | step-by-step checked products and sums fail exactly when the exact sum of the rule overflows |
| Scoring.ReportsMetric | crates/tiktools-aggregation/src/scoring.rs:14-20 | the pre-test for a positive delta finds exactly the metrics with a positive total |
| Scoring.RulesWeigh | crates/tiktools-aggregation/src/scoring.rs:8-48 | a rule without multipliers is worth its weight for every unit of its metric, if it is enabled for the source of the packet |
| Scoring.MultipliersMultiply | crates/tiktools-aggregation/src/scoring.rs:21-34 | a gift that a rule lists is worth its multiplier times what the rule is worth without multipliers, every other packet just that |
| Scoring.PacketsCanBeSplit | crates/tiktools-aggregation/src/scoring.rs:35-45 | a packet split in two scores in its parts what it scores as a whole |
| RankingIndex.RankingIndex.Update | crates/tiktools-aggregation/src/ranking.rs:13-20 | replacing one score in the ordered set replaces exactly that pair and keeps the order |
| RankingIndex.RankingIndex.Clear | crates/tiktools-aggregation/src/ranking.rs:21-23 | an empty index |
| RankingIndex.RankingIndex.Top | crates/tiktools-aggregation/src/ranking.rs:24-29 | at most the asked number of pairs, in order, and no pair left out goes before one that is given |
| RankingIndex.PairsUpdate | crates/tiktools-aggregation/src/lib.rs:172-173 | changing one score of a map changes one pair of its index |
| RankingIndex.RankingIndex.IsFullOrder | crates/tiktools-aggregation/src/ranking.rs:8-30 | an index that holds the pairs of a score map is that map's only sorted order |
| Aggregation.Aggregation.constructor | crates/tiktools-aggregation/src/lib.rs:141-150 | an empty board of a given capacity |
| Aggregation.Aggregation.Apply | crates/tiktools-aggregation/src/lib.rs:152-177 | the board after a contribution, or an error with everything as it was; index and total stay those of the score map |
| Aggregation.Aggregation.UpdateMetadata | crates/tiktools-aggregation/src/lib.rs:179-186 | display fields are merged only for keys that have a score |
| Aggregation.Aggregation.Reassign | crates/tiktools-aggregation/src/lib.rs:192-244 | the board after a move of score between keys, or an error with everything as it was |
| Aggregation.Aggregation.Expire | crates/tiktools-aggregation/src/lib.rs:246-261 | takes an amount off a key that holds at least that much, or fails with everything as it was |
| Aggregation.Aggregation.SetCapacity | crates/tiktools-aggregation/src/lib.rs:272-274 | only the capacity changes, nobody is evicted, and the board stays in order exactly as long as its participants fit |
| Aggregation.Aggregation.Touch | crates/tiktools-aggregation/src/lib.rs:276-279 | the revision advances, or nothing changes when it is spent |
| Aggregation.Aggregation.Reset | crates/tiktools-aggregation/src/lib.rs:281-289 | an empty board with the next revision, or nothing changes |
| Aggregation.Aggregation.SnapshotCandidates | crates/tiktools-aggregation/src/lib.rs:293-327 | the first entries of the score map's only sorted order, read from the index |
| Aggregation.RankEntries | crates/tiktools-aggregation/src/lib.rs:337-350 | whatever entries are given, the first of them in order, each as often as it was given, up to the limit and numbered from one |
| Boards.RankSorts | crates/tiktools-aggregation/src/lib.rs:337-350 | ranking sorts any entries, loses none but those cut off, and numbers the rest from one |
| Boards.ApplySound | crates/tiktools-aggregation/src/lib.rs:152-177 | an accepted contribution keeps keys valid, scores positive, the size within the capacity, the total within a word and metadata within the keys |
| Boards.ReassignSound | crates/tiktools-aggregation/src/lib.rs:192-244 | so does an accepted reassignment |
| Boards.ExpireSound | crates/tiktools-aggregation/src/lib.rs:246-261 | so does an accepted expiry |
| Boards.ApplyCommutes | crates/tiktools-aggregation/src/lib.rs:152-177 | two contributions accepted one after the other are also accepted the other way round, and leave the same board |
| Boards.ApplyIsExact | crates/tiktools-aggregation/src/lib.rs:152-177 | a contribution is accepted exactly when its key is valid and it is worth nothing, or the scores after it fit the board and a revision is left |
| Boards.ReassignIsExact | crates/tiktools-aggregation/src/lib.rs:192-244 | a move is accepted exactly when its keys are valid and different, the source holds the amount, the scores after it fit the board and a revision is left: a source that is emptied makes room for the target |
| Boards.ExpireIsExact | crates/tiktools-aggregation/src/lib.rs:246-261 | only a spent revision keeps an expiry from taking its amount off its key |
| Boards.ApplyTotal | crates/tiktools-aggregation/src/lib.rs:170-174 | the grand total grows by exactly the applied value |
| Boards.ExpireTotal | crates/tiktools-aggregation/src/lib.rs:246-261 | an expiry takes its amount off the grand total, which is never less than that |
| Boards.ReassignTotal | crates/tiktools-aggregation/src/lib.rs:223-241 | a move conserves the grand total but for the additional score |
| Boards.RankingInOrder | crates/tiktools-aggregation/src/lib.rs:331-350 | ranking candidates only numbers them: the index already delivers them sorted |
| Boards.SnapshotIsPrefix | crates/tiktools-aggregation/src/lib.rs:331-333 | a snapshot of k entries is the first k of every larger one |
| Boards.SnapshotShowsScores | crates/tiktools-aggregation/src/lib.rs:293-350 | ranks run 1, 2, 3 and every entry shows its own score |
| Boards.SnapshotIsTop | crates/tiktools-aggregation/src/lib.rs:331-350 | higher scores come first and equal ones in the order of their keys, and nobody left out would have ranked above one shown |
| RankingObject.Ranking.constructor | crates/tiktools-aggregation/src/engine.rs:284-300 | a newly created ranking in its initial state, satisfying the invariant |
| RankingObject.Ranking.Advance | crates/tiktools-aggregation/src/engine.rs:707-739 | the clock never goes back; a new local day clears the ranking, a rolling window expires event by event; the invariant makes the lookup and the subtraction safe |
| RankingObject.Ranking.DrainWindow | crates/tiktools-aggregation/src/engine.rs:730-738 | the expiry loop pops an event only after its score was taken off, up to the first young event or failure |
| RankingObject.Ranking.TurnDay | crates/tiktools-aggregation/src/engine.rs:716-724 | scores, users and counters are cleared together or not at all |
| RankingObject.Ranking.Tick | crates/tiktools-aggregation/src/engine.rs:740-746 | time passing; a failed expiry is counted as a rejection |
| RankingObject.Ranking.Contribute | crates/tiktools-aggregation/src/engine.rs:564-676 | one packet does to this ranking what the accounting specification says, with every early exit |
| RankingObject.Ranking.Account | crates/tiktools-aggregation/src/engine.rs:601-674 | window capacity, user decision, then score; exactly one counter moves on failure |
| RankingObject.Ranking.Admit | crates/tiktools-aggregation/src/engine.rs:633-668 | an accepted score enters board, window and user state together |
| RankingObject.Ranking.Decide | crates/tiktools-aggregation/src/engine.rs:682-706 | the decision about a user from the recorded count and time |
| RankingObject.Ranking.Reset | crates/tiktools-aggregation/src/engine.rs:897-911 | windows, users, clock and counters are cleared unless the revision is spent |
| RankingObject.Ranking.SetPaused | crates/tiktools-aggregation/src/engine.rs:912-920 | an actual change advances the revision |
| RankingObject.Ranking.MarkGap | crates/tiktools-aggregation/src/engine.rs:748-755 | a gap counts as a rejection of a running ranking |
| RankingObject.Ranking.MissSource | crates/tiktools-aggregation/src/engine.rs:768-785 | lost input of a source degrades a running ranking in scope with an enabled rule for it |
| RankingObject.Ranking.MissMetric | crates/tiktools-aggregation/src/engine.rs:794-812 | an unmeasured metric degrades a running ranking in scope with an enabled, weighted rule for it |
| RankingObject.Ranking.Lose | crates/tiktools-aggregation/src/engine.rs:818-826 | lost packets degrade a running ranking |
| RankingObject.Ranking.RecoverGap | crates/tiktools-aggregation/src/engine.rs:758-763 | a recovery gap counts as a rejection and reports a spent revision |
| RankingObject.Ranking.SetMetadata | crates/tiktools-aggregation/src/engine.rs:518-535 | only a change of display fields advances the revision |
| RankingObject.Ranking.Replace | crates/tiktools-aggregation/src/engine.rs:346-368 | a validated definition replaces the old one, with or without clearing the accounts |
| RankingObject.Ranking.Assign | crates/tiktools-aggregation/src/engine.rs:441-474 | one committed vote transition, or an error that leaves the scores |
| RankingObject.Ranking.Commit | crates/tiktools-aggregation/src/engine.rs:497-514 | one committed routed score, or an error that leaves the scores |
| RankingObject.Ranking.RestoreVotes | crates/tiktools-aggregation/src/engine.rs:407-438 | a board rebuilt from vote totals and routed scores replaces the old one entirely or not at all |
| RankingObject.Ranking.SnapshotOf | crates/tiktools-aggregation/src/engine.rs:851-892 | a snapshot shows the entries, counters, revision and identity of the ranking |
| RankingObject.Ranking.ExportCheckpoint | crates/tiktools-aggregation/src/engine.rs:99-109 | a checkpoint holds the whole accounting state |
| RankingObject.Ranking.RestoreCheckpoint | crates/tiktools-aggregation/src/engine.rs:114-219 | a checkpoint, whoever produced it, is restored entirely or not at all, and the ranking keeps its full invariant |
| RankingObject.BuildBoard | crates/tiktools-aggregation/src/engine.rs:145-205 | the board a checkpoint stands for, or the first error in it |
| RankingObject.CheckEvidence | crates/tiktools-aggregation/src/engine.rs:159-187 | whether the window a checkpoint brings proves its scores |
| RankingObject.AddWindow | crates/tiktools-aggregation/src/engine.rs:167-176 | window events added up per key, refusing disorder, the future, zeros and overflow |
| Rankings.TailIsBacked | crates/tiktools-aggregation/src/lib.rs:246-261 | in a consistent window the oldest event's key holds at least its score, so the lookup and the unchecked subtraction never fail |
| RankingInvariant.AdvanceConsistent | crates/tiktools-aggregation/src/engine.rs:707-739 | advancing the clock keeps the invariant |
| RankingInvariant.AccountConsistent | crates/tiktools-aggregation/src/engine.rs:601-674 | accounting a packet keeps the invariant |
| RankingInvariant.DrainStops | crates/tiktools-aggregation/src/engine.rs:730-738 | a drain stops at a young event, and fails only when the revision is spent |
| Control.ResetStartsOver | crates/tiktools-aggregation/src/engine.rs:897-911 | a reset leaves what a newly created ranking is, under the next revision |
| Control.RedefinitionIsExact | crates/tiktools-aggregation/src/engine.rs:307-368 | a paused ranking takes a valid definition that starts it over, or one that differs in nothing but the number of entries shown, and no other |
| Control.PauseIsExact | crates/tiktools-aggregation/src/engine.rs:912-920 | pausing and resuming change the flag and the revision, or nothing at all |
| Control.SourceGapsAreMarkedExactly | crates/tiktools-aggregation/src/engine.rs:764-788 | missing input of a source is marked exactly where an enabled rule reads it |
| Control.MetricGapsAreMarkedExactly | crates/tiktools-aggregation/src/engine.rs:790-815 | an unmeasured metric is marked exactly where one unit of it would have scored |
| Control.OtherGapsAreMarkedExactly | crates/tiktools-aggregation/src/engine.rs:748-826 | gaps of one ranking, of its recovery and lost packets count where they should |
| RankingRuns.StepConsistent | crates/tiktools-aggregation/src/engine.rs:99-931 | every operation, restores of arbitrary checkpoints included, keeps index, total, capacity, window sums and user limits in order |
| Checkpoints.AcceptedCheckpointIsConsistent | crates/tiktools-aggregation/src/engine.rs:114-219 | validation is sufficient: any accepted checkpoint yields a ranking with the full invariant |
| Checkpoints.WindowTotalsExact | crates/tiktools-aggregation/src/engine.rs:163-185 | accepted window events are ordered, positive, not in the future, and add up exactly |
| CheckpointAcceptance.AcceptedExactlyIfExportable | crates/tiktools-aggregation/src/engine.rs:114-219 | a checkpoint, whoever produced it, is accepted exactly by an unused ranking and exactly if a ranking of the very same definition that is in order would export what it says; the restored one does |
| CheckpointRoundTrip.RoundTrip | crates/tiktools-aggregation/src/engine.rs:99-219 | the checkpoint of a consistent ranking is accepted by a fresh instance exactly when its revision covers its participants, and restores the same ranking |
| RestoredBehaviour.AlikeAnswerAlike | crates/tiktools-aggregation/src/engine.rs:549-746 | rankings that show the same give the same verdict on every sequence of packets and ticks |
| RestoredBehaviour.RestoredAnswersIdentically | crates/tiktools-aggregation/src/engine.rs:99-219 | original and restored ranking account every later packet the same way and show equal snapshots |
| CheckpointRuns.EveryCheckpointRestores | crates/tiktools-aggregation/src/engine.rs:99-219 | at any point of any run without a vote rebuild the checkpoint restores and goes on identically |
| PacketAccounting.PacketIsAccountedOnce | crates/tiktools-aggregation/src/engine.rs:554-681 | a packet in scope is counted once under one key with its exact score, or is worth nothing, or moves exactly one of three counters |
| PacketAccounting.OutOfScopeIsIgnored | crates/tiktools-aggregation/src/engine.rs:565-570 | a ranking that is paused or of another creator or room does not notice a packet, and every other one does |
| PacketAccounting.PassedOverExactly | crates/tiktools-aggregation/src/engine.rs:577-606 | a packet in scope is skipped exactly when a competition finds no option in it, worth nothing exactly when its exact score is zero, and refused without an exact score or a key |
| PacketAccounting.CountedEffect | crates/tiktools-aggregation/src/engine.rs:633-668 | what an accepted packet adds to window and users |
| PacketAccounting.UncountedEffect | crates/tiktools-aggregation/src/engine.rs:554-681 | every other packet leaves window, users and scores as expiry left them |
| Presentation.CountedPacketShows | crates/tiktools-aggregation/src/engine.rs:637-645 | an accepted packet brings its sender's display fields where users are ranked and its gift's where gifts are, field by field within the size limits, and changes nobody else's |
| Presentation.DescriptionShows | crates/tiktools-aggregation/src/engine.rs:518-535 | a command does the same for an existing entry, and advances the revision exactly when that changes something |
| Presentation.EntriesShowFields | crates/tiktools-aggregation/src/lib.rs:293-313 | an entry is captioned with its label or else its key and carries all its other fields |
| ClockHistory.ClockIsLatest | crates/tiktools-aggregation/src/engine.rs:707-728 | in every run, whatever the window, the clock of a ranking is the latest time that reached it since it was cleared, or the one a checkpoint brought |
| ClockHistory.AcceptedAtTheClock | crates/tiktools-aggregation/src/engine.rs:633-668 | an accepted packet is recorded at that clock, under its key, with its exact score |
| RollingHistory.RollingScoresAreTheRecentTally | crates/tiktools-aggregation/src/engine.rs:656-738 | in every run of a rolling ranking the scores after an expiry are the tally of exactly the accepted contributions younger than the window, counted back from the latest time that reached the ranking, clocks that go back included |
| DailyHistory.HeldScoreIsFromToday | crates/tiktools-aggregation/src/engine.rs:707-725 | in every run of a daily ranking, checkpoint restores included, all score still held was accepted on the local day of its clock, at every offset |
| DailyHistory.ClearedExactlyWhenTheDayAdvances | crates/tiktools-aggregation/src/engine.rs:707-725 | in every run a packet or tick leaves either all scores, users and counters that were held or none of them, and none exactly when the local day of the ranking advanced; what the packet adds comes on top |
| DailyHistory.LocalDayIsADay | crates/tiktools-aggregation/src/engine.rs:709-713 | local days do not go back and last 24 hours |
| UserHistory.UsersStayWithinLimits | crates/tiktools-aggregation/src/engine.rs:682-706 | in every run, since the last clearing or restore, no user exceeds the contribution limit and accepted packets of one user are a cooldown apart |
| UserAdmission.VerdictIsExact | crates/tiktools-aggregation/src/engine.rs:598-706 | in every run, restores included, the packets accepted before tell what becomes of one with a positive score: full window, unknown user, limit reached, too early, too many users, no room on the board, or else counted |
| Votes.CommitProjects | crates/tiktools-aggregation/src/engine.rs:441-514 | every vote or routed score, accepted or refused, keeps the scores equal to what was committed |
| Votes.CastIsAcceptedExactly | crates/tiktools-aggregation/src/engine.rs:441-474 | a vote is accepted exactly when the ranking runs, the count does not shrink and what the options are then worth fits; if that changes anything, under a valid option and with a revision left |
| Votes.RouteIsAcceptedExactly | crates/tiktools-aggregation/src/engine.rs:497-514 | a routed score is accepted exactly when the ranking runs and what the options are then worth fits |
| Votes.VotesMatchPackets | crates/tiktools-aggregation/src/engine.rs:372-399 | a durable vote is worth what its packets would score, under the option they would be counted under |
| Votes.MalformedListingsAreRefused | crates/tiktools-aggregation/src/engine.rs:418-434 | a rebuild from listings that name an option twice, or one that is no valid key, is refused |
| Votes.RebuildEqualsIncremental | crates/tiktools-aggregation/src/engine.rs:407-438 | a rebuild from per-option totals succeeds exactly when every option is a valid key, and equals the incremental scores |
| Votes.IncrementalVotesEqualRebuild | crates/tiktools-aggregation/src/engine.rs:407-514 | so it does after any run from an empty ranking |
| Engine.Engine.constructor | crates/tiktools-aggregation/src/engine.rs:80-81 | an empty engine, in order |
| Engine.Engine.Create | crates/tiktools-aggregation/src/engine.rs:220-303 | a ranking is added with index entries for its sources, or it is refused; the index stays exact except when instance numbers have run out, and then it never does |
| Engine.Engine.Refusal | crates/tiktools-aggregation/src/engine.rs:221-268 | why a definition is refused, in the order of the checks |
| Engine.Engine.ListSources | crates/tiktools-aggregation/src/engine.rs:273-278 | the new ranking is listed once under each of its sources |
| Engine.Engine.Remove | crates/tiktools-aggregation/src/engine.rs:921-931 | a ranking and every mention of it disappear |
| Engine.Engine.Update | crates/tiktools-aggregation/src/engine.rs:307-368 | a definition is replaced together with its index entries, or one of five refusals in order leaves everything as it was |
| Engine.Engine.ApplyAt | crates/tiktools-aggregation/src/engine.rs:554-681 | a packet reaches exactly the rankings with a rule for its source, each once, and the failures are reported in order |
| Engine.Engine.FeedOne | crates/tiktools-aggregation/src/engine.rs:564-676 | feeding one ranking leaves the others alone |
| Engine.Engine.ExpireAt | crates/tiktools-aggregation/src/engine.rs:740-746 | time passes in every ranking |
| Engine.Engine.Act | crates/tiktools-aggregation/src/engine.rs:748-763 | an operation on one ranking by name: gaps, pausing, resetting, display fields, votes, rebuilds and restores step that ranking and no other, and report its result |
| Engine.Engine.MarkGapAt | crates/tiktools-aggregation/src/engine.rs:764-788 | lost input of a source is marked in exactly the rankings it concerns |
| Engine.Engine.MarkMetricGapAt | crates/tiktools-aggregation/src/engine.rs:790-815 | an unmeasured metric is marked in exactly the rankings it concerns |
| Engine.Engine.MarkLossAt | crates/tiktools-aggregation/src/engine.rs:818-826 | lost packets are counted in every running ranking |
| EngineSpec.AddSourcesExact | crates/tiktools-aggregation/src/engine.rs:273-278 | listing a definition keeps the index the exact inverse of the definitions |
| EngineSpec.DropIdExact | crates/tiktools-aggregation/src/engine.rs:333-336 | unlisting a ranking keeps the index the exact inverse of the definitions |
| EngineSpec.ExhaustedCreationLeavesIndexDangling | crates/tiktools-aggregation/src/engine.rs:273-283 | a creation that runs out of instance numbers leaves an id in the index without a ranking |
| EngineSpec.EngineStepValid | crates/tiktools-aggregation/src/engine.rs:220-931 | every engine operation keeps every ranking in order under its own id and instance |
| EngineSpec.RankingsAreRuns | crates/tiktools-aggregation/src/engine.rs:220-931 | every ranking of every engine run is a run of its own, so all run theorems hold of it |
| EngineLimits.CreationIsExact | crates/tiktools-aggregation/src/engine.rs:220-303 | a ranking is created exactly if fewer than 128 exist, its definition is valid, its name free and an instance number left |
| EngineLimits.EngineStaysBounded | crates/tiktools-aggregation/src/engine.rs:220-303 | in every run an engine holds at most 128 rankings of at most 100000 participants, window events and users each |
| EngineLimits.GreatestDefinitionIsValid | crates/tiktools-aggregation/src/engine.rs:224-262 | a definition at all of the limits is valid |
| ChangeTokens.EqualTokensPublishEqualSnapshots | crates/tiktools-aggregation/src/engine.rs:832-837 | below the last revision equal tokens at two moments mean equal snapshots, removals, re-creations and restores included, unless a checkpoint of revision 0 was accepted in between whose paused flag, counters or identity differ from the ranking's |
| ChangeTokens.RestoreIsLaterExactly | crates/tiktools-aggregation/src/engine.rs:114-219 | an accepted restore keeps tokens sound exactly if the checkpoint has a positive revision or carries the paused flag, counters and identity that the ranking already shows |
| ChangeTokens.SpentRevisionHidesFailures | crates/tiktools-aggregation/src/engine.rs:832-837 | with a spent revision a failure changes the snapshot under an unchanged token |
| ChangeTokens.RestoreCanKeepToken | crates/tiktools-aggregation/src/engine.rs:832-837 | restoring a checkpoint of revision 0 can change the snapshot under an unchanged token |
| SyncSession.SyncState.Stage | crates/cloud-client/src/lib.rs:233-250 | an edit is staged, or refused with nothing changed |
| SyncSession.SyncState.Rebase | crates/cloud-client/src/lib.rs:252-258 | the edit starts over from the known revision |
| SyncSession.SyncState.Discard | crates/cloud-client/src/lib.rs:260-266 | the edit is dropped |
| SyncSession.SyncState.Apply | crates/cloud-client/src/lib.rs:267-284 | a newer record is taken over and flags an edit that started elsewhere; an invalid one changes nothing |
| SyncSession.Session.NewState | crates/cloud-client/src/lib.rs:461-466 | an empty state of the session's account |
| SyncSession.Session.PullPage | crates/cloud-client/src/lib.rs:520-546 | one page of changes, all of it or nothing |
| SyncSession.Session.Push | crates/cloud-client/src/lib.rs:548-609 | one conditional write and what each reply does to the state |
| SyncSession.Session.ReadListing | crates/cloud-client/src/lib.rs:624-652 | the paged listing in key order, within the page limit |
| SyncSession.Session.CarryEdits | crates/cloud-client/src/lib.rs:653-662 | every unsent edit is carried over with its base |
| SyncSession.Session.Rebuild | crates/cloud-client/src/lib.rs:612-667 | the rebuilt state after every page succeeded, otherwise the state as it was |
| SyncRuns.StageTakesEffect | crates/cloud-client/src/lib.rs:233-250 | which edits can be staged, what is recorded, and that nothing else changes |
| SyncRuns.ResolvingTakesEffect | crates/cloud-client/src/lib.rs:252-266 | what keeping or dropping a conflicting edit leaves |
| SyncRuns.PushTakesEffect | crates/cloud-client/src/lib.rs:548-609 | a push succeeds exactly when its write was sent and confirmed; otherwise at most the conflict mark changes |
| SyncRuns.WritesAreSentExactly | crates/cloud-client/src/lib.rs:548-587 | a write is sent exactly for an edit of one's own that is not in conflict, deletions of records never seen apart, on the revision the edit started from; when nothing is sent the server's answer makes no difference |
| SyncKeys.KeysAreValidExactly | crates/cloud-client/src/lib.rs:286-294 | a key is at most 128 letters with single dots between them, at least one |
| SyncCompleteness.PullSucceedsExactly | crates/cloud-client/src/lib.rs:520-546 | a pull succeeds exactly for one's own account and a page of valid changes that grow and end at the page's cursor |
| SyncCompleteness.RebuildSucceedsExactly | crates/cloud-client/src/lib.rs:612-667 | a rebuild succeeds exactly if the account is one's own, the head is answered, and the listing and the changes since come in order and end, each within 200 pages, whatever the state held |
| SyncRuns.StepValid | crates/cloud-client/src/store.rs:169-205 | every operation, failed ones included, keeps the store's state predicate |
| SyncRuns.ReachableStatesAreValid | crates/cloud-client/src/store.rs:169-205 | every state reachable from a new one satisfies it |
| SyncRuns.StepKeepsEdit | crates/cloud-client/src/lib.rs:233-284 | an edit keeps content, base and conflict unless the user or a confirming server touches it |
| SyncRuns.EditsAreNeverLost | crates/cloud-client/src/lib.rs:548-609 | over any run an edit that is gone was dropped by the user or confirmed by the server with exactly that edit |
| SyncRuns.RebuildKeepsEdits | crates/cloud-client/src/lib.rs:653-662 | a rebuild keeps every unsent edit with its base |
| SyncRuns.StepGrows | crates/cloud-client/src/lib.rs:528-545 | outside a rebuild neither the cursor nor a known revision goes back |
| SyncRuns.RunGrows | crates/cloud-client/src/lib.rs:528-545 | nor over a whole run |
| SyncRuns.OwnWriteComesBackUnnoticed | crates/cloud-client/src/lib.rs:593-608 | after any run without a rebuild, pulling back one's own confirmed write changes nothing |
| SyncServer.PullLearns | crates/cloud-client/src/lib.rs:520-546 | an honest page from any earlier moment extends what the client knows to its new cursor |
| SyncServer.DeliveredInTime | crates/cloud-client/src/lib.rs:528-543 | a current record between two cursors was in the page that led from one to the other |
| SyncRebuild.ListingLearns | crates/cloud-client/src/lib.rs:620-652 | a listing read while the server changes still tells the client everything up to the head it started from |
| SyncRebuild.RebuildConverges | crates/cloud-client/src/lib.rs:612-667 | against an honest append-only server a successful rebuild mirrors every key of the log as it stood when the last page was read, with the cursor at its head |
| SyncRebuild.RebuildConflictsExactly | crates/cloud-client/src/lib.rs:653-662 | for any answers, conflicts after a rebuild are the old ones and those of edits whose base is not the listed revision or not the final one |
| SyncDevices.DeviceConflictsExactly | crates/cloud-client/src/lib.rs:612-667 | when a device rebuilds in any history of devices and server, conflicts afterwards are the old ones and those of edits whose base is not the revision it then knows |
| SyncDevices.CurrentEditsStayClean | crates/cloud-client/src/lib.rs:612-667 | in any history an edit on the server's current, undeleted record comes out of a rebuild unchanged |
| SyncDevices.EventKeepsWorld | crates/cloud-client/src/lib.rs:520-667 | whatever devices, server and network do, every device knows what its cursor passed |
| SyncDevices.SettledDevicesAgree | crates/cloud-client/src/lib.rs:520-546 | two devices that reached the head of the log hold the server's selections |
| SyncDevices.NothingUnseenIsOverwritten | crates/cloud-client/src/lib.rs:576-580 | an accepted conditional write replaces only a record its sender had seen, or a deleted one |
| StateStore.StateStore.Load | crates/cloud-client/src/store.rs:90-120 | the stored state, or why it cannot be used |
| StateStore.StateStore.Save | crates/cloud-client/src/store.rs:123-166 | compare-and-swap on the generation, with every refusal in order and every fault of the file system |
| StateStore.SaveCommits | crates/cloud-client/src/store.rs:123-166 | a save changes the file only to the attempted state under the next generation, and only if the caller named the one that was there |
| StateStore.SaveSucceedsExactly | crates/cloud-client/src/store.rs:123-166 | a save succeeds exactly for a valid state over the generation the caller named, of the same account, within four mebibytes, while the file system works |
| StateStore.ReachableStatesAreStored | crates/cloud-client/src/store.rs:123-166 | a reachable state is never refused as malformed: it is stored and loads as it was saved |
| StateStore.NoLostUpdate | crates/cloud-client/src/store.rs:138-141 | what a save replaces is exactly what its generation stood for |
| StateStore.OneWinnerPerGeneration | crates/cloud-client/src/store.rs:138-141 | of all writers naming one generation at most one changes the file |
| StateStore.UnreadableFilesStay | crates/cloud-client/src/store.rs:90-116 | a file that cannot be read is never overwritten |
| JsonRoundTrip.CanonicalReadsBack | src/universal/index.js:17-35 | parsing the canonical text of a value by the JSON grammar gives the value back |
| JsonRoundTrip.CanonicalIsInjective | src/universal/index.js:17-35 | canonical texts are equal exactly when the values are, whatever the order of keys |
| JsonRoundTrip.TextIsReadBack | src/universal/index.js:28-34 | escaping reads back for every sequence of code units, lone surrogates included |
| JsonRoundTrip.WholeNumberIsPrinted | src/universal/index.js:28-34 | a printed integer is a number of the grammar and reads as itself |
| JsonRoundTrip.WellFormedExactlyIfParsed | src/universal/index.js:16 | the values the model is about are exactly those that some text parses to |
| Json.SortedKeys | src/universal/index.js:22-23 | keys in strictly ascending order, each once |
| JsValidator.Validate | src/universal/index.js:38-120 | the validator collects exactly the failures of a value, part by part |
| ValidatorsAgree.Agree | src/universal/native.rs:4-121 | each given its own parsing of the schema, on every plain schema and every value without inherited names the JavaScript validator reports no failure exactly when the native one accepts, references and depth limit included |
| ValidatorsAgree.OwnAgree | src/universal/native.rs:20-86 | both judge the value itself alike: type, constants, options, lengths, patterns, ranges, uniqueness, required keys |
| ValidatorsAgree.PointersAgree | src/universal/index.js:45-53 | both resolve a reference to the same schema |
| ValidatorsAgree.UniquenessAgrees | src/universal/index.js:95-99 | the set of canonical texts has as many elements as the array exactly when no item repeats |
| ParsedValues.NearestIsClosest | src/universal/index.js:16 | a number JavaScript parses becomes a double, and no double is nearer |
| ParsedValues.ParsedOnce | src/universal/index.js:16 | what JavaScript prints for a parsed value is parsed to that value again, by both sides |
| ParsedValues.SteadyValuesReadAlike | src/universal/native.rs:32-41 | both parsers make the same of a text exactly when JavaScript prints every plainly written 64-bit integer in it as it stands, and no other number, zero with a sign included, as such an integer |
| ParsedValues.SmallNumbersAreSteady | src/universal/native.rs:32-41 | integers of up to 53 binary digits are the same on both sides |
| ValidatorsDiffer.AgreementIsExact | src/universal/index.js:38-120 | for a value without unsafe keys the validators, each after its own parsing, agree under every registered plain schema exactly when no object down to the depth limit has an inherited name as key and both parsers read every number of the value alike |
| ValidatorsDiffer.ConstantsAgreeExactly | src/universal/index.js:66-67 | a constant is judged alike on all values that both parsers read alike exactly when it is such a value itself |
| SchemasDiffer.OptionsAgreeExactly | src/universal/index.js:68-72 | options are judged alike on those values exactly when, for each option, what JavaScript parses it to is what the native side parses one of the options to |
| ValidatorsDiffer.RoundedNumbersSplit | src/universal/index.js:66-67 | 9007199254740993 passes as 9007199254740992 in JavaScript and not natively |
| ValidatorsDiffer.SpelledNumbersSplit | src/universal/native.rs:32-34 | an integer written with a fraction or an exponent is that integer in JavaScript and not natively |
| ValidatorsDiffer.NegativeZeroSplits | src/universal/native.rs:32-34 | zero with a sign is zero in JavaScript and not natively |
| ValidatorsDiffer.ClosedChainVerdicts | src/universal/index.js:109-115 | a schema that forbids all other keys some levels down accepts inherited names there in JavaScript and not natively |
| ValidatorsDiffer.DeepChainVerdicts | src/universal/index.js:39-40 | at the depth limit a schema that names no property accepts inherited names natively and not in JavaScript |
| ValidatorsDiffer.SixtyFourLevelsAreJudged | src/universal/index.js:39 | both follow a schema 64 levels down and give up one level deeper |
| SchemasDiffer.UpperLimitsAgreeExactly | src/universal/native.rs:42-52 | whatever number it is, an upper length limit is read alike exactly when it is an integer from 0 to the greatest word, plainly written, or no length exceeds it |
| SchemasDiffer.LowerLimitsAgreeExactly | src/universal/native.rs:42-52 | a lower length limit exactly when it is such an integer, or no length falls below it |
| SchemasDiffer.UpperCountsAgreeExactly | src/universal/native.rs:72-81 | so is an upper limit on the number of items |
| SchemasDiffer.LowerCountsAgreeExactly | src/universal/native.rs:72-81 | and a lower one |
| SchemasDiffer.FractionalLimitsSplit | src/universal/index.js:73-94 | a positive limit in any other spelling, a fraction such as 1.5 among them, rejects the empty text and the empty list in JavaScript and not natively |
| SchemasDiffer.UniqueItemsAgreeExactly | src/universal/index.js:95-99 | a demand for distinct items is read alike exactly when it says true or counts as false |
| SchemasDiffer.TypesAgreeExactly | src/universal/index.js:55-65 | a type name is read alike exactly when it is not empty and not an inherited function that answers yes to some value |
| SchemasDiffer.EmptyReferencesDiffer | src/universal/index.js:45-53 | an empty reference accepts every value in JavaScript and none natively |
| SchemasDiffer.RegisteredSchemasCanDiffer | src/universal/index.js:140-188 | registration admits all these schemas |
| EditorSessions.EditorHistory.Commit | src/universal/editor.js:55-59 | the project is pushed, the oldest dropped beyond the capacity, the redo stack emptied |
| EditorSessions.EditorHistory.Undo | src/universal/editor.js:60-64 | the last project comes back and the current one is set aside |
| EditorSessions.EditorHistory.Redo | src/universal/editor.js:65-69 | the project set aside last comes back |
| EditorSessions.StacksStayBounded | src/universal/editor.js:55-69 | past and future together never exceed the capacity although redo does not trim |
| EditorSessions.EditorSession.Run | src/universal/editor.js:167-175 | an accepted command replaces the project, is logged, saved and can be undone; a refused one changes nothing |
| EditorSessions.EditorSession.SelectLayers | src/universal/editor.js:162-166 | only known layers are selected, each once |
| EditorSessions.EditorSession.ImportProject | src/universal/editor.js:198-207 | an inspected project for the same widget replaces the current one; an unreadable text or any other project is refused with nothing changed |
| EditorSessions.EditorSession.StepBack | src/universal/editor.js:181-187 | undo |
| EditorSessions.EditorSession.StepForward | src/universal/editor.js:188-194 | redo |
| EditorSessions.EditorSession.Persist | src/universal/editor.js:176-180 | the selection loses what is no longer there, and the project is saved |
| EditorSessions.RunIsSound | src/universal/editor.js:149-208 | over every run all projects in sight passed inspection, the stacks fit, the selection names existing layers once, and what was saved last is what is shown |
| EditorSessions.UndoRewinds | src/universal/editor.js:167-187 | undoing k of n accepted commands gives the project after n - k of them |
| EditorSessions.CommandsAreLogged | src/universal/editor.js:167-175 | the log grows by exactly the accepted commands, in order, and each is saved once |
| EditorSessions.UndoAllRedoAll | src/universal/editor.js:167-194 | as many commands as the capacity holds can all be undone and redone, project and stacks |
| CommandAcceptance.CommandsAreAcceptedExactly | src/universal/editor.js:79-148 | a command is accepted exactly if what it names exists, an inserted layer brings new ids and fits 1024 layers and 32 levels, and the project schema admits the result, which is the project asked for |
| CommandAcceptance.SelectionIsExact | src/universal/editor.js:162-166 | a selection is accepted exactly if all its layers exist, and holds each once |
| CommandAcceptance.ImportIsExact | src/universal/editor.js:198-207 | an import is accepted exactly if it passes inspection and both schemas and is for the very same widget, and can be undone |
| Editing.InsertThenRemove | src/universal/editor.js:121-132 | inserting a layer and removing it restores the project up to an opened list of children |
| Editing.InsertPlaces | src/universal/editor.js:121-129 | an inserted layer stands where the splice puts it among its siblings |
| Editing.RemoveDropsOneLayer | src/universal/editor.js:130-132 | a removal takes out one layer with everything below it |
| Editing.UpdateTouchesOneLayer | src/universal/editor.js:101-119 | a transform changes the fields of one layer and nothing about the tree |
| Editing.RemoveAndReorderKeepStructure | src/universal/index.js:222-239 | removing or reordering an existing layer never breaks unique ids, the nesting or the layer limit |
| Editing.ReorderBack | src/universal/editor.js:133-144 | reordering a layer back to its old position restores the project |
| LayerTrees.MoveTouchesOneList | src/universal/editor.js:133-144 | a reorder permutes one sibling list; every other list and every layer's fields stay |
| LayerTrees.MoveIds | src/universal/editor.js:133-144 | a reorder neither adds nor loses a layer |
| LayerTrees.OpenedOnlyOpens | src/universal/editor.js:126 | opening a list of children shows nowhere else |
| AppUpdate.UpdateState.Transition | crates/tiktools-app-update/src/state.rs:73-106 | the declared relation between phases, and that a refused change leaves the phase |
| AppUpdate.AppUpdater.Check | crates/tiktools-app-update/src/service.rs:143-169 | a check starts and drops what earlier ones left, or is refused with nothing changed |
| AppUpdate.AppUpdater.CheckEnded | crates/tiktools-app-update/src/service.rs:174-193 | what a finished check leaves |
| AppUpdate.AppUpdater.Download | crates/tiktools-app-update/src/service.rs:198-222 | a download starts or is retried, or is refused with nothing changed |
| AppUpdate.AppUpdater.DownloadReported | crates/tiktools-app-update/src/service.rs:233-245 | progress of a running download |
| AppUpdate.AppUpdater.DownloadVerifying | crates/tiktools-app-update/src/service.rs:246 | the download begins to be verified |
| AppUpdate.AppUpdater.DownloadEnded | crates/tiktools-app-update/src/service.rs:249-255 | a package is held for the downloaded release, or the download failed |
| AppUpdate.AppUpdater.PrepareInstall | crates/tiktools-app-update/src/service.rs:262-288 | the package and its release are taken out, once, or nothing changes |
| AppUpdate.AppUpdater.PlanEnded | crates/tiktools-app-update/src/service.rs:289-298 | a plan that cannot be made is a failure |
| AppUpdate.StepIsSound | crates/tiktools-app-update/src/service.rs:143-309 | every call and report keeps one job at most, packages with their release, shown data true and packages numbered |
| AppUpdate.StepIsPermitted | crates/tiktools-app-update/src/state.rs:73-106 | each step leaves the phase or changes it as the state type declares |
| AppUpdate.RunIsSafe | crates/tiktools-app-update/src/service.rs:143-309 | over every interleaving: one job at most, declared phase changes, ready packages that belong to the available release, no package handed out twice |
| AppUpdate.FailedDownloadCanBeRetried | crates/tiktools-app-update/src/service.rs:202-211 | a failed download keeps its release, and calling again starts it anew |
| AppUpdate.BusyRefusesCalls | crates/tiktools-app-update/src/service.rs:143-275 | while a job runs every call is refused |
| AppUpdate.CallsAreAcceptedExactly | crates/tiktools-app-update/src/service.rs:143-275 | a check is accepted exactly when nothing runs and nothing is being installed, a download when a release is on offer that is not held, an installation when a package is held |
| AppUpdate.UpdatesCanBeInstalled | crates/tiktools-app-update/src/service.rs:143-288 | from any moment without work an available release can be checked for, downloaded, verified and handed out |
| AppUpdate.PercentIsBounded | crates/tiktools-app-update/src/service.rs:239-243 | the percentage is between 0 and 100, and 100 when everything has arrived |

## Left out

- ValidatorsAgree.Agree: asks for plain schemas. They leave out the schemas of `SchemasDiffer`; keywords of unintended JSON types (a text for a limit, a number for `enum`) and references that pass through inherited properties or array lengths, on which JavaScript coerces or throws and the model leaves its answer open; and references to what registration never saw: `null`, zero, a text, a null property rule.
- ValidatorsDiffer.AgreementIsExact: is about texts that both sides parse. Numbers beyond the range of doubles, lone surrogates and nesting beyond 127 levels are errors of the native parser, and JavaScript reads the first as infinite. A value nested exactly 127 levels is left out because no schema that both sides parse can name it whole.
- Aggregation.RankEntries: sorts and then cuts, while the source first selects the best `limit` entries in linear time; entries with equal score and key stay in the order given, which the source leaves open.
- RankingIndex.RankingIndex.Update: keeps the ordered set as a sorted sequence, so logarithmic cost is not modelled.
- SyncSession.Session.Rebuild: takes the replies as functions of the call number and of what is asked for; sending, retrying and timeouts are replies that fail.
- StateStore.StateStore.Save: writing out and parsing the envelope is the identity on its contents; its length is a parameter.
- EditorSessions.EditorSession.ImportProject: starts from what was read from the text, if anything; decoding a project from JSON is not modelled. The save hook is the list of projects handed to it.
- EditorSessions.EditorHistory.constructor: a capacity below one is a precondition here, an exception in the source; copies are the identity on values.
- Editing.UpdateTouchesOneLayer: takes the numbers of a transform after snapping to the grid; the floating-point rounding is not modelled. Commands act on tree values, the source on a deep copy whose lists it splices in place.
- AppUpdate.AppUpdater.PrepareInstall: making the install plan is the report of a job, since it runs outside the lock; its contents are not modelled.
- AppUpdate.AppUpdater.Check: versions and installation kinds are reduced to what the build allows; notifications after the lock is released are not modelled.
- `canonical` on values that are not JSON (undefined, functions, infinities), which it rejects with an exception.
- The native parser is taken to round numbers that are no 64-bit integers to the nearest double, as JavaScript does; its fast path can miss the last digit.
- Order and wording of validation messages; patterns, number comparison and calendar checks of event timestamps.
- Rules about layer assets and everything else in the project schema, which is one predicate of the whole project.
- Preset import and export, manifest migration, the event router, widget runtime, layout and transport code.
- Diagnostics, listings of definitions and of sources in use, and read-only lookups by id.
- `score_routed`, which computes a score without changing state, and the metrics catalogue.
- Account export, deletion blockers, login, logout, key storage and the sync coordinator around the client.
- Fetching and verifying update metadata and packages, channels and platform installation.
- HTTP, sockets, TLS, file locking and flushing, randomness and serialization formats.

# Verified model of the event intelligence and live betting core

A Dafny model of the parts of the system whose correctness spans many steps: rating replay, ingest
attempts, database sessions, stored odds, live results, draft evidence and relocation audits.

- **Team Rating** (`TeamRating`, `ReplayOrder`, `Chronology`, `Replay`, `TrainingReplay`, `Rebuild`,
  `RatingBounds`, `RatingMeaning`). The Elo-style fold with inactivity decay and roster carry, the canonical
  orders, the chronology guard, the frozen seed and its rebuild. Times are integers (microseconds) and ratings
  are reals; `exp`, the power and the sigmoid are the functions of a record. Its predicate `Lawful` states
  the ranges and the symmetry that the bounds and the side symmetry use; `RatingMeaning` adds the laws of the
  logistic function and of half-lives where it says what a rating means. Order and split independence use
  no law at all.
- **Ingest attempts** (`Facts`, `IngestProtocol`, `IngestFencing`, `IngestVersions`, `IngestMeaning`,
  `RetryBudget`). The row of one match under begin, success, failure and scope-rejection transactions of any
  workers, each transaction one atomic step; the readiness assessment that decides what is stored.
- **Database session** (`TransactionSemantics`, `TransactionRuns`, `Session`, `Binder`). Nested
  transaction blocks over one connection and its savepoints, against a snapshot meaning; the placeholder
  scanner against an automaton.
- **Stored odds** (`LeftJoins`, `OddsVerifier`, `OddsIdentity`, `IdentityMeaning`). One-pass grouping of sorted
  join rows, the merge of artifacts with the states they back, and the identity of a response.
- **Live results** (`RaybetFinal`, `RaybetParse`, `RaybetSymmetry`, `RaybetMeaning`, `MapState`,
  `SeriesMeaning`). The result of one map read from an odds response, specified on multisets of evidence, and
  the map a live series is playing.
- **Draft evidence** (`VisionDrafts`, `DraftCausality`, `DraftMeaning`). The gate that trusts an anchored draft,
  and what evidence after a cutoff can do to it.
- **Relocation audits** (`Relocations`, `FrameAudit`, `FrameRegistry`, `FrameRuns`, `FrameOverlaps`,
  `FrameConstraints`, `RegistryMeaning`, `RawAudit`, `RawRegistry`, `RawMeaning`). Append-only relocations of
  vision frames and raw artifacts, with the reading part and the writing transaction of a call as separate
  steps that other workers may come between.

The modules named `...Meaning` say what results, states and rows mean in terms of the input alone, without the
functions that compute them. `Ordering` and `TextOrder` hold sorting and the order of text, `OrderMeaning` what is
listed in which order; `Wrappers` holds the usual option and result. `dafny verify dfyconfig.toml` checks the project.

## Where the code does less than is claimed for it

Each item names the lemma with the exact condition, and the run that shows the failure where there is one.

- *Causality of the training replay* holds exactly when the added rows agree among themselves
  (`TrainingReplay.LaterRowsHaveNoInfluence`): conflicting rows refuse the corpus even when none of them is
  eligible (`TrainingReplay.ConflictingLaterRowsRefuseTheCorpus`).
- *A connection is held exactly while a block is open* if and only if the program writes nothing outside
  every block (`TransactionRuns.HeldExactlyInBlocksIff`); after such a write a later block's normal
  exit makes nothing durable (`TransactionRuns.WriteOutsideDefersLaterBlocks`).
- *A block that ends normally keeps its data* exactly when its transaction is alive
  (`TransactionSemantics.BlockIsAllOrNothing`): one that swallows a statement the server rejected ends
  normally and keeps nothing (`TransactionSemantics.SwallowedRejectionLosesTheBlock`).
- *Fencing without the generation* holds exactly unless the latest begin has the count and the time of the
  late attempt (`IngestFencing.UnfencedIsCurrentIff`), so begins at distinct times fence and begins at one
  time do not (`IngestFencing.CountAndTimeAloneDoNotFence`).
- *The draft gate is not causal in conflict rows*: rows that agree with the anchor hide its draft only until
  some row contradicts it, and that row may be later than the cutoff (`DraftCausality.LaterConflictsAreHarmlessIff`,
  `DraftCausality.ALaterConflictCanReveal`). In observations and invalidations it is causal.
- *A retired frame's path is frozen* when calls do not overlap. The transaction of a relocation does not look
  for a retirement again, and the transaction of a retirement does not compare the path again
  (`FrameRuns.MoveKeepsRetirementsIff`, `FrameRuns.RetirementKeepsRetirementsIff`), so two overlapping calls can
  leave a retirement that its own audit refuses (`FrameOverlaps`). The chains of relocations hold under
  every interleaving.
- *A relocation of raw artifacts* that is accepted by every check still fails when a destination is held by
  another artifact that has not moved before it in the order of ids (`RawRegistry.PlanSucceedsIff`), so
  two artifacts cannot exchange paths.

Two bounds are sharper than the code suggests: with one processor a match is normalized at most ten times, and
ten are reached, since all four scores follow the missing set; and due-driven polling attempts it at most
six times, and six are reached.

## Model

| member | source | states |
|---|---|---|
| TeamRating.RosterContinuity | event_intelligence/team_rating.py:447-455 | the carry of a roster lies between zero and one, and is unknown exactly when either roster is empty |
| TeamRating.CanonicalRatingStates | event_intelligence/team_rating.py:395-415 | succeeds exactly when no team has two different states, and then holds exactly the given states |
| TeamRating.UpdateTeamRatings | event_intelligence/team_rating.py:562-613 | the sorted states after one row are those of the pure update, and it fails only on conflicting states or a map that starts before a team was last observed |
| TeamRating.FoldAppend | event_intelligence/prospective_team_rating.py:215-221 | replaying two runs of rows one after the other is replaying their concatenation, failures included |
| ReplayOrder.DisjointMapsCommute | event_intelligence/team_rating.py:562-613 | the updates of two maps without a common team commute, failures included |
| ReplayOrder.ReplayDependsOnTeamOrdersOnly | event_intelligence/prospective_team_rating.py:182-221 | two lists in which every team sees the same maps in the same order replay to the same states |
| ReplayOrder.TieBreaksCannotChangeRatings | event_intelligence/prospective_team_rating.py:150-151 | any two orders of the same rows that keep each team's own maps in start order replay to the same states |
| ReplayOrder.SideSwapSymmetry | event_intelligence/team_rating.py:434-444 | exchanging the ratings and negating the side advantage gives the complementary probability |
| ReplayOrder.ReplayIsSideSymmetric | event_intelligence/team_rating.py:562-613 | listing every map with its sides exchanged, with the side advantage negated, replays to the same states |
| Chronology.Deduplicated | event_intelligence/prospective_team_rating.py:163-178 | the loop accepts exactly the admissible lists and otherwise reports the fault of the first value that has one |
| Chronology.CanonicalAuthoritativeResults | event_intelligence/prospective_team_rating.py:154-179 | succeeds exactly on admissible results and lists each of them once in result order |
| Chronology.ChronologicalIffNoOverlap | event_intelligence/prospective_team_rating.py:194-203 | in replay order no map starts before an earlier one of its teams is completed, if and only if no two results that share a team overlap in time |
| Chronology.GuardStepIsExact | event_intelligence/prospective_team_rating.py:196-203 | comparing a map with each team's last completion is as good as comparing it with all earlier maps |
| Chronology.ChronologyGuard | event_intelligence/prospective_team_rating.py:195-204 | the guard's single pass accepts exactly the chronological lists |
| Chronology.CanonicalReplayResults | event_intelligence/prospective_team_rating.py:182-204 | the list is refused exactly on a conflict or an overlap, and otherwise holds each result once in replay order |
| Chronology.AdmittedIffInTime | event_intelligence/prospective_team_rating.py:166-173 | a result is admitted exactly when it is not of the target map and became usable in the window, and each refusal has its own cause |
| Replay.ReplaySucceedsIffChronological | event_intelligence/team_rating.py:470-473 | a replay meets no cutoff before a last observation if and only if the order is chronological, and each team was last observed at its last completion |
| Replay.RatingNeverPrecedesObservation | event_intelligence/team_rating.py:470-473 | after an accepted replay a team can be rated at every cutoff at or after all usable times |
| Replay.ReplayTeamRatingResults | event_intelligence/prospective_team_rating.py:207-221 | succeeds exactly on consistent results without overlap usable by the cutoff, names the failure otherwise, and replays them |
| Replay.ReplayDependsOnResultsOnly | event_intelligence/prospective_team_rating.py:207-221 | order and repetition of the input change neither the replay order nor the states |
| TrainingReplay.CanonicalTrainingCorpus | event_intelligence/team_rating.py:616-646 | fails exactly on conflicting rows and otherwise lists each eligible row once in corpus order |
| TrainingReplay.ReplayTeamRatings | event_intelligence/team_rating.py:666-680 | replays the corpus of the rows from no states, with each row's own usable time as cutoff |
| TrainingReplay.LaterRowsHaveNoInfluence | event_intelligence/team_rating.py:616-680 | adding consistent rows of new matches that are not usable by the cutoff changes neither corpus nor states |
| TrainingReplay.ConflictingLaterRowsRefuseTheCorpus | event_intelligence/team_rating.py:625-629 | two conflicting rows make the corpus fail although neither is eligible |
| Rebuild.BuildSeed | event_intelligence/prospective_team_rating.py:285-350 | a seed is built exactly from causal times and admissible results without overlap, and is then frozen |
| Rebuild.VerifySeed | event_intelligence/prospective_team_rating.py:371-381 | a seed verifies exactly when it is what its own manifest replays to |
| Rebuild.RebuildState | event_intelligence/prospective_team_rating.py:384-414 | succeeds exactly on a frozen seed with acceptable results, and replays manifest and results together |
| Rebuild.RebuildIgnoresTheSplit | event_intelligence/prospective_team_rating.py:384-414 | any two accepted divisions of the same results, in any order and with repeats, rebuild the same order and states |
| Rebuild.ManifestAndAppliedAreApart | event_intelligence/prospective_team_rating.py:397-408 | in an accepted rebuild every applied result is usable later than, and of another match than, every seed result |
| Rebuild.RebuildEqualsTrainingReplay | event_intelligence/team_rating.py:666-680 | the rebuilt order and states are those of the training replay on the same rows |
| Rebuild.RebuildContinuesSeedStates | event_intelligence/prospective_team_rating.py:403-413 | when each team's applied maps start after its seed maps, the rebuild is the seed's states continued with the applied maps |
| Rebuild.AcceptableIffInTime | event_intelligence/prospective_team_rating.py:384-414 | a rebuild accepts exactly results that agree, do not overlap, are not of the target map, are usable by the cutoff, and of which the applied ones became usable after the seed |
| RatingBounds.MapsSeenAreTwicePerResult | event_intelligence/team_rating.py:599-612 | the maps seen by all teams sum to twice the number of results |
| RatingBounds.DeviationsAreConserved | event_intelligence/team_rating.py:597-612 | without decay and rosters the deviations from the initial rating keep their sum |
| RatingBounds.EffectiveRatingKeepsBound | event_intelligence/team_rating.py:458-484 | decay and roster carry leave a rating within its bound |
| RatingBounds.RatingsStayWithinK | event_intelligence/team_rating.py:562-613 | in every reachable state a team is within the factor k per map seen of the initial rating |
| RatingBounds.FromNoStates | event_intelligence/team_rating.py:597-612 | from no states the maps seen are two for each result, and without decay and rosters the deviations add up to zero |
| RatingMeaning.WinnerGainsWhatTheLoserLoses | event_intelligence/team_rating.py:596-612 | a result that counts gives its winner k times one minus the probability it had and takes the same from the loser, and both have one more map with the players they fielded |
| RatingMeaning.WinnersRise | event_intelligence/team_rating.py:596-612 | the winner ends strictly above the rating it started with and the loser strictly below |
| RatingMeaning.OthersStayAsTheyAre | event_intelligence/team_rating.py:573-613 | no other team changes, and a result that is unknown or usable only later changes none |
| RatingMeaning.HalfLifeHalves | event_intelligence/team_rating.py:470-480 | after one half-life without a map half of the deviation from the initial rating is left |
| RatingMeaning.RatingInBetweenChangesNothing | event_intelligence/team_rating.py:470-480 | idle times add up: going on from a rating taken in between gives the same rating later |
| RatingMeaning.RostersCarryRatings | event_intelligence/team_rating.py:480-484 | a team that fields nobody it had before starts over; with the same or unknown players nothing is lost |
| RatingMeaning.EveryPlayerCarriesAFifth | event_intelligence/team_rating.py:447-455 | each player replaced by a new one takes a fifth of the carry |
| RatingMeaning.NewTeamsStartAtTheInitialRating | event_intelligence/team_rating.py:487-488 | a team without a state is rated at the initial rating and has seen no map |
| RatingMeaning.HigherRatedWinMoreOften | event_intelligence/team_rating.py:434-444 | the probability of a side grows with its rating and falls with the rating of the other |
| RatingMeaning.LeadOfOneScaleIsTenToOne | event_intelligence/team_rating.py:443-444 | without a side advantage equal teams are even and a lead of one scale is ten to one |
| RatingMeaning.SideAdvantageIsALead | event_intelligence/team_rating.py:443-444 | the side advantage is worth a fixed lead of the radiant team |
| RatingMeaning.StatesTellOfEachTeam | event_intelligence/team_rating.py:599-612 | after every replay the state of a team has its number of maps and the players and completion of its last one, and there is no other state |
| OrderMeaning.StatesComeByTeam | event_intelligence/team_rating.py:415 | states are listed by increasing team id |
| OrderMeaning.ResultsComeAsTheyBecameUsable | event_intelligence/prospective_team_rating.py:154-179 | admitted results are listed as they became usable, then as they started, then by match |
| OrderMeaning.ResultsAreReplayedAsTheyStarted | event_intelligence/prospective_team_rating.py:150-151 | they are replayed as they started, then as they were completed, then by match |
| OrderMeaning.CorpusIsWhatWasUsable | event_intelligence/team_rating.py:630-646 | the corpus is the rows whose result was usable by the cutoff, as they started |
| Facts.MissingIffFailed | event_intelligence/ingest.py:227-233 | a reason is reported missing exactly when the evidence fails it |
| Facts.StatusesOf | event_intelligence/facts.py:461-514 | each component's status in terms of what the evidence fails, and when a team state is unscorable |
| Facts.CompleteIffNothingMissing | event_intelligence/ingest.py:219-240 | a detail is complete exactly when nothing is missing, and retryable otherwise |
| Facts.UnscorableStateIsRetried | event_intelligence/facts.py:490-514 | an unscorable team state always comes with a retryable component, and the match is retried |
| Facts.LessMissingIsMoreReady | event_intelligence/ingest_adapters.py:600-603 | evidence that misses no more scores no component lower |
| Facts.MissingDeterminesStatuses | event_intelligence/facts.py:461-514 | the compared statuses depend on the missing set alone |
| IngestProtocol.IngestStore.RecordDiscoveredMatch | event_intelligence/ingest_adapters.py:202-232 | a match in scope is created fresh once for its event and otherwise left alone, and one of another event is refused |
| IngestProtocol.IngestStore.BeginIngestAttempt | event_intelligence/ingest_adapters.py:398-426 | hands out the attempt that the row now holds, with the fallback retry already planned |
| IngestProtocol.IngestStore.RecordIngestSuccess | event_intelligence/ingest_adapters.py:428-598 | the outcome and the whole new row of a success, and no other row changes |
| IngestProtocol.IngestStore.RecordIngestFailure | event_intelligence/ingest_adapters.py:690-719 | a failure of the current attempt plans what it reports and keeps a review; any other changes nothing |
| IngestProtocol.IngestStore.RecordScopeRejection | event_intelligence/ingest_adapters.py:355-396 | a rejection by the current attempt sends the match to review without retry; any other changes nothing |
| IngestProtocol.IngestStore.ListDueMatchIds | event_intelligence/ingest_adapters.py:721-741 | lists, once each and by increasing id, exactly the matches with a planned retry that has come |
| IngestFencing.IssuedGenerations | event_intelligence/ingest_adapters.py:409-426 | the attempts of a run carry consecutive new generations |
| IngestFencing.OnlyTheLatestGenerationWrites | event_intelligence/ingest_adapters.py:453-461 | a fenced write changes the row only under the row's own generation |
| IngestFencing.SupersededAttemptsAreInvisible | event_intelligence/ingest_adapters.py:365-461 | leaving out every write of superseded attempts from any run gives the same row |
| IngestFencing.TwoWorkers | event_intelligence/ingest_adapters.py:398-426 | once a second worker has begun, every interleaving ends as if the first had stopped |
| IngestFencing.UnfencedIsCurrentIff | event_intelligence/ingest_adapters.py:453-460 | after any run, a report without a generation is taken as current exactly when the latest begin has its count and time and no complete success has come since; otherwise every report of the attempt is ignored |
| IngestFencing.DistinctBeginTimesFence | event_intelligence/ingest_adapters.py:365-460 | when later begins are at other times, an earlier attempt is ignored even without a generation |
| IngestFencing.CountAndTimeAloneDoNotFence | event_intelligence/ingest_adapters.py:696-716 | in a run of three begins at one time, the first failure report of the first worker changes the row without its generation, and not with it |
| IngestFencing.RejectionOutlivesItsFailureReport | event_intelligence/ingest.py:413-491 | the failure report that follows a scope rejection leaves the match in review and not due |
| IngestVersions.AcceptanceComparesMissingSets | event_intelligence/ingest_adapters.py:605-647 | comparing scores and missing sets accepts exactly strictly less missing, or the same with another processor, and holds the rest that differs in nothing for review |
| IngestVersions.ScoredDetailIsStoredDetail | event_intelligence/ingest_adapters.py:526-530 | the detail status scored for a version is the one stored for it |
| IngestVersions.AcceptedVersionsOnlyImprove | event_intelligence/ingest_adapters.py:605-647 | over every run no stored score drops and the missing set never grows |
| IngestVersions.NormalizationsAreBounded | event_intelligence/ingest_adapters.py:537-598 | normalizations are at most the row's budget and the replacements of another processor's version |
| IngestVersions.AtMostTenNormalizations | event_intelligence/ingest_adapters.py:537-598 | with one processor a discovered match is normalized at most ten times |
| IngestVersions.TenNormalizationsAreReached | event_intelligence/ingest.py:439-466 | the bound of ten is reached by a run in which every payload has a new hash and is reported as unchanged exactly when hash and processor are those of the row |
| IngestMeaning.TakenReportsSettleTheMatch | event_intelligence/ingest_adapters.py:463-598 | on every run a report that is taken leaves the match detailed exactly when the version then stored misses nothing, and to be retried exactly when it misses something |
| IngestMeaning.SettledByDetail | event_intelligence/ingest_adapters.py:469-535 | whatever is reported, the detail status then stored decides whether the match is detailed, in review or to be retried |
| IngestMeaning.StoredVersionIsTheReport | event_intelligence/ingest_adapters.py:526-598 | a stored version says what its evidence lacks and how far each component can be used; it is retried at the delay of its attempt unless nothing is missing |
| IngestMeaning.NeitherCompleteNorRetriedIsReviewed | event_intelligence/ingest_adapters.py:526-535 | a stored version that is neither complete nor retryable goes to review |
| IngestMeaning.ReplacedIffNoWorse | event_intelligence/ingest_adapters.py:605-647 | whatever is stored, a changed report replaces it exactly when no score drops, nothing more is missing, and something improves or the processor is another one |
| IngestMeaning.VersionsAreCounted | event_intelligence/ingest_adapters.py:564-573 | over every run the version number counts the normalizations, and the first usable time is never replaced |
| IngestMeaning.FirstUsableIsDated | event_intelligence/ingest.py:427-456 | the first usable time is set by the first stored version with a parsed source and a basic result |
| IngestMeaning.WithoutFactsNothingIsReplaced | event_intelligence/ingest_adapters.py:616-617 | a changed report without facts replaces no stored version and is not held for review |
| RetryBudget.AtMostSixAttempts | event_intelligence/scheduler.py:29-35 | due-driven polling attempts a discovered match at most six times, however attempts end |
| RetryBudget.ResetLeavesNothingDue | event_intelligence/ingest_adapters.py:465-483 | a due-driven begin raises the retry count, and a reset to zero leaves nothing due |
| RetryBudget.AbandonedAttemptFallsDue | event_intelligence/ingest_adapters.py:409-425 | a match whose worker dies is due again exactly at its fallback time, or never after the sixth attempt |
| RetryBudget.SixAttemptsAreReached | event_intelligence/ingest.py:478-491 | the bound of six is reached |
| RetryBudget.SixthAttemptComesAfterFourDays | event_intelligence/scheduler.py:29-35 | a match that fails each time is attempted for the sixth time 103 hours and a quarter after the first |
| RetryBudget.RetriesWaitLonger | event_intelligence/scheduler.py:29-35 | the first retry comes after a quarter of an hour and each later one waits longer |
| TransactionSemantics.InsideABlock | database/session.py:216-239 | inside a block a program touches nothing but the pending data, and how it ends and whether it leaves the transaction aborted do not depend on the data |
| TransactionSemantics.BlockIsAllOrNothing | database/session.py:216-239 | every block that raises restores what it found; one that ends normally keeps its data exactly when its transaction is alive, and else keeps nothing or raises |
| TransactionSemantics.BlockRefinesSnapshot | database/session.py:216-239 | inside a block whose handlers catch no rejection of their own block, a program acts on the data as its snapshot meaning says |
| TransactionSemantics.IdleSessionRefinesSnapshots | database/session.py:216-239 | from an idle session, a program that writes only in blocks, and whose blocks let rejections out, makes its snapshot meaning durable and ends idle |
| TransactionSemantics.NeverRejectedLetsOut | database/session.py:216-239 | every program of writes, raises, catches and blocks without rejected statements meets that condition |
| TransactionSemantics.WithoutHandlersLetsOut | database/session.py:216-239 | so does every program that catches nothing, whatever is rejected in it |
| TransactionSemantics.SwallowedRejectionLosesTheBlock | database/session.py:226-239 | a block that swallows a rejection ends normally and keeps nothing |
| TransactionSemantics.DepthIsRestored | database/session.py:227-239 | every program leaves the number of open blocks as it was, and no data become durable inside a block |
| TransactionRuns.DurableOnlyAtOutermostExit | database/session.py:226-239 | in every run of every program data become durable only at a normal exit of an outermost block whose transaction is alive |
| TransactionRuns.HeldExactlyInBlocksIff | database/session.py:112-139 | a connection is held exactly while a block is open if and only if no write runs outside every block |
| TransactionRuns.WriteOutsideDefersLaterBlocks | database/session.py:218-239 | after a write outside every block, nothing that a later block does is durable when it ends |
| TransactionRuns.RejectionKeepsOnlyTheDurable | database/session.py:172-179 | a rejection outside every block leaves of what came before it only what was durable, and no connection |
| TransactionRuns.RejectionLosesImplicitWrites | database/session.py:112-179 | so writes outside every block are lost with it: a program that catches the rejection goes on as if it had never written |
| Session.PostgresSession.ExecuteWrite | database/session.py:112-139 | a write acts on the held connection, or on a new one that stays held; in an aborted transaction it is refused |
| Session.PostgresSession.ExecuteRejected | database/session.py:112-139 | a rejected write discards an implicit connection and leaves a block's transaction aborted |
| Session.PostgresSession.DiscardFailedImplicitConnection | database/session.py:172-179 | only an implicit connection is rolled back, closed and let go |
| Session.PostgresSession.Transaction | database/session.py:216-239 | a block over the mutable connection, its aborted state and its savepoints ends in the view that the semantics gives |
| Session.PostgresSession.Run | database/session.py:91-239 | every program leaves the session in the view that the semantics gives |
| Session.RunFromIdle | database/session.py:216-239 | a program that writes only in blocks, and whose blocks let rejections out, leaves its snapshot meaning durable and the session idle |
| Binder.BindParameters | database/session.py:242-281 | the scanner with its doubled-quote lookahead replaces exactly what the quote-toggling automaton says, and fails exactly on differing counts |
| Binder.BindingCanBeUndone | database/session.py:251-281 | mapping the placeholders back gives the original statement |
| Binder.EachValueHasOnePlace | database/session.py:269-275 | every value is bound to one placeholder, which stands where its question mark stood |
| Binder.BatchSqlIsConsistentIff | database/session.py:148-154 | rows of one batch give the same SQL text exactly when all of them, or none, have parameters |
| Binder.QuotedTextHasNoParameters | database/session.py:257-271 | text in single or double quotes holds no parameters; before it every question mark is one, and what follows is read as a statement of its own |
| Binder.OpenQuotationHasNoParameters | database/session.py:257-268 | a quotation that is never closed holds none either |
| Binder.NamesTellPlaceholdersApart | database/session.py:274-276 | a placeholder is rendered as a colon, a p and its number in decimal digits |
| LeftJoins.Groups | live_betting/odds_response_verifier.py:84-100 | the pass that keeps a key, its metadata and its members groups the rows into runs of equal keys |
| LeftJoins.GroupingInvertsLeftJoin | live_betting/odds_response_verifier.py:66-100 | grouping the rows of a left join gives back each entity once with exactly its members, none included |
| OddsVerifier.VerifyStates | live_betting/odds_response_verifier.py:166-184 | accepts exactly when every group verifies and no two share a v2 identity, and counts the groups |
| OddsVerifier.StreamedStatesAreAllChecked | live_betting/odds_response_verifier.py:66-100 | the streaming check of the joined rows is the plain check of the states, each with its own outcomes |
| OddsVerifier.ArtifactStateItems | live_betting/odds_response_verifier.py:320-371 | the pair generator yields the verified pairs in order up to the first failure |
| OddsVerifier.VerifyArtifacts | live_betting/odds_response_verifier.py:458-503 | the merge with one pending pair accepts exactly when every file and every pair verifies and every referenced artifact exists |
| OddsVerifier.VerifyStoredArtifacts | live_betting/odds_response_verifier.py:320-503 | grouping and merging together accept exactly when the plain check of the tables does |
| OddsVerifier.VerifiedIdentitiesAreUnique | live_betting/odds_response_verifier.py:166-184 | in verified states a v2 identity belongs to one state only |
| OddsVerifier.ItemsSayWhatIsWrong | live_betting/odds_response_verifier.py:320-371 | a pair gives its artifact and the state's authority, or names what is missing or invalid |
| OddsIdentity.CanonicalStateOutcomes | live_betting/odds_response_authority.py:54-119 | succeeds exactly on valid responses and lists their members in strict order of odds id; otherwise reports the fault of the first outcome that has one, in the order of the checks |
| OddsIdentity.IdentityIffPermutation | live_betting/odds_response_authority.py:122-138 | two valid responses have the same v2 manifest if and only if they are permutations after normalization |
| OddsIdentity.LegacyKeepsTheOrder | live_betting/odds_response_authority.py:146-150 | sorting the v1 tuples as tuples keeps the order of the canonical members |
| OddsIdentity.LegacyIdentityIffPermutation | live_betting/odds_response_authority.py:141-157 | two valid responses have the same v1 manifest if and only if their v1 tuples are permutations of each other |
| OddsIdentity.V2IsV1AndTheRest | live_betting/odds_response_authority.py:122-157 | two v2 manifests are equal if and only if the v1 manifests are and the members agree on what v1 leaves out, the absence of a status included |
| OddsIdentity.SameV2GivesSameV1 | live_betting/odds_response_authority.py:141-157 | so equal v2 manifests give equal v1 manifests |
| OddsIdentity.SameV1MayDifferInV2 | live_betting/odds_response_authority.py:141-157 | two responses share a v1 manifest and differ in v2 |
| OddsIdentity.CanonicalIsIdempotent | live_betting/odds_response_authority.py:54-119 | canonicalizing a canonical response changes nothing |
| IdentityMeaning.ValidIsWellFormed | live_betting/odds_response_authority.py:62-101 | which values each of the eleven fields of an outcome may have |
| IdentityMeaning.FaultsAreInOrder | live_betting/odds_response_authority.py:71-101 | each fault of the fields has its cause, and the first in the order of the checks is reported |
| IdentityMeaning.MembersKeepTheirFields | live_betting/odds_response_authority.py:103-119 | every outcome has a canonical member with its texts, its numbers by value and null exactly where it was null, and every member is of an outcome |
| IdentityMeaning.SameIdentityIffSameFields | live_betting/odds_response_authority.py:122-138 | two responses share their v2 identity exactly when each has the outcomes of the other, field by field |
| IdentityMeaning.SingleOutcomesAreToldApart | live_betting/odds_response_authority.py:103-138 | single outcomes are told apart by each of the eleven fields, with a whole and a decimal number of one value counted as equal |
| IdentityMeaning.LegacyTellsFourFieldsApart | live_betting/odds_response_authority.py:141-157 | the v1 identity of single outcomes looks at id, price, status and update, and reads a null status as the text None |
| OrderMeaning.MembersComeById | live_betting/odds_response_authority.py:118 | canonical members are listed by odds id, as text |
| OrderMeaning.TextIsAlphabetical | live_betting/odds_response_authority.py:118 | text is ordered by its first different character, and a beginning comes before the whole |
| RaybetFinal.InspectGroup | live_betting/raybet.py:239-274 | one pass over a group's rows finds it invalid, unsettled or settled as its multiset of rows says |
| RaybetFinal.CollectGroups | live_betting/raybet.py:220-235 | every row of a named group is kept in its group, with its multiplicity |
| RaybetFinal.ParseMarkets | live_betting/raybet.py:237-322 | the loops with early returns compute the result that the multiset of rows determines |
| RaybetParse.ParseRaybetMapFinal | live_betting/raybet.py:132-322 | the whole parse is the result that the unordered evidence determines, and refuses only map numbers that are not positive |
| RaybetParse.FinalIsDetermined | live_betting/raybet.py:132-322 | a response has at most one result for a map |
| RaybetParse.OrderOfListsIsIrrelevant | live_betting/raybet.py:172-322 | reordering the team list or the odds list changes nothing in the result |
| RaybetSymmetry.ParsingIsSymmetric | live_betting/raybet.py:176-322 | exchanging the team positions and the expected ids exchanges the sides of the result and nothing else |
| RaybetSymmetry.ConfirmedHasOneWinner | live_betting/raybet.py:132-322 | the result of a whole response names a winner exactly when confirmed, and then every settled group of the identified teams and any score winner agree on it |
| RaybetMeaning.ScoreNamesTheWinner | live_betting/raybet.py:195-216 | the score winner of an identified response is exactly the position whose entry has a one for the map while the other has a zero |
| RaybetMeaning.MarketNamesTheWinner | live_betting/raybet.py:237-322 | it is confirmed for a position exactly when its team, and not the other, won two settled rows of one group, the scores do not name the other, and scores and markets are valid |
| RaybetMeaning.ResultFollowsFromFacts | live_betting/raybet.py:195-322 | status, winners and the reason for waiting follow from three facts about the scores and three about the markets |
| RaybetMeaning.OthersNameNobody | live_betting/raybet.py:152-193 | a response that is not of two identified and expected teams names no side and confirms nothing |
| RaybetMeaning.SelectionsAreSettledRows | live_betting/raybet.py:275-290 | a recorded selection is a settled row of one of the two teams, won or lost as recorded |
| RaybetMeaning.PaidOutRowsAreRecorded | live_betting/raybet.py:275-305 | when the markets have a winner, the rows of both teams in a settled group are recorded |
| RaybetMeaning.WrongHeadersAreRefused | live_betting/raybet.py:152-163 | a response of another match or game is refused for that, and one without a team list is pending |
| MapState.InferCurrentMapNumber | live_betting/raybet_state.py:104-128 | the loop over parsed maps gives the answer that the first maps of the response determine |
| MapState.NamedIffFirstUndecided | live_betting/raybet_state.py:115-125 | a map is named exactly when it is the first undecided one and no side had a majority before it |
| MapState.NoneNamedIffOver | live_betting/raybet_state.py:126-128 | no map is named exactly when a side reached its majority, or an even series is decided and drawn |
| MapState.RunningOutIsADraw | live_betting/raybet_state.py:113-128 | the maps run out with nobody ahead only in an even series with equal wins |
| MapState.CurrentMapIsUnique | live_betting/raybet_state.py:104-128 | a response has one answer |
| MapState.CurrentMapIsSideSymmetric | live_betting/raybet_state.py:104-128 | naming the teams the other way round does not move the series to another map |
| SeriesMeaning.MapsCountForTheNamed | live_betting/raybet_state.py:115-124 | a map makes the inference fail exactly when scores or markets are invalid or name both teams, and otherwise counts for the team that either names: a score decides a map without a settled market |
| SeriesMeaning.NamedIffBeingPlayed | live_betting/raybet_state.py:104-128 | a map is named exactly when it names nobody, every map before it names exactly one team, and no team was named by more than half of the series |
| VisionDrafts.LatestInvalidation | live_betting/postmatch_monitor.py:804-815 | finds a damaged time exactly when there is one, and otherwise the latest invalidation by the cutoff |
| VisionDrafts.GroupConflicts | live_betting/postmatch_monitor.py:712-714 | the grouped conflicts of a map are its conflicts in order |
| VisionDrafts.PassesGate | live_betting/postmatch_monitor.py:715-843 | the loops show an anchor's draft exactly when no effective conflict stands and an observation outlives every invalidation |
| VisionDrafts.VisionDrafts | live_betting/postmatch_monitor.py:675-844 | the result holds for each map exactly the drafts of its anchors that are shown at the map's cutoff |
| DraftMeaning.ReturnedIffVouched | live_betting/postmatch_monitor.py:675-844 | a draft is returned exactly when an anchor fixes it, with the heroes of its radiant and dire lists and its side, no row stands against it, and an observation that was never invalidated saw it |
| DraftMeaning.WitnessesSawTheLists | live_betting/postmatch_monitor.py:830-841 | that observation saw the same two lists on the same sides |
| DraftCausality.NoInfluenceAfterCutoff | live_betting/postmatch_monitor.py:804-827 | observations and invalidations captured after the cutoff decide nothing about a draft |
| DraftCausality.DraftsOfAMapAreCausal | live_betting/postmatch_monitor.py:675-844 | the drafts returned for a map with a cutoff do not depend on observations and invalidations after it |
| DraftCausality.DamageHides | live_betting/postmatch_monitor.py:806-814 | one invalidation with a damaged time hides the map's draft at any cutoff |
| DraftCausality.ShownDraftsAreCausal | live_betting/postmatch_monitor.py:721-843 | a shown draft has anchor, sides and a supporting observation in this order by the cutoff, later than every invalidation by it, and every contradicting conflict is later |
| DraftCausality.LaterConflictsIff | live_betting/postmatch_monitor.py:740-764 | conflicts after the cutoff leave the verdict alone exactly unless agreeing rows alone hide the draft and a later row contradicts it |
| DraftCausality.LaterConflictsAreHarmlessIff | live_betting/postmatch_monitor.py:740-764 | the same condition decides whether later conflicts change what the whole gate shows |
| DraftCausality.ALaterConflictCanReveal | live_betting/postmatch_monitor.py:752-764 | a conflict after the cutoff shows a draft that was hidden at it |
| FrameAudit.FollowRelocations | live_betting/vision_frame_registry.py:235-266 | the loop over the rows ends at the path they lead to, or refuses them |
| FrameAudit.WalkIffLinked | live_betting/vision_frame_registry.py:244-266 | the audit passes exactly on rows numbered from one that link path to path, and ends at the last path |
| FrameAudit.AcceptedMoveIsNext | live_betting/vision_frame_registry.py:523-564 | a relocation that the tables accept, however old its plan, is the next row of its frame |
| FrameAudit.MovesKeepChains | live_betting/vision_frame_registry.py:522-564 | an accepted plan keeps every chain linked and rewrites nothing |
| FrameAudit.MovesDoWhatIsPlanned | live_betting/vision_frame_registry.py:522-564 | an accepted plan gives each of its frames its one row and leaves all others alone |
| FrameRegistry.PlanRelocations | live_betting/vision_frame_registry.py:486-519 | the reading part succeeds exactly on movable frames with distinct destinations and plans those that move |
| FrameRegistry.Registry.RegisterArtifact | live_betting/vision_frame_registry.py:299-329 | inserts exactly when nothing conflicts and reports what the tables then say |
| FrameRegistry.Registry.CommitRelocations | live_betting/vision_frame_registry.py:520-565 | all planned rows are written or none |
| FrameRegistry.Registry.RelocateArtifacts | live_betting/vision_frame_registry.py:450-565 | a whole call writes exactly what it planned, or nothing |
| FrameRegistry.Registry.VerifyRegistered | live_betting/vision_frame_registry.py:332-354 | succeeds exactly for a frame that passes its audits, is not retired and has its file |
| FrameRegistry.Registry.RetireArtifact | live_betting/vision_frame_registry.py:568-621 | a whole call succeeds exactly for a frame that may be retired, and then writes one retirement at the path it has; otherwise nothing |
| FrameRegistry.Registry.VerifyRegistry | live_betting/vision_frame_registry.py:397-422 | succeeds exactly when every frame passes, and counts the frames that are not retired |
| FrameRuns.ChainsHoldOnEveryRun | live_betting/vision_frame_registry.py:450-621 | however reads and writes interleave, chains stay linked, identities never change and no row is lost or rewritten |
| FrameRuns.RelocationAuditsNeverFail | live_betting/vision_frame_registry.py:230-266 | from an empty registry the relocation audit of a registered frame never fails, in any interleaving |
| FrameRuns.MoveKeepsRetirementsIff | live_betting/vision_frame_registry.py:522-532 | a relocation, however old its plan, keeps every retirement true exactly when it moves no retired frame |
| FrameRuns.RetirementKeepsRetirementsIff | live_betting/vision_frame_registry.py:586-620 | a retirement keeps them true exactly when its frame is still at the path that was read |
| FrameRuns.RegisteringOutcomes | live_betting/vision_frame_registry.py:317-329 | on audited tables each outcome of registering has its one cause, and only an insertion writes |
| FrameRuns.RetirementAuditIff | live_betting/vision_frame_registry.py:269-296 | the retirement audit passes exactly when the retirement names the frame as it is |
| FrameRuns.CallsKeepAudits | live_betting/vision_frame_registry.py:299-621 | after any calls in sequence all audits hold, nothing is rewritten and the path of a retired frame is frozen |
| FrameRuns.RegistryVerifies | live_betting/vision_frame_registry.py:397-422 | after any calls in sequence the whole registry verifies and counts the frames never retired |
| FrameRuns.PlannedIsWritten | live_betting/vision_frame_registry.py:523-532 | with nobody in between, the checks inside the transaction of a relocation never fail |
| FrameOverlaps.RetiredWhileRelocating | live_betting/vision_frame_registry.py:522-532 | a retirement between the two parts of a relocation ends in a retirement that its audit refuses |
| FrameOverlaps.RelocatedWhileRetiring | live_betting/vision_frame_registry.py:598-620 | a relocation between the two parts of a retirement ends in the same |
| RegistryMeaning.InsertedIffUnlike | live_betting/vision_frame_registry.py:299-329 | a frame is inserted exactly when no registered one has its name, content or path, and nothing else changes |
| RegistryMeaning.UnlikeFramesAreAllRegistered | live_betting/vision_frame_registry.py:299-329 | frames that differ pairwise in name, content and path are all registered, in any order |
| RegistryMeaning.RelocatingMovesToTheDestinations | live_betting/vision_frame_registry.py:450-565 | a relocation on its own of frames that all may move leaves each at its destination and no other frame moved |
| RegistryMeaning.OtherRelocationsWriteNothing | live_betting/vision_frame_registry.py:450-519 | any other relocation writes nothing |
| RegistryMeaning.RetiringRecordsTheFrame | live_betting/vision_frame_registry.py:568-621 | a retirement on its own is written exactly for a registered frame, never retired, whose file is there, and says what the frame is and where |
| FrameConstraints.PathIsTheEndOfTheRows | live_betting/vision_frame_registry.py:230-266 | a frame's path is the end of its rows, and there is one exactly when each row is of the frame and its content, numbered by its place, under its digest, and starts where the one before ended |
| FrameConstraints.RetiredIffNamed | live_betting/vision_frame_registry.py:269-296 | a frame counts as retired exactly when its retirement, under its digest, names its content and its path |
| FrameConstraints.ConstraintsHoldOnEveryRun | live_betting/vision_frame_registry.py:522-621 | in every interleaving and for any digests, ids are never shared and no relocation leads to where it starts |
| FrameConstraints.GreatestNumber | live_betting/vision_frame_registry.py:511-516 | the next number is counted from the greatest one of any rows, and from zero without rows |
| RegistryMeaning.CallsAreSteps | live_betting/vision_frame_registry.py:299-621 | a call with nobody in between is a reading step and a writing step of a run |
| RawAudit.MovesKeepAudits | event_intelligence/raw_registry.py:172-239 | an accepted plan keeps every stored path the replay of its rows and all paths distinct |
| RawRegistry.PlanRelocations | event_intelligence/raw_registry.py:143-169 | the reading part succeeds exactly on movable artifacts with distinct destinations and plans those that move |
| RawRegistry.Registry.RecordArtifact | event_intelligence/ingest_adapters.py:837-913 | a verified artifact is inserted exactly when it and its path are new; an existing row must say the same and not have lost its file |
| RawRegistry.Registry.CommitRelocations | event_intelligence/raw_registry.py:171-239 | all planned relocations are recorded and applied or none |
| RawRegistry.Registry.RelocateArtifacts | event_intelligence/raw_registry.py:104-239 | a whole call applies exactly what it planned, or nothing |
| RawRegistry.StoredPathIsTheReplay | event_intelligence/raw_registry.py:171-239 | in every interleaving each stored path is the replay of its rows from the first path, and later rows lead from any earlier stored path to the present one |
| RawRegistry.ReplayFromTheRecordedPath | event_intelligence/raw_registry.py:187-236 | from its recording on, all rows of an artifact lead from the recorded path to the stored one |
| RawRegistry.PlanSucceedsIff | event_intelligence/raw_registry.py:171-239 | with nobody in between, the transaction succeeds exactly when no destination is still held by another artifact at its turn |
| RawRegistry.PathsCannotBeExchanged | event_intelligence/raw_registry.py:232-237 | a call in which one artifact moves to the path of another that moves later in it fails, whatever else it moves |
| RawMeaning.RecordedIffUnlike | event_intelligence/ingest_adapters.py:850-880 | an artifact is recorded exactly when no recorded one has its id or path, or its content from its source |
| RawMeaning.UnlikeArtifactsAreAllRecorded | event_intelligence/ingest_adapters.py:850-880 | artifacts that differ pairwise in these are all recorded, in any order |
| RawMeaning.RelocatingMovesToTheDestinations | event_intelligence/raw_registry.py:104-239 | an unblocked relocation leaves each artifact as it was but for its path, which is the destination, and every other as it was |
| RawMeaning.CallIsTwoSteps | event_intelligence/raw_registry.py:104-239 | a call with nobody in between is a reading step and a writing step of a run |
| RawMeaning.GreatestNumber | event_intelligence/raw_registry.py:188-193 | the next number is counted from the greatest one of any rows, and from zero without rows |

## Left out

- Floating-point rounding and the finiteness checks on ratings: ratings are reals, and `exp`, powers and the sigmoid are functions with stated laws.
- Rating predictions, their payloads and hashes (`predict_team_rating`), and the estimate of the side advantage: one-body computations.
- Hashes and JSON text of the frozen seed: a seed is compared by its contents.
- Types, emptiness and format checks of single fields, such as text identifiers: values are built valid.
- The retry state of the scheduler's own checkpoints (`run_due`), which is a second, simpler copy of the retry schedule.
- Columns of the ingest row that no decision reads, the event and start filters of the due list, and the text form of times.
- Recent rescans and requests for a single match: they attempt a match that is not due, so the six-attempt bound is for polling alone.
- Missing reasons are sets: their order and repetitions in the source only matter to their text.
- Direct begin, commit and rollback calls, and reads.
- Session.PostgresSession.Transaction: after the release of a savepoint has failed in an aborted transaction, the library's own transaction objects refuse more than the server does; only the server's refusals are modelled.
- Parameters given as a mapping, which the source passes through.
- What a state, a file and a pair are checked for in the odds verifier is abstract; so are the transport rows' own checks, while their grouping is the same pass as for states.
- IngestProtocol.IngestStore.RecordDiscoveredMatch: how a match is classified against the scope of an event, and the record of a candidate that is not in it, are a flag.
- OddsVerifier.VerifyArtifacts: which failure is raised first when several exist is not stated, because the source interleaves the generator with the file checks.
- The evidence reference and observation time carried by a map's final result, which nothing decides on.
- Reading text fields of an odds response (stages, market names, ids): a row holds what they denote.
- VisionDrafts.VisionDrafts: database errors, which return no drafts at all, are not modelled; nor is how anchors and conflicts are written.
- Publishing and hashing files, links, case and resolution of paths: paths are resolved text, and a predicate says which file is whose.
- FrameRegistry.PlanRelocations: which failure is reported when several exist is not stated.
- The registration time of a frame, the observations recorded beside a raw artifact, and the database triggers that repeat the registry's own checks.

# Turing backend: verified model

A Dafny model of the parts of the backend whose correctness depends on more than one
function: the protocol that notifies clients of finished calls and batches, the guard and
the repair loop of the SQL agent, the ingestion of a database schema, the stores that
voice-engine payloads are written to, and some smaller companions. `dafny verify
dfyconfig.toml` checks the whole project.

## How it is built

- **Notification protocol** (`Notification`, `NotificationRuns`, `Epochs`, `Telling`,
  `Analysis`, `Completion`).
  A row and any number of workers form a step system: one action is one commit, one answer
  from outside, or one crash, and every interleaving is a sequence of actions. What happened
  is kept in a history that no worker reads. The main result counts rights to notify: there
  are as many as the row was opened, at any time, wherever they went. `Epochs` is about which
  openings are claimed and delivered, and `Telling` about what a delivery tells: the outcome of
  a call is built after its claim, the event of a batch before. `Completion` is the table of calls
  on which completions run one after another, and `CompletionIsARun` ties the two together.
- **SQL guard** (`SqlTree`, `SqlGuard`, `SqlGuardProofs`, `SqlMeaning`, `SqlGuardLoops`). A
  tree with sqlglot's breadth-first search; the guard as functions, the loops of the code
  proved equal to them; and a semantics of queries in which the meaning of every node kind
  the guard does not look into is arbitrary.
- **Query pipeline** (`Pipeline`). All answers of models and database come from an oracle
  that may look at the whole trace; a run keeps the trace of its calls and checks.
- **Ingestion** (`Diff`, `Ingestion`, `Examples`, `ControlStore`). Row functions with their
  invariants, and the class whose loops compute them. A content hash is represented by the
  content it is taken of, which is the assumption that hashes do not collide.
- **Stores** (`Store`, `CallStore`). Calls and batches as tables, transactions as functions
  on them, and the class with the stepwise upsert and the savepoints.
- **Companions**: `RateLimit` (the in-memory limiter), `AgentSync` (the agent catalog),
  `KeyCache` and `KeyRaces` (API keys, one operation at a time and interleaved), `Variables`
  (prompt placeholders).

The functions that say what the code computes (`Notification.Step`, `SqlGuard.Guard`,
`Ingestion.TablesAfter`, `Store.Upsert` and their like) are not listed below: the members
below are what is proved of them, and the methods that compute them in the code's own steps.

Where code and comments differ the model follows the code:

- `complete_call` says that a crash before the delivery leaves the claim unset. The claim is
  committed before the POST (`app/services/call_sync.py:124`), so a crash in between loses the
  notification: `NotificationRuns.CrashIsRepairedIff` says exactly which crashes are repaired,
  for calls and batches.
- It also says that exactly one caller forwards an outcome. This holds without upgrades; an
  upgrade re-opens the row, even when the model gave no answer
  (`NotificationRuns.DeliveryBoundIsTight`). And a release is unconditional, so that one opening
  can be delivered twice and another one never (`Epochs.OneOpeningIsDeliveredTwice`).
- `notify_batch_status` says that a lifecycle change is forwarded exactly once. A worker that
  waits with an older event can claim the row for it, and then the last status is never told
  (`Telling.LastStatusIsLost`, `Telling.LastStatusCanBeToldIff`).
- The comment on upgrades lets the corrected outcome be sent again. An analysis that is asked
  for over the API corrects without sending (`Analysis.ReplacementIsSentIff`).
- An analysis run is called idempotent; overlapping runs are not
  (`Analysis.OverlappingRunsLoseTheReading`, `Analysis.ReadingCanBeLostIff`).
- `invalidate_cache` does not stop a request that has already read the key from filling the
  cache with it (`KeyRaces.OldReadIsServedIff`).
- A status is not final once it is terminal: a payload without a status writes "pending".
- `ingest_workspace` converges only for a YAML that says one thing of each example question,
  and in every row order only if no spare row contradicts it (`Examples.ExamplesSettleIff`).

## Model

| member | source | states |
|---|---|---|
| NotificationRuns.ClaimConservation | app/services/call_sync.py:74-192 | Over every interleaving of workers, crashes, releases, upgrades, deletions and recoveries: open row + claims held + confirmed + ended without a webhook + abandoned + absorbed + dropped is exactly 1 (0 for a batch, which starts claimed) plus the re-openings; so confirmed deliveries never exceed that number |
| Notification.StepConserves | app/services/call_sync.py:83-142 | One commit, answer or crash of one worker creates and loses no right to notify, except that a re-opening creates one |
| Notification.StepKeepsInv | app/services/call_sync.py:83-192 | The inductive invariant behind the runs: conservation, no re-opening absorbed before the first one, a marked row was claimed since its last opening, nothing before a trigger |
| Notification.StepKeepsClaimed | app/services/call_sync.py:86-99 | A row marked as notified keeps being one that was claimed after it was last opened |
| NotificationRuns.LastOpeningIsClaimed | app/services/call_sync.py:86-142 | In every run a row marked as notified was claimed after its last re-opening, by a worker still at it or one whose claim came to an end; what that worker tells is the matter of `Telling` |
| NotificationRuns.NothingSentBeforeFinish | app/services/call_sync.py:52-71 | Without a terminal payload no worker starts and nothing is claimed or sent |
| NotificationRuns.DeliveryBoundIsTight | app/services/analysis.py:779-787 | For every n there is a run with n upgrades and n+1 confirmed deliveries of the same status guess, the model never answering: the upgrade re-opens the row even then, so one delivery per opening is the best bound |
| NotificationRuns.CanStillDeliverIff | app/services/call_sync.py:86-192 | For a call or a batch, after any number of re-openings: one more delivery can be confirmed without a further re-opening exactly when the row is open, or some worker is sending, or some worker is about to release its claim into a row that is there |
| NotificationRuns.CrashIsRepairedIff | app/services/call_sync.py:120-141 | After a worker's crash that is so exactly when the row is open or another worker has a claim to deliver or release; the crash takes the notification along exactly when it was that worker's alone to pass on |
| NotificationRuns.RecoveryDelivers | app/services/call_sync.py:281-310 | An open row with a terminal status, as the recovery query finds it, is claimed and delivered by a fresh worker, which leaves the other workers as they are |
| NotificationRuns.OpenRowIsDelivered | app/services/call_sync.py:195-223 | Every open row can be delivered: a batch at once, a call as soon as its status is terminal, so after one more payload if it is not |
| NotificationRuns.HolderDelivers | app/services/call_sync.py:130-141 | Whoever is sending, or about to release into a row that is there, gets one more delivery confirmed, or leaves it to recovery |
| NotificationRuns.DeletionSilences | app/services/tenants.py:106-117 | Once the row is deleted, whatever follows, the client gets no more than the POSTs of those that hold a claim at that moment |
| Epochs.EachOpeningIsDeliveredOnce | app/services/call_sync.py:135-141 | In every run in which no worker releases a claim that was taken before the last re-opening, each opening is claimed for at most one confirmed delivery |
| Epochs.RepetitionIsPossibleIff | app/services/call_sync.py:135-141 | In any state in which nothing was repeated yet, a repetition can follow without a further re-opening exactly when the row is there and the present opening has two chances (delivered, open, and one for each claim that can be released), or two workers are sending one opening, or one is sending what was delivered |
| Epochs.LateDeliveryIsPossibleIff | app/services/call_sync.py:130-141 | An older opening can be confirmed after a newer one, without a further re-opening, exactly when a worker is sending it while a newer one was delivered, is being sent by another worker, or can be claimed and delivered before |
| Epochs.ReachableIsBounded | app/services/call_sync.py:74-192 | Every state of every run meets what the condition on late deliveries asks: no claim is of an opening yet to come |
| Epochs.GuessArrivesLast | app/services/call_sync.py:130-141 | A run in which the status guess is confirmed after its correction |
| Epochs.OneOpeningIsDeliveredTwice | app/services/call_sync.py:138-140 | A run with one upgrade in which the unconditional release of the first claim lets the correction go out twice, and the first opening never |
| Telling.WhatIsToldWasClaimed | app/services/call_sync.py:101-123 | A call's confirmed deliveries tell the openings that were claimed, in every run, because its outcome is built after the claim; a batch's do in every run in which each claim is by a worker whose event was built since the last re-opening |
| Telling.EachStatusIsToldOnce | app/routers/webhooks.py:73-79 | So without stale releases either, nothing is told twice |
| Telling.LastStatusIsLost | app/routers/webhooks.py:73-79 | Two status changes queue two workers, the first claims with its own event and is confirmed, and the last status is never told: no crash, no failed POST, no stale release, and nothing is left that could |
| Telling.OlderStatusCanBeToldIff | app/services/call_sync.py:212-220 | Without a further re-opening a delivery of a batch can tell an older status exactly when one is being sent, or waits in a worker while the row is there and open or held by a worker that can release it |
| Telling.LastStatusCanBeToldIff | app/services/call_sync.py:145-220 | And the last status can still be told exactly when the row can be claimed or a worker is sending it; otherwise, if it was not told before, it is lost |
| Telling.RunsTellStatusesIff | app/services/call_sync.py:145-220 | Both conditions at any point of any run of a batch |
| Epochs.StepKeepsEpochs | app/services/call_sync.py:86-141 | Every step keeps openings apart, but for a stale release while the present opening is delivered or claimed |
| Analysis.RunIsTwoSteps | app/services/analysis.py:751-791 | An undisturbed analysis run is the protocol's read step and write step back to back |
| Analysis.RunReadsIff | app/services/analysis.py:770-789 | What a run leaves, by the columns: the model's reading if there was one or if a connected call with a transcript was classified; nothing only where there was nothing and no reading came of such a call; the row open again only over a guess at such a call that the model answered for |
| Analysis.ReadingWasPlanned | app/services/analysis.py:770-782 | In every interleaving, a row that comes to the model's reading was seen by a worker as connected and with a transcript, or the reading was asked for |
| Analysis.AnalysisOnlyImproves | app/services/analysis.py:751-791 | With any payloads, claims and requested analyses between undisturbed runs the analysis only moves from none over the status guess to the model's reading, and at most one run both replaces the guess and re-opens the row |
| Analysis.ReplacementIsSentIff | app/services/analysis.py:767-787 | When the guess was replaced on the way, one event did it, and the correction is sent exactly when that event was a run and not an analysis asked for over the API |
| Analysis.RequestIsOneStep | app/routers/calls.py:284-291 | The protocol takes a requested analysis as one step, whatever the call's status, and touches nothing but the source |
| Analysis.RequestedAnalysisIsNeverSent | app/routers/calls.py:258-292 | An analysis asked for over the API replaces a guess that the client has confirmed, and no number of further runs opens the row for the correction |
| Analysis.LlmAnalysisIsFinal | app/services/analysis.py:773-774 | No number of further runs touches a model's reading or the claim on it |
| Analysis.OverlappingRunsLoseTheReading | app/services/analysis.py:711-731 | Two overlapping runs can end with the status guess in the place of the model's reading |
| Analysis.ReadingCanBeLostIff | app/services/analysis.py:711-731 | In any interleaving of any number of workers the model's reading can be lost exactly when the row is there and some worker had planned the status guess |
| Completion.CompletionIsARun | app/services/call_sync.py:74-142 | The completion of one call in the table is a run of the protocol by one fresh worker, with the same row and the same deliveries |
| Completion.CallTable.CompleteCall | app/services/call_sync.py:74-142 | Analysis, claim, POST and release on the one row, and the POST in the outbox exactly when the call was open and has a webhook |
| Completion.CallTable.SelectPending | app/services/call_sync.py:290-305 | The selected ids are distinct calls with a terminal status, not notified and in the look-back; 200 or all of them, and none left out is older than one selected |
| Completion.CallTable.RecoverUnnotifiedCalls | app/services/call_sync.py:281-310 | A call that is in progress, notified or before the look-back is neither written nor sent; when every delivery settles and at most 200 calls have ended in the look-back and are not notified, none such is left. Of those selected exactly the ones whose client confirmed (or has no webhook) leave the list; the POSTs sent are one for each selected call that was open after its analysis and has a webhook, in order |
| Completion.CallTable.RecoverRepeatedly | app/services/call_sync.py:281-310 | After n such passes, each with answers of its own, the list has lost min(200 n, size) calls; so when 200 n calls or fewer had ended and were not notified, every call of the look-back that has ended is notified |
| Completion.CompletedLeaves | app/services/call_sync.py:290-310 | A completed set of calls leaves pending exactly those whose client refused |
| SqlTree.FindsExactly | app/sql_agent/validation/sql_guard.py:130-141 | A search in walk order finds exactly the nodes of a kind at any depth |
| SqlTree.LimitIsNotFound | app/sql_agent/validation/sql_guard.py:308-328 | Searches for any kind but limits and literals find the same nodes, in the same order, with and without a literal limit |
| SqlGuardLoops.CollectCteColumns | app/sql_agent/validation/sql_guard.py:198-205 | The loop gives each CTE alias the output names of its last CTE |
| SqlGuardLoops.CollectSubqueryColumns | app/sql_agent/validation/sql_guard.py:208-215 | The same for subqueries |
| SqlGuardLoops.CollectOutputAliases | app/sql_agent/validation/sql_guard.py:218-225 | The loops collect exactly the aliases in the select lists |
| SqlGuardLoops.BuildReferenceIndex | app/sql_agent/validation/sql_guard.py:154-195 | The loop builds the specified index or fails with the same error |
| SqlGuardLoops.ValidateColumns | app/sql_agent/validation/sql_guard.py:239-293 | The loop counts the specified columns or fails with the same error |
| SqlGuardLoops.MatchingTables | app/sql_agent/validation/sql_guard.py:275-279 | The owners of a column among the physical tables, each once |
| SqlGuardLoops.GuardSql | app/sql_agent/validation/sql_guard.py:70-105 | The stepwise guard equals the specified one |
| SqlGuardProofs.IndexIsFirstClaims | app/sql_agent/validation/sql_guard.py:164-188 | In the finished index every name stands for the first table in walk order that claimed it, and the physical tables are exactly the non-derived names |
| SqlGuardProofs.IndexBuiltIff | app/sql_agent/validation/sql_guard.py:164-188 | The index is built exactly when every table is derived, or is allowlisted and names no schema or the default one in whatever case, with an alias no earlier table claimed for another one |
| SqlGuardProofs.AliasOrderMatters | app/sql_agent/validation/sql_guard.py:181-188 | The same two tables are refused in one order and accepted in the other |
| SqlGuardProofs.ColumnAcceptedIff | app/sql_agent/validation/sql_guard.py:246-292 | A column is accepted exactly when it is a star, a column of the table its qualifier stands for, an output name, or owned by one table (or by a derived one only) |
| SqlGuardProofs.ColumnsAcceptedIff | app/sql_agent/validation/sql_guard.py:245-293 | Columns are accepted one by one |
| SqlGuardProofs.ColumnCountedIff | app/sql_agent/validation/sql_guard.py:245-293 | What is counted is exactly what some column reference is counted for |
| SqlGuardProofs.CountedColumn | app/sql_agent/validation/sql_guard.py:259-282 | A counted column is allowlisted for one table: the one its qualifier stands for, or its only owner |
| SqlGuardProofs.ReferencesAcceptedIff | app/sql_agent/validation/sql_guard.py:97-100 | The reference checks pass exactly when all tables fit and all columns at any depth resolve |
| SqlGuardProofs.GuardAcceptsIff | app/sql_agent/validation/sql_guard.py:70-144 | The guard accepts exactly: one SELECT; no write and no call by a listed name at any depth; no limit or a positive literal one; every table derived, or allowlisted, of no other schema and with an alias no earlier table claimed; and all columns resolving among first claims, physical names and outputs of the tree |
| SqlGuardProofs.StatementRefusals | app/sql_agent/validation/sql_guard.py:83-135 | With which error a statement is refused that is no clean SELECT: limit setting, parser, number of statements, kind, write at any depth, in this order |
| SqlGuardProofs.ReferenceRefusals | app/sql_agent/validation/sql_guard.py:95-100 | And a clean SELECT: for a limit that is not a positive literal, then exactly for a table that does not fit, then exactly for a column that does not resolve |
| SqlGuardProofs.ListedCallsAreRefused | app/sql_agent/validation/sql_guard.py:83-144 | In the tree of an accepted statement no node at any depth calls a function, known to the parser or not, whose name in small letters is a listed one or begins with `lo_`; and a statement is refused for a function exactly when it is one SELECT without a write, under a positive limit, that has such a node |
| SqlGuardProofs.OutputNamesIff | app/sql_agent/validation/sql_guard.py:228-236 | The output names of a CTE or subquery are, item by item of its select list, the alias in small letters or else the item's own name |
| SqlGuardProofs.OutputAliasesIff | app/sql_agent/validation/sql_guard.py:218-225 | The names an unqualified column may mean without a table are the explicit aliases in the select lists at any depth |
| SqlGuardProofs.AcceptedReferencesAreSound | app/sql_agent/validation/sql_guard.py:154-195 | In an accepted tree every table node at any depth is derived or an allowlisted table its alias still stands for at the end; reported tables are exactly those; every reported column is an allowlisted one of a reported table, and some column node refers to it there, by a qualifier that stands for the table or as its only owner |
| SqlGuardProofs.ReportedTablesAreAllowed | app/sql_agent/validation/sql_guard.py:101-105 | Reported tables are in the allowlist |
| SqlGuardProofs.GuardIsIdempotent | app/sql_agent/validation/sql_guard.py:83-105 | Guarding the returned tree succeeds with the same tree, tables and columns |
| SqlGuardProofs.LimitKeepsReferences | app/sql_agent/validation/sql_guard.py:308-328 | Putting the limit in place changes neither acceptance nor the tables and columns |
| SqlMeaning.GuardedRowsArePrefix | app/sql_agent/validation/sql_guard.py:308-328 | The guarded query returns the first rows of the original one, as many as the limit allows, under every meaning of the other node kinds |
| SqlMeaning.ReadsDecide | app/sql_agent/validation/sql_guard.py:164-167 | A tree gives the same rows in databases that agree on the stored tables it reads under SQL scoping |
| SqlMeaning.ReportedTablesAreReadIff | app/sql_agent/validation/sql_guard.py:164-178 | The reported tables are all read; they are all that is read exactly when no stored table is read under a name that a CTE or subquery has anywhere |
| SqlMeaning.GuardedRowsDependOnReportedTables | app/sql_agent/validation/sql_guard.py:101-105 | Under that condition the rows depend on the reported tables only |
| SqlMeaning.StrayReadIsNotReported | app/sql_agent/validation/sql_guard.py:164-167 | Without it a stored table can be read and not reported: `FROM s AS t, (SELECT ...) AS s`, for every name s |
| Pipeline.BuildQuery | app/sql_agent/pipeline.py:120-342 | For every behaviour of the models and the database: termination, at most max repairs and 7 + candidates + 2 max model calls, and a trace in which every step is the due one, with the answer given to it. Built exactly when the last event is the critic's approval of what was guarded or explained; failed exactly when the last question had no answer; to be clarified exactly when the model says so or names no known table; given up exactly when a text has just failed, and then with the budget used up; blocked exactly on write intent. SQL is returned only as a guard output that passed EXPLAIN and the critic, with the explanation and confidence of the answer that was guarded and the critic's last notes |
| Pipeline.RepairLoop | app/sql_agent/pipeline.py:248-342 | The loop alone, from any point of the budget: the same response for the same last event |
| Pipeline.Round | app/sql_agent/pipeline.py:249-270 | Guard, EXPLAIN and critic on the current text: the run ends, built on approval and failed without an answer, or the text that failed is known |
| Pipeline.Validate | app/sql_agent/pipeline.py:249-261 | The trace of guard and EXPLAIN, which text failed, and that an unreachable database ends the run |
| Pipeline.Review | app/sql_agent/pipeline.py:262-316 | On approval the run ends with the query as built from the guarded answer, without a verdict as failed, and otherwise goes on to a repair of the printed text |
| Pipeline.FirstCandidate | app/sql_agent/pipeline.py:214-246 | The first critic and the repair it may ask for, within the budget; with no budget the run gives up |
| Pipeline.ChooseCandidate | app/sql_agent/pipeline.py:200-212 | A confident first candidate is taken as it is; otherwise there is a vote exactly if there are alternatives, and the candidate is the one that the vote's index names in the trace, or the first |
| Pipeline.MultiCandidateVote | app/sql_agent/pipeline.py:418-447 | The candidates are the first and the generated ones; the vote picks one by index, and an index out of range means the first |
| Pipeline.NarrowDown | app/sql_agent/pipeline.py:135-199 | Blocked exactly on write intent, clarification exactly when it is called for, failed exactly when the last stage has no answer; else four stages in order, each of them passed |
| Pipeline.SelectTables | app/sql_agent/pipeline.py:381-384 | Exactly the named tables that are known, once each, in the order of their first naming |
| Pipeline.PrunedColumns | app/sql_agent/pipeline.py:535-550 | Each selected table with a known column is listed with the known columns of its last item that has any |
| Diff.DiffRows | app/sql_agent/ingestion/diff.py:165-194 | The two loops compute the one result that classifies |
| Diff.DiffPartitions | app/sql_agent/ingestion/diff.py:140-158 | Every key of either side is in exactly one class, and the four counts add up |
| Diff.CountsTell | app/sql_agent/ingestion/diff.py:165-194 | A report counts as created the keys that are new, as updated those there with another content or only as removed, as removed the active ones that are gone, and as unchanged the rest |
| Diff.NoChangeIff | app/sql_agent/ingestion/diff.py:160-162 | No change is reported exactly when the active rows are the fresh ones with equal hashes |
| ControlStore.BuildDesiredTables | app/sql_agent/ingestion/run.py:132-188 | The nested loops compute the merged snapshot |
| ControlStore.DesiredAreFound | app/sql_agent/ingestion/run.py:132-188 | The desired tables are exactly those found |
| ControlStore.LastFoundCounts | app/sql_agent/ingestion/run.py:174-188 | Of two tables found under one key the later one counts |
| ControlStore.MergedIsFaithful | app/sql_agent/ingestion/run.py:139-173 | A merged table has its row count and, one by one, its columns from the database; and from the YAML its description and each column's description, sensitive mark and values, or nothing of these for a table outside the default schema or a column that is not listed |
| Ingestion.AlwaysCoherent | app/sql_agent/ingestion/run.py:224-358 | Over any run of ingestions, embedding steps and reviews every stored table, active or not, carries the hash of its row and stored columns, and every embedding was computed from the present content |
| Ingestion.RunStaysCoherent | app/sql_agent/ingestion/run.py:224-358 | One ingestion keeps that, through column changes, soft deletion and reactivation |
| Ingestion.UnchangedTableKeepsColumns | app/sql_agent/ingestion/diff.py:70-91 | A table's hash is unchanged exactly when its description and columns are, and then no column is written |
| Ingestion.RunAgrees | app/sql_agent/ingestion/run.py:242-282 | After an ingestion the active tables are exactly the desired ones, with their descriptions, row counts and columns |
| Ingestion.IngestionConverges | app/sql_agent/ingestion/run.py:224-511 | A second ingestion of the same snapshot writes nothing to tables, columns and glossary |
| Ingestion.EmbeddingsAreKept | app/sql_agent/ingestion/run.py:224-511 | Nor does it after an embedding step, so that no embedding is cleared again |
| Ingestion.NullEmbeddingsAreTheChangedRows | app/sql_agent/ingestion/run.py:10-15 | With all tables embedded before, those without an embedding after an ingestion are exactly the created and updated ones |
| Ingestion.EmbedStaysCoherent | app/sql_agent/ingestion/run.py:10-15 | The embedding step leaves no table and no term without an embedding, and each is of what is stored |
| Ingestion.ReviewStandsIff | app/sql_agent/ingestion/run.py:260-282 | A reviewed table stays so over an ingestion exactly if this finds it active and with the same description and columns, or does not find it |
| Ingestion.GlossarySettles | app/sql_agent/ingestion/run.py:443-511 | The stored terms are those of the YAML, current by the glossary hash, and stay so |
| Ingestion.GlossaryTells | app/sql_agent/ingestion/run.py:450-505 | The last entry of a term is stored with its definition, and is mapped to a live table of the default schema exactly when the YAML names that table |
| Examples.ExamplesSettleIff | app/sql_agent/ingestion/run.py:514-565 | Whatever rows are stored: the next run reports no change in every order of the rows exactly when the YAML says one thing of each question and no spare row of it says another; a run without a change writes nothing, and there is none for a YAML that contradicts itself |
| Examples.SettlesInSameOrderIff | app/sql_agent/ingestion/run.py:514-565 | When the rows come in the same order, exactly the former is needed |
| Examples.QuietInAnyOrderIff | app/sql_agent/ingestion/run.py:526 | Runs are quiet in every order of the rows exactly when the YAML is consistent, all its questions are stored, and all rows of them say what it says |
| Examples.NoSpares | app/sql_agent/ingestion/run.py:526 | With one stored row for each question there are no spare rows |
| Examples.NoChangeIffMatches | app/sql_agent/ingestion/run.py:528-562 | A run reports no change exactly when every entry is stored as it is, and then it writes nothing |
| Examples.LastEntryWins | app/sql_agent/ingestion/run.py:528-562 | Afterwards the row that stands for a question says what the last entry for it says |
| Examples.EntriesAreCounted | app/sql_agent/ingestion/run.py:528-562 | Every entry is counted once, those with a question that no row had when the run began as created, and none as removed |
| Examples.OthersAreKept | app/sql_agent/ingestion/run.py:517-520 | Rows of questions that the YAML does not have stay as they are, and embeddings stay true of their rows |
| ControlStore.ControlDatabase.SyncTables | app/sql_agent/ingestion/run.py:224-282 | The loops over the four classes give the specified rows and counts; no change is reported exactly when the tables were up to date |
| ControlStore.ControlDatabase.SyncColumns | app/sql_agent/ingestion/run.py:285-358 | The per-table diffs give the specified columns; no change is reported exactly when all were as desired |
| ControlStore.ControlDatabase.SyncOneTable | app/sql_agent/ingestion/run.py:303-355 | One table's columns: created, overwritten and deleted as specified, and counted by the diff |
| ControlStore.DesiredEdges | app/sql_agent/ingestion/run.py:369-388 | Edges between live tables, a hint's from its first table and column to its second; a foreign key outranks a hint, an earlier hint a later one |
| ControlStore.ControlDatabase.SyncRelationships | app/sql_agent/ingestion/run.py:390-440 | From any stored rows, duplicates included: afterwards each desired edge has one row with its kind and there is no other; no change is reported exactly when that held before; a kept row keeps its edge |
| ControlStore.ControlDatabase.IndexEdges | app/sql_agent/ingestion/run.py:395-402 | One representative for each edge; duplicates exactly if there are any |
| ControlStore.ControlDatabase.SyncGlossary | app/sql_agent/ingestion/run.py:443-511 | The loops give the specified glossary; no change is reported exactly when it was current |
| ControlStore.ControlDatabase.SyncExamples | app/sql_agent/ingestion/run.py:514-565 | The upsert loop gives the specified rows and counts |
| ControlStore.ControlDatabase.IngestWorkspace | app/sql_agent/ingestion/run.py:568-600 | A whole run: the specified tables, columns, terms, joins and examples, and a change in the schema reported exactly when the store was not settled |
| ControlStore.ControlDatabase.IngestTwice | app/sql_agent/ingestion/run.py:568-600 | Two runs in a row, with the example rows in any order the second time: the second finds nothing to change in tables, columns, joins and terms; it finds nothing at all if the YAML is consistent and no spare row contradicts it, and only a consistent YAML lets it |
| RateLimit.MemoryLimiter.MemoryHit | app/services/rate_limit.py:71-79 | Until the backstop has dropped live buckets the answer is the one the full log of admitted hits gives; after that only a hit too many is admitted, never one too few; the log grows by the admitted hit |
| RateLimit.MemoryLimiter.Hit | app/services/rate_limit.py:33-52 | The same behind the switch: a limit that is not positive admits everything and records nothing; answers come to differ from those of the log only when more buckets than the bound still count |
| RateLimit.MemoryLimiter.EvictStale | app/services/rate_limit.py:82-104 | Exactly the lapsed buckets go, then the oldest ones above the bound; what is stored still stands for the log |
| RateLimit.KeptCounts | app/services/rate_limit.py:89-95 | A bucket stays in the map exactly when some hit in it still counts |
| RateLimit.MemoryLimiter.DropOldest | app/services/rate_limit.py:97-104 | As many buckets as are too many go, none with a younger last hit than one that stays |
| RateLimit.NoSpanOverLimit | app/services/rate_limit.py:71-79 | Until the backstop fires no span of the length of the window holds more than `limit` admitted hits of a bucket, counted by their places in the log |
| RateLimit.RecentLater | app/services/rate_limit.py:75 | Filtering in place now does not change what a later filter gives |
| RateLimit.HitStands | app/services/rate_limit.py:71-79 | A hit keeps stored lists standing for their logs and admitted hits spaced, and is answered as by the log |
| RateLimit.SpacedSpan | app/services/rate_limit.py:76-78 | When each hit is a window away from the one `limit` places before it, no span holds more than `limit` |
| Store.RowIsFold | app/services/store.py:103-124 | Over any run each outcome column of a row holds the last value given by the payloads accepted for it, each reference holds the first value given, and the status is the last one written, by a payload or by a stop |
| Store.PayloadIsStored | app/services/store.py:103-124 | What one accepted payload leaves, key by key: its status, or `pending` where that is missing or empty; of alternative keys the first that is neither missing nor empty, or the last as it is; a numeric cost; and the old value where the payload has none; references only where there was none |
| Store.StatusIsTold | app/services/store.py:112 | Over any run the status of a row is the one in the last payload accepted for it, `pending` if that has none, unless a stop has written one since |
| Store.PayloadFinishesIff | app/services/call_sync.py:52-71 | An accepted payload raises the just-finished flag exactly when it carries a terminal status and the row was absent or open |
| Store.AcceptedIff | app/services/store.py:258-263 | A payload is accepted for a row exactly when the first of its two id keys that is not empty is the row's execution, no other row has that name, and it can be stored |
| Store.CreatedRow | app/services/store.py:264-311 | A row made by a payload holds what this says, key by key, with the client of the batch that it names (its run's, or else the one at the top), or with the caller's if it names no known batch; its agent is the one named, or else the batch's |
| Store.RowNext | app/services/store.py:263-319 | A step changes a row that stays only by a payload accepted for it, or in its status by a stop |
| Store.RedeliveryChangesNothing | app/services/store.py:244-319 | Delivering the same payload again changes nothing and raises no flag |
| Store.FlagIsEdge | app/services/call_sync.py:52-71 | A delivery raises the just-finished flag for a row exactly when it takes its stored status from absent or open to terminal |
| Store.FlagsAreSeparated | app/services/call_sync.py:52-71 | Between two times that a row is sent to completion its status was written, by a payload or a stop, and was not terminal |
| CallStore.Database.StopCall | app/routers/calls.py:246-255 | The engine's status is stored if there is one, and the call is sent to completion exactly when that finishes an open call |
| Store.RunKeeps | app/services/store.py:263-298 | Over any run of registrations, placements, batches, payloads and deletions a call in a batch has its batch's client, a tenant has one row per execution, and no row that stays changes hands |
| Store.UpsertKeeps | app/services/store.py:263-311 | One upsert keeps that |
| Store.CallerMattersIff | app/services/store.py:264-273 | The client that the caller passes decides something exactly for a new execution that names no known batch |
| Store.DeletionIsClean | app/services/tenants.py:106-117 | Deleting a client removes its calls and batches and nothing else, and leaves no dangling batch |
| CallStore.Database.CallByVoiceId | app/services/store.py:234-241 | None, the one row, or an error for several |
| CallStore.Database.BatchByVoiceId | app/services/store.py:224-231 | The same for batches |
| CallStore.Database.RecordCall | app/services/store.py:127-166 | A row for the call unless the tenant has one, which is then returned |
| CallStore.Database.AddBatch | app/services/store.py:169-197 | The specified tables, in which attribution still holds and a client has one batch per voice-engine batch |
| CallStore.Database.DeleteClientRows | app/services/tenants.py:106-117 | The specified tables, in which attribution still holds and nothing of the client is left |
| CallStore.Database.UpsertCall | app/services/store.py:244-319 | The stepwise upsert leaves the specified tables when it succeeds, and none changed when another transaction is inserting the row |
| CallStore.Database.AssignFields | app/services/store.py:308-316 | The field assignments, `None` skipped, write the specified row |
| CallStore.Database.SyncExecution | app/services/call_sync.py:52-71 | The upsert with the flag, as specified |
| CallStore.Database.SyncIsolated | app/services/batch_sync.py:48-59 | The savepoint: an execution that fails leaves the tables as they were, whatever it had written |
| CallStore.Database.SyncBatchExecutions | app/services/batch_sync.py:25-67 | The loop gives the tables and the queue of the specified pass |
| CallStore.Database.SelectOpen | app/services/call_sync.py:232-246 | The oldest open single calls since the look-back began, oldest first, up to 200, and all of them below that |
| CallStore.Database.SyncOpenSingleCalls | app/services/call_sync.py:227-275 | The calls are single, since the look-back and not terminal, and all such if fewer than 200; the tables and the queue are those of the specified pass over them, the ones without an answer passed over |
| CallStore.FailuresAreIsolated | app/services/batch_sync.py:44-64 | A pass leaves the rows and the queue of the pass over the executions that do not fail, all of which succeed there |
| CallStore.FinishedAreQueued | app/services/batch_sync.py:60-64 | No finished call is missed: one that is terminal after a pass was queued by it if the pass touched it, or, in a single-call pass, if it was open before |
| CallStore.QueuedAreFinished | app/services/batch_sync.py:60-64 | And no open call is queued: some round of the pass was accepted for it and left it terminal, and, in a single-call pass, found it absent or open |
| CallStore.FetchedJoinsBatch | app/services/batch_sync.py:49-50 | A new execution that says nothing of a batch joins the batch it was fetched for; one whose batch is null joins none |
| CallStore.PassIsRun | app/services/batch_sync.py:44-67 | A pass is a run of deliveries, so all that is proved of runs holds of it |
| AgentSync.SyncMirrors | app/services/agent_sync.py:25-88 | After a sync exactly the agents that the answer lists under an id that is not empty are present; no row is lost, and the others keep their rows but for presence, lost as of now |
| AgentSync.ReturnedIsStored | app/services/agent_sync.py:53-70 | A returned agent has the name and status of the last element with its id, as of now |
| AgentSync.SyncReportsDrift | app/services/agent_sync.py:91-118 | One event for a client and agent exactly when the agent vanishes while enabled |
| AgentSync.DriftCountsVanishings | app/services/agent_sync.py:91-118 | Over any run the events for a client and an agent are as many as the times it vanished while enabled |
| AgentSync.ResyncIsQuiet | app/services/agent_sync.py:25-50 | The same answer again writes no event |
| AgentSync.BadAnswerEmptiesTheCatalog | app/services/agent_sync.py:33 | An answer that is not a list takes every agent away, with an event for each enabled one |
| AgentSync.AgentTables.SyncCatalog | app/services/agent_sync.py:25-50 | The stepwise sync equals the specified one; it returns how many agents were seen, how many vanished and how many events were written |
| AgentSync.AgentTables.MarkMissing | app/services/agent_sync.py:73-88 | Exactly the present agents that were not seen are marked and returned |
| AgentSync.AgentTables.DetectDrift | app/services/agent_sync.py:91-118 | One event for each enabled configuration of a missing agent |
| AgentSync.UsableAfterSync | app/services/agent_sync.py:140-156 | After a sync a client may use exactly the agents it had enabled and the answer has; when its agents are then replaced, exactly the wanted ones that the answer has |
| AgentSync.AgentTables.ListClientAgents | app/services/agent_sync.py:121-137 | Exactly the agents that the client may use |
| AgentSync.AgentTables.SetClientAgents | app/services/agent_sync.py:159-181 | The client's enabled agents are exactly the given ones; other clients and settings are untouched |
| AgentSync.AgentTables.UpdateClientAgentConfig | app/services/agent_sync.py:256-282 | Settings are merged, and no agent becomes enabled or disabled by them |
| KeyCache.ScanIsAuthority | app/auth.py:117-126 | A scan of all active keys by digest lets a key in exactly when it is an active key of an active client |
| KeyCache.AnswerIff | app/auth.py:117-134 | No active row of a known client means no key; otherwise the answer is that client with its name, or its status if it is not active |
| KeyCache.Auth.LookUp | app/auth.py:117-134 | The lookup that the prefix narrows answers as that scan |
| KeyCache.Auth.ResolveApiKey | app/auth.py:104-134 | With operations one at a time the cache cannot be noticed, but for an old name: the answer is the scan's, and a served key is active at that moment |
| KeyCache.Auth.CacheGet | app/auth.py:80-88 | An unexpired entry is served and an expired one removed |
| KeyCache.Auth.IssueKey | app/services/tenants.py:120-133 | The new key opens the door of an active client, and the cache stays current |
| KeyCache.Auth.RevokeKey | app/services/tenants.py:193-195 | The key opens no door any more, its entry is gone, and the other entries stay current |
| KeyCache.Auth.Deactivate | app/services/tenants.py:150-159 | Suspension and rejection: no key of the client opens a door, and the cache is empty |
| KeyCache.Auth.ReactivateClient | app/services/tenants.py:162-164 | Reactivation leaves the cache current |
| KeyCache.Auth.RenameClient | app/services/tenants.py:85-103 | A new name leaves keys and cache current, though entries keep the old name |
| KeyCache.Auth.DeleteClient | app/services/tenants.py:106-117 | The client's keys go with it, others stay, and the cache is empty |
| KeyRaces.ServedWasRead | app/auth.py:80-134 | With requests, administration and other processes interleaving: every tenant served from the cache was read in the run from an active key of an active client, less than one time to live plus one commit ago |
| KeyRaces.InvalidatedIsReadAgain | app/auth.py:96-101 | After an invalidation, of the key or of all, in any run: the key is served only after a request has read it again since, from an active key of an active client, if at the invalidation no request was waiting to fill the cache with it |
| KeyRaces.UncachedIsReadFirst | app/auth.py:104-134 | A key that is not cached, with no request waiting to fill it in, is served only after a request of the run has read it |
| KeyRaces.OtherKeysAreServedOn | app/auth.py:96-101 | The invalidation of one key changes nothing for any other, however long the run |
| KeyRaces.UnreadIsServedNoLonger | app/auth.py:80-93 | A key that no request reads any more is served for less than a time to live and the time of a commit |
| KeyRaces.OldReadIsServedIff | app/auth.py:126-133 | From any moment, some run serves the key by a read from before it exactly when the cache serves it already, or entries live at all and a request that has read the key is waiting, for no longer than a commit takes |
| KeyRaces.WaitingRequestUndoesInvalidation | app/auth.py:130-133 | Such a run from start to end: a request reads a key, the key is invalidated, is then not served, and is revoked, and the request puts it back, so that it is served |
| KeyRaces.ReadsAreTrue | app/auth.py:117-129 | Every read of a run was made by a look of the run, and was true then |
| Variables.FindAll | app/core/variables.py:35 | The left-to-right scan without overlaps finds a name exactly when the text has it in braces anywhere, as an identifier |
| Variables.MatchAt | app/core/variables.py:35 | One attempt: the placeholder at this place, or none is there |
| Variables.NoneInside | app/core/variables.py:35 | No placeholder begins inside another one |
| Variables.PromptTexts | app/core/variables.py:38-61 | Exactly the texts of both containers, at the depths the code looks at |
| Variables.ExtractPromptVariables | app/core/variables.py:64-69 | Exactly the names some text mentions, without the engine's own |
| Variables.ResolveAgentVariables | app/core/variables.py:116-133 | Required and optional partition the names found; optional are the marked ones among them |
| Variables.ValidateVariables | app/core/variables.py:136-143 | Nothing is missing exactly when required is a subset of provided, nothing is extra exactly when all that is provided is known |
| Variables.CheckCall | app/core/variables.py:116-143 | A call is accepted exactly when it provides every name that some prompt text has in braces, but for the engine's own and the optional ones |

## Left out

- HTTP, routing, logging, the database driver, Redis and the frontend: the database is maps and sequences, and a commit is one step. The Redis counter of the rate limiter is not modelled.
- SQL parsing and printing, JSON, SHA-256 and the cryptography of secrets are foreign code: trees and contents stand for them, and hashes are taken to be free of collisions.
- Prompt texts, model providers, EXPLAIN and the wording of outcomes are answers of an oracle. The retries inside one model call count as one call.
- `app/services/analytics.py`, dispositions, workflows, batch metrics, pagination and migrations: table look-ups and aggregates.
- Analysis.RunIsTwoSteps: the row-writing half of `analyze_call` is one step with an answer of the oracle; of the analysis row only its source is kept.
- NotificationRuns.ClaimConservation: the upgrade always writes NULL here. The session skips that write when it had read NULL, so some re-openings counted here (as absorbed, or after a claim that came in between) do not happen.
- NotificationRuns.CanStillDeliverIff: says that a delivery is possible, not that it will happen. The look-back of seven days and the semaphore for completions are not part of the protocol; the look-back and the limit of a pass are in `Completion`.
- Completion.CallTable.RecoverUnnotifiedCalls: with no other writer during the pass. `recover_unnotified_batches` and its concurrent resends are runs of the protocol for a batch and have no method of their own.
- A batch status that `get_batch` or `delete_batch` writes does not open the row, so nothing is sent of it; such writes are not part of the protocol.
- Webhook payloads of a batch and `stop_batch` appear in the protocol as its re-opening; the vocabulary of batch statuses is not modelled.
- SqlGuardLoops.GuardSql: names are lowered in ASCII only, and quoted names are not told apart from unquoted ones, as in the guard. Sorted tuples of tables and columns are sets.
- SqlMeaning.ReadsDecide: a CTE is in scope of the CTEs after it and of the query, not of itself; recursive CTEs are outside this semantics.
- Pipeline.BuildQuery: the check for the one supported workspace and the audit records are left out; only the last notes of the critic are part of the response. Model names of tables and columns come normalised.
- ControlStore.ControlDatabase.IngestWorkspace: the workspace and datasource rows, the loading and validation of the YAML, and the extraction of manual joins are left out. Distinct column names in a table and non-empty table names are facts of the introspected database.
- Ingestion.AlwaysCoherent: the step that fills in embeddings is not part of the repository yet; it is modelled as its documentation describes it. A glossary embedding is of the definition and the mapped table that are stored.
- Ingestion.NullEmbeddingsAreTheChangedRows: for tables. The same for terms is in `GlossaryAfter`, which clears exactly the embeddings it overwrites.
- Store.RowIsFold: amounts stay in minor units; the float column and its rounding are left out. Values of the wrong type appear only as a payload that the database refuses, and a cost that is not a number.
- CallStore.Database.UpsertCall: an upsert is one transaction; another one that is inserting the same row is a property of the payload's arrival.
- CallStore.Database.SyncOpenSingleCalls: rows get their ids in the order of creation, so the look-back is a first id. The completions after the pass are those of `Completion`, on a table of its own.
- CallStore.Database.RecordCall: sender number and workflow code, which nothing else here reads, are left out.
- RateLimit.MemoryLimiter.MemoryHit: clock readings are integers, and there is one window and one limit, as for both callers in the repository.
- AgentSync.AgentTables.SyncCatalog: the snapshot column and the acknowledgement of events are left out; deleting a client is not part of this model.
- KeyCache.Auth.ResolveApiKey: the time of last use is not kept; digests are compared by equality.
- KeyCache.Auth.Deactivate: the approval of a client is the change of its status followed by `IssueKey`.
- KeyRaces.ServedWasRead: tenants served from the cache; a request that misses it is answered by its own read. A commit takes at most `lag`, which is arbitrary.
- Variables.ResolveAgentVariables: sorted lists are sets. The file of overrides and its cache are left out.

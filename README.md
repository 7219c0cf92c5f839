# Ice tracker sync engine — a Dafny model

This project models the penalty engine of a fantasy-football "ice" tracker.
The engine keeps a ledger (`ice_log`) of penalties:

- **PRINCIPAL** rows, created when a team's starter scores zero points or less in a week;
- **INTEREST** rows, one per week that a principal stays unpaid past a one-week grace period.

One sync run:

1. reads the current NFL week and season (the run fails with "Could not fetch NFL state" when that read fails);
2. picks a start week, which is the latest week recorded for the season (scanned again on purpose), at least 1, and 1 whenever the current week is 1;
3. builds a roster-id to team-name map from the league's users and rosters;
4. scans every week from the start week to the current week, inclusive. For every starter scoring at most 0 whose id is not the empty-slot id "0", it inserts a PENDING principal, unless one with the same (roster, week, player name, season) already exists;
5. for every PENDING principal of the season, brings its interest count up to `currentWeek - weekIncurred - 1`, inserting only the shortfall;
6. reports the number of principals and interest rows inserted, the week, the season and the start week.

A second, smaller core is the player-directory importer. It projects every upstream player object onto the five columns of the players table, keeps the skill positions (QB, RB, WR, TE, K, DEF) and upserts the rows in chunks of 500. It stops with a 500 reply at the first chunk the store rejects.

Modules:

- `Wrappers` (wrappers.dfy): `Option`, `Result`, `Max`.
- `IceLedger` (ice_ledger.dfy): the ledger record, its queries, and the `Ledger` class. The class's `Insert` appends a row under a store-assigned id.
- `Sleeper` (sleeper.dfy): the upstream data one run reads, and team and player name resolution.
- `PenaltyDetector` (penalty_detector.dfy): candidate principal rows and the duplicate-checked insert loop.
- `InterestAccrual` (interest_accrual.dfy): interest reconciliation for one principal and for a list of principals.
- `SyncEngine` (sync_engine.dfy): the whole run, specified by `Sync`, and the run-level properties. `RunSyncLogic` performs the run on a `Ledger` and is proved equal to `Sync`.
- `PlayerImport` (player_import.dfy): the player importer.

Each loop of the source that writes the ledger is a `while` loop over the `Ledger` object: the week, matchup and starter loops of the scan (`ScanWeeks`, `DetectWeek`, `DetectMatchup`) and the principal and insert loops of reconciliation (`ReconcileInterest`, `AccruePrincipal`). The roster `forEach` is the loop of `BuildRosterMap`. The user lookup (`users.find`) is the function `FindUser`. The importer's chunk loop is the `while` loop of the method `ImportPlayers`, specified by `Chunks`. Each ledger method is proved to leave the ledger equal to a specification function of its old state:

- `Detect` for the principal scan;
- `AccrueOne`/`AccrueAll` for reconciliation;
- `Sync` for the whole run.

The properties are proved about those functions.

The upstream API is an input value (`Upstream`). A fetch that fails is `None`, and so is a week absent from the matchup map. A starter slot beyond the `starters` array has the id "undefined", which is what the source's string template prints for it.

## Model

| member | source | states |
|---|---|---|
| IceLedger.Inserted | app/api/sync/route.ts:117-126 | an insert appends exactly one row, the given row under id nextId, keeps every earlier row and advances nextId by 1; it keeps ids distinct and below the next id |
| IceLedger.HasPrincipal | app/api/sync/route.ts:105-116 | the duplicate test: some PRINCIPAL row has the (roster, week, player name, season) key; `HasPrincipalExtend`, `DetectCovers` and `DetectNoop` state its use |
| IceLedger.InterestCount | app/api/sync/route.ts:148-152 | at most the ledger's length; counts the INTEREST rows whose parent is the given id, which `InterestCountAppend` splits over concatenation |
| IceLedger.Ledger.Insert | app/api/sync/route.ts:117-126 | the ledger object after an insert is `Inserted` of its old state |
| IceLedger.LatestWeek | app/api/sync/route.ts:44-50 | no value iff the season has no row; otherwise the largest week_incurred of the season's rows, attained by one of them |
| IceLedger.PendingPrincipals | app/api/sync/route.ts:136-141 | a row is returned iff it is in the ledger and is a PENDING PRINCIPAL of the season |
| IceLedger.PendingPrincipalsDistinct | app/api/sync/route.ts:136-141 | with distinct ledger ids, the principals list has distinct ids |
| IceLedger.InterestCountAppend | app/api/sync/route.ts:148-152 | the interest count of a parent adds up over concatenated ledgers |
| IceLedger.PendingPrincipalsAppend | app/api/sync/route.ts:136-141 | appending rows that are not PRINCIPALs leaves the principals query unchanged |
| IceLedger.InterestCountNoInterest | app/api/sync/route.ts:148-152 | appending rows none of which is an INTEREST row changes no interest count |
| IceLedger.HasPrincipalExtend | app/api/sync/route.ts:105-116 | a principal key found in the ledger is still found after rows are appended |
| IceLedger.ParentsClosedAppend | app/api/sync/route.ts:158-168 | appending rows whose INTEREST rows point at a principal already present keeps every interest row's parent in the ledger |
| Sleeper.FindUser | app/api/sync/route.ts:75 | the first user whose id equals the roster's owner id, and none iff no user matches |
| Sleeper.TeamsFrom | app/api/sync/route.ts:73-77 | the roster map has an entry for a roster id iff some listed roster has that id |
| Sleeper.TeamsFromLastWins | app/api/sync/route.ts:74-76 | the entry of a roster id holds the name the last roster with that id resolves to, since later assignments overwrite earlier ones |
| Sleeper.TeamNameOf | app/api/sync/route.ts:75-76 | never empty: the owner's team_name when truthy, else the display_name when truthy, else "Team <roster id>" |
| Sleeper.TeamFor | app/api/sync/route.ts:119 | the mapped name of the roster, or "Team <roster id>" when it is unmapped or empty; `TeamForResolves` states the result |
| Sleeper.TeamsFromSnoc | app/api/sync/route.ts:74-76 | unfolding helper: one more roster sets or overwrites exactly its own roster id's entry |
| Sleeper.BuildRosterMap | app/api/sync/route.ts:72-78 | the `forEach` loop builds exactly `RosterTeams`, which is empty when the users or the rosters fetch failed |
| Sleeper.TeamForResolves | app/api/sync/route.ts:72-119 | a principal's team name is never empty; it is "Team <roster id>" when a fetch failed or no roster has the id, and otherwise the team_name, display_name or fallback name of the last roster with that id |
| Sleeper.PlaceholderNamesDistinct | app/api/sync/route.ts:98-102 | for ids absent from the directory (or no directory), the "Player <id>" names are equal iff the ids are |
| PenaltyDetector.Qualifies | app/api/sync/route.ts:94-96 | a starter qualifies iff its score is at most 0 and its id is not the empty-slot id "0"; `StarterRowsSpec` states its use |
| PenaltyDetector.PrincipalRow | app/api/sync/route.ts:117-126 | the PENDING PRINCIPAL row of a starter: roster, team name, player name, week, score and season; `ScanRowsShape` states its shape |
| PenaltyDetector.StarterRowsSpec | app/api/sync/route.ts:91-102 | a candidate row of a matchup is exactly the row of a starter index with score <= 0 and id not "0" |
| PenaltyDetector.MatchupRowsSpec | app/api/sync/route.ts:89-102 | a row is a candidate of a matchup iff it is the row of one of its qualifying starters; a matchup without starters_points has none |
| PenaltyDetector.MatchupsRowsSpec | app/api/sync/route.ts:88-89 | a week's candidates are exactly those of its matchups; a matchup without starters_points yields none |
| PenaltyDetector.WeekRowsSpec | app/api/sync/route.ts:85-88 | a week's candidates are those of its fetched matchups, and a week whose fetch failed has none |
| PenaltyDetector.ScanRowsWeeks | app/api/sync/route.ts:84 | a row is a candidate of weeks lo..hi iff it is a candidate of one of those weeks |
| PenaltyDetector.ScanRowsSpec | app/api/sync/route.ts:84-102 | a row is a candidate of weeks lo..hi iff it is the row of a qualifying starter of a fetched matchup of some week in lo..hi, inclusive |
| PenaltyDetector.ScanRowsShape | app/api/sync/route.ts:117-126 | every candidate is a PENDING PRINCIPAL of the season with no parent, its triggering score <= 0 and a week in the window |
| PenaltyDetector.ScanRowsNarrower | app/api/sync/route.ts:84 | a later start week yields a subset of the candidates |
| PenaltyDetector.DetectOne | app/api/sync/route.ts:105-128 | one duplicate-checked insert: the ledger unchanged when a PRINCIPAL has the row's key, otherwise `Inserted`; `DetectStarter` states it |
| PenaltyDetector.Detect | app/api/sync/route.ts:105-128 | duplicate-checked inserts of the candidates in order; `DetectExtends`, `DetectCovers`, `DetectKeepsUnique` and `DetectNoop` state its properties |
| PenaltyDetector.DetectAppend | app/api/sync/route.ts:84-132 | detection over concatenated candidate lists is detection over the first, then the second |
| PenaltyDetector.DetectExtends | app/api/sync/route.ts:105-128 | detection only appends rows under fresh consecutive ids, each a candidate row, and keeps the ledger well formed |
| PenaltyDetector.DetectCovers | app/api/sync/route.ts:105-128 | after detection every candidate's (roster, week, player name, season) has a PRINCIPAL |
| PenaltyDetector.DetectKeepsUnique | app/api/sync/route.ts:105-128 | if no two principals shared a key before, none do after |
| PenaltyDetector.DetectNoop | app/api/sync/route.ts:116 | when every candidate already has its principal, detection changes nothing |
| PenaltyDetector.DetectStarterStep | app/api/sync/route.ts:91-128 | detection over one more starter slot is one more duplicate-checked insert when the slot qualifies, and nothing otherwise |
| PenaltyDetector.DetectStarter | app/api/sync/route.ts:92-128 | one starter slot: a score above 0 or the empty-slot id "0" leaves the ledger as it was; otherwise the row is inserted iff no PRINCIPAL has its key, and the insert is counted |
| PenaltyDetector.DetectMatchup | app/api/sync/route.ts:91-130 | the starter loop leaves the ledger equal to `Detect` over the matchup's candidates and counts the inserts |
| PenaltyDetector.DetectMatchupsStep | app/api/sync/route.ts:88-89 | detection over one more matchup adds that matchup's candidates, and a matchup without starters_points adds nothing |
| PenaltyDetector.DetectNext | app/api/sync/route.ts:88-130 | one round of the matchup loop extends detection by one matchup and counts its inserts |
| PenaltyDetector.DetectWeek | app/api/sync/route.ts:85-131 | a failed week fetch changes nothing; otherwise the matchup loop leaves `Detect` over the week's candidates and counts the inserts |
| PenaltyDetector.RenamedStarterDuplicates | app/api/sync/route.ts:98-126 | a starter whose name resolves differently in two runs of the season gets two PRINCIPAL rows with the same roster, week, score and season |
| PenaltyDetector.DirectoryRecoveryDuplicates | app/api/sync/route.ts:98-126 | concretely: starter p1 of roster 10 stored as "Player p1" without the directory and as "Pat Mahomes" with it yields two principals |
| InterestAccrual.InterestRow | app/api/sync/route.ts:158-168 | the interest row of a principal; `AccrueOneRows` states its fields |
| InterestAccrual.AccrueOne | app/api/sync/route.ts:144-171 | `Needed` inserts of the principal's interest row; `AccrueOneSpec` states the counts |
| InterestAccrual.AccrueAll | app/api/sync/route.ts:144-171 | `AccrueOne` over the principals in order; `AccrueAllCounts`, `AccrueAllRows` and `AccrueAllOtherParent` state its properties |
| InterestAccrual.Needed | app/api/sync/route.ts:145-156 | the number of inserts for a principal is max(0, target - existing interest count) |
| InterestAccrual.InsertCopiesShape | app/api/sync/route.ts:157-168 | n inserts of one row append n copies under fresh consecutive ids |
| InterestAccrual.InsertCopiesCount | app/api/sync/route.ts:157-168 | n inserts of one row raise a parent's interest count by n when the row is an INTEREST row of that parent, and leave it unchanged otherwise |
| InterestAccrual.AccrueOneSpec | app/api/sync/route.ts:145-171 | reconciling p inserts max(0, t - have) rows, leaves p with max(have, t) interest rows, leaves every other parent's count alone, and changes nothing when t <= 0 |
| InterestAccrual.AccrueOneRows | app/api/sync/route.ts:158-168 | each inserted row is a PENDING INTEREST row of the season, named INTEREST PENALTY, with score 0 and parent p.id, copying p's roster, team name and week_incurred |
| InterestAccrual.AccrueGracePeriod | app/api/sync/route.ts:145-147 | with no prior interest, a principal of week w gets none while currentWeek <= w + 1, and currentWeek - w - 1 after |
| InterestAccrual.AccrueCatchUp | app/api/sync/route.ts:145-157 | a skipped week is caught up: reconciling at an earlier week then a later one leaves the same count as reconciling once at the later week |
| InterestAccrual.AccrueAllOtherParent | app/api/sync/route.ts:144-173 | reconciling a list of principals leaves the count of a parent outside the list unchanged |
| InterestAccrual.AccrueAllCounts | app/api/sync/route.ts:144-173 | after reconciling a list with distinct ids, each principal has max(have, its target) interest rows |
| InterestAccrual.AccrueAllRows | app/api/sync/route.ts:144-173 | reconciliation only appends PENDING INTEREST rows of the season whose parent is in the list, and keeps the ledger well formed |
| InterestAccrual.AccrueAllNoop | app/api/sync/route.ts:147-156 | when every principal has reached its target, reconciliation changes nothing |
| InterestAccrual.AccruePrincipal | app/api/sync/route.ts:145-171 | the inner insert loop leaves the ledger equal to `AccrueOne` and counts max(0, target - have) inserts |
| SyncEngine.StartWeek | app/api/sync/route.ts:52-60 | the start week is at least 1 and is 1 when the current week is 1; otherwise no season row lies after it, and when above 1 some season row lies in it |
| SyncEngine.Sync | app/api/sync/route.ts:36-40 | a missing NFL state gives the error "Could not fetch NFL state" with the ledger untouched; otherwise success reporting the current week and season |
| SyncEngine.StartWeekMonotone | app/api/sync/route.ts:44-60 | adding rows to the ledger never moves the start week back |
| SyncEngine.ScannedRows | app/api/sync/route.ts:84-132 | the scan keeps old rows and appends only PENDING PRINCIPAL rows of the season |
| SyncEngine.ReconciledExtends | app/api/sync/route.ts:136-174 | reconciliation keeps every old row and keeps ids distinct and below the next id |
| SyncEngine.ReconciledRows | app/api/sync/route.ts:136-174 | every row reconciliation adds is a PENDING INTEREST row of the season whose parent is a PRINCIPAL of the season already in the ledger |
| SyncEngine.ReconciledPrincipals | app/api/sync/route.ts:136-141 | reconciliation leaves the principals query unchanged |
| SyncEngine.SyncStages | app/api/sync/route.ts:84-174 | unfolding helper: the run's ledger is reconciliation after the scan |
| SyncEngine.SyncReport | app/api/sync/route.ts:176 | unfolding helper: the run reports as newIces and interestAdded the row counts each stage added, with the current week, season and start week |
| SyncEngine.SyncAt | app/api/sync/route.ts:20-177 | unfolding helper: given the ledger after each stage and the row counts each stage added, the run's reply and final ledger follow from them |
| SyncEngine.SyncAppendOnly | app/api/sync/route.ts:116-176 | a run never changes or removes a row (so it never sets COMPLETE); what it adds are PENDING rows of the season, first newIces principals, then interestAdded interest rows |
| SyncEngine.SyncWellFormed | app/api/sync/route.ts:117-126 | a run keeps ids distinct and below the store's next id |
| SyncEngine.SyncKeepsUniquePrincipals | app/api/sync/route.ts:105-128 | a ledger without duplicate principal keys has none after a run |
| SyncEngine.ScannedKeepsParentsClosed | app/api/sync/route.ts:117-126 | the scan keeps every interest row's parent in the ledger |
| SyncEngine.ReconciledKeepsParentsClosed | app/api/sync/route.ts:158-168 | reconciliation keeps every interest row's parent in the ledger |
| SyncEngine.SyncKeepsParentsClosed | app/api/sync/route.ts:116-170 | after a run every INTEREST row points at a PRINCIPAL of its season in the ledger, if that held before |
| SyncEngine.ReconciledCounts | app/api/sync/route.ts:136-174 | reconciliation leaves every pending principal of the season with max(have, target) interest rows |
| SyncEngine.ScannedCounts | app/api/sync/route.ts:84-132 | the scan changes no interest count |
| SyncEngine.SyncInterestCounts | app/api/sync/route.ts:136-174 | after a run every pending principal of the season has max(have before the run, currentWeek - weekIncurred - 1) interest rows |
| SyncEngine.ScannedCovers | app/api/sync/route.ts:84-132 | after the scan every candidate has its principal |
| SyncEngine.ScannedAdds | app/api/sync/route.ts:84-132 | every row the scan adds is a candidate under a fresh id |
| SyncEngine.SyncPrincipals | app/api/sync/route.ts:84-132 | after a run every qualifying starter of the scanned window has its principal, and every principal the run added is one of those starters' rows |
| SyncEngine.ScanSkipsEarlierWeeks | app/api/sync/route.ts:52-57 | when the current week is not 1, no candidate lies before the week of any stored row of the season |
| SyncEngine.SkippedWeekStaysMissing | app/api/sync/route.ts:52-86 | when the current week is not 1 and the season has a row at week w, a run adds no principal for any week before w |
| SyncEngine.RescanNoop | app/api/sync/route.ts:84-132 | scanning again the ledger a run produced finds nothing new |
| SyncEngine.ReconcileNoop | app/api/sync/route.ts:136-174 | reconciling again right after a reconciliation inserts nothing |
| SyncEngine.SyncIdempotent | app/api/sync/route.ts:20-177 | a second run with the same upstream data and current week leaves the ledger as it was and reports 0 new principals and 0 interest rows |
| SyncEngine.ScenarioRow | app/api/sync/route.ts:98-119 | with no directory entry and no roster map, starter "p1" of roster 10 is named "Player p1" on team "Team 10" |
| SyncEngine.ScenarioRows | app/api/sync/route.ts:84-102 | weeks 1 to 3 of the worked run yield exactly that one candidate row |
| SyncEngine.ScenarioScan | app/api/sync/route.ts:84-132 | in the worked run, the scan of the empty ledger from week 1 inserts the week-1 principal with id 0 |
| SyncEngine.ScenarioReconcile | app/api/sync/route.ts:144-171 | at week 3 the week-1 principal gets exactly one INTEREST row, id 1, with parent 0 |
| SyncEngine.WeekThreeScenario | app/api/sync/route.ts:20-177 | empty ledger, week 3, one zero score in week 1: the run inserts that principal (id 0) and one interest row with parent 0, and reports 1 and 1 from start week 1 |
| SyncEngine.ScanWeeks | app/api/sync/route.ts:84-132 | the week loop leaves the ledger equal to `Detect` over the candidates of startWeek..currentWeek and counts the inserts |
| SyncEngine.ReconcileInterest | app/api/sync/route.ts:143-174 | the principals loop leaves the ledger equal to `AccrueAll` over the snapshot and counts the inserts |
| SyncEngine.PrepareScan | app/api/sync/route.ts:44-78 | computes `StartWeek` from the latest stored week and builds the roster map of the scan context |
| SyncEngine.RunWithState | app/api/sync/route.ts:42-176 | with the NFL state read, the run on the ledger object returns `Sync`'s result and leaves `Sync`'s ledger |
| SyncEngine.RunSyncLogic | app/api/sync/route.ts:20-177 | the run on the ledger object returns `Sync`'s result and leaves `Sync`'s ledger, failing with the ledger untouched when the NFL state is missing |
| PlayerImport.ProjectAll | app/api/update-players/route.ts:13-19 | one row per directory value, in order, whose id is player_id and whose first_name, last_name, position and team are the object's |
| PlayerImport.IsActive | app/api/update-players/route.ts:22-25 | a row is kept iff its position is present, non-empty and one of QB, RB, WR, TE, K, DEF; `FilterActiveKeeps` states its use |
| PlayerImport.FilterActive | app/api/update-players/route.ts:22-25 | every kept row has a non-empty position among QB, RB, WR, TE, K, DEF |
| PlayerImport.FilterActiveKeeps | app/api/update-players/route.ts:22-25 | every row with such a position is kept as often as it occurs, and every other row is dropped |
| PlayerImport.FilterActiveAppend | app/api/update-players/route.ts:22-25 | the filter distributes over concatenation, so kept rows stay in their order |
| PlayerImport.Chunks | app/api/update-players/route.ts:30-32 | the slices of 500 rows starting at 0, 500, 1000, ...; `ChunksPartition` states that they partition the rows |
| PlayerImport.Slice | app/api/update-players/route.ts:32 | a slice at i holds the min(500, n - i) rows starting at i |
| PlayerImport.FlattenChunksPrefix | app/api/update-players/route.ts:30-32 | the first k chunks concatenate to the first min(500 k, n) rows |
| PlayerImport.ChunksPartition | app/api/update-players/route.ts:30-32 | the chunks concatenate back to the rows, each holds 1 to 500 rows, and all but the last hold exactly 500 |
| PlayerImport.ImportPlayers | app/api/update-players/route.ts:13-47 | the chunks sent are the first chunks in order; the reply is a success iff no upsert fails, and then all chunks were sent and count is the number of kept rows; otherwise it is a 500 with the first failure's message and nothing after that chunk is sent |

## Behaviour of the code

Two behaviours of the sync route follow from the code as written. They are proved about the model, which keeps the code's behaviour.

- A week whose fetch failed is not scanned again once the season has a stored row of a later week, unless the current week is 1. The start week is the largest stored week of the season (app/api/sync/route.ts:52-57). Suppose the fetch of week 2 failed during a run at week 3 that stored a week-3 principal. Every later run then starts at week 3 or later, so week 2's zero scores are never recorded. While no stored row of the season lies after the failed week, the next run does scan it again. `ScanSkipsEarlierWeeks` and `SkippedWeekStaysMissing` state this for every ledger.
- The same zero score can be recorded twice. The duplicate check keys on the resolved player name (app/api/sync/route.ts:98-116). A run without the player directory stores "Player p1". A later run that has the directory resolves the same starter to "Pat Mahomes", finds no match, and inserts a second principal for the same roster, week and score. `RenamedStarterDuplicates` states this for any two name resolutions that differ, and `DirectoryRecoveryDuplicates` is the concrete case.

## Left out

- The HTTP calls to the Sleeper API are not modelled, and neither are their caching policy (`revalidate`) or the `Promise.all` fan-out. Their results are the fields of `Upstream`, and a failed or non-OK fetch is `None`.
- A fetch whose response body fails to read or parse is also modelled as `None`, but in the source it aborts the run. `fetchSleeper` returns `res.json()` without awaiting it inside its `try` (app/api/sync/route.ts:27-28), so that failure escapes the `catch` and the `await` at route.ts:36, 66-70 or 85 throws. The run then ends with a 500 after the earlier weeks' inserts, instead of skipping that week or that data.
- The order of the upstream calls relative to the ledger is not modelled: all upstream data is taken as fixed for the run.
- Store (Supabase) error results are not modelled, for queries or inserts. Every insert succeeds and receives the next sequential id. The code ignores an insert's error and counts the insert anyway. The code does not abort the run on a failed insert, and neither does the model.
- A failed principals query (the `if (principals)` guard) and a null interest count (`count || 0`) are not modelled, because their source is store errors.
- The route handlers `POST`/`GET` of the sync route are left out. They only wrap the summary or the thrown message as JSON with status 500. The thrown error is `Sync`'s `Failure`.
- Concurrency between simultaneous runs is not modelled. The source has no locking, so duplicate principals from racing runs are possible and are not excluded by `SyncKeepsUniquePrincipals`, which is about one run at a time.
- The `created_at` and `proof_url` columns are not modelled. Marking a penalty COMPLETE and setting `completed_at` is done by the web page (app/page.tsx:62), not by the engine, and is not modelled.
- The principals query (app/api/sync/route.ts:136-141) has no `.order`, so the store may return the rows in any order. `PendingPrincipals` returns them in ledger order. That order decides which ids the interest rows receive, so the model fixes one of the orders the store may use; the counts per principal do not depend on it.
- A matchup whose `starters` array is missing makes the source throw a TypeError when a starter qualifies. The model always has a `starters` sequence, and an index past its end reads as the id "undefined".
- Scores are modelled as exact reals. Non-numeric score entries and floating-point rounding are not modelled.
- The players directory holds first and last names as strings. Missing name fields, which the source would print as "undefined", are not modelled.
- The order of `Object.values` over the player directory is not modelled. The importer takes the directory's values in a given order.
- The effect of an upsert on the players table (insert or replace by `id`) is not modelled. The importer's model records the chunks it sends and the reply.
- A failure of the players-file fetch or of its JSON parse in the importer is not modelled, and neither is the logging in either route.

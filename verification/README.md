# Verified model of the Ignite Market backend

Ignite Market runs prediction markets on a chain and keeps a database beside it. This project models
the parts of the backend in which state is shared, replayed or rewritten, and proves what they keep over
every run. `dafny verify dfyconfig.toml` checks all of it.

| file | component |
|---|---|
| `JobLock.dfy`, `LockProtocol.dfy` | the single-thread job lock: one row shared by any number of worker instances |
| `BlockCursor.dfy` | the block windows of all event parsers |
| `MarketParser.dfy`, `Planner.dfy` | the per-market parser, the hand-over after finalisation, the planner of the parser processes |
| `Claims.dfy`, `VotingParser.dfy` | the contract workers for claims and votes |
| `NamedParams.dfy`, `ParamMeaning.dfy` | the named-parameter SQL compiler |
| `Statements.dfy`, `Assignments.dfy` | the statements generated for it, and what they say when they are read back |
| `Fpmm.dfy`, `Positions.dfy` | outcome prices and the cost basis of open positions |
| `Attestations.dfy`, `Finalisers.dfy`, `Resolution.dfy` | attestation, proof, finalisation, and all writers of a market's status and winner |
| `Proposals.dfy`, `ProposalRounds.dfy` | proposals, votes and rewards, and their rounds under every interleaving |
| `PendingVotes.dfy`, `ProposalBounds.dfy`, `ProposalWinner.dfy`, `ProposalRuns.dfy` | what votes under way can still do, when a round's winner can be passed, and the runs in which it is |
| `Grouping.dfy`, `GroupingMeaning.dfy`, `Batching.dfy`, `ArrayCodec.dfy`, `Templates.dfy` | row grouping, batching, the array codec, placeholder substitution |
| `Option.dfy`, `Sequences.dfy`, `Sums.dfy`, `Markets.dfy` | what several of them share |

## Modelling decisions

- The database is its rows. A transaction that commits is one step and one that rolls back changes
  nothing; where the source reads without a lock and reads or writes again later, these are separate steps
  and anything may happen in between. Two reads are one step only where nothing in between can matter: a
  vote reads its proposal and then the round, which never becomes active again, and an edit reads its
  proposal and then counts its votes, which are never removed. A deletion is one step at its write.
- The chain is immutable: for every kind of event a function from block to event list. The confirmed
  head, user and outcome look-ups, replies of the attestation network, proof checks, answers of the chain
  and faults are inputs, different ones in every cycle unless a comment says otherwise.
- Time is whole seconds; the next run of a job is an arbitrary instant or none. Amounts are exact
  integers or rationals, so the rounding of JavaScript numbers is not modelled.
- Objects and workers that change state are classes whose methods are proved against functions of the
  old state; theorems over runs are lemmas about those functions.

## What holds only under a condition

Several natural statements are false of the code. Each is proved with its exact condition, and the run or
value that breaks it is exhibited.

- The job lock is not a mutual exclusion by itself: an instance between `before` and its recorded start
  lets another in exactly when the previous run has expired (`StartWindow`); an instance between its
  release and its completion overwrites the lock of the next one (`FinishWindow`, `LostLock`); a run that
  outlives its timeout can be joined (`OverrunWindow`).
- `serverless-worker.ts` says that every error updates the job; `onError` throws before that, so a failed
  run leaves the row locked until its timeout (`FailedJobComesBack`), and a run that dies before its first
  start is recorded leaves it locked for ever (`StuckExactlyWhenNeverStarted`). After the release a lost
  completion only keeps the job from the scheduler until the timeout (`ReleasedJobComesBack`).
- `paramExecute` binds a query correctly for all values exactly when it holds no `?` and every
  whitespace-delimited word holds its parameters once each and in key order
  (`BindingIsSubstitutionExactlyWhen`, `TwoInOneWord`). A word with at most one parameter is the usual case.
- The contract workers stop one block short of the head exactly when the distance to that block is a
  multiple of the window length (`WorkerStops`).
- The finalised parser takes over the market parser's cursor, so that trades after it and removals before
  it are never recorded (`HandOverLosesExactly`); events in the block that created a market are not
  recorded either (`CreationBlockIsSkipped`).
- Two parsers of one market live at the same time exactly when a market is wanted again before its
  stopped parser has exited; the planner then forgets the younger one (`OneEachExactlyWhen`,
  `ForgottenParser`). Two parsers that work on the same cursor spoil the ledger for good unless the window
  that the first one committed is silent (`TwoParsersRepeatTheWindow`).
- FINALIZED is not absorbing (`ReopenedExactlyBy`, `StaysFinalizedExactlyWhen`, `FinalizedExactlyWhen` in
  `VotingParser`), and a recorded winner can be lost to a stale copy (`WinnerSurvivesExactlyWhen`,
  `LostDecision`).
- Equal numbers of attestations and data sources match one to one exactly when no attestation is for
  another source; sources replaced after an error break this (`EqualCountsMatchExactlyWhen`,
  `ReplacedSourcesAreNeverAttested`, `WrongSourcesFinalised`), and a market without sources passes with
  no proof (`NoSourcesCallTheChain`).
- A finalised market has a winner as long as no edit supplies the status "finalised"; the data of an edit
  always carries a status, INITIALIZED unless the user names another (`NextKeepsExactlyWhen`,
  `FinalizedWithoutWinner`).
- The winner of a finished proposal round can be passed. A vote can be checked and written between the
  finaliser's query and its write (`VoteDuringFinish`); a vote, a take-back or a proposal that was checked
  before the finish can be written after it (`VoteTakenBack`, `LateProposal`); an edit writes back the status
  that it read and so brings a deleted proposal back, in whatever round (`EditBringsBack`); and a second
  finaliser that selected the round earlier can record another winner (`SelectedTwice`). A winner leads in
  every continuation exactly when it is ahead (`LeadsForEverExactlyWhen`; before the write
  `FinishLeadsForEverExactlyWhen`, over runs `WinnersLeadForEver`): no proposal that survives or has an edit
  pending can be raised above what the winner can fall to by the votes under way, nor above 0 one that is
  still to be inserted, and, if a finaliser has yet to query the round, no proposal can come in or come
  back, and no two survivors can change places. What one user's votes can come to is read off what is
  pending (`ComesExactlyWhen`).
- Finishing rounds keeps the number of active rounds exactly when no round is finished twice by finalisers
  that overlap (`ActiveRoundsCount`, `FinishedTwice`).
- Open positions follow the chronological replay exactly when no prefix of the history is short
  (`ReplayAddsUpExactlyWhen`, `SoldBeforeBought`).
- The `;;;` codec restores an array exactly when no element holds the delimiter, none but the last ends in
  a semicolon, and the array is neither empty nor one empty text (`RestoredExactlyWhen`, `SemicolonMoves`).
- Replacing template keys one after the other has substituted the keys so far all at once, after every key
  and in every safe template, exactly when the values expand to themselves and no later replacement can hit
  an earlier value (`EachKeyExactlyWhen`; `EveryOrderExactlyWhen`, `OrderMattersWithBraces`). A later key can
  repair the text (`RepairedLater`).
- Option passes that share a prefix take columns from each other, so that grouping needs prefixes that
  match no other prefix and no other field name (`SwallowedColumn`).
- The comment above `setStatus` numbers VOTING, FINALIZED and ERROR 6, 7 and 8; the enumeration has 5, 6
  and 7. The model uses the enumeration's names.

## Model

| member | source | states |
|---|---|---|
| JobLock.SingleThreadWorker.CheckLockedStatus | src/lib/worker/serverless-workers/base-single-thread-worker.ts:117-152 | an instance is let in exactly when the job is free or its run has timed out; it raises exactly when the job is missing, overdue or neither free nor locked; the takeover resets the count and records the timeout |
| JobLock.SingleThreadWorker.Before | src/lib/worker/serverless-workers/base-single-thread-worker.ts:46-85 | the locked row becomes the acquired row for an accepted instance and is unchanged for a refused or raising one |
| JobLock.SingleThreadWorker.OnSuccess | src/lib/worker/serverless-workers/base-single-thread-worker.ts:102-110 | the row is released only by an instance that ran |
| JobLock.SingleThreadWorker.LoadRelease | src/lib/worker/serverless-workers/base-single-thread-worker.ts:164-174 | the read half of the release: the fresh row, unlocked, one executor fewer |
| JobLock.SingleThreadWorker.UpdateOnStarted | src/lib/worker/serverless-workers/serverless-worker.ts:136-138 | start and next run are recorded over whatever the row holds then |
| JobLock.SingleThreadWorker.UpdateOnCompleted | src/lib/worker/serverless-workers/serverless-worker.ts:140-145 | completion is recorded over whatever the row holds then |
| JobLock.SingleThreadWorker.LoadDefinition | src/modules/job/job.model.ts:228-232 | status and executor count are those of the row read; assigned fields are the definition's, an unassigned error, completion, failure or duration keeps its column |
| JobLock.SingleThreadWorker.Run | src/lib/worker/serverless-workers/serverless-worker.ts:157-179 | every column of the row after one undisturbed run: a completed run is scheduled by its interval, a failed one leaves the row as the start left it |
| JobLock.WorkerDefinition.SetStarted | src/lib/worker/serverless-workers/worker-definition.ts:92-97 | the lock time: last run now, next run one timeout later, one retry more |
| JobLock.WorkerDefinition.SetCompleted | src/lib/worker/serverless-workers/worker-definition.ts:99-105 | all fields after a completed run; the next run is the interval's, or none without one |
| JobLock.WorkerDefinition.SetFailed | src/lib/worker/serverless-workers/worker-definition.ts:107-112 | all fields after a failed run; the next run is the interval's, or none without one |
| LockProtocol.InvRun | src/lib/worker/serverless-workers/serverless-worker.ts:157-179 | the protocol invariant over every orderly run of any number of instances |
| LockProtocol.MutualExclusion | src/lib/worker/serverless-workers/base-single-thread-worker.ts:46-174 | at most one instance executes, LOCKED exactly with one executor, ACTIVE exactly with none, and an executing job is not pending |
| LockProtocol.StartWindow | src/lib/worker/serverless-workers/serverless-worker.ts:165-166 | before the start is recorded a second instance is let in exactly when the old run has expired, and then both execute |
| LockProtocol.FinishWindow | src/lib/worker/serverless-workers/serverless-worker.ts:168-169 | between release and completion a second instance's lock is overwritten, a third is let in exactly at the first one's timeout, and two execute |
| LockProtocol.LostLock | src/lib/worker/serverless-workers/serverless-worker.ts:168-169 | with the completion already read its write opens the row, and two execute |
| LockProtocol.OverrunWindow | src/lib/worker/serverless-workers/base-single-thread-worker.ts:126-138 | a running job can be joined exactly from its timeout on |
| LockProtocol.FailedJobComesBack | src/modules/job/job.model.ts:192-206 | a failed or dead run is LOCKED, becomes pending exactly at its timeout and is admitted exactly when pending |
| LockProtocol.ReleasedJobComesBack | src/lib/worker/serverless-workers/serverless-worker.ts:168-169 | a run that dies between release and completion leaves the row ACTIVE, pending exactly from the timeout on and admitted at any time |
| LockProtocol.CompletedJobComesBack | src/lib/worker/serverless-workers/worker-definition.ts:73-105 | the row after a run that succeeds, and exactly when the job is selected again: from the time its interval yields, never without one |
| LockProtocol.KeepsInterval | src/lib/worker/serverless-workers/base-single-thread-worker.ts:63-80 | an instance that is let in carries its row's interval and retries until it records its start |
| LockProtocol.StuckExactlyWhenNeverStarted | src/lib/worker/serverless-workers/base-single-thread-worker.ts:126-152 | an instance that dies before recording its start blocks the job for ever exactly when no earlier run or timeout is recorded |
| BlockCursor.MarketStopsAtHead | src/indexer/process-scripts/prediction-set-parser.ts:76-93 | with the head fixed the distance shrinks every cycle and the cursor stops exactly at the head |
| BlockCursor.WorkerStops | src/workers/claims-parser.worker.ts:45-57 | a contract worker stops at the head, or one block before it, decided by the distance modulo the window length |
| BlockCursor.QueryJoin | src/workers/voting-parser.worker.ts:44-56 | adjacent inclusive windows join without gap and overlap |
| MarketParser.ParserDb.Cycle | src/indexer/process-scripts/prediction-set-parser.ts:48-327 | a cycle commits exactly when it advances, does not fail and all outcomes exist; then rows, status and cursor change together, otherwise nothing does |
| MarketParser.ParserDb.InsertFunding | src/indexer/process-scripts/prediction-set-parser.ts:110-194 | one funding row per event for the user of its wallet, the shares acquired by unequal funding with their outcomes, or an outcome that is missing |
| MarketParser.ParserDb.TradeRows | src/indexer/process-scripts/prediction-set-parser.ts:210-284 | buys before sells, one row each with the user of its wallet and the outcome at its index, or a missing outcome |
| MarketParser.ParserDb.ParseFinalized | src/workers/prediction-set-finalized-parser.worker.ts:54-153 | removals of the window are recorded with the cursor, only while the market is finalised |
| MarketParser.LedgerMirrorsChain | src/indexer/process-scripts/prediction-set-parser.ts:48-327 | over every run of successful, waiting, failing and crashed cycles the rows of each kind are exactly the chain's events after the start cursor, in order |
| MarketParser.RunMirrorsExactlyWhen | src/indexer/process-scripts/prediction-set-parser.ts:48-327 | a run neither repairs nor spoils a ledger: it mirrors the chain afterwards exactly when it did before |
| MarketParser.EventTradesAre | src/indexer/process-scripts/prediction-set-parser.ts:132-178 | unequal funding acquires, for exactly the outcomes below the largest amount and in order, what that exceeds theirs by, at the price rounded down |
| MarketParser.EventTradesBookTheirCost | src/indexer/process-scripts/prediction-set-parser.ts:132-178 | the share rows of an unequal funding event book at most its exact cost and miss it by less than one unit a row; nothing when two amounts are 0 |
| MarketParser.TwoParsersRepeatTheWindow | src/indexer/process-scripts/prediction-set-parser-planner.ts:34-40 | when a second live parser commits from the same cursor, to its own last block, the ledger mirrors the chain, then and after every further run, exactly when the window the first one committed is silent in all three kinds |
| MarketParser.CreationBlockIsSkipped | src/workers/prediction-sets-factory-parser.worker.ts:68-108 | starting at the creation block records all events from it on exactly when that block has none |
| MarketParser.HandOverLosesExactly | src/workers/prediction-set-finalized-parser.worker.ts:74-138 | after the hand-over each kind of event is complete exactly when none lies on the wrong side of the cursor |
| Claims.OutcomeIndexIsLog2 | src/workers/claims-parser.worker.ts:71-75 | an index set names outcome k exactly when it is two to the k |
| Claims.NoneBlockedExactlyWhen | src/workers/claims-parser.worker.ts:84-135 | a window commits when each redemption of a market has a known user and an index set that is a power of two naming an outcome |
| Claims.ClaimsAre | src/workers/claims-parser.worker.ts:84-154 | every redemption of a market is booked, for that market, the outcome of its index set and the user of its wallet |
| Claims.ClaimsDb.ParseClaims | src/workers/claims-parser.worker.ts:38-176 | the window commits exactly when it advances, does not fail and nothing in it is blocked |
| Claims.ClaimsMirrorChain | src/workers/claims-parser.worker.ts:68-154 | over every run the claims are exactly the markets' redemptions up to the cursor, in order, one reward each |
| Claims.BlockedStopsCursor | src/workers/claims-parser.worker.ts:109-135 | a redemption that stays blocked keeps the cursor before its block for ever |
| Claims.UnblockedReachesTheHead | src/workers/claims-parser.worker.ts:45-57 | without blocked redemptions and faults the cursor goes where the workers stop |
| VotingParser.VotingDb.ParseVotes | src/workers/voting-parser.worker.ts:37-226 | a committed window moves cursor, markets and vote rows together |
| VotingParser.RowsAre | src/workers/voting-parser.worker.ts:76-142 | each vote row is of one vote, for its market, outcome and user, and which votes have one |
| VotingParser.FinalizedExactlyWhen | src/workers/voting-parser.worker.ts:105-187 | a market leaves a window finalised exactly when no voting is forced in it and it was decided, wherever on the chain the force lies |
| VotingParser.WindowLeaves | src/workers/voting-parser.worker.ts:105-188 | the row a window leaves: the outcome of the last deciding vote as winner, finalised, and in voting when a voting of it is forced |
| VotingParser.DecisionReopened | src/workers/voting-parser.worker.ts:187-188 | a decided market whose voting was forced in the same window ends in voting with its winner recorded |
| VotingParser.WindowIsSteps | src/workers/voting-parser.worker.ts:105-188 | a window is a run of the status writers beside any copies other writers hold, so whatever they keep under every interleaving holds of it |
| Resolution.WinnerIsTheChains | src/workers/voting-parser.worker.ts:105-124 | under every interleaving of all writers the winner is unset or the outcome at the chain's winner index, and a finalised market has one, if no user's data carries that status |
| Resolution.NextKeepsExactlyWhen | src/modules/prediction-set/prediction-set.service.ts:257-344 | a step of any writer keeps this exactly when it is not an edit that goes through with the status "finalised" in the user's data |
| Resolution.FinalizedWithoutWinner | src/modules/prediction-set/prediction-set.service.ts:322-324 | such an edit leaves the market finalised without a winner |
| Resolution.WinnerSurvivesExactlyWhen | src/lib/base-models/advanced-sql.model.ts:289-332 | a winner survives every continuation exactly when no writer holds a copy from before it |
| Resolution.StaysFinalizedExactlyWhen | src/workers/flare/finalize-automatic-prediction-sets.worker.ts:140-181 | without the three reopening writers a market stays finalised exactly when no held copy can write another status |
| Resolution.ReopenedExactlyBy | src/workers/voting-parser.worker.ts:187-188 | alone on a finalised market exactly forced voting, activation and the factory's status write reopen it |
| Resolution.WriterAlone | src/modules/prediction-set/prediction-set.service.ts:399-414 | the status that every writer leaves when it runs alone; none but the finalisers touches the winner |
| Resolution.ReadsExactlyWhen | src/workers/flare/finalize-automatic-prediction-sets.worker.ts:32-46 | the statuses in which each writer takes a copy of the row |
| Resolution.UndisturbedLife | src/workers/flare/finalize-automatic-prediction-sets.worker.ts:140-181 | sent, created, funded and decided: the row of a market without incident at every stage |
| Resolution.LostDecision | src/modules/prediction-set/prediction-set.service.ts:399-414 | the run in which hiding a market erases its decision |
| Attestations.AttestationTable.RequestAttestations | src/workers/flare/request-attestation.worker.ts:29-128 | a run inserts a row without proof, with the round it was given, for exactly the sources without attestation whose request succeeds, and none when as many attestations as linked sources exist |
| Attestations.RequestedIsNew | src/workers/flare/request-attestation.worker.ts:68-111 | a pass requests, once each, exactly the sources without attestation whose request succeeds |
| Attestations.AttestationTable.RequestProofs | src/workers/flare/request-attestation-proof.worker.ts:64-90 | missing proofs of final rounds are filled in, each the one the network returned for that attestation, others stay |
| Attestations.ProofWrittenOnce | src/workers/flare/request-attestation-proof.worker.ts:68-84 | over every run a stored proof, its source and its round never change |
| Attestations.RunsKeepOnePerSource | src/workers/flare/request-attestation.worker.ts:61-127 | over all serial runs attestations are for pairwise distinct sources of the market |
| Attestations.AttestationTable.Resolve | src/workers/flare/finalize-automatic-prediction-sets.worker.ts:47-126 | which markets are skipped, marked as errors, left, or sent to the chain, with all proofs in attestation order |
| Attestations.EqualCountsMatchExactlyWhen | src/workers/flare/finalize-automatic-prediction-sets.worker.ts:58-72 | equal counts are a one-to-one match exactly when no attestation is for another source |
| Attestations.ChainCalledOnlyWhenComplete | src/workers/flare/finalize-automatic-prediction-sets.worker.ts:58-126 | with fixed sources the chain is only called when every source has exactly one attestation with a verified proof |
| Attestations.ReplacedSourcesAreNeverAttested | src/modules/prediction-set/prediction-set.service.ts:268-300 | with as many old attestations as new sources no run requests another one |
| Attestations.WrongSourcesFinalised | src/modules/prediction-set/prediction-set.service.ts:268-300 | the attestations of replaced sources pass the count and proof checks |
| Attestations.NoSourcesCallTheChain | src/workers/flare/finalize-automatic-prediction-sets.worker.ts:110-115 | a market without data sources is sent to the chain without proofs |
| Attestations.OverlapDuplicatesExactlyWhen | src/workers/flare/request-attestation.worker.ts:65-111 | two overlapping runs attest a source twice exactly when both requests for one succeed |
| Finalisers.PredictionSets.FinalizeAutomatic | src/workers/flare/finalize-automatic-prediction-sets.worker.ts:32-191 | by name, the row each market ends with: finalised with the outcome the chain names, voting without consensus, error when an attestation or proof is missing; all others stay |
| Finalisers.PredictionSets.FinalizeManual | src/workers/finalize-manual-prediction-sets.worker.ts:28-96 | a selected market ends as its copy in voting when it has chain data and the chain answers "voting", and every other row stays |
| Finalisers.AutomaticWriter | src/workers/flare/finalize-automatic-prediction-sets.worker.ts:58-181 | exactly when a market is finalised, put to vote or marked as an error |
| Finalisers.FinalizedExactlyWhen | src/workers/flare/finalize-automatic-prediction-sets.worker.ts:58-155 | a run finalises a market exactly when it has as many attestations as sources, all proofs verify and the chain names an existing outcome; with at most one attestation per source that is exactly one for each |
| NamedParams.ParamExecute | src/lib/database/mysql.ts:270-310 | the text and values sent and the caller's object afterwards |
| NamedParams.CollectWord | src/lib/database/mysql.ts:281-303 | the values one word asks for, in key order, with arrays flattened on the way |
| NamedParams.ArrayIsSentAs | src/lib/database/mysql.ts:281-303 | what is sent for arrays and objects: null, JSON text, or text from which the items can be read back |
| NamedParams.Characters | src/lib/database/mysql.ts:277-309 | which characters make up names, which separate words, and their lower case, at the ends of every range |
| ParamMeaning.ReplacementIsSimultaneous | src/lib/database/mysql.ts:305-309 | rewriting the text key after key is replacing every known name at once, prefixes of keys and unknown names included |
| ParamMeaning.MatchIsParam | src/lib/database/mysql.ts:293-295 | a word matches a key exactly when the reference scan finds that key in it |
| ParamMeaning.WordLoopOrder | src/lib/database/mysql.ts:277-303 | the values come in text order exactly when every word holds its parameters once each in key order |
| ParamMeaning.BindingIsSubstitution | src/lib/database/mysql.ts:270-310 | then binding left to right gives every name its own value |
| ParamMeaning.BindingIsSubstitutionExactlyWhen | src/lib/database/mysql.ts:270-310 | binding is substitution for all values exactly when there is no `?` and every word is in key order |
| ParamMeaning.TwoInOneWord | src/lib/database/mysql.ts:281-303 | a word with two parameters in the other order is not bound correctly for all values |
| Statements.InsertBinds | src/lib/base-models/advanced-sql.model.ts:240-262 | the INSERT that is sent is the one written with every hole filled |
| Statements.InsertCarries | src/lib/base-models/advanced-sql.model.ts:250-260 | it carries exactly the columns' values in column order |
| Assignments.InsertAssigns | src/lib/base-models/advanced-sql.model.ts:240-262 | read back, the INSERT names the columns in order and its k-th value is the k-th column's own |
| Statements.UpdateBinds | src/lib/base-models/advanced-sql.model.ts:289-318 | the same for UPDATE |
| Statements.UpdateCarries | src/lib/base-models/advanced-sql.model.ts:305-318 | it carries the assigned columns' values and, for WHERE, the model's id |
| Assignments.UpdateAssigns | src/lib/base-models/advanced-sql.model.ts:305-318 | read back, the UPDATE assigns to each column its own value, to no other column anything, for the row with the model's id |
| Statements.UpsertBinds | src/lib/base-models/base-sql.model.ts:92-153 | the same for both halves of an upsert and for its INSERT IGNORE form |
| Statements.UpsertCarries | src/lib/base-models/base-sql.model.ts:121-140 | it carries the insert columns' and then the update columns' values |
| Assignments.UpsertAssigns | src/lib/base-models/base-sql.model.ts:92-153 | read back, both halves of the upsert give each column its own value; without update columns duplicates are ignored |
| Statements.UpsertCarriesOwnExactlyWhen | src/lib/base-models/base-sql.model.ts:140-140 | each half carries its own model's values exactly when both models agree on the columns they share |
| Fpmm.RefreshChances | src/workers/refresh-outcome-chances.worker.ts:64-91 | one chance row per outcome, none when a balance is zero |
| Fpmm.SameNumerator | src/workers/refresh-outcome-chances.worker.ts:70-73 | product divided by balance is the product of the other balances |
| Fpmm.ChancesSumToOne | src/workers/refresh-outcome-chances.worker.ts:70-75 | the chances of all outcomes sum to one |
| Fpmm.BalanceTimesChance | src/workers/refresh-outcome-chances.worker.ts:70-75 | balance times chance is the same for every outcome |
| Fpmm.ScarcerIsLikelier | src/workers/refresh-outcome-chances.worker.ts:70-75 | a smaller balance is exactly a larger chance |
| Fpmm.FundingBooksItsCost | src/indexer/process-scripts/prediction-set-parser.ts:132-178 | the total of the truncated row amounts is at most the exact cost and misses it by less than one per row |
| Positions.Summarise | src/modules/prediction-set/models/prediction-set.model.ts:504-526 | shares acquired minus sold, collateral paid in minus paid out, and lots that cost what was paid in |
| Positions.CostIsSpent | src/modules/prediction-set/models/prediction-set.model.ts:504-526 | the lots cost exactly the amounts of the buys and funding; the collateral is these minus the amounts of the sells |
| Positions.BoughtOnly | src/modules/prediction-set/models/prediction-set.model.ts:456-556 | without sells average price times shares is what was paid, which is the collateral |
| Positions.WeightedAverage | src/modules/prediction-set/models/prediction-set.model.ts:528-549 | the average price of the newest shares still held |
| Positions.GetOpenPositions | src/modules/prediction-set/models/prediction-set.model.ts:456-556 | exactly one position for each outcome with shares held, in ascending order |
| Positions.WalkIsReplay | src/modules/prediction-set/models/prediction-set.model.ts:528-543 | never short, the newest-first walk leaves exactly the lots of the chronological oldest-first replay |
| Positions.ReplayAddsUpExactlyWhen | src/modules/prediction-set/models/prediction-set.model.ts:504-543 | the replayed lots add up to the shares held exactly when no prefix is short |
| Positions.OpenPositionIsReplay | src/modules/prediction-set/models/prediction-set.model.ts:528-549 | the walk covers the shares held, average times shares is its cost, and it is the replay exactly when never short |
| Positions.AverageIsBetween | src/modules/prediction-set/models/prediction-set.model.ts:533-549 | the average lies between the lowest and the highest price paid |
| Positions.SellOrderDoesNotShow | src/modules/prediction-set/models/prediction-set.model.ts:504-549 | where sells stand among the buys changes no position |
| Positions.SoldBeforeBought | src/modules/prediction-set/models/prediction-set.model.ts:504-543 | the short history on which walk and replay differ |
| Planner.ParserPlanner.ExecutePlanner | src/indexer/process-scripts/prediction-set-parser-planner.ts:64-98 | a tick starts what is wanted and signals what is not |
| Planner.ParserPlanner.OnExit | src/indexer/process-scripts/prediction-set-parser-planner.ts:34-40 | an exit untracks its market's child, whichever it is; after a failure the market is tracked with a fresh child |
| Planner.TickTracksTheWanted | src/indexer/process-scripts/prediction-set-parser-planner.ts:64-98 | after every tick the tracked markets are the wanted ones, each with a live child, kept if it was tracked |
| Planner.TickKeepsOneEachExactlyWhen | src/indexer/process-scripts/prediction-set-parser-planner.ts:22-57 | a tick keeps one child per market exactly when none is wanted before its stopped child has exited |
| Planner.OneEachExactlyWhen | src/indexer/process-scripts/prediction-set-parser-planner.ts:22-98 | over every run of ticks, stops, exits, crashes and restarts two children of a market never coexist exactly when no tick wants one too early, and then none is forgotten |
| Planner.ForgottenParser | src/indexer/process-scripts/prediction-set-parser-planner.ts:34-57 | the run in which a live parser is forgotten and a second one started |
| Proposals.ProposalService.VoteOnProposal | src/modules/proposal/proposal.service.ts:86-180 | every refusal, and the row, type and award of an accepted vote |
| Proposals.ProposalService.FinalizeProposalRounds | src/workers/finalize-proposal-rounds.worker.ts:29-107 | due rounds finish with the queried proposal, which leads when the answer is still right; failing and other rounds stay, the number of active rounds is kept, and winners' authors are paid |
| Proposals.PrizesAre | src/workers/finalize-proposal-rounds.worker.ts:70-74 | each finished round with a winner pays that proposal's author once, in order, and nobody else is paid |
| Proposals.VoteReplacesAndToggles | src/modules/proposal/proposal.service.ts:122-137 | a vote replaces the standing one in the tally, the same vote again takes it back |
| ProposalRounds.VotesStayUnique | src/modules/proposal/proposal.service.ts:86-180 | under every interleaving one vote and at most one award per user and proposal, no author's vote, and only finished rounds have winners, of their own |
| ProposalRounds.StartsExactlyWhen | src/modules/proposal/proposal.service.ts:31-222 | when a vote, a proposal, an edit or a finish comes under way |
| ProposalRounds.ActiveRoundsCount | src/workers/finalize-proposal-rounds.worker.ts:75-99 | over every run the active rounds are as many as before plus the rounds that were finished a second time |
| PendingVotes.ComesExactlyWhen | src/modules/proposal/proposal.service.ts:130-171 | what a user's vote can come to: what it is, what a pending request or write gives, or 0 when a request finds its own vote |
| ProposalBounds.TallyIsSum | src/workers/finalize-proposal-rounds.worker.ts:46-62 | the vote sum of a proposal is the sum of its users' standing votes |
| ProposalBounds.Overtakes | src/modules/proposal/proposal.service.ts:130-171 | some run of the votes under way brings one proposal to its highest and another to its lowest tally |
| ProposalWinner.LeadsForEverExactlyWhen | src/workers/finalize-proposal-rounds.worker.ts:46-90 | the winner of a finished round leads in every continuation exactly when it is ahead of all that is held: votes, proposals, edits of deleted rivals, other finishes, and finalisers that selected the round and have yet to query it |
| ProposalWinner.FinishLeadsForEverExactlyWhen | src/workers/finalize-proposal-rounds.worker.ts:46-90 | the same, decided before the finish is written |
| ProposalWinner.QuietFinishExactlyWhen | src/workers/finalize-proposal-rounds.worker.ts:46-90 | with nothing else pending the winner leads for ever exactly when the query's answer still leads at the write |
| ProposalWinner.WinnersLeadForEver | src/workers/finalize-proposal-rounds.worker.ts:46-90 | over every run no winner can at any time be passed exactly when no finish is written while its winner can be |
| ProposalRuns.VoteDuringFinish | src/workers/finalize-proposal-rounds.worker.ts:46-90 | the run in which a vote between the query and the write passes the winner |
| ProposalRuns.VoteTakenBack | src/modules/proposal/proposal.service.ts:122-137 | the run in which a vote for the winner is taken back after the finish |
| ProposalRuns.LateProposal | src/workers/finalize-proposal-rounds.worker.ts:46-90 | the run in which a proposal is inserted into a round finished without one |
| ProposalRuns.EditBringsBack | src/modules/proposal/proposal.service.ts:189-267 | the run in which an edit brings a deleted proposal back after its round is finished |
| ProposalRuns.SelectedTwice | src/workers/finalize-proposal-rounds.worker.ts:30-90 | the run in which a second finaliser that selected the round earlier replaces a winner that was ahead |
| ProposalRuns.FinishedTwice | src/workers/finalize-proposal-rounds.worker.ts:29-107 | the run in which two overlapping finalisers leave two active rounds |
| Grouping.GroupSubItem | src/lib/database/sql-utils.ts:310-354 | the in-place passes return the roots after all passes, which is the plain group-by of the rows as they were when no prefix matches another prefix or field name; no options give no items |
| GroupingMeaning.GroupedAre | src/lib/database/sql-utils.ts:320-353 | the group-by returns the first row of every group, in order, with its own columns and the group's fields |
| GroupingMeaning.FieldsAre | src/lib/database/sql-utils.ts:341-349 | an option without sub-object gives no field, an array option all that are distinct by its key, any other option the last one |
| GroupingMeaning.DetailsAre | src/lib/database/sql-utils.ts:332-341 | the sub-objects of a group are those of its rows that have one, in row order |
| GroupingMeaning.DetailIsThere | src/lib/database/sql-utils.ts:332-341 | a sub-object holds the columns with the prefix, and is there when one of them is neither null, zero nor empty |
| Grouping.PassesAre | src/lib/database/sql-utils.ts:322-350 | after all passes every row has only its own columns and every root its fields |
| Grouping.KeyedIs | src/lib/database/sql-utils.ts:341-345 | sub-items are distinct by key, in first-occurrence order, with the last row's columns, none missing |
| Grouping.SwallowedColumn | src/lib/database/sql-utils.ts:322-350 | a column that matches two prefixes goes to the first option only, so the second one's field is missing |
| Batching.RunWithWorkers | src/lib/utils.ts:45-67 | the nested index loop runs exactly the chunks |
| Batching.SplitArray | src/lib/utils.ts:267-274 | taking from the front gives the same chunks |
| Batching.ChunksKeepAll | src/lib/utils.ts:45-67 | chunks keep every element once in order, none empty or too large, only the last short |
| Batching.ChunkOfElement | src/lib/utils.ts:45-67 | which batch and place an element has |
| ArrayCodec.SplitOfJoin | src/modules/proposal/models/proposal.model.ts:79-114 | splitting undoes joining exactly for clean arrays |
| ArrayCodec.RestoredExactlyWhen | src/lib/base-models/base-sql.model.ts:23-41 | an array survives the column exactly when it is clean and neither empty nor one empty text |
| ArrayCodec.SemicolonMoves | src/modules/proposal/models/proposal.model.ts:79-114 | an element ending in a semicolon is not restored |
| Templates.ReplacePlaceholders | src/modules/prediction-template/prediction-template.service.ts:191-198 | the result of replacing key after key |
| Templates.PatternsMean | src/modules/prediction-template/prediction-template.service.ts:191-198 | what the dollar patterns of a value insert: the match, the text before it, the text after it, a dollar sign |
| Templates.PiecesMean | src/modules/prediction-template/prediction-template.service.ts:191-198 | where a placeholder stands once, every plain character and every dollar pattern of the value inserts its own text, in order |
| Templates.ReadAsPieces | src/modules/prediction-template/prediction-template.service.ts:191-198 | every value reads as such characters and patterns |
| Templates.EachKeyExactlyWhen | src/modules/prediction-template/prediction-template.service.ts:191-198 | in every safe template and after every key it is substitution of the keys so far all at once, exactly when values expand to themselves and no later replacement can hit an earlier value |
| Templates.EveryOrderExactlyWhen | src/modules/prediction-template/prediction-template.service.ts:191-198 | the same in every order of the keys exactly when no replacement can hit another key's value |
| Templates.OneKeyExactlyWhen | src/modules/prediction-template/prediction-template.service.ts:191-198 | for one key it is substitution in every safe template exactly when no `$` of the value starts a pattern |
| Templates.TwoKeysExactlyWhen | src/modules/prediction-template/prediction-template.service.ts:191-198 | for two keys, the first value expanding to itself, it is substitution in the end exactly when the second value does too and the second replacement cannot hit the first value |
| Templates.OrderMattersWithBraces | src/modules/prediction-template/prediction-template.service.ts:191-198 | a value that holds another placeholder makes the order matter |
| Templates.RepairedLater | src/modules/prediction-template/prediction-template.service.ts:191-198 | a third key can put back what the second one took from the first one's value |

## Left out

- Job rows: `autoRemove`, worker logs, alerts other than raising or returning, and cron parsing.
- Reward points of the market parser, which depend on token prices; awards are counted for claims, votes and winners only.
- RPC, queues, notifications and logs: their results are inputs or have no effect here.
- The factory parser beyond its window, the start cursor it sets and its status write: its loop adds no further invariant.
- The creation worker and the service methods appear as writers of the status with their guards; their validation and their other columns do not.
- Finalisers: a failing row update is only modelled in Resolution, as a write that the foreign key refuses or a writer that gives up.
- Planner: a child that cannot be spawned, and the planner's own restart, which forgets all children.
- Proposals.ProposalService.FinalizeProposalRounds: the answer of the query for a round's best proposal is an input; at the write it has to be a proposal of the round and may no longer be the best.
- Claims.ClaimsMirrorChain: which conditions belong to a market is fixed over the run, because the market's chain data is written before its first claim.
- Grouping.GroupSubItem: demands that no prefix matches the group key and no field name is it, as its callers use it; key order inside objects and group ids of mixed types are not modelled.
- Templates.EachKeyExactlyWhen: for templates whose literals no replacement hits and keys without braces; whether later keys repair the final text is only decided for one key and two.
- Positions: the order of transactions with equal timestamps, and outcome ids beyond the integer range of property names.
- `getQueryParams`, list queries and statistics: SQL text whose meaning needs a database.
- Editing a proposal: only the status that it writes back is modelled, not its text and validation.
